/** Waiting for a condition on the terminal grid: the feeder, a resizer and a waiter
    share the grid lock and a generation counter, and step in any order. */
module GridWait {
  import opened Wrappers

  /** The feeder task; it holds the grid lock while `Feeding`. */
  datatype Feeder = Receiving | Feeding | Fed | Exited

  /** One resize call; it holds the grid lock from `Locked` on, and a strong sender
      while `Upgraded`. */
  datatype Resizer = Away | Locked | Resized | Upgraded

  /** The waiter; it holds the grid lock while `Checking`. An outcome records the screen
      and how many unannounced resizes came between the last check and the snapshot. */
  datatype Waiter<G> =
    | Top | Marked | Checking | Parked
    | Ending(ended: bool)
    | Matched
    | Unmatched(wasEnded: bool, screen: G, late: int)

  /** `orphans` counts resizes that found the sender gone; `checked` is the grid of the
      waiter's last check and `checkedOrphans` the count at that time. */
  datatype State<G> = State(
    grid: G, generation: nat, feeder: Feeder, resizer: Resizer, orphans: nat,
    waiter: Waiter<G>, seen: nat, checked: G, checkedOrphans: nat)

  datatype Step<G> =
    | FeederLock | Feed(fed: G) | FeederBump | FeederExit
    | ResizeLock | ResizeFail | Resize(resized: G) | Upgrade | ResizeBump | ResizeOrphaned
    | Mark | CheckLock | Check | Wake | SenderGone | Deadline | Snapshot

  function Init<G>(grid: G): State<G>
  {
    State(grid, 0, Receiving, Away, 0, Top, 0, grid, 0)
  }

  predicate LockFree<G>(s: State<G>)
  {
    !s.feeder.Feeding? && s.resizer.Away? && !s.waiter.Checking?
  }

  predicate SenderAlive<G>(s: State<G>)
  {
    !s.feeder.Exited? || s.resizer.Upgraded?
  }

  /** One atomic step, or `None` where it cannot be taken. */
  function Next<G>(s: State<G>, step: Step<G>, met: G -> bool): Option<State<G>>
  {
    match step
    case FeederLock => if s.feeder.Receiving? && LockFree(s) then Some(s.(feeder := Feeding)) else None
    case Feed(g) => if s.feeder.Feeding? then Some(s.(feeder := Fed, grid := g)) else None
    case FeederBump =>
      if s.feeder.Fed? then Some(s.(feeder := Receiving, generation := s.generation + 1)) else None
    case FeederExit => if s.feeder.Receiving? then Some(s.(feeder := Exited)) else None
    case ResizeLock => if s.resizer.Away? && LockFree(s) then Some(s.(resizer := Locked)) else None
    case ResizeFail => if s.resizer.Locked? then Some(s.(resizer := Away)) else None
    case Resize(g) => if s.resizer.Locked? then Some(s.(resizer := Resized, grid := g)) else None
    case Upgrade => if s.resizer.Resized? && SenderAlive(s) then Some(s.(resizer := Upgraded)) else None
    case ResizeBump =>
      if s.resizer.Upgraded? then Some(s.(resizer := Away, generation := s.generation + 1)) else None
    case ResizeOrphaned =>
      if s.resizer.Resized? && !SenderAlive(s) then Some(s.(resizer := Away, orphans := s.orphans + 1)) else None
    case Mark => if s.waiter.Top? then Some(s.(waiter := Marked, seen := s.generation)) else None
    case CheckLock => if s.waiter.Marked? && LockFree(s) then Some(s.(waiter := Checking)) else None
    case Check =>
      if s.waiter.Checking? then
        Some(s.(waiter := if met(s.grid) then Matched else Parked, checked := s.grid, checkedOrphans := s.orphans))
      else None
    case Wake => if s.waiter.Parked? && s.seen != s.generation then Some(s.(waiter := Top)) else None
    case SenderGone =>
      if s.waiter.Parked? && s.seen == s.generation && !SenderAlive(s) then Some(s.(waiter := Ending(true))) else None
    case Deadline => if s.waiter.Parked? then Some(s.(waiter := Ending(false))) else None
    case Snapshot =>
      if s.waiter.Ending? && LockFree(s) then
        Some(s.(waiter := Unmatched(s.waiter.ended, s.grid, s.orphans - s.checkedOrphans)))
      else None
  }

  /** The state after a run of steps from `s`. */
  function After<G>(s: State<G>, steps: seq<Step<G>>, met: G -> bool): Option<State<G>>
    decreases |steps|
  {
    if steps == [] then Some(s)
    else match Next(s, steps[0], met)
         case None => None
         case Some(t) => After(t, steps[1..], met)
  }

  // ----- What every run keeps -----

  /** A grid change not yet followed by its bump. */
  ghost predicate ChangePending<G>(s: State<G>)
  {
    s.feeder.Fed? || s.resizer.Resized? || s.resizer.Upgraded?
  }

  /** The last check saw the grid as it is, up to changes still to be announced. */
  ghost predicate CheckIsCurrent<G>(s: State<G>)
  {
    s.checked == s.grid || ChangePending(s) || s.checkedOrphans < s.orphans
  }

  ghost predicate OneLockHolder<G>(s: State<G>)
  {
    && !(s.feeder.Feeding? && !s.resizer.Away?)
    && !(s.feeder.Feeding? && s.waiter.Checking?)
    && !(!s.resizer.Away? && s.waiter.Checking?)
  }

  ghost predicate Inv<G>(s: State<G>, met: G -> bool)
  {
    && OneLockHolder(s)
    && s.seen <= s.generation && s.checkedOrphans <= s.orphans
    && (s.orphans > 0 ==> s.feeder.Exited?)
    && (s.waiter.Parked? && s.seen == s.generation ==> CheckIsCurrent(s))
    && (s.waiter == Ending(true) ==> !SenderAlive(s) && CheckIsCurrent(s))
    && (s.waiter.Parked? || s.waiter.Ending? || s.waiter.Unmatched? ==> !met(s.checked))
    && (s.waiter.Unmatched? && s.waiter.wasEnded && s.waiter.late == 0 ==> s.waiter.screen == s.checked)
    && (s.waiter.Matched? ==> met(s.checked))
  }

  lemma StepKeepsInv<G>(s: State<G>, step: Step<G>, met: G -> bool)
    requires Inv(s, met) && Next(s, step, met).Some?
    ensures Inv(Next(s, step, met).value, met)
  {
  }

  lemma {:induction false} RunKeepsInv<G>(s: State<G>, steps: seq<Step<G>>, met: G -> bool)
    requires Inv(s, met) && After(s, steps, met).Some?
    ensures Inv(After(s, steps, met).value, met)
    decreases |steps|
  {
    if steps != [] {
      StepKeepsInv(s, steps[0], met);
      RunKeepsInv(Next(s, steps[0], met).value, steps[1..], met);
    }
  }

  // ----- Resizes after the last check -----

  /** The resizes that found the sender gone, counted from the last check of a run. */
  function SinceCheck<G>(steps: seq<Step<G>>): nat
  {
    if steps == [] then 0
    else
      var front, last := steps[..|steps| - 1], steps[|steps| - 1];
      if last.Check? then 0 else SinceCheck(front) + if last.ResizeOrphaned? then 1 else 0
  }

  /** A run up to its last snapshot; nothing without one. */
  function UpToSnapshot<G>(steps: seq<Step<G>>): seq<Step<G>>
  {
    if steps == [] then []
    else
      var front := steps[..|steps| - 1];
      if steps[|steps| - 1].Snapshot? then front else UpToSnapshot(front)
  }

  /** The resizes that found the sender gone between the last check and the snapshot. */
  function LateIn<G>(steps: seq<Step<G>>): nat
  {
    SinceCheck(UpToSnapshot(steps))
  }

  lemma {:induction false} AfterSnoc<G>(s: State<G>, steps: seq<Step<G>>, step: Step<G>, met: G -> bool)
    ensures var t := After(s, steps, met);
            After(s, steps + [step], met) == if t.None? then None else Next(t.value, step, met)
    decreases |steps|
  {
    var all := steps + [step];
    if steps == [] {
      assert all[1..] == [];
    } else {
      assert all[1..] == steps[1..] + [step];
      var t := Next(s, steps[0], met);
      if t.Some? { AfterSnoc(t.value, steps[1..], step, met); }
    }
  }

  /** What an outcome records as late is what the run shows. */
  lemma {:induction false} LateIsCounted<G>(grid: G, steps: seq<Step<G>>, met: G -> bool)
    requires After(Init(grid), steps, met).Some?
    ensures var s := After(Init(grid), steps, met).value;
            && s.orphans == s.checkedOrphans + SinceCheck(steps)
            && (s.waiter.Unmatched? ==> s.waiter.late == LateIn(steps))
    decreases |steps|
  {
    if steps != [] {
      var front, last := steps[..|steps| - 1], steps[|steps| - 1];
      assert steps == front + [last];
      AfterSnoc(Init(grid), front, last, met);
      LateIsCounted(grid, front, met);
    }
  }

  /** The grid of the last change behind the last check of a run, if there is one. */
  function ChangedSince<G>(steps: seq<Step<G>>): Option<G>
  {
    if steps == [] then None
    else
      match steps[|steps| - 1]
      case Check => None
      case Feed(g) => Some(g)
      case Resize(g) => Some(g)
      case _ => ChangedSince(steps[..|steps| - 1])
  }

  function OrElse<G>(a: Option<G>, b: G): G { if a.Some? then a.value else b }

  /** The screen an outcome shows is the last one painted before its snapshot. */
  lemma {:induction false} ScreenIsLastChange<G>(grid: G, steps: seq<Step<G>>, met: G -> bool)
    requires After(Init(grid), steps, met).Some?
    ensures var s := After(Init(grid), steps, met).value;
            && s.grid == OrElse(ChangedSince(steps), s.checked)
            && (s.waiter.Unmatched? ==> s.waiter.screen == OrElse(ChangedSince(UpToSnapshot(steps)), s.checked))
    decreases |steps|
  {
    if steps != [] {
      var front, last := steps[..|steps| - 1], steps[|steps| - 1];
      assert steps == front + [last];
      AfterSnoc(Init(grid), front, last, met);
      ScreenIsLastChange(grid, front, met);
    }
  }

  // ----- Main results -----

  /** No lost wakeup: a waiter parked on a grid that meets its condition can be woken,
      unless the change is still to be announced or came from a resize that found the
      feeder gone; in that case the sender is gone and the waiter ends. */
  lemma NoLostWakeup<G>(grid: G, steps: seq<Step<G>>, met: G -> bool)
    requires After(Init(grid), steps, met).Some?
    ensures var s := After(Init(grid), steps, met).value;
            s.waiter.Parked? && met(s.grid) ==>
              Next(s, Wake, met).Some? || ChangePending(s) || s.checkedOrphans < s.orphans
    ensures var s := After(Init(grid), steps, met).value;
            s.waiter.Parked? && s.seen == s.generation && !ChangePending(s) && SenderAlive(s)
            ==> s.checked == s.grid && !met(s.grid)
    ensures var s := After(Init(grid), steps, met).value;
            s.waiter.Parked? && s.checkedOrphans < s.orphans && !s.resizer.Upgraded?
            ==> Next(s, Wake, met).Some? || Next(s, SenderGone, met).Some?
  {
    RunKeepsInv(Init(grid), steps, met);
  }

  // ----- Announcements come -----

  /** A pending change can always be announced, the feeder's and the resizer's each by
      itself, in every reachable state: the generation moves on, or the sender is gone and
      the resize counts as orphaned. Then a parked waiter can be woken or ends. */
  lemma AnnouncementsComeAtOnce<G>(grid: G, steps: seq<Step<G>>, met: G -> bool)
    requires After(Init(grid), steps, met).Some?
    ensures var s := After(Init(grid), steps, met).value;
            s.feeder.Fed? ==>
              var t := Next(s, FeederBump, met);
              t.Some? && t.value.grid == s.grid && !t.value.feeder.Fed? && (s.waiter.Parked? ==> Next(t.value, Wake, met).Some?)
    ensures var s := After(Init(grid), steps, met).value;
            s.resizer.Upgraded? ==>
              var t := Next(s, ResizeBump, met);
              t.Some? && t.value.grid == s.grid && t.value.resizer.Away? && (s.waiter.Parked? ==> Next(t.value, Wake, met).Some?)
    ensures var s := After(Init(grid), steps, met).value;
            s.resizer.Resized? && SenderAlive(s) ==>
              var t := Next(s, Upgrade, met);
              t.Some? && t.value == s.(resizer := Upgraded) && Next(t.value, ResizeBump, met).Some?
    ensures var s := After(Init(grid), steps, met).value;
            s.resizer.Resized? && !SenderAlive(s) ==>
              var t := Next(s, ResizeOrphaned, met);
              t.Some? && t.value.resizer.Away?
              && (s.waiter.Parked? ==> Next(t.value, Wake, met).Some? || Next(t.value, SenderGone, met).Some?)
  {
    RunKeepsInv(Init(grid), steps, met);
  }

  /** The announcements of a run since its last mark. */
  function BumpsSinceMark<G>(steps: seq<Step<G>>): nat
  {
    if steps == [] then 0
    else
      var front, last := steps[..|steps| - 1], steps[|steps| - 1];
      if last.Mark? then 0 else BumpsSinceMark(front) + if last.FeederBump? || last.ResizeBump? then 1 else 0
  }

  /** A waiter is woken by an announcement since it marked the generation, and by nothing else. */
  lemma {:induction false} WakesOnlyOnBump<G>(grid: G, steps: seq<Step<G>>, met: G -> bool)
    requires After(Init(grid), steps, met).Some?
    ensures var s := After(Init(grid), steps, met).value;
            && s.generation == s.seen + BumpsSinceMark(steps)
            && (s.waiter.Parked? ==> (Next(s, Wake, met).Some? <==> BumpsSinceMark(steps) > 0))
    decreases |steps|
  {
    if steps != [] {
      var front, last := steps[..|steps| - 1], steps[|steps| - 1];
      assert steps == front + [last];
      AfterSnoc(Init(grid), front, last, met);
      WakesOnlyOnBump(grid, front, met);
    }
  }

  lemma {:induction false} AfterConcat<G>(s: State<G>, a: seq<Step<G>>, b: seq<Step<G>>, met: G -> bool)
    requires After(s, a, met).Some?
    ensures After(s, a + b, met) == After(After(s, a, met).value, b, met)
    decreases |a|
  {
    if a == [] {
      assert a + b == b;
    } else {
      assert (a + b)[1..] == a[1..] + b;
      AfterConcat(Next(s, a[0], met).value, a[1..], b, met);
    }
  }

  /** The steps that free the grid lock, leaving the grid as it is. */
  function Releasing<G>(s: State<G>): seq<Step<G>>
  {
    (if s.feeder.Feeding? then [Feed(s.grid)] else []) + (if s.resizer.Locked? then [ResizeFail] else [])
  }

  lemma OneStep<G>(s: State<G>, step: Step<G>, met: G -> bool)
    ensures After(s, [step], met) == Next(s, step, met)
  {
    assert [step][1..] == [];
  }

  lemma TwoSteps<G>(s: State<G>, a: Step<G>, b: Step<G>, met: G -> bool)
    requires Next(s, a, met).Some?
    ensures After(s, [a, b], met) == Next(Next(s, a, met).value, b, met)
  {
    assert [a, b][1..] == [b];
    OneStep(Next(s, a, met).value, b, met);
  }

  /** Once lock and announcements are through, nothing about the waiter has changed but
      that the generation has moved on if a change was pending. */
  lemma SettlesDown<G>(s: State<G>, met: G -> bool) returns (steps: seq<Step<G>>)
    requires Inv(s, met) && s.waiter.Parked? && (s.resizer.Resized? ==> SenderAlive(s))
    ensures After(s, steps, met).Some?
    ensures var t := After(s, steps, met).value;
            && LockFree(t) && !ChangePending(t) && t.grid == s.grid && t.waiter.Parked? && t.seen == s.seen
            && t.generation >= s.generation && t.checked == s.checked
            && t.checkedOrphans == s.checkedOrphans && t.orphans == s.orphans
  {
    var unlocked := ReleasesLock(s, met);
    var a := After(s, unlocked, met).value;
    var fed := FeederSettles(a, met);
    var b := After(a, fed, met).value;
    var resized := ResizerSettles(b, met);
    AfterConcat(s, unlocked, fed, met);
    AfterConcat(s, unlocked + fed, resized, met);
    steps := unlocked + fed + resized;
  }

  lemma ReleasesLock<G>(s: State<G>, met: G -> bool) returns (steps: seq<Step<G>>)
    requires Inv(s, met) && s.waiter.Parked? && (s.resizer.Resized? ==> SenderAlive(s))
    ensures steps == Releasing(s) && After(s, steps, met).Some?
    ensures var t := After(s, steps, met).value;
            && !t.feeder.Feeding? && !t.resizer.Locked? && (t.resizer.Resized? ==> SenderAlive(t))
            && t == s.(feeder := t.feeder, resizer := t.resizer) && (t.feeder.Fed? <==> s.feeder.Fed? || s.feeder.Feeding?)
  {
    steps := Releasing(s);
    if s.feeder.Feeding? {
      OneStep(s, Feed(s.grid), met);
      assert steps == [Feed(s.grid)];
    } else if s.resizer.Locked? {
      OneStep(s, ResizeFail, met);
      assert steps == [ResizeFail];
    }
  }

  lemma FeederSettles<G>(s: State<G>, met: G -> bool) returns (steps: seq<Step<G>>)
    requires !s.feeder.Feeding? && !s.resizer.Locked? && s.waiter.Parked? && (s.resizer.Resized? ==> SenderAlive(s))
    ensures After(s, steps, met).Some?
    ensures var t := After(s, steps, met).value;
            && !t.feeder.Feeding? && !t.feeder.Fed? && !t.resizer.Locked? && (t.resizer.Resized? ==> SenderAlive(t))
            && t == s.(feeder := t.feeder, generation := t.generation) && t.generation >= s.generation
  {
    if s.feeder.Fed? {
      steps := [FeederBump];
      OneStep(s, FeederBump, met);
    } else {
      steps := [];
    }
  }

  lemma ResizerSettles<G>(s: State<G>, met: G -> bool) returns (steps: seq<Step<G>>)
    requires !s.resizer.Locked? && s.waiter.Parked? && (s.resizer.Resized? ==> SenderAlive(s))
    ensures After(s, steps, met).Some?
    ensures var t := After(s, steps, met).value;
            t.resizer.Away? && t == s.(resizer := Away, generation := t.generation) && t.generation >= s.generation
  {
    if s.resizer.Resized? {
      steps := [Upgrade, ResizeBump];
      TwoSteps(s, Upgrade, ResizeBump, met);
    } else if s.resizer.Upgraded? {
      steps := [ResizeBump];
      OneStep(s, ResizeBump, met);
    } else {
      steps := [];
    }
  }

  /** With the lock free and a generation it has not seen, a parked waiter wakes, checks
      and is done when its condition holds. */
  lemma WakesAndMatches<G>(s: State<G>, met: G -> bool)
    requires s.waiter.Parked? && s.seen != s.generation && LockFree(s) && met(s.grid)
    ensures var r := After(s, [Wake, Mark, CheckLock, Check], met);
            r.Some? && r.value.waiter.Matched? && r.value.checked == s.grid
  {
    var top := s.(waiter := Top);
    var marked := top.(waiter := Marked, seen := s.generation);
    var locked := marked.(waiter := Checking);
    var steps: seq<Step<G>> := [Wake, Mark, CheckLock, Check];
    ThreeSteps(top, Mark, CheckLock, Check, met);
    assert steps[1..] == [Mark, CheckLock, Check];
  }

  /** No lost wakeup, to the end: from every reachable state in which a waiter is parked on
      a grid that meets its condition the run can go on to a match on that grid, but for
      resizes that found the sender gone. */
  lemma ParkedCanMatch<G>(grid: G, steps: seq<Step<G>>, met: G -> bool) returns (more: seq<Step<G>>)
    requires After(Init(grid), steps, met).Some?
    requires var s := After(Init(grid), steps, met).value;
             && s.waiter.Parked? && met(s.grid) && s.orphans == s.checkedOrphans
             && (s.resizer.Resized? ==> SenderAlive(s))
    ensures var r := After(Init(grid), steps + more, met);
            r.Some? && r.value.waiter.Matched? && r.value.checked == After(Init(grid), steps, met).value.grid
  {
    var s := After(Init(grid), steps, met).value;
    RunKeepsInv(Init(grid), steps, met);
    var settle := SettlesDown(s, met);
    var t := After(s, settle, met).value;
    RunKeepsInv(s, settle, met);
    WakesAndMatches(t, met);
    var finish := [Wake, Mark, CheckLock, Check];
    AfterConcat(s, settle, finish, met);
    more := settle + finish;
    AfterConcat(Init(grid), steps, more, met);
  }

  /** The feeder's own case: right after it has painted a grid that meets the condition,
      with no resize under way, its bump wakes the parked waiter. */
  lemma FedWaiterMatches<G>(grid: G, steps: seq<Step<G>>, fed: G, met: G -> bool)
    requires After(Init(grid), steps + [Feed(fed)], met).Some? && met(fed)
    requires var s := After(Init(grid), steps + [Feed(fed)], met).value; s.waiter.Parked? && s.resizer.Away?
    ensures var r := After(Init(grid), steps + [Feed(fed)] + [FeederBump, Wake, Mark, CheckLock, Check], met);
            r.Some? && r.value.waiter.Matched? && r.value.checked == fed
  {
    var all := steps + [Feed(fed)];
    var s := After(Init(grid), all, met).value;
    RunKeepsInv(Init(grid), all, met);
    assert all[..|all| - 1] == steps && all == steps + [Feed(fed)];
    AfterSnoc(Init(grid), steps, Feed(fed), met);
    var bumped := Next(s, FeederBump, met).value;
    var more: seq<Step<G>> := [FeederBump, Wake, Mark, CheckLock, Check];
    WakesAndMatches(bumped, met);
    AfterConcat(Init(grid), all, more, met);
    assert more[1..] == [Wake, Mark, CheckLock, Check];
  }

  /** Feeder and resizer are never shut out: with the lock free each can paint and announce. */
  lemma FreeLockIsTaken<G>(s: State<G>, g: G, met: G -> bool)
    requires LockFree(s)
    ensures s.feeder.Receiving? ==>
              After(s, [FeederLock, Feed(g), FeederBump], met) == Some(s.(grid := g, generation := s.generation + 1))
    ensures s.feeder.Receiving? ==> After(s, [FeederExit], met) == Some(s.(feeder := Exited))
    ensures SenderAlive(s) ==>
              After(s, [ResizeLock, Resize(g), Upgrade, ResizeBump], met)
              == Some(s.(grid := g, generation := s.generation + 1))
    ensures !SenderAlive(s) ==>
              After(s, [ResizeLock, Resize(g), ResizeOrphaned], met) == Some(s.(grid := g, orphans := s.orphans + 1))
    ensures After(s, [ResizeLock, ResizeFail], met) == Some(s)
  {
    if s.feeder.Receiving? {
      OneStep(s, FeederExit, met);
      ThreeSteps(s, FeederLock, Feed(g), FeederBump, met);
    }
    TwoSteps(s, ResizeLock, ResizeFail, met);
    if SenderAlive(s) {
      var steps := [ResizeLock, Resize(g), Upgrade, ResizeBump];
      ThreeSteps(s.(resizer := Locked), Resize(g), Upgrade, ResizeBump, met);
      assert steps[1..] == [Resize(g), Upgrade, ResizeBump];
    } else {
      ThreeSteps(s, ResizeLock, Resize(g), ResizeOrphaned, met);
    }
  }

  lemma ThreeSteps<G>(s: State<G>, a: Step<G>, b: Step<G>, c: Step<G>, met: G -> bool)
    requires Next(s, a, met).Some? && Next(Next(s, a, met).value, b, met).Some?
    ensures After(s, [a, b, c], met) == Next(Next(Next(s, a, met).value, b, met).value, c, met)
  {
    assert [a, b, c][1..] == [b, c];
    TwoSteps(Next(s, a, met).value, b, c, met);
  }

  /** A parked waiter can always run into its deadline, and shows the screen of then. */
  lemma DeadlineEnds<G>(s: State<G>, met: G -> bool)
    requires s.waiter.Parked? && LockFree(s)
    ensures After(s, [Deadline, Snapshot], met)
            == Some(s.(waiter := Unmatched(false, s.grid, s.orphans - s.checkedOrphans)))
  {
    TwoSteps(s, Deadline, Snapshot, met);
  }

  /** An outcome fails the condition on the screen it shows exactly when that screen is
      the one checked or a later one that fails it; for one marked `ended` that is so
      without a resize that found the sender gone between the last check and the snapshot,
      and otherwise as the last change in between decides. A match met it. */
  lemma EndedMeansNeverMet<G>(grid: G, steps: seq<Step<G>>, met: G -> bool)
    requires After(Init(grid), steps, met).Some?
    ensures var s, changed := After(Init(grid), steps, met).value, ChangedSince(UpToSnapshot(steps));
            s.waiter.Unmatched? ==>
              && s.waiter.late == LateIn(steps) && !met(s.checked)
              && (!met(s.waiter.screen) <==> changed.None? || !met(changed.value))
              && (s.waiter.wasEnded ==>
                    (!met(s.waiter.screen) <==> LateIn(steps) == 0 || changed.None? || !met(changed.value))
                    && (LateIn(steps) == 0 ==> s.waiter.screen == s.checked))
    ensures var s := After(Init(grid), steps, met).value; s.waiter.Matched? ==> met(s.checked)
  {
    RunKeepsInv(Init(grid), steps, met);
    LateIsCounted(grid, steps, met);
    ScreenIsLastChange(grid, steps, met);
  }

  /** The exception is real: a resize after the feeder has exited changes the grid with
      no one to tell, and the outcome says the condition was never met over a screen
      that meets it. */
  lemma LateResizeIsMissed<G>(before: G, after: G, met: G -> bool) returns (steps: seq<Step<G>>)
    requires !met(before) && met(after)
    ensures After(Init(before), steps, met).Some?
    ensures var s := After(Init(before), steps, met).value;
            s.waiter == Unmatched(true, after, 1) && met(s.waiter.screen)
  {
    var rest := ResizeAfterExit(before, after, met);
    rest := Before(Init(before).(waiter := Parked), FeederExit, rest, met);
    rest := Before(Init(before).(waiter := Checking), Check, rest, met);
    rest := Before(Init(before).(waiter := Marked), CheckLock, rest, met);
    steps := Before(Init(before), Mark, rest, met);
  }

  lemma ResizeAfterExit<G>(before: G, after: G, met: G -> bool) returns (steps: seq<Step<G>>)
    requires !met(before) && met(after)
    ensures var r := After(Init(before).(waiter := Parked, feeder := Exited), steps, met);
            r.Some? && r.value.waiter == Unmatched(true, after, 1)
  {
    var parked := Init(before).(waiter := Parked, feeder := Exited);
    var resized := parked.(grid := after, orphans := 1);
    var ending := resized.(waiter := Ending(true));
    steps := Before(ending, Snapshot, [], met);
    steps := Before(resized, SenderGone, steps, met);
    steps := Before(parked.(resizer := Resized, grid := after), ResizeOrphaned, steps, met);
    steps := Before(parked.(resizer := Locked), Resize(after), steps, met);
    steps := Before(parked, ResizeLock, steps, met);
  }

  /** A run with one more step in front. */
  lemma Before<G>(s: State<G>, step: Step<G>, rest: seq<Step<G>>, met: G -> bool) returns (steps: seq<Step<G>>)
    requires Next(s, step, met).Some?
    ensures After(s, steps, met) == After(Next(s, step, met).value, rest, met)
  {
    steps := [step] + rest;
    assert steps[1..] == rest;
  }
}
