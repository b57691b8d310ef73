/** The index manager's command loop: it drains whatever file events are already
    pending, applies them coalesced, and answers queries in between. */
module IndexLoop {
  import opened Wrappers
  import opened IndexEvents

  /** Commands; `Query` stands for every command that only reads the index. */
  datatype Command =
    | FileEvent(event: Event)
    | FileEventBatch(events: seq<Event>)
    | Rebuild
    | Refresh(stale: seq<Path>, deleted: seq<Rel>)
    | Query
    | Shutdown

  datatype View<!E> = View(index: Index<E>, answers: seq<Index<E>>, running: bool)

  /** What the disk yields besides single files: a fresh index, and which paths have a
      supported language. */
  datatype Disk<!E> = Disk(world: World<E>, rebuilt: Index<E>, supported: Path -> bool)

  function DropAll<E>(index: Index<E>, names: seq<Rel>): Index<E>
  {
    if names == [] then index else DropAll(index, names[..|names| - 1]) - {names[|names| - 1]}
  }

  function ReindexAll<E>(index: Index<E>, paths: seq<Path>, d: Disk<E>): Index<E>
  {
    if paths == [] then index
    else
      var front, last := ReindexAll(index, paths[..|paths| - 1], d), paths[|paths| - 1];
      if d.supported(last) then Reindex(front, last, d.world) else front
  }

  /** Any command that is not a file event. */
  function Handle<E>(v: View<E>, c: Command, d: Disk<E>): View<E>
    requires !c.FileEvent? && !c.FileEventBatch?
  {
    match c
    case Rebuild => v.(index := d.rebuilt)
    case Refresh(stale, deleted) => v.(index := ReindexAll(DropAll(v.index, deleted), stale, d))
    case Query => v.(answers := v.answers + [v.index])
    case Shutdown => v.(running := false)
  }

  // ----- One event at a time -----

  function CommandTouches(c: Command): seq<Touch>
  {
    match c
    case FileEvent(e) => Touches(e)
    case FileEventBatch(es) => TouchesOf(es)
    case _ => []
  }

  function StepSingly<E>(v: View<E>, c: Command, d: Disk<E>): View<E>
  {
    if !v.running then v
    else match c
         case FileEvent(_) => v.(index := ApplyAll(v.index, CommandTouches(c), d.world))
         case FileEventBatch(_) => v.(index := ApplyAll(v.index, CommandTouches(c), d.world))
         case _ => Handle(v, c, d)
  }

  function RunSingly<E>(v: View<E>, queue: seq<Command>, d: Disk<E>): View<E>
  {
    if queue == [] then v
    else StepSingly(RunSingly(v, queue[..|queue| - 1], d), queue[|queue| - 1], d)
  }

  // ----- What each command does -----

  /** A file event, as one command: a rename moves its entry, any other event rereads or
      removes its own names, and no other name changes. */
  lemma EventCommandEffect<E>(v: View<E>, e: Event, d: Disk<E>, r: Rel)
    requires v.running
    ensures var after, w, n := StepSingly(v, FileEvent(e), d), d.world, |e.paths|;
            && after == v.(index := after.index)
            && (e.kind.Renamed? && n >= 2 ==>
                  Get(after.index, r)
                  == if Named(e.paths[1], r, w) then w.extract(e.paths[1])
                     else if Named(e.paths[0], r, w) then None else Get(v.index, r))
            && (!(e.kind.Renamed? && n >= 2) ==>
                  && (forall k: nat :: LastNamed(e.paths, k, r, w)
                        ==> Get(after.index, r) == if e.kind.Removed? then None else w.extract(e.paths[k]))
                  && ((forall k :: 0 <= k < n ==> !Named(e.paths[k], r, w)) ==> Get(after.index, r) == Get(v.index, r)))
  {
    if e.kind.Renamed? && |e.paths| >= 2 {
      assert e == Event(Renamed, e.paths);
      RenameMoves(v.index, e.paths, d.world, r);
    } else {
      EventRereads(v.index, e, d.world, r);
    }
  }

  function EventCommands(events: seq<Event>): (commands: seq<Command>)
    ensures |commands| == |events|
  {
    seq(|events|, k requires 0 <= k < |events| => FileEvent(events[k]))
  }

  /** A batch of events, as one command, is its events one after the other. */
  lemma {:induction false} BatchCommandEffect<E>(v: View<E>, events: seq<Event>, d: Disk<E>)
    ensures StepSingly(v, FileEventBatch(events), d) == RunSingly(v, EventCommands(events), d)
  {
    if !v.running {
      StoppedStays(v, EventCommands(events), d);
    } else if events != [] {
      var n := |events| - 1;
      var all := EventCommands(events);
      assert all[..n] == EventCommands(events[..n]) && all[n] == FileEvent(events[n]);
      BatchCommandEffect(v, events[..n], d);
      ApplyAllConcat(v.index, TouchesOf(events[..n]), Touches(events[n]), d.world);
    }
  }

  /** A query is answered with the index of its time, and nothing later changes that answer. */
  lemma {:induction false} QueryAnswers<E>(v: View<E>, before: seq<Command>, after: seq<Command>, d: Disk<E>)
    requires RunSingly(v, before, d).running
    ensures var asked, end := RunSingly(v, before, d), RunSingly(v, before + [Query] + after, d);
            |end.answers| > |asked.answers| && end.answers[|asked.answers|] == asked.index
            && end.answers[..|asked.answers|] == asked.answers
  {
    var front := before + [Query];
    if after == [] {
      assert front + after == front && front[..|before|] == before;
    } else {
      var n := |after| - 1;
      assert (front + after)[..|front + after| - 1] == front + after[..n];
      QueryAnswers(v, before, after[..n], d);
    }
  }

  /** A rebuild leaves what was rebuilt, a shutdown stops the loop for good. */
  lemma RebuildAndShutdown<E>(v: View<E>, before: seq<Command>, after: seq<Command>, d: Disk<E>)
    requires RunSingly(v, before, d).running
    ensures RunSingly(v, before + [Rebuild], d) == RunSingly(v, before, d).(index := d.rebuilt)
    ensures RunSingly(v, before + [Shutdown] + after, d) == RunSingly(v, before, d).(running := false)
  {
    assert (before + [Rebuild])[..|before|] == before && (before + [Shutdown])[..|before|] == before;
    var stopped := RunSingly(v, before + [Shutdown], d);
    RunSinglyConcat(v, before + [Shutdown], after, d);
    StoppedStays(stopped, after, d);
  }

  /** A stale path of this name in a supported language. */
  predicate Rereads<E>(path: Path, r: Rel, d: Disk<E>)
  {
    d.supported(path) && d.world.rel(path) == r
  }

  ghost predicate LastStale<E>(stale: seq<Path>, k: nat, r: Rel, d: Disk<E>)
  {
    k < |stale| && Rereads(stale[k], r, d) && forall j :: k < j < |stale| ==> !Rereads(stale[j], r, d)
  }

  ghost predicate NotStale<E>(stale: seq<Path>, r: Rel, d: Disk<E>)
  {
    forall k :: 0 <= k < |stale| ==> !Rereads(stale[k], r, d)
  }

  lemma ReindexAt<E>(index: Index<E>, path: Path, w: World<E>, r: Rel)
    ensures Get(Reindex(index, path, w), r) == if w.rel(path) == r then w.extract(path) else Get(index, r)
  {
  }

  lemma {:induction false} DropAllAt<E>(index: Index<E>, names: seq<Rel>, r: Rel)
    ensures Get(DropAll(index, names), r) == if r in names then None else Get(index, r)
  {
    if names != [] {
      var n := |names| - 1;
      DropAllAt(index, names[..n], r);
      assert r in names <==> r in names[..n] || r == names[n];
    }
  }

  lemma ReindexLast<E>(index: Index<E>, front: seq<Path>, path: Path, d: Disk<E>, r: Rel)
    ensures Get(ReindexAll(index, front + [path], d), r)
            == if Rereads(path, r, d) then d.world.extract(path) else Get(ReindexAll(index, front, d), r)
  {
    assert (front + [path])[..|front|] == front;
    ReindexAt(ReindexAll(index, front, d), path, d.world, r);
  }

  lemma {:induction false} NotStaleKeeps<E>(index: Index<E>, stale: seq<Path>, d: Disk<E>, r: Rel)
    requires NotStale(stale, r, d)
    ensures Get(ReindexAll(index, stale, d), r) == Get(index, r)
  {
    if stale != [] {
      var n := |stale| - 1;
      NotStaleKeeps(index, stale[..n], d, r);
      assert stale == stale[..n] + [stale[n]];
      ReindexLast(index, stale[..n], stale[n], d, r);
    }
  }

  lemma {:induction false} LastStaleRereads<E>(index: Index<E>, stale: seq<Path>, k: nat, d: Disk<E>, r: Rel)
    requires LastStale(stale, k, r, d)
    ensures Get(ReindexAll(index, stale, d), r) == d.world.extract(stale[k])
  {
    var n := |stale| - 1;
    assert stale == stale[..n] + [stale[n]];
    if k < n { LastStaleRereads(index, stale[..n], k, d, r); }
    ReindexLast(index, stale[..n], stale[n], d, r);
  }

  /** A refresh: stale names hold what the disk reads for them, deleted ones nothing, all
      others what they held. */
  lemma RefreshEffect<E>(v: View<E>, stale: seq<Path>, deleted: seq<Rel>, d: Disk<E>, r: Rel)
    requires v.running
    ensures var after := StepSingly(v, Refresh(stale, deleted), d);
            && after == v.(index := after.index)
            && (forall k: nat :: LastStale(stale, k, r, d) ==> Get(after.index, r) == d.world.extract(stale[k]))
            && (NotStale(stale, r, d) ==> Get(after.index, r) == if r in deleted then None else Get(v.index, r))
  {
    DropAllAt(v.index, deleted, r);
    var left := DropAll(v.index, deleted);
    forall k: nat | LastStale(stale, k, r, d) ensures Get(ReindexAll(left, stale, d), r) == d.world.extract(stale[k]) {
      LastStaleRereads(left, stale, k, d, r);
    }
    if NotStale(stale, r, d) { NotStaleKeeps(left, stale, d, r); }
  }

  // ----- As the loop groups them -----

  /** The commands of one coalesced batch with the order its map was walked in, or one
      other command. */
  datatype Group = Batch(commands: seq<Command>, order: seq<Path>) | Other(command: Command)

  function BatchTouches(commands: seq<Command>): seq<Touch>
  {
    if commands == [] then []
    else BatchTouches(commands[..|commands| - 1]) + CommandTouches(commands[|commands| - 1])
  }

  predicate IsFile(c: Command) { c.FileEvent? || c.FileEventBatch? }

  ghost predicate AllFiles(commands: seq<Command>)
  {
    forall k :: 0 <= k < |commands| ==> IsFile(commands[k])
  }

  ghost predicate WellGrouped(g: Group)
  {
    match g
    case Batch(commands, order) =>
      AllFiles(commands) && Lists(order, Coalesce(BatchTouches(commands)))
    case Other(c) => !IsFile(c)
  }

  function CommandsOf(g: Group): seq<Command>
  {
    match g
    case Batch(commands, _) => commands
    case Other(c) => [c]
  }

  function Flatten(groups: seq<Group>): seq<Command>
  {
    if groups == [] then [] else Flatten(groups[..|groups| - 1]) + CommandsOf(groups[|groups| - 1])
  }

  ghost function StepGrouped<E>(v: View<E>, g: Group, d: Disk<E>): View<E>
    requires WellGrouped(g)
  {
    if !v.running then v
    else match g
         case Batch(commands, order) => v.(index := ApplyBatch(v.index, BatchTouches(commands), order, d.world))
         case Other(c) => Handle(v, c, d)
  }

  ghost predicate AllWellGrouped(groups: seq<Group>)
  {
    forall k :: 0 <= k < |groups| ==> WellGrouped(groups[k])
  }

  ghost function RunGrouped<E>(v: View<E>, groups: seq<Group>, d: Disk<E>): View<E>
    requires AllWellGrouped(groups)
  {
    if groups == [] then v
    else StepGrouped(RunGrouped(v, groups[..|groups| - 1], d), groups[|groups| - 1], d)
  }

  // ----- The grouped run refines the single one -----

  lemma {:induction false} ApplyAllConcat<E>(index: Index<E>, a: seq<Touch>, b: seq<Touch>, w: World<E>)
    ensures ApplyAll(index, a + b, w) == ApplyAll(ApplyAll(index, a, w), b, w)
  {
    if b == [] {
      assert a + b == a;
    } else {
      assert (a + b)[..|a + b| - 1] == a + b[..|b| - 1];
      ApplyAllConcat(index, a, b[..|b| - 1], w);
    }
  }

  lemma {:induction false} RunSinglyConcat<E>(v: View<E>, a: seq<Command>, b: seq<Command>, d: Disk<E>)
    ensures RunSingly(v, a + b, d) == RunSingly(RunSingly(v, a, d), b, d)
  {
    if b == [] {
      assert a + b == a;
    } else {
      assert (a + b)[..|a + b| - 1] == a + b[..|b| - 1];
      RunSinglyConcat(v, a, b[..|b| - 1], d);
    }
  }

  lemma {:induction false} SinglyOverFiles<E>(v: View<E>, commands: seq<Command>, d: Disk<E>)
    requires v.running && AllFiles(commands)
    ensures RunSingly(v, commands, d) == v.(index := ApplyAll(v.index, BatchTouches(commands), d.world))
  {
    if commands != [] {
      var n := |commands| - 1;
      SinglyOverFiles(v, commands[..n], d);
      ApplyAllConcat(v.index, BatchTouches(commands[..n]), CommandTouches(commands[n]), d.world);
    }
  }

  lemma {:induction false} StoppedStays<E>(v: View<E>, commands: seq<Command>, d: Disk<E>)
    requires !v.running
    ensures RunSingly(v, commands, d) == v
  {
    if commands != [] { StoppedStays(v, commands[..|commands| - 1], d); }
  }

  /** The batch has the effect of its events one at a time, in any order of its map. */
  ghost predicate SafeAt<E>(v: View<E>, g: Group, d: Disk<E>)
  {
    v.running && g.Batch? ==> BatchAgrees(v.index, BatchTouches(g.commands), d.world)
  }

  /** Every batch is safe on the index that single events would have produced by then. */
  ghost predicate AllSafe<E>(v: View<E>, groups: seq<Group>, d: Disk<E>)
  {
    forall k :: 0 <= k < |groups| ==> SafeAt(RunSingly(v, Flatten(groups[..k]), d), groups[k], d)
  }

  lemma StepRefines<E>(v: View<E>, g: Group, d: Disk<E>)
    requires WellGrouped(g) && SafeAt(v, g, d)
    ensures StepGrouped(v, g, d) == RunSingly(v, CommandsOf(g), d)
  {
    if !v.running {
      StoppedStays(v, CommandsOf(g), d);
    } else {
      match g {
        case Batch(commands, order) =>
          SinglyOverFiles(v, commands, d);
          BatchRefinesIff(v.index, BatchTouches(commands), d.world);
        case Other(c) =>
          assert [c][..0] == [];
      }
    }
  }

  lemma SafePrefix<E>(v: View<E>, groups: seq<Group>, n: nat, d: Disk<E>)
    requires n <= |groups| && AllSafe(v, groups, d)
    ensures AllSafe(v, groups[..n], d)
  {
    forall k | 0 <= k < n ensures SafeAt(RunSingly(v, Flatten(groups[..n][..k]), d), groups[..n][k], d) {
      assert groups[..n][..k] == groups[..k];
    }
  }

  /** Whatever way the queue is cut into batches, every query gets the index, and the
      loop ends in the state, that single events would have given. */
  lemma {:induction false} GroupedRefinesSingle<E>(v: View<E>, groups: seq<Group>, d: Disk<E>)
    requires AllWellGrouped(groups) && AllSafe(v, groups, d)
    ensures RunGrouped(v, groups, d) == RunSingly(v, Flatten(groups), d)
  {
    if groups != [] {
      var n := |groups| - 1;
      SafePrefix(v, groups, n, d);
      GroupedRefinesSingle(v, groups[..n], d);
      StepRefines(RunSingly(v, Flatten(groups[..n]), d), groups[n], d);
      RunSinglyConcat(v, Flatten(groups[..n]), CommandsOf(groups[n]), d);
    }
  }

  lemma FlattenSnoc(a: seq<Group>, g: Group)
    ensures Flatten(a + [g]) == Flatten(a) + CommandsOf(g)
  {
    assert (a + [g])[..|a|] == a;
  }

  lemma Regroup<T>(a: seq<T>, b: seq<T>, c: seq<T>)
    ensures (a + b) + c == a + (b + c)
  {
  }

  lemma FlattenStep(a: seq<Group>, front: seq<Group>, g: Group)
    requires Flatten(a + front) == Flatten(a) + Flatten(front)
    ensures Flatten((a + front) + [g]) == Flatten(a) + Flatten(front + [g])
  {
    FlattenSnoc(a + front, g);
    FlattenSnoc(front, g);
    Regroup(Flatten(a), Flatten(front), CommandsOf(g));
  }

  lemma FrontAndLast<T>(a: seq<T>, b: seq<T>)
    requires b != []
    ensures b[..|b| - 1] + [b[|b| - 1]] == b
    ensures (a + b[..|b| - 1]) + [b[|b| - 1]] == a + b
  {
  }

  lemma {:induction false} FlattenConcat(a: seq<Group>, b: seq<Group>)
    ensures Flatten(a + b) == Flatten(a) + Flatten(b)
  {
    if b == [] {
      assert a + b == a;
    } else {
      FlattenConcat(a, b[..|b| - 1]);
      FlattenStep(a, b[..|b| - 1], b[|b| - 1]);
      FrontAndLast(a, b);
    }
  }

  lemma {:induction false} GroupedConcat<E>(v: View<E>, a: seq<Group>, b: seq<Group>, d: Disk<E>)
    requires AllWellGrouped(a) && AllWellGrouped(b)
    ensures AllWellGrouped(a + b)
    ensures RunGrouped(v, a + b, d) == RunGrouped(RunGrouped(v, a, d), b, d)
  {
    if b == [] {
      assert a + b == a;
    } else {
      assert (a + b)[..|a + b| - 1] == a + b[..|b| - 1];
      GroupedConcat(v, a, b[..|b| - 1], d);
    }
  }

  lemma CoalesceStep(ts: seq<Touch>, t: Touch)
    ensures Coalesce(ts + [t]) == Insert(Coalesce(ts), t)
  {
    assert (ts + [t])[..|ts|] == ts;
  }

  lemma TouchAllStep(paths: seq<Path>, kind: Kind, i: nat)
    requires i < |paths|
    ensures TouchAll(paths[..i + 1], kind) == TouchAll(paths[..i], kind) + [Touch(paths[i], kind)]
  {
    assert paths[..i + 1][..i] == paths[..i];
  }

  lemma TouchesStep(batch: seq<Event>, i: nat)
    requires i < |batch|
    ensures TouchesOf(batch[..i + 1]) == TouchesOf(batch[..i]) + Touches(batch[i])
  {
    assert batch[..i + 1][..i] == batch[..i];
  }

  lemma Assoc(a: seq<Touch>, b: seq<Touch>, c: seq<Touch>)
    ensures (a + b) + c == a + (b + c)
  {
  }

  lemma BatchStep(commands: seq<Command>, c: Command)
    ensures BatchTouches(commands + [c]) == BatchTouches(commands) + CommandTouches(c)
  {
    assert (commands + [c])[..|commands|] == commands;
  }

  // ----- The loop -----

  class CoalescedEvents {
    var events: map<Path, Kind>
    ghost var added: seq<Touch>
    ghost var commands: seq<Command>

    ghost predicate Valid()
      reads this
    {
      events == Coalesce(added)
    }

    /** Everything added came from `commands`. */
    ghost predicate Collected()
      reads this
    {
      Valid() && added == BatchTouches(commands) && AllFiles(commands)
    }

    constructor ()
      ensures Collected() && commands == []
    {
      events, added, commands := map[], [], [];
    }

    method Insert(path: Path, kind: Kind)
      requires Valid()
      modifies `events, `added
      ensures Valid() && added == old(added) + [Touch(path, kind)]
    {
      CoalesceStep(added, Touch(path, kind));
      added := added + [Touch(path, kind)];
      if path !in events {
        events := events[path := kind];
        return;
      }
      match (events[path], kind) {
        case (Created, Removed) => events := events - {path};
        case (Modified, Removed) => events := events - {path};
        case (Removed, Created) => events := events[path := Created];
        case (Removed, Modified) => events := events[path := Created];
        case _ => events := events[path := kind];
      }
    }

    method Add(event: Event)
      requires Valid()
      modifies `events, `added
      ensures Valid() && added == old(added) + Touches(event)
    {
      if event.kind.Renamed? && |event.paths| >= 2 {
        Insert(event.paths[0], Removed);
        Insert(event.paths[1], Created);
        return;
      }
      ghost var start, done := added, [];
      for i := 0 to |event.paths|
        invariant Valid() && added == start + done
        invariant done == TouchAll(event.paths[..i], event.kind)
      {
        TouchAllStep(event.paths, event.kind, i);
        ghost var t := Touch(event.paths[i], event.kind);
        Insert(event.paths[i], event.kind);
        Assoc(start, done, [t]);
        done := done + [t];
      }
      assert event.paths[..|event.paths|] == event.paths;
    }

    method AddAll(batch: seq<Event>)
      requires Valid()
      modifies `events, `added
      ensures Valid() && added == old(added) + TouchesOf(batch)
    {
      ghost var start, done := added, [];
      for i := 0 to |batch|
        invariant Valid() && added == start + done
        invariant done == TouchesOf(batch[..i])
      {
        TouchesStep(batch, i);
        Add(batch[i]);
        Assoc(start, done, Touches(batch[i]));
        done := done + Touches(batch[i]);
      }
      assert batch[..|batch|] == batch;
    }

    method AddCommand(c: Command)
      requires Collected() && IsFile(c)
      modifies this
      ensures Collected() && commands == old(commands) + [c]
    {
      BatchStep(commands, c);
      match c {
        case FileEvent(e) => Add(e);
        case FileEventBatch(es) => AddAll(es);
      }
      commands := commands + [c];
    }

    /** Collects the file command that heads the queue and, behind a single event, the
        file commands after it. */
    method Drain(queue: seq<Command>) returns (used: nat)
      requires Collected() && commands == [] && queue != [] && IsFile(queue[0])
      modifies this
      ensures Collected() && 0 < used == |commands| && commands <= queue
      ensures queue[0].FileEventBatch? ==> used == 1
      ensures queue[0].FileEvent? && used < |queue| ==> !IsFile(queue[used])
    {
      AddCommand(queue[0]);
      used := 1;
      if queue[0].FileEvent? {
        used := DrainMore(queue, 1);
      }
    }

    method DrainMore(queue: seq<Command>, from: nat) returns (used: nat)
      requires Collected() && from == |commands| && commands <= queue
      modifies this
      ensures Collected() && from <= used == |commands| && commands <= queue
      ensures used < |queue| ==> !IsFile(queue[used])
    {
      used := from;
      while used < |queue| && IsFile(queue[used])
        invariant Collected() && from <= used == |commands| && commands <= queue
      {
        PrefixGrows(commands, queue);
        AddCommand(queue[used]);
        used := used + 1;
      }
    }
  }

  lemma PrefixGrows<T>(front: seq<T>, all: seq<T>)
    requires front <= all && |front| < |all|
    ensures front + [all[|front|]] <= all
  {
  }

  lemma PairsStep(order: seq<Path>, path: Path, events: map<Path, Kind>)
    requires path in events && forall p :: p in order ==> p in events
    ensures var pairs := Pairs(order + [path], events);
            pairs != [] && pairs[..|pairs| - 1] == Pairs(order, events)
            && pairs[|pairs| - 1] == Touch(path, events[path])
  {
  }

  class IndexManager<E> {
    var view: View<E>
    const disk: Disk<E>

    constructor (index: Index<E>, disk: Disk<E>)
      ensures view == View(index, [], true) && this.disk == disk
    {
      view, this.disk := View(index, [], true), disk;
    }

    /** Walks the event map in an order of its own choosing. */
    method ApplyCoalesced(coalesced: CoalescedEvents) returns (ghost order: seq<Path>)
      requires coalesced.Valid()
      modifies this
      ensures Lists(order, Coalesce(coalesced.added))
      ensures view == old(view).(index := ApplyBatch(old(view).index, coalesced.added, order, disk.world))
    {
      var events, remaining := coalesced.events, coalesced.events.Keys;
      order := [];
      while remaining != {}
        invariant remaining <= events.Keys
        invariant forall p :: p in order <==> p in events.Keys - remaining
        invariant forall j, k :: 0 <= j < k < |order| ==> order[j] != order[k]
        invariant view == old(view).(index := ApplyAll(old(view).index, Pairs(order, events), disk.world))
        decreases remaining
      {
        var path :| path in remaining;
        remaining := remaining - {path};
        assert path !in order;
        PairsStep(order, path, events);
        order := order + [path];
        view := view.(index := ApplyOne(view.index, Touch(path, events[path]), disk.world));
      }
    }

    /** Applies what was collected from `commands`, as one group. */
    method Flush(coalesced: CoalescedEvents, ghost commands: seq<Command>) returns (ghost batch: Group)
      requires view.running && coalesced.Collected() && commands == coalesced.commands
      modifies this
      ensures batch.Batch? && batch.commands == commands && WellGrouped(batch)
      ensures view == StepGrouped(old(view), batch, disk) && view.running
    {
      ghost var order := ApplyCoalesced(coalesced);
      batch := Batch(commands, order);
    }

    method HandleOther(c: Command) returns (running: bool)
      requires !IsFile(c)
      modifies this
      ensures view == Handle(old(view), c, disk) && running == !c.Shutdown?
    {
      match c {
        case Rebuild => view := view.(index := disk.rebuilt);
        case Refresh(stale, deleted) => RefreshFiles(stale, deleted);
        case Query => view := view.(answers := view.answers + [view.index]);
        case Shutdown => view := view.(running := false);
      }
      running := !c.Shutdown?;
    }

    method RefreshFiles(stale: seq<Path>, deleted: seq<Rel>)
      modifies this
      ensures view == old(view).(index := ReindexAll(DropAll(old(view).index, deleted), stale, disk))
    {
      for i := 0 to |deleted|
        invariant view == old(view).(index := DropAll(old(view).index, deleted[..i]))
      {
        assert deleted[..i + 1][..i] == deleted[..i];
        view := view.(index := view.index - {deleted[i]});
      }
      assert deleted[..|deleted|] == deleted;
      for i := 0 to |stale|
        invariant view
                  == old(view).(index := ReindexAll(DropAll(old(view).index, deleted), stale[..i], disk))
      {
        assert stale[..i + 1][..i] == stale[..i];
        if disk.supported(stale[i]) {
          view := view.(index := Reindex(view.index, stale[i], disk.world));
        }
      }
      assert stale[..|stale|] == stale;
    }

    /** Drains the file commands at the head of what the channel holds, and flushes them. */
    method ProcessFiles(pending: seq<Command>) returns (used: nat, ghost batch: Group)
      requires view.running && pending != [] && IsFile(pending[0])
      modifies this
      ensures 0 < used <= |pending| && WellGrouped(batch) && CommandsOf(batch) == pending[..used]
      ensures view == StepGrouped(old(view), batch, disk) && view.running
      ensures pending[0].FileEvent? && used < |pending| ==> !IsFile(pending[used])
    {
      var coalesced := new CoalescedEvents();
      used := coalesced.Drain(pending);
      assert coalesced.commands == pending[..used];
      batch := Flush(coalesced, pending[..used]);
    }

    /** Takes the command at the head of what the channel holds and those it drains; a
        command that is no file event ends the drain and is handled after the flush. */
    method ProcessCommandCoalesced(pending: seq<Command>)
      returns (running: bool, used: nat, ghost groups: seq<Group>)
      requires view.running && pending != []
      modifies this
      ensures 0 < used <= |pending| && AllWellGrouped(groups)
      ensures Flatten(groups) == pending[..used]
      ensures view == RunGrouped(old(view), groups, disk) && running == view.running
    {
      if !IsFile(pending[0]) {
        running := HandleOther(pending[0]);
        used, groups := 1, [Other(pending[0])];
        OneGroup(old(view), groups[0], disk);
        return;
      }
      ghost var batch;
      used, batch := ProcessFiles(pending);
      if pending[0].FileEvent? && used < |pending| {
        running := HandleOther(pending[used]);
        BatchThenOther(old(view), batch, pending, used, disk);
        groups := [batch, Other(pending[used])];
        used := used + 1;
      } else {
        groups, running := [batch], true;
        OneGroup(old(view), batch, disk);
      }
    }

    /** The loop over a queue; `available(i)` says how many commands behind the `i`-th
        are already in the channel when it is taken. */
    method RunLoop(queue: seq<Command>, available: nat -> nat) returns (ghost groups: seq<Group>)
      requires view.running
      modifies this
      ensures AllWellGrouped(groups) && view == RunGrouped(old(view), groups, disk)
      ensures Flatten(groups) <= queue && (view.running ==> Flatten(groups) == queue)
      ensures AllSafe(old(view), groups, disk) ==> view == RunSingly(old(view), Flatten(groups), disk)
    {
      var i := 0;
      groups := [];
      while i < |queue| && view.running
        invariant i <= |queue| && AllWellGrouped(groups)
        invariant Flatten(groups) == queue[..i]
        invariant view == RunGrouped(old(view), groups, disk)
        decreases |queue| - i
      {
        var end := if i + 1 + available(i) < |queue| then i + 1 + available(i) else |queue|;
        var _, used, taken := ProcessCommandCoalesced(queue[i..end]);
        GroupedConcat(old(view), groups, taken, disk);
        FlattenConcat(groups, taken);
        QueueStep(queue, i, end, used);
        groups := groups + taken;
        i := i + used;
      }
      if AllSafe(old(view), groups, disk) { GroupedRefinesSingle(old(view), groups, disk); }
    }
  }

  lemma QueueStep(queue: seq<Command>, i: nat, end: nat, used: nat)
    requires i <= end <= |queue| && used <= end - i
    ensures queue[..i] + queue[i..end][..used] == queue[..i + used]
  {
  }

  lemma OneGroup<E>(v: View<E>, g: Group, d: Disk<E>)
    requires WellGrouped(g)
    ensures AllWellGrouped([g]) && Flatten([g]) == CommandsOf(g) && RunGrouped(v, [g], d) == StepGrouped(v, g, d)
  {
    assert [g][..0] == [];
    assert Flatten([]) == [];
  }

  /** A batch, and the command that ended its drain. */
  lemma BatchThenOther<E>(v: View<E>, batch: Group, pending: seq<Command>, used: nat, d: Disk<E>)
    requires WellGrouped(batch) && used < |pending| && CommandsOf(batch) == pending[..used] && !IsFile(pending[used])
    ensures var groups := [batch, Other(pending[used])];
            && AllWellGrouped(groups) && Flatten(groups) == pending[..used + 1]
            && RunGrouped(v, groups, d) == StepGrouped(StepGrouped(v, batch, d), Other(pending[used]), d)
  {
    TwoGroups(v, batch, Other(pending[used]), d);
    assert pending[..used + 1] == pending[..used] + [pending[used]];
  }

  lemma TwoGroups<E>(v: View<E>, g: Group, h: Group, d: Disk<E>)
    requires WellGrouped(g) && WellGrouped(h)
    ensures AllWellGrouped([g, h]) && Flatten([g, h]) == CommandsOf(g) + CommandsOf(h)
    ensures RunGrouped(v, [g, h], d) == StepGrouped(StepGrouped(v, g, d), h, d)
  {
    OneGroup(v, g, d);
    assert [g, h][..1] == [g];
  }
}
