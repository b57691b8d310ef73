/** The request gateway: callers enqueue requests with a one-shot reply channel, a loop
    hands each to its own task, and any end can disappear at any time. */
module Gateway {
  import opened Wrappers

  type Id = nat

  /** How far an accepted request has come. `Lost`: its reply channel was dropped without
      an answer. `Unread`: answered after the caller had stopped listening. */
  datatype Phase<+R> = Queued | Running | Finished(response: R) | Answered(response: R) | Unread(response: R) | Lost

  /** What a caller gets back. */
  datatype Result<+R> = Response(response: R) | SendFailed | RecvFailed

  /** `accepted`, `started` and `handled` record the order of sends, dispatches and
      handler completions. */
  datatype State<!R> = State(
    receiverAlive: bool, queue: seq<Id>, phase: map<Id, Phase<R>>, refused: set<Id>,
    listening: set<Id>, results: map<Id, Result<R>>,
    accepted: seq<Id>, started: seq<Id>, handled: seq<Id>)

  datatype Step<R> =
    | Send(id: Id) | GiveUp(id: Id) | Await(id: Id)
    | Receive | ReceiverGone
    | HandlerDone(id: Id, response: R) | TaskDropped(id: Id) | Respond(id: Id)

  function Init<R>(): State<R>
  {
    State(true, [], map[], {}, {}, map[], [], [], [])
  }

  function InPhase<R>(s: State<R>, id: Id): Option<Phase<R>>
  {
    if id in s.phase then Some(s.phase[id]) else None
  }

  /** The queue's requests lose their reply channels with it. */
  function DropQueued<R>(phase: map<Id, Phase<R>>): map<Id, Phase<R>>
  {
    map id | id in phase :: if phase[id].Queued? then Lost else phase[id]
  }

  /** One atomic step, or `None` where it cannot be taken. */
  function Next<R>(s: State<R>, step: Step<R>): Option<State<R>>
  {
    match step
    case Send(id) =>
      if id in s.phase || id in s.refused then None
      else if s.receiverAlive then
        Some(s.(queue := s.queue + [id], phase := s.phase[id := Queued], listening := s.listening + {id},
                accepted := s.accepted + [id]))
      else Some(s.(refused := s.refused + {id}, results := s.results[id := SendFailed]))
    case GiveUp(id) => if id in s.listening then Some(s.(listening := s.listening - {id})) else None
    case Await(id) =>
      if id !in s.listening then None
      else (
        match InPhase(s, id)
        case Some(Answered(r)) =>
          Some(s.(listening := s.listening - {id}, results := s.results[id := Response(r)]))
        case Some(Lost) => Some(s.(listening := s.listening - {id}, results := s.results[id := RecvFailed]))
        case _ => None)
    case Receive =>
      if s.receiverAlive && s.queue != [] then
        var id := s.queue[0];
        Some(s.(queue := s.queue[1..], phase := s.phase[id := Running], started := s.started + [id]))
      else None
    case ReceiverGone =>
      if s.receiverAlive then Some(s.(receiverAlive := false, queue := [], phase := DropQueued(s.phase))) else None
    case HandlerDone(id, r) =>
      if InPhase(s, id) == Some(Running) then
        Some(s.(phase := s.phase[id := Finished(r)], handled := s.handled + [id]))
      else None
    case TaskDropped(id) =>
      if InPhase(s, id) == Some(Running) then Some(s.(phase := s.phase[id := Lost])) else None
    case Respond(id) =>
      match InPhase(s, id)
      case Some(Finished(r)) =>
        Some(s.(phase := s.phase[id := if id in s.listening then Answered(r) else Unread(r)]))
      case _ => None
  }

  function After<R>(s: State<R>, steps: seq<Step<R>>): Option<State<R>>
    decreases |steps|
  {
    if steps == [] then Some(s)
    else match Next(s, steps[0])
         case None => None
         case Some(t) => After(t, steps[1..])
  }

  // ----- What every run keeps -----

  ghost predicate Distinct(ids: seq<Id>)
  {
    forall j, k :: 0 <= j < k < |ids| ==> ids[j] != ids[k]
  }

  /** A handler completed for this request. */
  predicate Handled<R>(p: Phase<R>) { p.Finished? || p.Answered? || p.Unread? }

  /** Queued requests are those in the queue, dispatched ones those started, and all of
      them were accepted, once, in this order. */
  ghost predicate QueueInv<R>(s: State<R>)
  {
    && Distinct(s.accepted) && Distinct(s.handled)
    && s.started + s.queue <= s.accepted
    && (if s.receiverAlive then s.started + s.queue == s.accepted else s.queue == [])
    && (forall id :: id in s.accepted <==> id in s.phase)
    && (forall id :: id in s.queue <==> InPhase(s, id) == Some(Queued))
    && s.refused !! s.phase.Keys
  }

  /** A request is past its handler exactly when the handler completed; a result is what
      the request's phase says. */
  ghost predicate ResultInv<R>(s: State<R>)
  {
    && (forall id :: id in s.handled <==> id in s.phase && Handled(s.phase[id]))
    && (forall id :: id in s.listening ==> id in s.phase && !s.phase[id].Unread? && id !in s.results)
    && (forall id :: id in s.results ==> Justified(s, id, s.results[id]))
    && (forall id :: id in s.refused ==> id in s.results && s.results[id].SendFailed?)
  }

  ghost predicate Justified<R>(s: State<R>, id: Id, r: Result<R>)
  {
    match r
    case Response(response) => InPhase(s, id) == Some(Answered(response))
    case SendFailed => id in s.refused
    case RecvFailed => InPhase(s, id) == Some(Lost)
  }

  lemma DistinctMore(ids: seq<Id>, id: Id)
    requires Distinct(ids) && id !in ids
    ensures Distinct(ids + [id])
  {
  }

  ghost predicate Inv<R>(s: State<R>)
  {
    QueueInv(s) && ResultInv(s)
  }

  lemma SendKeeps<R>(s: State<R>, id: Id)
    requires Inv(s) && Next(s, Send(id)).Some?
    ensures QueueInv(Next(s, Send(id)).value)
  {
    if s.receiverAlive {
      DistinctMore(s.accepted, id);
      assert s.started + (s.queue + [id]) == (s.started + s.queue) + [id];
    }
  }

  lemma SendKeepsResults<R>(s: State<R>, id: Id)
    requires Inv(s) && Next(s, Send(id)).Some?
    ensures ResultInv(Next(s, Send(id)).value)
  {
    var t := Next(s, Send(id)).value;
    assert id in s.results ==> Justified(s, id, s.results[id]);
    forall x | x in t.results ensures Justified(t, x, t.results[x]) {
      if x != id { assert Justified(s, x, s.results[x]); }
    }
  }

  lemma HeadLeavesQueue(started: seq<Id>, queue: seq<Id>)
    requires queue != [] && Distinct(started + queue)
    ensures (started + [queue[0]]) + queue[1..] == started + queue
    ensures forall id :: id in queue[1..] <==> id in queue && id != queue[0]
  {
    var rest := queue[1..];
    assert queue == [queue[0]] + rest;
    HeadIsFirst(started, queue);
  }

  lemma HeadIsFirst(started: seq<Id>, queue: seq<Id>)
    requires queue != [] && Distinct(started + queue)
    ensures queue[0] !in queue[1..]
  {
    var all, n, rest := started + queue, |started|, queue[1..];
    assert all[n] == queue[0];
    forall k | 0 <= k < |rest| ensures rest[k] != queue[0] {
      assert all[n + 1 + k] == queue[1 + k] == rest[k];
    }
  }

  lemma ReceiveKeeps<R>(s: State<R>)
    requires Inv(s) && Next(s, Receive).Some?
    ensures QueueInv(Next(s, Receive).value)
  {
    HeadLeavesQueue(s.started, s.queue);
    assert InPhase(s, s.queue[0]) == Some(Queued);
  }

  lemma ReceiveKeepsResults<R>(s: State<R>)
    requires Inv(s) && Next(s, Receive).Some?
    ensures ResultInv(Next(s, Receive).value)
  {
    assert InPhase(s, s.queue[0]) == Some(Queued);
    PhaseMoves(s, s.queue[0], Running);
  }

  lemma GoneKeeps<R>(s: State<R>)
    requires Inv(s) && Next(s, ReceiverGone).Some?
    ensures Inv(Next(s, ReceiverGone).value)
  {
    assert s.started + [] == s.started;
    assert s.started <= s.accepted;
  }

  lemma DoneKeeps<R>(s: State<R>, id: Id, r: R)
    requires Inv(s) && Next(s, HandlerDone(id, r)).Some?
    ensures Inv(Next(s, HandlerDone(id, r)).value)
  {
    DistinctMore(s.handled, id);
    PhaseMoves(s, id, Finished(r));
  }

  lemma DroppedKeeps<R>(s: State<R>, id: Id)
    requires Inv(s) && Next(s, TaskDropped(id)).Some?
    ensures Inv(Next(s, TaskDropped(id)).value)
  {
    PhaseMoves(s, id, Lost);
  }

  lemma RespondKeeps<R>(s: State<R>, id: Id)
    requires Inv(s) && Next(s, Respond(id)).Some?
    ensures Inv(Next(s, Respond(id)).value)
  {
    PhaseMoves(s, id, Next(s, Respond(id)).value.phase[id]);
  }

  /** Moving a request that has no result yet leaves the results justified. */
  lemma PhaseMoves<R>(s: State<R>, id: Id, p: Phase<R>)
    requires Inv(s) && id in s.phase && !s.phase[id].Answered? && !s.phase[id].Lost?
    ensures var t := s.(phase := s.phase[id := p]);
            && id !in s.results
            && (forall x :: x in t.results ==> Justified(t, x, t.results[x]))
            && (forall x :: x in t.phase <==> x in s.phase)
            && s.refused !! t.phase.Keys
  {
    assert id in s.results ==> Justified(s, id, s.results[id]);
  }

  lemma GiveUpKeeps<R>(s: State<R>, id: Id)
    requires Inv(s) && Next(s, GiveUp(id)).Some?
    ensures Inv(Next(s, GiveUp(id)).value)
  {
    assert s.phase == Next(s, GiveUp(id)).value.phase;
  }

  lemma AwaitKeeps<R>(s: State<R>, id: Id)
    requires Inv(s) && Next(s, Await(id)).Some?
    ensures Inv(Next(s, Await(id)).value)
  {
    var t := Next(s, Await(id)).value;
    forall x | x in t.results ensures Justified(t, x, t.results[x]) {
      if x != id { assert Justified(s, x, s.results[x]); }
    }
  }

  lemma StepKeepsInv<R>(s: State<R>, step: Step<R>)
    requires Inv(s) && Next(s, step).Some?
    ensures Inv(Next(s, step).value)
  {
    match step {
      case Send(id) =>
        SendKeeps(s, id);
        SendKeepsResults(s, id);
      case Receive =>
        ReceiveKeeps(s);
        ReceiveKeepsResults(s);
      case ReceiverGone => GoneKeeps(s);
      case HandlerDone(id, r) => DoneKeeps(s, id, r);
      case TaskDropped(id) => DroppedKeeps(s, id);
      case Respond(id) => RespondKeeps(s, id);
      case GiveUp(id) => GiveUpKeeps(s, id);
      case Await(id) => AwaitKeeps(s, id);
    }
  }

  lemma {:induction false} RunKeepsInv<R>(s: State<R>, steps: seq<Step<R>>)
    requires Inv(s) && After(s, steps).Some?
    ensures Inv(After(s, steps).value)
    decreases |steps|
  {
    if steps != [] {
      StepKeepsInv(s, steps[0]);
      RunKeepsInv(Next(s, steps[0]).value, steps[1..]);
    }
  }

  // ----- Whose answer it is -----

  lemma {:induction false} AfterSnoc<R>(s: State<R>, steps: seq<Step<R>>, step: Step<R>)
    ensures var t := After(s, steps);
            After(s, steps + [step]) == if t.None? then None else Next(t.value, step)
    decreases |steps|
  {
    var all := steps + [step];
    if steps == [] {
      assert all[1..] == [];
    } else {
      assert all[1..] == steps[1..] + [step];
      var t := Next(s, steps[0]);
      if t.Some? { AfterSnoc(t.value, steps[1..], step); }
    }
  }

  /** What a request's phase says has happened did happen in the run. */
  ghost predicate PhaseFrom<R>(id: Id, p: Phase<R>, steps: seq<Step<R>>)
  {
    && Send(id) in steps
    && match p
       case Finished(r) => HandlerDone(id, r) in steps
       case Answered(r) => HandlerDone(id, r) in steps
       case Unread(r) => HandlerDone(id, r) in steps
       case Lost => TaskDropped(id) in steps || ReceiverGone in steps
       case _ => true
  }

  ghost predicate FromHandlers<R>(s: State<R>, steps: seq<Step<R>>)
  {
    && (forall id :: id in s.phase ==> PhaseFrom(id, s.phase[id], steps))
    && (forall id :: id in s.refused ==> Send(id) in steps && ReceiverGone in steps)
    && (!s.receiverAlive ==> ReceiverGone in steps)
  }

  lemma {:induction false} RunFromHandlers<R>(steps: seq<Step<R>>)
    requires After(Init<R>(), steps).Some?
    ensures FromHandlers(After(Init<R>(), steps).value, steps)
    decreases |steps|
  {
    if steps != [] {
      var front, last := steps[..|steps| - 1], steps[|steps| - 1];
      assert steps == front + [last];
      AfterSnoc(Init<R>(), front, last);
      RunFromHandlers(front);
      RunKeepsInv(Init<R>(), front);
      assert forall step :: step in steps <==> step in front || step == last;
      StepFromHandlers(After(Init<R>(), front).value, front, last);
    }
  }

  lemma StepFromHandlers<R>(s: State<R>, front: seq<Step<R>>, last: Step<R>)
    requires Inv(s) && FromHandlers(s, front) && Next(s, last).Some?
    ensures FromHandlers(Next(s, last).value, front + [last])
  {
    var steps, t := front + [last], Next(s, last).value;
    assert forall step :: step in steps <==> step in front || step == last;
    assert last.Receive? ==> InPhase(s, s.queue[0]) == Some(Queued);
    forall id | id in t.phase ensures PhaseFrom(id, t.phase[id], steps) {
      assert id in s.phase ==> PhaseFrom(id, s.phase[id], front);
    }
  }

  /** The response a caller gets is the one its own request's handler gave; a failed send
      means that the loop was gone, a failed receive that the loop or the task went. */
  lemma ResponseIsItsHandlers<R>(steps: seq<Step<R>>, id: Id)
    requires After(Init<R>(), steps).Some? && id in After(Init<R>(), steps).value.results
    ensures Send(id) in steps
    ensures match After(Init<R>(), steps).value.results[id]
            case Response(r) => HandlerDone(id, r) in steps
            case SendFailed => ReceiverGone in steps
            case RecvFailed => TaskDropped(id) in steps || ReceiverGone in steps
  {
    RunKeepsInv(Init<R>(), steps);
    RunFromHandlers(steps);
    var s := After(Init<R>(), steps).value;
    assert Justified(s, id, s.results[id]);
  }

  /** The requests accepted are the ones sent while the loop was there, in the order of
      their sends, and the completions those of the handlers, in theirs. */
  function Sends<R>(steps: seq<Step<R>>): seq<Id>
  {
    if steps == [] then []
    else Sends(steps[..|steps| - 1]) + match steps[|steps| - 1] case Send(id) => [id] case _ => []
  }

  function Completions<R>(steps: seq<Step<R>>): seq<Id>
  {
    if steps == [] then []
    else Completions(steps[..|steps| - 1]) + match steps[|steps| - 1] case HandlerDone(id, _) => [id] case _ => []
  }

  lemma {:induction false} OrdersAreTheRuns<R>(steps: seq<Step<R>>)
    requires After(Init<R>(), steps).Some?
    ensures var s := After(Init<R>(), steps).value;
            && s.handled == Completions(steps) && s.accepted <= Sends(steps)
            && (s.receiverAlive ==> s.accepted == Sends(steps))
    decreases |steps|
  {
    if steps != [] {
      var front, last := steps[..|steps| - 1], steps[|steps| - 1];
      assert steps == front + [last];
      AfterSnoc(Init<R>(), front, last);
      OrdersAreTheRuns(front);
    }
  }

  // ----- Every caller can get its answer -----

  lemma AfterConcat<R>(s: State<R>, a: seq<Step<R>>, b: seq<Step<R>>)
    requires After(s, a).Some?
    ensures After(s, a + b) == After(After(s, a).value, b)
    decreases |a|
  {
    if a == [] {
      assert a + b == b;
    } else {
      assert (a + b)[1..] == a[1..] + b;
      AfterConcat(Next(s, a[0]).value, a[1..], b);
    }
  }

  lemma Then<R>(s: State<R>, step: Step<R>, rest: seq<Step<R>>) returns (steps: seq<Step<R>>)
    requires Next(s, step).Some?
    ensures After(s, steps) == After(Next(s, step).value, rest)
  {
    steps := [step] + rest;
    assert steps[1..] == rest;
  }

  /** From every state in which a caller still listens the run can go on to a result for it:
      the response its handler gives, whatever that is, unless its request is lost or
      already answered, and that answer then. */
  lemma {:induction false} ListenerCanBeAnswered<R>(s: State<R>, id: Id, r: R) returns (steps: seq<Step<R>>)
    requires Inv(s) && id in s.listening
    ensures After(s, steps).Some?
    ensures var t := After(s, steps).value;
            id in t.results
            && t.results[id] == match s.phase[id]
                                case Lost => RecvFailed
                                case Answered(a) => Response(a)
                                case Finished(a) => Response(a)
                                case _ => Response(r)
    decreases |s.queue|, match s.phase[id] case Queued => 3 case Running => 2 case Finished(_) => 1 case _ => 0
  {
    match s.phase[id] {
      case Queued =>
        HeadMoves(s, id);
        var t := Next(s, Receive).value;
        StepKeepsInv(s, Receive);
        var rest := ListenerCanBeAnswered(t, id, r);
        steps := Then(s, Receive, rest);
      case Running =>
        StepKeepsInv(s, HandlerDone(id, r));
        var rest := ListenerCanBeAnswered(Next(s, HandlerDone(id, r)).value, id, r);
        steps := Then(s, HandlerDone(id, r), rest);
      case Finished(a) =>
        StepKeepsInv(s, Respond(id));
        var rest := ListenerCanBeAnswered(Next(s, Respond(id)).value, id, r);
        steps := Then(s, Respond(id), rest);
      case Answered(a) => steps := Then(s, Await(id), []);
      case Lost => steps := Then(s, Await(id), []);
    }
  }

  lemma HeadMoves<R>(s: State<R>, id: Id)
    requires Inv(s) && InPhase(s, id) == Some(Queued)
    ensures Next(s, Receive).Some?
    ensures var t := Next(s, Receive).value;
            && |t.queue| < |s.queue| && t.listening == s.listening
            && (InPhase(t, id) == Some(Queued) || InPhase(t, id) == Some(Running))
  {
    assert id in s.queue;
  }

  /** Sending always has an outcome at once: the request is accepted, or the caller told. */
  lemma SendHasOutcome<R>(s: State<R>, id: Id)
    requires id !in s.phase && id !in s.refused
    ensures Next(s, Send(id)).Some?
    ensures var t := Next(s, Send(id)).value;
            if s.receiverAlive then t.accepted == s.accepted + [id] && id in t.listening && InPhase(t, id) == Some(Queued)
            else id in t.results && t.results[id] == SendFailed && t.accepted == s.accepted
  {
  }

  /** Either end can go at any time, and its requests' callers learn of it: after the loop
      goes every queued one, after a task is dropped its own. */
  lemma LossIsReported<R>(s: State<R>, id: Id)
    requires Inv(s) && id in s.listening
    ensures s.receiverAlive && s.phase[id].Queued? ==>
              var t := After(s, [ReceiverGone, Await(id)]);
              t.Some? && id in t.value.results && t.value.results[id] == RecvFailed
    ensures s.phase[id].Running? ==>
              var t := After(s, [TaskDropped(id), Await(id)]);
              t.Some? && id in t.value.results && t.value.results[id] == RecvFailed
    ensures After(s, [GiveUp(id)]).Some? && id !in After(s, [GiveUp(id)]).value.listening
  {
    if s.receiverAlive && s.phase[id].Queued? { TwoSteps(s, ReceiverGone, Await(id)); }
    if s.phase[id].Running? { TwoSteps(s, TaskDropped(id), Await(id)); }
    assert After(s, [GiveUp(id)]) == After(Next(s, GiveUp(id)).value, [GiveUp(id)][1..]);
  }

  lemma TwoSteps<R>(s: State<R>, a: Step<R>, b: Step<R>)
    requires Next(s, a).Some?
    ensures After(s, [a, b]) == Next(Next(s, a).value, b)
  {
    var steps, t := [a, b], Next(s, a).value;
    assert steps[1..] == [b] && [b][1..] == [];
    assert After(t, [b]) == if Next(t, b).None? then None else After(Next(t, b).value, [b][1..]);
  }

  // ----- Main results -----

  /** In every run each accepted request is exactly one of queued, in flight, answered or
      lost; requests are dispatched in the order they were accepted, each at most once. */
  lemma RequestsConserved<R>(steps: seq<Step<R>>)
    requires After(Init<R>(), steps).Some?
    ensures var s := After(Init<R>(), steps).value;
            && (forall id :: id in s.accepted <==> id in s.phase)
            && (forall id :: id in s.queue <==> InPhase(s, id) == Some(Queued))
            && Distinct(s.accepted) && Distinct(s.handled)
            && s.started <= s.accepted
            && (s.receiverAlive ==> s.accepted == s.started + s.queue)
            && s.refused !! s.phase.Keys
  {
    RunKeepsInv(Init<R>(), steps);
  }

  /** What each result means: a response came from a completed handler; `SendFailed`, that
      the request never entered the queue; `RecvFailed`, that it did, but its handler
      never completed. */
  lemma ResultsMean<R>(steps: seq<Step<R>>, id: Id)
    requires After(Init<R>(), steps).Some?
    ensures var s := After(Init<R>(), steps).value;
            id in s.results ==>
              match s.results[id]
              case Response(r) => id in s.handled && InPhase(s, id) == Some(Answered(r))
              case SendFailed => id in s.refused && id !in s.accepted && id !in s.handled
              case RecvFailed => id in s.accepted && id !in s.handled && InPhase(s, id) == Some(Lost)
  {
    RunKeepsInv(Init<R>(), steps);
  }

  /** Once every request of a batch has been answered, all their handlers completed. */
  lemma DrainedBatchIsHandled<R>(steps: seq<Step<R>>, batch: set<Id>)
    requires After(Init<R>(), steps).Some?
    requires var s := After(Init<R>(), steps).value;
             forall id :: id in batch ==> id in s.results && s.results[id].Response?
    ensures forall id :: id in batch ==> id in After(Init<R>(), steps).value.handled
  {
    forall id | id in batch ensures id in After(Init<R>(), steps).value.handled {
      ResultsMean(steps, id);
    }
  }

  ghost predicate Settled<R>(p: Phase<R>) { p.Answered? || p.Unread? || p.Lost? }

  /** An answer, or the loss of one, is final: no request is answered twice, and a result
      once given is never replaced. */
  lemma {:induction false} SettledStays<R>(s: State<R>, steps: seq<Step<R>>, id: Id)
    requires Inv(s) && After(s, steps).Some?
    ensures var t := After(s, steps).value;
            && (id in s.phase && Settled(s.phase[id]) ==> InPhase(t, id) == Some(s.phase[id]))
            && (id in s.results ==> id in t.results && t.results[id] == s.results[id])
    decreases |steps|
  {
    if steps != [] {
      StepKeepsInv(s, steps[0]);
      SettledStep(s, steps[0], id);
      SettledStays(Next(s, steps[0]).value, steps[1..], id);
    }
  }

  lemma SettledStep<R>(s: State<R>, step: Step<R>, id: Id)
    requires Inv(s) && Next(s, step).Some?
    ensures var t := Next(s, step).value;
            && (id in s.phase && Settled(s.phase[id]) ==> InPhase(t, id) == Some(s.phase[id]))
            && (id in s.results ==> id in t.results && t.results[id] == s.results[id])
  {
    if step.Receive? { assert InPhase(s, s.queue[0]) == Some(Queued); }
  }

  /** Where a listening caller's request can go next. */
  ghost predicate CanMove<R>(s: State<R>, id: Id, r: R)
  {
    || (id in s.queue && Next(s, Receive).Some?)
    || Next(s, HandlerDone(id, r)).Some?
    || Next(s, Respond(id)).Some?
    || Next(s, Await(id)).Some?
  }

  /** No caller is left waiting on nothing: while it listens, its request can advance. */
  lemma NoCallerStuck<R>(steps: seq<Step<R>>, id: Id, r: R)
    requires After(Init<R>(), steps).Some?
    ensures var s := After(Init<R>(), steps).value;
            id in s.listening ==> CanMove(s, id, r)
  {
    RunKeepsInv(Init<R>(), steps);
  }
}
