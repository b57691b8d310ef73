/** Waiting for the grid to stay unchanged for a window, and the bounded tail of raw
    output shown when a wait times out. */
module StableWait {
  import opened Wrappers

  // ----- The window loop -----

  /** What ends one turn of the loop: a generation bump, the sender's end, or the timer. */
  datatype Cause = Bumped | Closed | TimedOut

  /** One turn: the time at its top, where the window restarts, and the time it ends. */
  datatype Turn = Turn(marked: nat, woke: nat, cause: Cause)

  datatype Outcome = Matched(at: nat) | Unmatched(ended: bool)

  function Min(a: nat, b: nat): nat { if a < b then a else b }

  /** Turns the runtime can deliver from `now`: time does not run backwards, the timer
      never fires early, and a closed channel is not asked again. */
  ghost predicate Deliverable(turns: seq<Turn>, now: nat, window: nat, deadline: nat, gone: bool)
  {
    turns != [] ==>
      var t := turns[0];
      && now <= t.marked <= t.woke
      && (t.cause.TimedOut? ==> Min(t.marked + window, deadline) <= t.woke)
      && (gone ==> t.cause.TimedOut?)
      && Deliverable(turns[1..], t.woke, window, deadline, gone || t.cause.Closed?)
  }

  /** A turn after which the loop goes round again. */
  ghost predicate Restarts(t: Turn, deadline: nat)
  {
    !t.cause.TimedOut? && t.woke < deadline
  }

  /** The loop, over the turns delivered to it; `None` while it is still waiting. */
  method WaitStable(turns: seq<Turn>, start: nat, window: nat, deadline: nat)
    returns (r: Option<Outcome>, used: nat)
    requires Deliverable(turns, start, window, deadline, false)
    ensures used <= |turns| && (r.None? ==> used == |turns|)
    ensures forall k :: 0 <= k < used - (if r.Some? then 1 else 0) ==> Restarts(turns[k], deadline)
    ensures r.Some? ==> used > 0 && !Restarts(turns[used - 1], deadline)
    // a match: one whole window, from the call on and after every bump it processed
    ensures r.Some? ==>
              var last := turns[used - 1];
              (r.value.Matched? <==> last.cause.TimedOut? && last.marked + window <= deadline)
    ensures r.Some? && r.value.Matched? ==>
              var last := turns[used - 1];
              && start + window <= r.value.at == last.woke
              && last.marked + window <= Min(r.value.at, deadline)
              && forall k :: 0 <= k < used - 1 ==> turns[k].woke + window <= r.value.at
    // no match: the deadline has passed, and `ended` tells whether the sender was gone
    ensures r.Some? && r.value.Unmatched? ==>
              && deadline <= turns[used - 1].woke
              && (r.value.ended <==> exists k :: 0 <= k < used && turns[k].cause.Closed?)
    // once the sender is gone, at most one more turn
    ensures forall k :: 0 <= k < used && turns[k].cause.Closed? ==> used <= k + 2
  {
    var senderGone := false;
    ghost var now := start;
    used := 0;
    while used < |turns|
      invariant used <= |turns| && start <= now
      invariant Deliverable(turns[used..], now, window, deadline, senderGone)
      invariant forall k :: 0 <= k < used ==> Restarts(turns[k], deadline) && turns[k].woke <= now
      invariant senderGone <==> exists k :: 0 <= k < used && turns[k].cause.Closed?
      invariant forall k :: 0 <= k < used && turns[k].cause.Closed? ==> used == k + 1
    {
      var turn := turns[used];
      assert turns[used..][0] == turn && turns[used..][1..] == turns[used + 1..];
      var windowEnd := turn.marked + window;
      used := used + 1;
      now := turn.woke;
      match turn.cause {
        case TimedOut =>
          return Some(if windowEnd <= deadline then Matched(turn.woke) else Unmatched(senderGone)), used;
        case _ =>
          if turn.cause.Closed? {
            senderGone := true;
          }
          if turn.woke >= deadline {
            return Some(Unmatched(senderGone)), used;
          }
      }
    }
    r := None;
  }

  // ----- The raw tail -----

  type byte = b: int | 0 <= b < 256

  const RAW_TAIL_CAP: nat := 2048

  /** The last `n` elements. */
  function LastN<T>(s: seq<T>, n: nat): (r: seq<T>)
    ensures |r| == Min(|s|, n)
  {
    if |s| <= n then s else s[|s| - n..]
  }

  function Flatten(chunks: seq<seq<byte>>): seq<byte>
  {
    if chunks == [] then [] else Flatten(chunks[..|chunks| - 1]) + chunks[|chunks| - 1]
  }

  /** Appending keeps the end: of the new bytes alone, or of the old end and them. */
  lemma LastAfter<T>(all: seq<T>, more: seq<T>, n: nat)
    ensures |more| >= n ==> LastN(all + more, n) == more[|more| - n..]
    ensures |more| < n ==> LastN(all + more, n) == LastN(LastN(all, n), n - |more|) + more
  {
  }

  class RawTail {
    var tail: seq<byte>
    ghost var pushed: seq<seq<byte>>

    /** The tail is the end of everything pushed so far. */
    ghost predicate Valid()
      reads this
    {
      tail == LastN(Flatten(pushed), RAW_TAIL_CAP)
    }

    constructor ()
      ensures Valid() && pushed == []
    {
      tail, pushed := [], [];
    }

    method Push(bytes: seq<byte>)
      requires Valid()
      modifies this
      ensures Valid() && pushed == old(pushed) + [bytes]
    {
      ghost var all, was := Flatten(pushed), tail;
      ghost var chunks := pushed + [bytes];
      assert chunks[..|chunks| - 1] == pushed;
      pushed := chunks;
      LastAfter(all, bytes, RAW_TAIL_CAP);
      if |bytes| >= RAW_TAIL_CAP {
        tail := [];
        tail := tail + bytes[|bytes| - RAW_TAIL_CAP..];
        return;
      }
      while |tail| + |bytes| > RAW_TAIL_CAP
        invariant pushed == chunks && |tail| <= |was| && tail == was[|was| - |tail|..]
        invariant |tail| + |bytes| >= Min(|was| + |bytes|, RAW_TAIL_CAP)
        decreases |tail|
      {
        tail := tail[1..];
      }
      assert tail == LastN(was, RAW_TAIL_CAP - |bytes|);
      tail := tail + bytes;
    }
  }
}
