/** File events for the code index: coalescing a batch by path against applying the
    events one at a time. */
module IndexEvents {
  import opened Wrappers

  type Path = string
  type Rel = string
  type Index<E> = map<Rel, E>

  datatype Kind = Created | Modified | Removed | Renamed

  datatype Event = Event(kind: Kind, paths: seq<Path>)

  datatype Touch = Touch(path: Path, kind: Kind)

  /** Everything the manager reads: which paths are indexed, under which name, and what
      a reindex extracts (`None` when the file is missing, empty, too big or binary). */
  datatype World<!E> = World(indexed: Path -> bool, rel: Path -> Rel, extract: Path -> Option<E>)

  // ----- Events, one at a time -----

  function TouchAll(paths: seq<Path>, kind: Kind): seq<Touch>
  {
    if paths == [] then [] else TouchAll(paths[..|paths| - 1], kind) + [Touch(paths[|paths| - 1], kind)]
  }

  /** The paths an event touches; a rename with both paths removes one and creates the other. */
  function Touches(e: Event): seq<Touch>
  {
    if e.kind.Renamed? && |e.paths| >= 2 then [Touch(e.paths[0], Removed), Touch(e.paths[1], Created)]
    else TouchAll(e.paths, e.kind)
  }

  function TouchesOf(events: seq<Event>): seq<Touch>
  {
    if events == [] then []
    else TouchesOf(events[..|events| - 1]) + Touches(events[|events| - 1])
  }

  /** Old entries go first; they come back only if the file can be read. */
  function Reindex<E>(index: Index<E>, path: Path, w: World<E>): Index<E>
  {
    match w.extract(path)
    case None => index - {w.rel(path)}
    case Some(entry) => index[w.rel(path) := entry]
  }

  function ApplyOne<E>(index: Index<E>, t: Touch, w: World<E>): Index<E>
  {
    if !w.indexed(t.path) then index
    else if t.kind.Removed? then index - {w.rel(t.path)}
    else Reindex(index, t.path, w)
  }

  function ApplyAll<E>(index: Index<E>, ts: seq<Touch>, w: World<E>): Index<E>
  {
    if ts == [] then index
    else ApplyOne(ApplyAll(index, ts[..|ts| - 1], w), ts[|ts| - 1], w)
  }

  // ----- Coalescing -----

  function Insert(events: map<Path, Kind>, t: Touch): map<Path, Kind>
  {
    if t.path !in events then events[t.path := t.kind]
    else match (events[t.path], t.kind)
         case (Created, Removed) => events - {t.path}
         case (Modified, Removed) => events - {t.path}
         case (Removed, Created) => events[t.path := Created]
         case (Removed, Modified) => events[t.path := Created]
         case _ => events[t.path := t.kind]
  }

  function Coalesce(ts: seq<Touch>): map<Path, Kind>
  {
    if ts == [] then map[] else Insert(Coalesce(ts[..|ts| - 1]), ts[|ts| - 1])
  }

  /** `order` lists the keys of the map once each. */
  ghost predicate Lists(order: seq<Path>, events: map<Path, Kind>)
  {
    && (forall p :: p in order <==> p in events)
    && (forall j, k :: 0 <= j < k < |order| ==> order[j] != order[k])
  }

  function Pairs(order: seq<Path>, events: map<Path, Kind>): (ts: seq<Touch>)
    requires forall p :: p in order ==> p in events
    ensures |ts| == |order|
  {
    seq(|order|, k requires 0 <= k < |order| => Touch(order[k], events[order[k]]))
  }

  // ----- What a batch does to each entry -----

  function Get<E>(index: Index<E>, r: Rel): Option<E>
  {
    if r in index then Some(index[r]) else None
  }

  /** The last touch whose file is indexed under the name `r`. */
  function LastFor<E>(ts: seq<Touch>, r: Rel, w: World<E>): Option<Touch>
  {
    if ts == [] then None
    else
      var t := ts[|ts| - 1];
      if w.indexed(t.path) && w.rel(t.path) == r then Some(t) else LastFor(ts[..|ts| - 1], r, w)
  }

  function Outcome<E>(was: Option<E>, last: Option<Touch>, w: World<E>): Option<E>
  {
    match last
    case None => was
    case Some(t) => if t.kind.Removed? then None else w.extract(t.path)
  }

  /** Only the last touch of a name counts. */
  lemma {:induction false} ApplyAllAt<E>(index: Index<E>, ts: seq<Touch>, w: World<E>, r: Rel)
    ensures Get(ApplyAll(index, ts, w), r) == Outcome(Get(index, r), LastFor(ts, r, w), w)
  {
    if ts != [] { ApplyAllAt(index, ts[..|ts| - 1], w, r); }
  }

  predicate Named<E>(p: Path, r: Rel, w: World<E>)
  {
    w.indexed(p) && w.rel(p) == r
  }

  predicate SameName<E>(p: Path, q: Path, w: World<E>)
  {
    w.indexed(p) && w.indexed(q) && w.rel(p) == w.rel(q)
  }

  /** The last touch of one path. */
  function LastOf(ts: seq<Touch>, p: Path): (r: Option<Touch>)
    ensures r.Some? ==> r.value in ts && r.value.path == p
    ensures r.None? ==> forall k :: 0 <= k < |ts| ==> ts[k].path != p
  {
    if ts == [] then None
    else if ts[|ts| - 1].path == p then Some(ts[|ts| - 1])
    else LastOf(ts[..|ts| - 1], p)
  }

  /** The last touch of a name is the last of its own path. */
  lemma {:induction false} LastForIsLastOf<E>(ts: seq<Touch>, r: Rel, w: World<E>)
    ensures var last := LastFor(ts, r, w);
            last.Some? ==> last.value in ts && Named(last.value.path, r, w) && LastOf(ts, last.value.path) == last
  {
    if ts != [] { LastForIsLastOf(ts[..|ts| - 1], r, w); }
  }

  lemma {:induction false} LastForNone<E>(ts: seq<Touch>, r: Rel, w: World<E>)
    ensures LastFor(ts, r, w) == None <==> forall k :: 0 <= k < |ts| ==> !Named(ts[k].path, r, w)
  {
    if ts != [] { LastForNone(ts[..|ts| - 1], r, w); }
  }

  /** A path left in the map has the effect of its last event; a touched path that is
      not left ended on a removal. */
  lemma {:induction false} CoalescedKind(ts: seq<Touch>, p: Path)
    ensures p in Coalesce(ts) ==> LastOf(ts, p).Some?
    ensures p in Coalesce(ts) ==> (Coalesce(ts)[p].Removed? <==> LastOf(ts, p).value.kind.Removed?)
    ensures p !in Coalesce(ts) && LastOf(ts, p).Some? ==> LastOf(ts, p).value.kind.Removed?
  {
    if ts != [] { CoalescedKind(ts[..|ts| - 1], p); }
  }

  /** What one path went through, in order. */
  function KindsOf(ts: seq<Touch>, p: Path): seq<Kind>
  {
    if ts == [] then []
    else KindsOf(ts[..|ts| - 1], p) + if ts[|ts| - 1].path == p then [ts[|ts| - 1].kind] else []
  }

  /** The path was removed right after it was created or modified. */
  ghost predicate Cancelled(kinds: seq<Kind>)
  {
    var n := |kinds|;
    n >= 2 && kinds[n - 1].Removed? && (kinds[n - 2].Created? || kinds[n - 2].Modified?)
  }

  /** A path leaves the batch exactly when its last two changes cancel; otherwise it stays
      with a kind that acts as its last change. */
  lemma {:induction false} CancelledIff(ts: seq<Touch>, p: Path)
    ensures var ks := KindsOf(ts, p);
            && (p in Coalesce(ts) <==> ks != [] && !Cancelled(ks))
            && (p in Coalesce(ts) ==> (Coalesce(ts)[p].Removed? <==> ks[|ks| - 1].Removed?)
                                      && (Coalesce(ts)[p].Renamed? <==> ks[|ks| - 1].Renamed?))
  {
    if ts != [] {
      CancelledIff(ts[..|ts| - 1], p);
    }
  }

  // ----- What each event does -----

  /** Where in the list the last indexed path named `r` stands. */
  ghost predicate LastNamed<E>(paths: seq<Path>, k: nat, r: Rel, w: World<E>)
  {
    && k < |paths| && Named(paths[k], r, w)
    && forall j :: k < j < |paths| ==> !Named(paths[j], r, w)
  }

  lemma {:induction false} TouchAllAt<E>(paths: seq<Path>, kind: Kind, r: Rel, w: World<E>)
    ensures var last := LastFor(TouchAll(paths, kind), r, w);
            && (last.None? <==> forall k :: 0 <= k < |paths| ==> !Named(paths[k], r, w))
            && (forall k: nat :: LastNamed(paths, k, r, w) ==> last == Some(Touch(paths[k], kind)))
  {
    if paths != [] {
      var n := |paths| - 1;
      var ts, front := TouchAll(paths, kind), TouchAll(paths[..n], kind);
      TouchAllAt(paths[..n], kind, r, w);
      assert ts[..|ts| - 1] == front && ts[|ts| - 1] == Touch(paths[n], kind);
      forall k: nat | LastNamed(paths, k, r, w) ensures LastFor(ts, r, w) == Some(Touch(paths[k], kind)) {
        if k < n { assert LastNamed(paths[..n], k, r, w); }
      }
    }
  }

  /** The index after one event, said of its paths: after a rename from `old` to `new` the
      new name holds what the disk reads for the new path, the old name nothing, unless it
      is the same name, and every other name what it held. */
  lemma RenameMoves<E>(index: Index<E>, paths: seq<Path>, w: World<E>, r: Rel)
    requires |paths| >= 2
    ensures var before, now := paths[0], paths[1];
            var after := Get(ApplyAll(index, Touches(Event(Renamed, paths)), w), r);
            after == if Named(now, r, w) then w.extract(now)
                     else if Named(before, r, w) then None else Get(index, r)
  {
    var ts := Touches(Event(Renamed, paths));
    assert ts[..1] == [Touch(paths[0], Removed)] && ts[..1][..0] == [];
    assert LastFor(ts[..1], r, w) == if Named(paths[0], r, w) then Some(ts[0]) else None;
    ApplyAllAt(index, ts, w, r);
  }

  /** After any other event each name holds what the disk reads for the last of the event's
      indexed paths with that name, nothing when the event removed them, and every name
      that none of them has what it held. */
  lemma EventRereads<E>(index: Index<E>, e: Event, w: World<E>, r: Rel)
    requires !(e.kind.Renamed? && |e.paths| >= 2)
    ensures var after := Get(ApplyAll(index, Touches(e), w), r);
            && (forall k: nat :: LastNamed(e.paths, k, r, w)
                  ==> after == if e.kind.Removed? then None else w.extract(e.paths[k]))
            && ((forall k :: 0 <= k < |e.paths| ==> !Named(e.paths[k], r, w)) ==> after == Get(index, r))
  {
    TouchAllAt(e.paths, e.kind, r, w);
    ApplyAllAt(index, Touches(e), w, r);
  }

  // ----- The batch against the single events -----

  function ApplyBatch<E>(index: Index<E>, ts: seq<Touch>, order: seq<Path>, w: World<E>): Index<E>
    requires Lists(order, Coalesce(ts))
  {
    ApplyAll(index, Pairs(order, Coalesce(ts)), w)
  }

  /** What the command left for a path makes of its entry. */
  function LeftOutcome<E>(left: map<Path, Kind>, p: Path, w: World<E>): Option<E>
    requires p in left
  {
    if left[p].Removed? then None else w.extract(p)
  }

  ghost predicate NoneLeft<E>(left: map<Path, Kind>, r: Rel, w: World<E>)
  {
    forall p :: p in left ==> !Named(p, r, w)
  }

  /** At one name, every path left makes of the entry what the last event of the name does;
      with no path left, there was no entry before. */
  ghost predicate AgreesAt<E>(index: Index<E>, ts: seq<Touch>, r: Rel, w: World<E>)
  {
    var left := Coalesce(ts);
    && (forall p :: p in left && Named(p, r, w) ==> LeftOutcome(left, p, w) == Outcome(None, LastFor(ts, r, w), w))
    && (NoneLeft(left, r, w) ==> r !in index)
  }

  ghost predicate BatchAgrees<E>(index: Index<E>, ts: seq<Touch>, w: World<E>)
  {
    forall k :: 0 <= k < |ts| && w.indexed(ts[k].path) ==> AgreesAt(index, ts, w.rel(ts[k].path), w)
  }

  /** Without a path left, the last event of a touched name removed it. */
  lemma NoneLeftRemoves<E>(ts: seq<Touch>, r: Rel, w: World<E>)
    requires NoneLeft(Coalesce(ts), r, w) && LastFor(ts, r, w).Some?
    ensures LastFor(ts, r, w).value.kind.Removed?
  {
    LastForIsLastOf(ts, r, w);
    CoalescedKind(ts, LastFor(ts, r, w).value.path);
  }

  /** What the batch does at a name: the command that comes last in the order decides. */
  lemma BatchAt<E>(index: Index<E>, ts: seq<Touch>, order: seq<Path>, w: World<E>, r: Rel)
    requires Lists(order, Coalesce(ts))
    ensures var left, last := Coalesce(ts), LastFor(Pairs(order, Coalesce(ts)), r, w);
            && (last.None? <==> NoneLeft(left, r, w))
            && (last.Some? ==> last.value.path in left && Named(last.value.path, r, w))
            && Get(ApplyBatch(index, ts, order, w), r)
               == if last.None? then Get(index, r) else LeftOutcome(left, last.value.path, w)
  {
    var left := Coalesce(ts);
    var pairs := Pairs(order, left);
    LastForNone(pairs, r, w);
    LastForIsLastOf(pairs, r, w);
    ApplyAllAt(index, pairs, w, r);
    forall p | p in left && Named(p, r, w) ensures LastFor(pairs, r, w).Some? {
      assert p in order;
      var k :| 0 <= k < |order| && order[k] == p;
      assert Named(pairs[k].path, r, w);
    }
  }

  lemma SameAt<E>(index: Index<E>, ts: seq<Touch>, order: seq<Path>, w: World<E>, r: Rel)
    requires Lists(order, Coalesce(ts)) && BatchAgrees(index, ts, w)
    ensures Get(ApplyBatch(index, ts, order, w), r) == Get(ApplyAll(index, ts, w), r)
  {
    var last := LastFor(ts, r, w);
    BatchAt(index, ts, order, w, r);
    ApplyAllAt(index, ts, w, r);
    LastForIsLastOf(ts, r, w);
    LastForNone(ts, r, w);
    if last.Some? {
      var k :| 0 <= k < |ts| && ts[k] == last.value;
      assert AgreesAt(index, ts, w.rel(ts[k].path), w);
      if NoneLeft(Coalesce(ts), r, w) { NoneLeftRemoves(ts, r, w); }
    } else {
      forall p | p in Coalesce(ts) ensures !Named(p, r, w) { CoalescedKind(ts, p); }
    }
  }

  // ----- Orders of the map -----

  lemma {:induction false} SomeOrder(events: map<Path, Kind>) returns (order: seq<Path>)
    ensures Lists(order, events)
    decreases |events|
  {
    if events == map[] {
      order := [];
    } else {
      var p :| p in events;
      var front := SomeOrder(events - {p});
      order := front + [p];
      ListsOneMore(front, events, p);
    }
  }

  lemma ListsOneMore(front: seq<Path>, events: map<Path, Kind>, p: Path)
    requires p in events && Lists(front, events - {p})
    ensures Lists(front + [p], events)
  {
    var order, rest := front + [p], events - {p};
    assert p !in rest && p !in front;
    assert forall q :: q in events <==> q in rest || q == p;
    forall q ensures q in order <==> q in events {
      assert q in order <==> q in front || q == p;
    }
    assert forall k :: 0 <= k < |front| ==> order[k] == front[k] && order[k] in front;
  }

  lemma OrderEndingIn(events: map<Path, Kind>, p: Path) returns (order: seq<Path>)
    requires p in events
    ensures Lists(order, events) && order != [] && order[|order| - 1] == p
  {
    var front := SomeOrder(events - {p});
    order := front + [p];
    ListsOneMore(front, events, p);
  }

  /** In some order the batch leaves at `r` what the command for `p` makes of it. */
  lemma LastInOrder<E>(index: Index<E>, ts: seq<Touch>, w: World<E>, p: Path, r: Rel) returns (order: seq<Path>)
    requires p in Coalesce(ts) && Named(p, r, w)
    ensures Lists(order, Coalesce(ts))
    ensures Get(ApplyBatch(index, ts, order, w), r) == LeftOutcome(Coalesce(ts), p, w)
  {
    order := OrderEndingIn(Coalesce(ts), p);
    assert LastFor(Pairs(order, Coalesce(ts)), r, w) == Some(Touch(p, Coalesce(ts)[p]));
    BatchAt(index, ts, order, w, r);
  }

  /** Whatever order the map is walked in, a coalesced batch has the effect of its events
      one at a time, exactly when at every touched name the paths left agree with the
      name's last event, and a name with no path left had no entry. */
  lemma BatchRefinesIff<E>(index: Index<E>, ts: seq<Touch>, w: World<E>)
    ensures (forall order :: Lists(order, Coalesce(ts)) ==> ApplyBatch(index, ts, order, w) == ApplyAll(index, ts, w))
            <==> BatchAgrees(index, ts, w)
  {
    var singly := ApplyAll(index, ts, w);
    if BatchAgrees(index, ts, w) {
      forall order | Lists(order, Coalesce(ts)) ensures ApplyBatch(index, ts, order, w) == singly {
        forall r ensures Get(ApplyBatch(index, ts, order, w), r) == Get(singly, r) { SameAt(index, ts, order, w, r); }
        SameEntries(ApplyBatch(index, ts, order, w), singly);
      }
    }
    if forall order :: Lists(order, Coalesce(ts)) ==> ApplyBatch(index, ts, order, w) == singly {
      forall k | 0 <= k < |ts| && w.indexed(ts[k].path) ensures AgreesAt(index, ts, w.rel(ts[k].path), w) {
        RefinesAt(index, ts, w, k);
      }
    }
  }

  lemma RefinesAt<E>(index: Index<E>, ts: seq<Touch>, w: World<E>, k: nat)
    requires k < |ts| && w.indexed(ts[k].path)
    requires forall order :: Lists(order, Coalesce(ts)) ==> ApplyBatch(index, ts, order, w) == ApplyAll(index, ts, w)
    ensures AgreesAt(index, ts, w.rel(ts[k].path), w)
  {
    var r, left := w.rel(ts[k].path), Coalesce(ts);
    ApplyAllAt(index, ts, w, r);
    LastForNone(ts, r, w);
    assert Named(ts[k].path, r, w);
    forall p | p in left && Named(p, r, w) ensures LeftOutcome(left, p, w) == Outcome(None, LastFor(ts, r, w), w) {
      var order := LastInOrder(index, ts, w, p, r);
    }
    if NoneLeft(left, r, w) {
      var order := SomeOrder(left);
      BatchAt(index, ts, order, w, r);
      NoneLeftRemoves(ts, r, w);
    }
  }

  ghost predicate LeftAgree<E>(ts: seq<Touch>, w: World<E>)
  {
    var left := Coalesce(ts);
    forall p, q :: p in left && q in left && SameName(p, q, w) ==> LeftOutcome(left, p, w) == LeftOutcome(left, q, w)
  }

  lemma SameEntries<E>(a: Index<E>, b: Index<E>)
    requires forall r :: Get(a, r) == Get(b, r)
    ensures a == b
  {
    assert forall r :: r in a <==> Get(a, r).Some?;
    assert forall r :: r in b <==> Get(b, r).Some?;
    assert forall r :: r in a ==> Get(a, r) == Some(a[r]) && Get(b, r) == Some(b[r]);
  }

  /** The order in which the map is walked does not matter exactly when the paths left
      under one name agree; paths with names of their own always do. */
  lemma OrderIrrelevantIff<E>(index: Index<E>, ts: seq<Touch>, w: World<E>)
    ensures (forall a, b :: Lists(a, Coalesce(ts)) && Lists(b, Coalesce(ts))
               ==> ApplyBatch(index, ts, a, w) == ApplyBatch(index, ts, b, w))
            <==> LeftAgree(ts, w)
  {
    var left := Coalesce(ts);
    if LeftAgree(ts, w) {
      forall a, b | Lists(a, left) && Lists(b, left) ensures ApplyBatch(index, ts, a, w) == ApplyBatch(index, ts, b, w) {
        AnyOrder(index, ts, a, b, w);
      }
    }
    if forall a, b :: Lists(a, left) && Lists(b, left) ==> ApplyBatch(index, ts, a, w) == ApplyBatch(index, ts, b, w) {
      forall p, q | p in left && q in left && SameName(p, q, w) ensures LeftOutcome(left, p, w) == LeftOutcome(left, q, w) {
        var a := LastInOrder(index, ts, w, p, w.rel(p));
        var b := LastInOrder(index, ts, w, q, w.rel(p));
      }
    }
  }

  lemma AnyOrder<E>(index: Index<E>, ts: seq<Touch>, a: seq<Path>, b: seq<Path>, w: World<E>)
    requires Lists(a, Coalesce(ts)) && Lists(b, Coalesce(ts)) && LeftAgree(ts, w)
    ensures ApplyBatch(index, ts, a, w) == ApplyBatch(index, ts, b, w)
  {
    forall r ensures Get(ApplyBatch(index, ts, a, w), r) == Get(ApplyBatch(index, ts, b, w), r) {
      AnyOrderAt(index, ts, a, b, w, r);
    }
    SameEntries(ApplyBatch(index, ts, a, w), ApplyBatch(index, ts, b, w));
  }

  lemma AnyOrderAt<E>(index: Index<E>, ts: seq<Touch>, a: seq<Path>, b: seq<Path>, w: World<E>, r: Rel)
    requires Lists(a, Coalesce(ts)) && Lists(b, Coalesce(ts)) && LeftAgree(ts, w)
    ensures Get(ApplyBatch(index, ts, a, w), r) == Get(ApplyBatch(index, ts, b, w), r)
  {
    var left := Coalesce(ts);
    var p, q := LastFor(Pairs(a, left), r, w), LastFor(Pairs(b, left), r, w);
    BatchAt(index, ts, a, w, r);
    BatchAt(index, ts, b, w, r);
    if p.Some? && q.Some? { assert SameName(p.value.path, q.value.path, w); }
  }

  // ----- Files with names of their own -----

  /** No two touched files share a name in the index. */
  ghost predicate DistinctNames<E>(ts: seq<Touch>, w: World<E>)
  {
    forall j, k :: 0 <= j < |ts| && 0 <= k < |ts| && SameName(ts[j].path, ts[k].path, w) ==> ts[j].path == ts[k].path
  }

  /** Paths whose create or change was cancelled by a removal had no entry before. */
  ghost predicate NoStaleCancel<E>(index: Index<E>, ts: seq<Touch>, w: World<E>)
  {
    forall k :: 0 <= k < |ts| && w.indexed(ts[k].path) && ts[k].path !in Coalesce(ts)
                ==> w.rel(ts[k].path) !in index
  }

  /** When no two touched files share a name, the order does not matter, and all that can
      go wrong is a cancelled path that had an entry. */
  lemma DistinctAgreeIff<E>(index: Index<E>, ts: seq<Touch>, w: World<E>)
    requires DistinctNames(ts, w)
    ensures BatchAgrees(index, ts, w) <==> NoStaleCancel(index, ts, w)
    ensures LeftAgree(ts, w)
  {
    var left := Coalesce(ts);
    forall p | p in left ensures exists k :: 0 <= k < |ts| && ts[k].path == p {
      CoalescedKind(ts, p);
      assert LastOf(ts, p).value in ts;
    }
    forall k | 0 <= k < |ts| && w.indexed(ts[k].path)
      ensures AgreesAt(index, ts, w.rel(ts[k].path), w) <==> (ts[k].path in left || w.rel(ts[k].path) !in index)
    {
      OwnNameAgrees(index, ts, w, k);
    }
  }

  lemma OwnNameAgrees<E>(index: Index<E>, ts: seq<Touch>, w: World<E>, k: nat)
    requires DistinctNames(ts, w) && k < |ts| && w.indexed(ts[k].path)
    requires forall p :: p in Coalesce(ts) ==> exists j :: 0 <= j < |ts| && ts[j].path == p
    ensures AgreesAt(index, ts, w.rel(ts[k].path), w) <==> (ts[k].path in Coalesce(ts) || w.rel(ts[k].path) !in index)
  {
    var left, p, r := Coalesce(ts), ts[k].path, w.rel(ts[k].path);
    forall q | q in left && Named(q, r, w) ensures q == p {
      assert SameName(q, p, w);
    }
    LastForNone(ts, r, w);
    LastForIsLastOf(ts, r, w);
    assert Named(ts[k].path, r, w);
    var last := LastFor(ts, r, w).value;
    assert SameName(last.path, p, w);
    CoalescedKind(ts, p);
  }

  /** Two files under one name that read differently do not agree. */
  lemma CollidingNamesDisagree<E>(a: E, b: E)
    requires a != b
    ensures var w: World<E> := World(p => true, p => "n", p => Some(if p == "a" then a else b));
            !LeftAgree([Touch("a", Created), Touch("b", Created)], w)
  {
    var w: World<E> := World(p => true, p => "n", p => Some(if p == "a" then a else b));
    var ts := [Touch("a", Created), Touch("b", Created)];
    assert ts[..1] == [Touch("a", Created)] && ts[..1][..0] == [];
    var left := Coalesce(ts);
    assert Coalesce(ts[..1][..0]) == map[] && Coalesce(ts[..1]) == map["a" := Created];
    assert left == map["a" := Created, "b" := Created];
    assert "a" in left && "b" in left && SameName("a", "b", w);
  }

  /** The condition can fail: an indexed file that is changed and then deleted in one
      batch keeps its stale entry, where single events would have dropped it. */
  lemma CancelKeepsStaleEntry<E>(entry: E)
    ensures var w: World<E> := World(p => true, p => p, p => None);
            var ts, index := [Touch("a", Modified), Touch("a", Removed)], map["a" := entry];
            && Lists([], Coalesce(ts))
            && ApplyBatch(index, ts, [], w) == index
            && ApplyAll(index, ts, w) == map[]
  {
    var w: World<E> := World(p => true, p => p, p => None);
    var ts := [Touch("a", Modified), Touch("a", Removed)];
    var index := map["a" := entry];
    assert ts[..1] == [Touch("a", Modified)] && ts[..1][..0] == [];
    assert Coalesce(ts[..1]) == map["a" := Modified];
    assert Coalesce(ts) == map[];
    assert ApplyAll(index, ts[..1], w) == map[];
  }
}
