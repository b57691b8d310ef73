/** The string interner: one byte arena, fixed-width offsets into it, and buckets of ids
    by hash, against a plain list of distinct byte strings. */
module Interner {
  import opened Wrappers

  type byte = b: int | 0 <= b < 256
  type Bytes = seq<byte>

  const U16: nat := 0x1_0000
  const U32: nat := 0x1_0000_0000

  // ----- The plain list -----

  ghost predicate Distinct(table: seq<Bytes>)
  {
    forall j, k :: 0 <= j < k < |table| ==> table[j] != table[k]
  }

  /** The position of a string in the list. */
  function IdOf(table: seq<Bytes>, s: Bytes): (id: Option<nat>)
    ensures id.Some? ==> id.value < |table| && table[id.value] == s
    ensures id.None? ==> s !in table
  {
    if table == [] then None
    else if table[|table| - 1] == s then Some(|table| - 1)
    else IdOf(table[..|table| - 1], s)
  }

  function Interned(table: seq<Bytes>, s: Bytes): seq<Bytes>
  {
    if s in table then table else table + [s]
  }

  function InternedAll(table: seq<Bytes>, strings: seq<Bytes>): seq<Bytes>
  {
    if strings == [] then table
    else Interned(InternedAll(table, strings[..|strings| - 1]), strings[|strings| - 1])
  }

  lemma IdIsPosition(table: seq<Bytes>, id: nat)
    requires Distinct(table) && id < |table|
    ensures IdOf(table, table[id]) == Some(id)
  {
    assert table[id] in table;
  }

  /** Interning only appends: ids stay what they were, strings stay distinct, and exactly
      the interned strings are found. */
  lemma {:induction false} InterningAppends(table: seq<Bytes>, strings: seq<Bytes>)
    requires Distinct(table)
    ensures var t := InternedAll(table, strings);
            && table <= t && Distinct(t)
            && (forall s :: s in t <==> s in table || s in strings)
            && forall s :: s in table ==> IdOf(t, s) == IdOf(table, s)
  {
    var t := InternedAll(table, strings);
    if strings != [] {
      var front := strings[..|strings| - 1];
      InterningAppends(table, front);
      assert strings == front + [strings[|strings| - 1]];
    }
    forall s | s in table ensures IdOf(t, s) == IdOf(table, s) {
      var id := IdOf(table, s).value;
      IdIsPosition(table, id);
      IdIsPosition(t, id);
    }
  }

  // ----- The arena -----

  function Slice(arena: Bytes, at: (nat, nat)): (r: Option<Bytes>)
  {
    if at.0 + at.1 <= |arena| then Some(arena[at.0..at.0 + at.1]) else None
  }

  /** Every string of the list is where its offset says. */
  ghost predicate Stores(arena: Bytes, offsets: seq<(nat, nat)>, table: seq<Bytes>)
  {
    && |offsets| == |table|
    && forall k :: 0 <= k < |table| ==> Slice(arena, offsets[k]) == Some(table[k])
  }

  /** The buckets hold exactly the ids of the list, each under the hash of its string. */
  ghost predicate Indexes(lookup: map<nat, seq<nat>>, table: seq<Bytes>, hash: Bytes -> nat)
  {
    && (forall id: nat :: id < |table| ==> InBucket(lookup, hash(table[id]), id))
    && (forall h: nat, id: nat :: InBucket(lookup, h, id) ==> id < |table| && hash(table[id]) == h)
  }

  predicate InBucket(lookup: map<nat, seq<nat>>, h: nat, id: nat)
  {
    h in lookup && id in lookup[h]
  }

  function Push(lookup: map<nat, seq<nat>>, h: nat, id: nat): map<nat, seq<nat>>
  {
    lookup[h := (if h in lookup then lookup[h] else []) + [id]]
  }

  lemma PushInBucket(lookup: map<nat, seq<nat>>, h: nat, id: nat, h': nat, id': nat)
    ensures InBucket(Push(lookup, h, id), h', id') <==> InBucket(lookup, h', id') || (h' == h && id' == id)
  {
    assert Push(lookup, h, id)[h][|Push(lookup, h, id)[h]| - 1] == id;
  }

  lemma PushIndexes(lookup: map<nat, seq<nat>>, table: seq<Bytes>, s: Bytes, hash: Bytes -> nat)
    requires Indexes(lookup, table, hash)
    ensures Indexes(Push(lookup, hash(s), |table|), table + [s], hash)
  {
    var after, more := Push(lookup, hash(s), |table|), table + [s];
    forall id: nat | id < |more| ensures InBucket(after, hash(more[id]), id) {
      PushInBucket(lookup, hash(s), |table|, hash(more[id]), id);
      if id < |table| { assert more[id] == table[id]; }
    }
    forall h: nat, id: nat | InBucket(after, h, id) ensures id < |more| && hash(more[id]) == h {
      PushInBucket(lookup, hash(s), |table|, h, id);
      if id < |table| { assert more[id] == table[id]; }
    }
  }

  lemma StoresMore(arena: Bytes, offsets: seq<(nat, nat)>, table: seq<Bytes>, s: Bytes)
    requires Stores(arena, offsets, table)
    ensures Stores(arena + s, offsets + [(|arena|, |s|)], table + [s])
  {
    var more := arena + s;
    forall k | 0 <= k < |table| ensures Slice(more, offsets[k]) == Some(table[k]) {
      assert Slice(arena, offsets[k]) == Some(table[k]);
      assert more[offsets[k].0..offsets[k].0 + offsets[k].1] == arena[offsets[k].0..offsets[k].0 + offsets[k].1];
    }
    assert more[|arena|..|arena| + |s|] == s;
  }

  /** A string appended to the arena reads back exactly when 16 bits hold its length. */
  lemma ReadsBackIff(arena: Bytes, s: Bytes)
    requires |arena| < U32
    ensures Slice(arena + s, (|arena| % U32, |s| % U16)) == Some(s) <==> |s| < U16
  {
    if |s| < U16 {
      assert (arena + s)[|arena|..|arena| + |s|] == s;
    }
  }

  ghost predicate Represents(arena: Bytes, offsets: seq<(nat, nat)>, lookup: map<nat, seq<nat>>,
                             table: seq<Bytes>, hash: Bytes -> nat)
  {
    Distinct(table) && Stores(arena, offsets, table) && Indexes(lookup, table, hash)
  }

  lemma AppendKeeps(arena: Bytes, offsets: seq<(nat, nat)>, lookup: map<nat, seq<nat>>,
                    table: seq<Bytes>, hash: Bytes -> nat, s: Bytes)
    requires Represents(arena, offsets, lookup, table, hash) && s !in table
    ensures Represents(arena + s, offsets + [(|arena|, |s|)], Push(lookup, hash(s), |table|), table + [s], hash)
  {
    StoresMore(arena, offsets, table, s);
    PushIndexes(lookup, table, s, hash);
  }

  class StringInterner {
    var arena: Bytes
    var lookup: map<nat, seq<nat>>
    var offsets: seq<(nat, nat)>
    const hash: Bytes -> nat
    ghost var table: seq<Bytes>

    /** The three fields represent the list `table`. */
    ghost predicate Valid()
      reads this
    {
      Represents(arena, offsets, lookup, table, hash)
    }

    constructor (hash: Bytes -> nat)
      ensures Valid() && table == [] && this.hash == hash
    {
      arena, lookup, offsets, table := [], map[], [], [];
      this.hash := hash;
    }

    function GetBytes(id: nat): (r: Option<Bytes>)
      reads this
      ensures Valid() ==> r == if id < |table| then Some(table[id]) else None
    {
      if id < |offsets| then Slice(arena, offsets[id]) else None
    }

    /** The bucket scan shared by interning and lookup. */
    method FindIn(ids: seq<nat>, s: Bytes) returns (r: Option<nat>)
      ensures r.Some? ==> r.value in ids && GetBytes(r.value) == Some(s)
      ensures r.None? ==> forall id :: id in ids ==> GetBytes(id) != Some(s)
    {
      for i := 0 to |ids|
        invariant forall k :: 0 <= k < i ==> GetBytes(ids[k]) != Some(s)
      {
        if GetBytes(ids[i]) == Some(s) {
          return Some(ids[i]);
        }
      }
      r := None;
    }

    /** Lookup succeeds exactly on interned strings, with their id. */
    method GetBytesId(s: Bytes) returns (r: Option<nat>)
      ensures Valid() ==> r == IdOf(table, s)
      ensures r.Some? ==> GetBytes(r.value) == Some(s)
    {
      var h := hash(s);
      r := None;
      if h in lookup {
        r := FindIn(lookup[h], s);
      }
      if Valid() { FoundIsId(s, r); }
    }

    lemma FoundIsId(s: Bytes, r: Option<nat>)
      requires Valid()
      requires r.Some? ==> GetBytes(r.value) == Some(s)
      requires r.None? ==> hash(s) !in lookup || forall id :: id in lookup[hash(s)] ==> GetBytes(id) != Some(s)
      ensures r == IdOf(table, s)
    {
      if r.Some? {
        IdIsPosition(table, r.value);
      } else {
        forall id | 0 <= id < |table| ensures table[id] != s {
          assert InBucket(lookup, hash(table[id]), id);
          assert GetBytes(id) == Some(table[id]);
        }
      }
    }

    /** Positions and ids are stored in 32 bits, lengths in 16; what does not fit wraps. */
    method Append(s: Bytes) returns (id: nat)
      modifies this
      ensures arena == old(arena) + s && id == |old(offsets)| % U32
      ensures offsets == old(offsets) + [(|old(arena)| % U32, |s| % U16)]
      ensures old(Valid()) && s !in old(table) && |s| < U16 && |old(arena)| < U32 && |old(table)| < U32 ==>
                Valid() && table == old(table) + [s]
    {
      var start, len := |arena| % U32, |s| % U16;
      id := |offsets| % U32;
      if Valid() && s !in table && |s| < U16 && |arena| < U32 && |table| < U32 {
        AppendKeeps(arena, offsets, lookup, table, hash, s);
        table := table + [s];
      }
      arena, offsets, lookup := arena + s, offsets + [(start, len)], Push(lookup, hash(s), id);
    }

    method InternBytes(s: Bytes) returns (id: nat)
      modifies this
      // already there: nothing changes
      ensures old(Valid()) && s in old(table) ==>
                Valid() && table == old(table) && arena == old(arena) && Some(id) == IdOf(table, s)
      // new, with room: the list grows by the string
      ensures old(Valid()) && s !in old(table) && |s| < U16 && |old(arena)| < U32 && |old(table)| < U32 ==>
                Valid() && table == old(table) + [s] && arena == old(arena) + s && id == |old(table)|
      // the id reads back as the string exactly when the length fits in 16 bits
      ensures old(Valid()) && s !in old(table) && |old(arena)| < U32 && |old(table)| < U32 ==>
                (GetBytes(id) == Some(s) <==> |s| < U16)
    {
      var found := GetBytesId(s);
      if found.Some? {
        return found.value;
      }
      if |arena| < U32 { ReadsBackIff(arena, s); }
      id := Append(s);
    }

    method Clear()
      modifies this
      ensures Valid() && table == []
    {
      arena, lookup, offsets, table := [], map[], [], [];
    }

    /** Rebuilding from the arena and offsets of an interner gives one that represents
        the same list, so every lookup answers the same. */
    constructor FromParts(arena: Bytes, offsets: seq<(nat, nat)>, hash: Bytes -> nat, ghost was: seq<Bytes>)
      ensures this.arena == arena && this.offsets == offsets && this.hash == hash
      ensures Distinct(was) && Stores(arena, offsets, was) && |was| <= U32 ==> Valid() && table == was
    {
      this.arena, this.offsets, this.hash := arena, offsets, hash;
      this.lookup, this.table := map[], was;
      new;
      ghost var sound := Distinct(was) && Stores(arena, offsets, was) && |was| <= U32;
      for idx := 0 to |offsets|
        invariant this.arena == arena && this.offsets == offsets && table == was
        invariant sound ==> Indexes(this.lookup, was[..idx], hash)
      {
        var piece := Slice(arena, offsets[idx]);
        if piece.Some? {
          if sound { PushIndexes(this.lookup, was[..idx], was[idx], hash); }
          this.lookup := Push(this.lookup, hash(piece.value), idx % U32);
        }
        assert sound ==> was[..idx + 1] == was[..idx] + [was[idx]];
      }
      assert sound ==> was[..|offsets|] == was;
    }

    /** Over any sequence of interned strings that fits, equal ids mean equal strings and
        every id reads back, whatever the hash function collides. */
    method InternAll(strings: seq<Bytes>) returns (ids: seq<nat>)
      requires Valid() && (forall k :: 0 <= k < |strings| ==> |strings[k]| < U16)
      requires |arena| + TotalBytes(strings) < U32 && |table| + |strings| < U32
      modifies this
      ensures Valid() && table == InternedAll(old(table), strings)
      ensures |ids| == |strings| && forall k :: 0 <= k < |ids| ==> GetBytes(ids[k]) == Some(strings[k])
      ensures forall j, k :: 0 <= j < |ids| && 0 <= k < |ids| ==> (ids[j] == ids[k] <==> strings[j] == strings[k])
    {
      ids := [];
      for i := 0 to |strings|
        invariant Valid() && table == InternedAll(old(table), strings[..i])
        invariant |arena| <= |old(arena)| + TotalBytes(strings[..i]) && |table| <= |old(table)| + i
        invariant Names(ids, table, strings[..i])
      {
        assert strings[..i + 1][..i] == strings[..i] && strings[..i + 1] == strings[..i] + [strings[i]];
        PrefixBytes(strings, i + 1);
        ghost var before := table;
        var id := InternBytes(strings[i]);
        assert table == Interned(before, strings[i]);
        NamesMore(ids, before, table, strings[..i], id, strings[i]);
        ids := ids + [id];
      }
      assert strings[..|strings|] == strings;
      NamesMatch(ids, table, strings);
    }
  }

  /** Each id is the position of its string. */
  ghost predicate Names(ids: seq<nat>, table: seq<Bytes>, strings: seq<Bytes>)
  {
    |ids| == |strings| && forall k :: 0 <= k < |ids| ==> ids[k] < |table| && table[ids[k]] == strings[k]
  }

  lemma NamesMore(ids: seq<nat>, table: seq<Bytes>, more: seq<Bytes>, strings: seq<Bytes>, id: nat, s: Bytes)
    requires Names(ids, table, strings) && table <= more && id < |more| && more[id] == s
    ensures Names(ids + [id], more, strings + [s])
  {
  }

  lemma NamesMatch(ids: seq<nat>, table: seq<Bytes>, strings: seq<Bytes>)
    requires Distinct(table) && Names(ids, table, strings)
    ensures forall j, k :: 0 <= j < |ids| && 0 <= k < |ids| ==> (ids[j] == ids[k] <==> strings[j] == strings[k])
  {
  }

  function TotalBytes(strings: seq<Bytes>): nat
  {
    if strings == [] then 0 else TotalBytes(strings[..|strings| - 1]) + |strings[|strings| - 1]|
  }

  lemma {:induction false} PrefixBytes(strings: seq<Bytes>, n: nat)
    requires n <= |strings|
    ensures TotalBytes(strings[..n]) <= TotalBytes(strings)
    decreases |strings| - n
  {
    if n == |strings| {
      assert strings[..n] == strings;
    } else {
      PrefixBytes(strings, n + 1);
      assert strings[..n + 1][..n] == strings[..n];
    }
  }
}
