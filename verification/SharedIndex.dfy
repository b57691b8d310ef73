/** The index behind shared references: snapshots hand out the cell itself, and a change
    copies it first whenever someone else still holds it. */
module SharedIndex {
  import opened Wrappers
  import opened IndexEvents

  // ----- By value -----

  /** The manager's index and the snapshots still held, as plain values. */
  datatype Values<!E> = Values(index: Index<E>, held: seq<Index<E>>)

  datatype Op<!E> = Change(touch: Touch) | Rebuild(rebuilt: Index<E>) | GetSnapshot | Release(k: nat)

  function Without<T>(s: seq<T>, k: nat): seq<T>
    requires k < |s|
  {
    s[..k] + s[k + 1..]
  }

  function Next<E>(v: Values<E>, op: Op<E>, w: World<E>): Values<E>
  {
    match op
    case Change(t) => v.(index := ApplyOne(v.index, t, w))
    case Rebuild(index) => v.(index := index)
    case GetSnapshot => v.(held := v.held + [v.index])
    case Release(k) => if k < |v.held| then v.(held := Without(v.held, k)) else v
  }

  function After<E>(v: Values<E>, ops: seq<Op<E>>, w: World<E>): Values<E>
  {
    if ops == [] then v else Next(After(v, ops[..|ops| - 1], w), ops[|ops| - 1], w)
  }

  lemma RemoveOne<T>(s: seq<T>, k: nat)
    requires k < |s|
    ensures multiset(Without(s, k)) == multiset(s) - multiset{s[k]}
    ensures forall x :: x in Without(s, k) ==> x in s
  {
    assert s == s[..k] + [s[k]] + s[k + 1..];
  }

  // ----- By reference -----

  /** A reference-counted cell. */
  class Cell<E> {
    var index: Index<E>
    var count: nat

    constructor (index: Index<E>)
      ensures this.index == index && count == 1
    {
      this.index, count := index, 1;
    }
  }

  class Manager<E> {
    var cell: Cell<E>
    /** The snapshots still held by others, oldest first. */
    var held: seq<Cell<E>>

    ghost predicate Valid()
      reads this, cell, held
    {
      && cell.count == multiset(held)[cell] + 1
      && forall k :: 0 <= k < |held| && held[k] != cell ==> held[k].count == multiset(held)[held[k]]
    }

    ghost function Held(): (r: seq<Index<E>>)
      reads this, held
      ensures |r| == |held|
    {
      seq(|held|, k requires 0 <= k < |held| reads this, held => held[k].index)
    }

    ghost function Contents(): Values<E>
      reads this, cell, held
    {
      Values(cell.index, Held())
    }

    constructor (index: Index<E>)
      ensures Valid() && fresh(cell) && held == []
      ensures Contents() == Values(index, [])
    {
      held := [];
      cell := new Cell(index);
    }

    /** Hands out the cell itself. */
    method Snapshot()
      requires Valid()
      modifies this, cell
      ensures Valid() && cell == old(cell) && held == old(held) + [cell]
      ensures Contents() == Values(old(Contents()).index, old(Contents()).held + [old(Contents()).index])
    {
      cell.count := cell.count + 1;
      held := held + [cell];
    }

    method Drop(k: nat)
      requires Valid() && k < |held|
      modifies this, held
      ensures Valid() && cell == old(cell) && held == Without(old(held), k)
      ensures Contents() == Values(old(Contents()).index, Without(old(Contents()).held, k))
    {
      held[k].count := held[k].count - 1;
      RemoveOne(held, k);
      held := Without(held, k);
    }

    /** The manager's own reference goes to a new cell. */
    method Repoint(index: Index<E>)
      requires Valid()
      modifies this, cell
      ensures Valid() && fresh(cell) && cell.count == 1 && held == old(held)
      ensures Contents() == Values(index, old(Contents()).held)
    {
      cell.count := cell.count - 1;
      cell := new Cell(index);
    }

    /** Afterwards no one else holds the manager's cell. */
    method MakeMut()
      requires Valid()
      modifies this, cell
      ensures Valid() && cell.count == 1 && held == old(held)
      ensures cell == old(cell) || fresh(cell)
      ensures Contents() == old(Contents())
    {
      if cell.count != 1 {
        Repoint(cell.index);
      }
    }

    method Apply(t: Touch, w: World<E>)
      requires Valid()
      modifies this, cell
      ensures Valid() && held == old(held) && (cell == old(cell) || fresh(cell))
      ensures Contents() == Next(old(Contents()), Change(t), w)
    {
      if !w.indexed(t.path) {
        return;
      }
      MakeMut();
      assert cell !in held;
      ghost var kept := Held();
      cell.index := cell.index - {w.rel(t.path)};
      if !t.kind.Removed? {
        match w.extract(t.path) {
          case None =>
          case Some(entry) =>
            MakeMut();
            assert cell !in held;
            cell.index := cell.index[w.rel(t.path) := entry];
        }
      }
      assert Held() == kept;
    }

    method Step(op: Op<E>, w: World<E>)
      requires Valid()
      modifies this, cell, held
      ensures Valid() && Contents() == Next(old(Contents()), op, w)
      ensures cell == old(cell) || fresh(cell)
      ensures forall k :: 0 <= k < |held| ==> held[k] in old(held) || held[k] == old(cell)
    {
      match op {
        case Change(t) => Apply(t, w);
        case Rebuild(rebuilt) => Repoint(rebuilt);
        case GetSnapshot => Snapshot();
        case Release(k) =>
          if k < |held| {
            Drop(k);
          }
      }
    }
  }

  /** Over every run, each held snapshot keeps what the index was when it was handed out,
      and the manager's index is the one a run without snapshots gives. */
  method Run<E>(index: Index<E>, ops: seq<Op<E>>, w: World<E>) returns (m: Manager<E>)
    ensures m.Valid() && m.Contents() == After(Values(index, []), ops, w)
  {
    m := new Manager(index);
    for i := 0 to |ops|
      invariant fresh(m) && fresh(m.cell) && m.Valid()
      invariant forall k :: 0 <= k < |m.held| ==> fresh(m.held[k])
      invariant m.Contents() == After(Values(index, []), ops[..i], w)
    {
      assert ops[..i + 1][..i] == ops[..i];
      m.Step(ops[i], w);
    }
    assert ops[..|ops|] == ops;
  }

  function Mutations<E>(ops: seq<Op<E>>): seq<Op<E>>
  {
    if ops == [] then []
    else
      var last := ops[|ops| - 1];
      var front := Mutations(ops[..|ops| - 1]);
      if last.Change? || last.Rebuild? then front + [last] else front
  }

  lemma IndexOnly<E>(a: Values<E>, b: Values<E>, op: Op<E>, w: World<E>)
    requires a.index == b.index
    ensures Next(a, op, w).index == Next(b, op, w).index
    ensures op.GetSnapshot? || op.Release? ==> Next(a, op, w).index == a.index
  {
  }

  lemma AfterStep<E>(v: Values<E>, ops: seq<Op<E>>, op: Op<E>, w: World<E>)
    ensures After(v, ops + [op], w) == Next(After(v, ops, w), op, w)
  {
    assert (ops + [op])[..|ops|] == ops;
  }

  /** The manager's index does not depend on which snapshots are taken and dropped. */
  lemma {:induction false} SnapshotsDoNotMatter<E>(v: Values<E>, ops: seq<Op<E>>, w: World<E>)
    ensures After(v, ops, w).index == After(Values(v.index, []), Mutations(ops), w).index
  {
    if ops != [] {
      var front, op := ops[..|ops| - 1], ops[|ops| - 1];
      SnapshotsDoNotMatter(v, front, w);
      var bare := Values(v.index, []);
      IndexOnly(After(v, front, w), After(bare, Mutations(front), w), op, w);
      assert ops == front + [op];
      AfterStep(v, front, op, w);
      if op.Change? || op.Rebuild? {
        AfterStep(bare, Mutations(front), op, w);
      }
    }
  }

  /** Where the snapshot held at `slot` is after a run, or `None` once it is released:
      releasing an older one moves it down. */
  function SlotAfter<E>(slot: nat, ops: seq<Op<E>>): Option<nat>
  {
    if ops == [] then Some(slot)
    else
      var op, at := ops[|ops| - 1], SlotAfter(slot, ops[..|ops| - 1]);
      if at.None? || !op.Release? || op.k > at.value then at
      else if op.k == at.value then None
      else Some(at.value - 1)
  }

  /** A snapshot taken after `before` shows the index of that time for as long as it is
      held, whatever is changed, rebuilt, taken or released around it. */
  lemma {:induction false} SnapshotKeepsItsTime<E>(v: Values<E>, before: seq<Op<E>>, after: seq<Op<E>>, w: World<E>)
    ensures var at := SlotAfter(|After(v, before, w).held|, after);
            var held := After(v, before + [GetSnapshot] + after, w).held;
            at.Some? ==> at.value < |held| && held[at.value] == After(v, before, w).index
  {
    var taken := before + [GetSnapshot];
    if after == [] {
      assert taken + after == taken;
      AfterStep(v, before, GetSnapshot, w);
    } else {
      var front, op := after[..|after| - 1], after[|after| - 1];
      assert taken + after == taken + front + [op];
      AfterStep(v, taken + front, op, w);
      SnapshotKeepsItsTime(v, before, front, w);
    }
  }
}
