/** The command loop over the shared index: batches update the manager's cell, and a query
    hands the cell out. */
module SharedLoop {
  import opened IndexEvents
  import opened IndexLoop
  import S = SharedIndex

  /** What a run has done so far, with the answers as the snapshots still held. */
  ghost predicate Shows<E>(m: S.Manager<E>, running: bool, v: View<E>)
    reads m, m.cell, m.held
  {
    m.Valid() && m.Contents() == S.Values(v.index, v.answers) && running == v.running
  }

  /** Changes the manager's index in place, in a copy when someone else holds the cell. */
  method Mutate<E>(m: S.Manager<E>, index: Index<E>)
    requires m.Valid()
    modifies m, m.cell
    ensures m.Valid() && m.held == old(m.held) && (m.cell == old(m.cell) || fresh(m.cell))
    ensures m.Contents() == S.Values(index, old(m.Contents()).held)
  {
    m.MakeMut();
    assert m.cell !in m.held;
    ghost var kept := m.Held();
    m.cell.index := index;
    assert m.Held() == kept;
  }

  method ApplyPairs<E>(m: S.Manager<E>, ts: seq<Touch>, w: World<E>)
    requires m.Valid()
    modifies m, m.cell
    ensures m.Valid() && m.held == old(m.held) && (m.cell == old(m.cell) || fresh(m.cell))
    ensures m.Contents() == S.Values(ApplyAll(old(m.Contents()).index, ts, w), old(m.Contents()).held)
  {
    for i := 0 to |ts|
      invariant m.Valid() && m.held == old(m.held) && (m.cell == old(m.cell) || fresh(m.cell))
      invariant m.Contents() == S.Values(ApplyAll(old(m.Contents()).index, ts[..i], w), old(m.Contents()).held)
    {
      assert ts[..i + 1][..i] == ts[..i];
      m.Apply(ts[i], w);
    }
    assert ts[..|ts|] == ts;
  }

  method DropNames<E>(m: S.Manager<E>, names: seq<Rel>)
    requires m.Valid()
    modifies m, m.cell
    ensures m.Valid() && m.held == old(m.held) && (m.cell == old(m.cell) || fresh(m.cell))
    ensures m.Contents() == S.Values(DropAll(old(m.Contents()).index, names), old(m.Contents()).held)
  {
    for i := 0 to |names|
      invariant m.Valid() && m.held == old(m.held) && (m.cell == old(m.cell) || fresh(m.cell))
      invariant m.Contents() == S.Values(DropAll(old(m.Contents()).index, names[..i]), old(m.Contents()).held)
    {
      assert names[..i + 1][..i] == names[..i];
      Mutate(m, m.cell.index - {names[i]});
    }
    assert names[..|names|] == names;
  }

  method ReindexPaths<E>(m: S.Manager<E>, paths: seq<Path>, d: Disk<E>)
    requires m.Valid()
    modifies m, m.cell
    ensures m.Valid() && m.held == old(m.held) && (m.cell == old(m.cell) || fresh(m.cell))
    ensures m.Contents() == S.Values(ReindexAll(old(m.Contents()).index, paths, d), old(m.Contents()).held)
  {
    for i := 0 to |paths|
      invariant m.Valid() && m.held == old(m.held) && (m.cell == old(m.cell) || fresh(m.cell))
      invariant m.Contents() == S.Values(ReindexAll(old(m.Contents()).index, paths[..i], d), old(m.Contents()).held)
    {
      assert paths[..i + 1][..i] == paths[..i];
      if d.supported(paths[i]) {
        Mutate(m, Reindex(m.cell.index, paths[i], d.world));
      }
    }
    assert paths[..|paths|] == paths;
  }

  /** One command that is no file event; a query hands out the cell itself. */
  method HandleShared<E>(m: S.Manager<E>, c: Command, d: Disk<E>, ghost v: View<E>) returns (running: bool)
    requires !IsFile(c) && v.running && Shows(m, true, v)
    modifies m, m.cell
    ensures Shows(m, running, Handle(v, c, d))
    ensures m.cell == old(m.cell) || fresh(m.cell)
    ensures m.held == old(m.held) || m.held == old(m.held) + [old(m.cell)]
  {
    running := true;
    match c {
      case Rebuild => m.Repoint(d.rebuilt);
      case Refresh(stale, deleted) =>
        DropNames(m, deleted);
        ReindexPaths(m, stale, d);
      case Query => m.Snapshot();
      case Shutdown => running := false;
    }
  }

  method StepShared<E>(m: S.Manager<E>, running: bool, g: Group, d: Disk<E>, ghost v: View<E>) returns (still: bool)
    requires WellGrouped(g) && Shows(m, running, v)
    modifies m, m.cell
    ensures Shows(m, still, StepGrouped(v, g, d))
    ensures m.cell == old(m.cell) || fresh(m.cell)
    ensures m.held == old(m.held) || m.held == old(m.held) + [old(m.cell)]
  {
    if !running { return false; }
    match g {
      case Batch(commands, order) =>
        ApplyPairs(m, Pairs(order, Coalesce(BatchTouches(commands))), d.world);
        still := true;
      case Other(c) => still := HandleShared(m, c, d, v);
    }
  }

  /** Over every grouping of every queue the snapshots held are the answers of the loop by
      value; under a safe grouping each keeps the index that single events had produced
      when its query came. */
  method RunShared<E>(index: Index<E>, groups: seq<Group>, d: Disk<E>) returns (m: S.Manager<E>, running: bool)
    requires AllWellGrouped(groups)
    ensures Shows(m, running, RunGrouped(View(index, [], true), groups, d))
    ensures AllSafe(View(index, [], true), groups, d)
            ==> Shows(m, running, RunSingly(View(index, [], true), Flatten(groups), d))
  {
    ghost var start := View(index, [], true);
    m := new S.Manager(index);
    running := true;
    for i := 0 to |groups|
      invariant fresh(m) && fresh(m.cell) && forall k :: 0 <= k < |m.held| ==> fresh(m.held[k])
      invariant AllWellGrouped(groups[..i]) && Shows(m, running, RunGrouped(start, groups[..i], d))
    {
      assert groups[..i + 1][..i] == groups[..i];
      running := StepShared(m, running, groups[i], d, RunGrouped(start, groups[..i], d));
    }
    assert groups[..|groups|] == groups;
    if AllSafe(start, groups, d) { GroupedRefinesSingle(start, groups, d); }
  }
}
