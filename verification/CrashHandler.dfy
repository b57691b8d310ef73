/** The crash handler: the blob goes out with the crash address alone first, then once
    more with the frames a pointer walk could reach. */
module CrashHandler {
  import opened Wrappers
  import opened Utf8Text
  import opened CrashFormat

  /** Memory as the handler sees it; reading where it is `None` ends the process. */
  type Memory = nat -> Option<u64>

  // ----- The frame walk -----

  predicate PlausibleFrame(fp: nat) { fp >= 4096 && fp % 8 == 0 }

  function Behind(front: seq<u64>, rest: Option<seq<u64>>): Option<seq<u64>>
  {
    match rest
    case None => None
    case Some(s) => Some(front + s)
  }

  lemma BehindBoth(a: seq<u64>, b: seq<u64>, rest: Option<seq<u64>>)
    ensures Behind(a, Behind(b, rest)) == Behind(a + b, rest)
    ensures Behind(a, Some([])) == Some(a)
  {
    if rest.Some? { assert a + (b + rest.value) == (a + b) + rest.value; }
    assert a + [] == a;
  }

  /** Return addresses along the frame chain; `None` when a read faults. */
  function Walk(mem: Memory, fp: nat, max: nat): Option<seq<u64>>
    decreases max
  {
    if max == 0 || !PlausibleFrame(fp) then Some([])
    else match (mem(fp), mem(fp + 8))
         case (Some(prev), Some(ret)) =>
           if ret < 4096 then Some([])
           else if prev <= fp then Some([ret])
           else Behind([ret], Walk(mem, prev, max - 1))
         case _ => None
  }

  method WalkFramePointers(mem: Memory, initialFp: nat, max: nat) returns (out: Option<seq<u64>>)
    ensures out == Walk(mem, initialFp, max)
  {
    var fp, frames := initialFp, [];
    ghost var whole := Walk(mem, initialFp, max);
    assert whole.Some? ==> [] + whole.value == whole.value;
    while |frames| < max
      invariant |frames| <= max
      invariant whole == Behind(frames, Walk(mem, fp, max - |frames|))
    {
      BehindBoth(frames, [], Some([]));
      if !PlausibleFrame(fp) {
        return Some(frames);
      }
      var prev := mem(fp);
      if prev.None? { return None; }
      var ret := mem(fp + 8);
      if ret.None? { return None; }
      if ret.value < 4096 {
        return Some(frames);
      }
      BehindBoth(frames, [ret.value], Walk(mem, prev.value, max - |frames| - 1));
      frames := frames + [ret.value];
      if prev.value <= fp {
        return Some(frames);
      }
      fp := prev.value;
    }
    BehindBoth(frames, [], Some([]));
    out := Some(frames);
  }

  /** The frame pointers whose return addresses a walk collects. */
  ghost function Visited(mem: Memory, fp: nat, max: nat): seq<nat>
    requires Walk(mem, fp, max).Some?
    decreases max
  {
    if Walk(mem, fp, max).value == [] then []
    else if mem(fp).value <= fp then [fp]
    else [fp] + Visited(mem, mem(fp).value, max - 1)
  }

  /** Strictly increasing, aligned pointers above the first page, each the one stored at
      the last, with the return addresses stored beside them. */
  ghost predicate Climbs(mem: Memory, at: seq<nat>, out: seq<u64>)
  {
    && |out| == |at|
    && (forall k :: 0 <= k < |at| ==> Visits(mem, at[k], out[k]))
    && forall k :: 0 <= k < |at| - 1 ==> mem(at[k]) == Some(at[k + 1]) && at[k] < at[k + 1]
  }

  ghost predicate Visits(mem: Memory, fp: nat, ret: u64)
  {
    PlausibleFrame(fp) && mem(fp + 8) == Some(ret) && ret >= 4096
  }

  lemma ClimbsCons(mem: Memory, fp: nat, ret: u64, at: seq<nat>, out: seq<u64>)
    requires Climbs(mem, at, out) && Visits(mem, fp, ret)
    requires at != [] ==> mem(fp) == Some(at[0]) && fp < at[0]
    ensures Climbs(mem, [fp] + at, [ret] + out)
  {
  }

  /** Where a walk that has visited `at` would go next. */
  ghost function Ahead(mem: Memory, fp: nat, at: seq<nat>): Option<nat>
  {
    if at == [] then Some(fp)
    else match mem(at[|at| - 1])
         case Some(prev) => Some(prev)
         case None => None
  }

  /** Why it goes no further: enough frames, or what comes next does not climb, is no
      plausible frame pointer, or has a return address in the first page. */
  ghost predicate StopsAt(mem: Memory, fp: nat, at: seq<nat>, max: nat)
  {
    || |at| == max
    || var next := Ahead(mem, fp, at);
       next.Some? && (|| (at != [] && next.value <= at[|at| - 1])
                      || !PlausibleFrame(next.value)
                      || (mem(next.value + 8).Some? && mem(next.value + 8).value < 4096))
  }

  lemma StopsCons(mem: Memory, fp: nat, at: seq<nat>, max: nat)
    requires mem(fp).Some? && mem(fp).value > fp
    requires StopsAt(mem, mem(fp).value, at, max)
    ensures StopsAt(mem, fp, [fp] + at, max + 1)
  {
    assert at != [] ==> ([fp] + at)[|at|] == at[|at| - 1];
  }

  /** The walk climbs from where it starts, at most `max` frames, and as far as it can. */
  lemma {:induction false} WalkClimbs(mem: Memory, fp: nat, max: nat)
    requires Walk(mem, fp, max).Some?
    ensures var out, at := Walk(mem, fp, max).value, Visited(mem, fp, max);
            && Climbs(mem, at, out) && |at| <= max && (at != [] ==> at[0] == fp)
            && StopsAt(mem, fp, at, max)
    decreases max
  {
    if Walk(mem, fp, max).value != [] {
      var ret := mem(fp + 8).value;
      assert Visits(mem, fp, ret);
      if mem(fp).value > fp {
        var next := mem(fp).value;
        WalkClimbs(mem, next, max - 1);
        ClimbsCons(mem, fp, ret, Visited(mem, next, max - 1), Walk(mem, next, max - 1).value);
        StopsCons(mem, fp, Visited(mem, next, max - 1), max - 1);
      }
    }
  }

  /** Both words of a frame can be read. */
  predicate Readable(mem: Memory, fp: nat) { mem(fp).Some? && mem(fp + 8).Some? }

  /** A sound frame whose stored pointer is higher up. */
  predicate GoesUp(mem: Memory, fp: nat)
  {
    PlausibleFrame(fp) && Readable(mem, fp) && mem(fp + 8).value >= 4096 && mem(fp).value > fp
  }

  /** The frame pointer `k` steps up the chain, while it climbs over sound frames. */
  ghost function UpChain(mem: Memory, fp: nat, k: nat): Option<nat>
    decreases k
  {
    if k == 0 then Some(fp) else if GoesUp(mem, fp) then UpChain(mem, mem(fp).value, k - 1) else None
  }

  /** The walk would read a frame that cannot be read, `k` steps up. */
  ghost predicate FaultsAt(mem: Memory, fp: nat, k: nat)
  {
    var at := UpChain(mem, fp, k);
    at.Some? && PlausibleFrame(at.value) && !Readable(mem, at.value)
  }

  /** The walk faults exactly when, within `max` frames, the chain comes to a plausible
      pointer behind which nothing can be read. */
  lemma {:induction false} WalkFaultsIff(mem: Memory, fp: nat, max: nat)
    ensures Walk(mem, fp, max).None? <==> exists k: nat :: k < max && FaultsAt(mem, fp, k)
    decreases max
  {
    if max > 0 {
      assert FaultsAt(mem, fp, 0) <==> PlausibleFrame(fp) && !Readable(mem, fp);
      if GoesUp(mem, fp) {
        var next := mem(fp).value;
        WalkFaultsIff(mem, next, max - 1);
        assert forall k: nat :: FaultsAt(mem, next, k) <==> FaultsAt(mem, fp, k + 1);
        forall k: nat | k < max && FaultsAt(mem, fp, k) ensures k > 0 && FaultsAt(mem, next, k - 1) {
          assert FaultsAt(mem, next, k - 1) <==> FaultsAt(mem, fp, k - 1 + 1);
        }
      } else {
        assert forall k: nat :: FaultsAt(mem, fp, k) ==> k == 0;
      }
    }
  }

  // ----- Two writes to one file -----

  /** A write from the start of a file. */
  function Overwrite(file: seq<byte>, bytes: seq<byte>): seq<byte>
  {
    bytes + if |bytes| < |file| then file[|bytes|..] else []
  }

  /** The file's contents after each write. */
  method WriteCrashBlob(buf: array<byte>, h: Header, version: seq<byte>, pc: u64, fp: nat, mem: Memory)
    returns (files: seq<seq<byte>>, faulted: bool)
    requires buf.Length == MAX_FILE_SIZE
    modifies buf
    ensures 1 <= |files| <= 2
    // the first write already parses, with the crash address alone
    ensures Parse(files[0]) == Some(Blob(h, if pc != 0 then [pc] else [], VersionText(VersionField(version))))
    // a fault while walking leaves it there
    ensures var walked := if fp != 0 && pc != 0 then Walk(mem, fp, MAX_FRAMES - 1) else Some([]);
            && (faulted <==> walked.None?)
            && (|files| == 2 <==> walked.Some? && walked.value != [])
            // the second write adds the walked frames behind the same first one
            && (|files| == 2 ==>
                  && Parse(files[1]) == Some(Blob(h, [pc] + walked.value, VersionText(VersionField(version))))
                  && files[1] == Overwrite(files[0], files[1])
                  && FirstWrite(files[0], h, pc, version) && SecondWrite(files[1], h, [pc] + walked.value, version))
  {
    var frames: seq<u64> := [];
    if pc != 0 {
      frames := [pc];
    }
    var offset := WriteBlob(buf, h, frames, version);
    files, faulted := [buf[..offset]], false;
    ParseInvertsWrite(files[0], h, frames, version);
    if fp != 0 && pc != 0 {
      var walked := WalkFramePointers(mem, fp, MAX_FRAMES - 1);
      if walked.None? {
        return files, true;
      }
      WalkClimbs(mem, fp, MAX_FRAMES - 1);
      if |walked.value| > 0 {
        frames := frames + walked.value;
        offset := WriteBlob(buf, h, frames, version);
        files := files + [Overwrite(files[0], buf[..offset])];
        assert files[1] == buf[..offset];
        ParseInvertsWrite(files[1], h, frames, version);
      }
    }
  }

  ghost predicate FirstWrite(file: seq<byte>, h: Header, pc: u64, version: seq<byte>)
  {
    |file| == HEADER_SIZE + 8 && HoldsHeader(file, h, 1, version) && HoldsFrames(file, [pc])
  }

  ghost predicate SecondWrite(file: seq<byte>, h: Header, frames: seq<u64>, version: seq<byte>)
  {
    && 1 < |frames| <= MAX_FRAMES && |file| == HEADER_SIZE + |frames| * 8
    && HoldsHeader(file, h, |frames|, version) && HoldsFrames(file, frames)
  }

  // ----- A second write cut short -----

  lemma SliceChars(a: seq<byte>, b: seq<byte>, x: nat, y: nat)
    requires x <= y <= |a| && y <= |b| && a[x..y] == b[x..y]
    ensures forall i :: x <= i < y ==> a[i] == b[i]
  {
    forall i | x <= i < y ensures a[i] == b[i] {
      assert a[i] == a[x..y][i - x] == b[x..y][i - x] == b[i];
    }
  }

  /** Up to the frame count, the two headers are the same bytes. */
  lemma HeadersAgree(a: seq<byte>, b: seq<byte>, h: Header, m: u16, n: u16, version: seq<byte>)
    requires HoldsHeader(a, h, m, version) && HoldsHeader(b, h, n, version)
    ensures forall i :: 0 <= i < 30 ==> a[i] == b[i]
  {
    SliceChars(a, b, 0, 4);
    SliceChars(a, b, 6, 10);
    SliceChars(a, b, 10, 18);
    SliceChars(a, b, 18, 22);
    SliceChars(a, b, 22, 30);
  }

  lemma SmallCount(data: seq<byte>, h: Header, n: u16, version: seq<byte>)
    requires HoldsHeader(data, h, n, version) && n < 256
    ensures data[30] == n && data[31] == 0
  {
    assert data[30] == data[30..32][0] && data[31] == data[30..32][1];
    assert ToLe(n, 2)[1..] == ToLe(n / 256, 1);
  }

  lemma CountField(data: seq<byte>, n: u16)
    requires |data| >= HEADER_SIZE && data[30] == n && data[31] == 0
    ensures FieldU16(data, 30) == n
  {
    var field := data[30..32];
    assert field[0] == n && field[1..] == [data[31]];
    assert FromLe([data[31]]) == data[31] + 256 * FromLe([data[31]][1..]);
  }

  /** When only `k` bytes of the second write reach the file, it still parses exactly when
      the new frame count did not, or everything did. */
  lemma TornRewriteParsesIff(first: seq<byte>, second: seq<byte>, h: Header, frames: seq<u64>, version: seq<byte>,
                             k: nat)
    requires frames != [] && FirstWrite(first, h, frames[0], version) && SecondWrite(second, h, frames, version)
    requires k <= |second|
    ensures Parse(Overwrite(first, second[..k])).Some? <==> k <= 30 || k == |second|
    ensures k <= 30 ==> Overwrite(first, second[..k]) == first
    ensures k == |second| ==> Overwrite(first, second[..k]) == second
  {
    var file := Overwrite(first, second[..k]);
    HeadersAgree(first, second, h, 1, |frames|, version);
    ParseInvertsWrite(first, h, [frames[0]], version);
    ParseInvertsWrite(second, h, frames, version);
    if k <= 30 {
      assert file == first;
    } else if k == |second| {
      assert file == second;
    } else {
      SmallCount(first, h, 1, version);
      SmallCount(second, h, |frames|, version);
      assert file[30] == second[30];
      CountField(file, |frames|);
    }
  }
}
