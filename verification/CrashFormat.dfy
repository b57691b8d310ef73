/** The crash blob: a fixed header and up to 64 little-endian frames, written into a byte
    buffer field by field and parsed back at the next start. */
module CrashFormat {
  import opened Wrappers
  import opened Utf8Text
  import opened Utf8Decode

  type u16 = n: nat | n < 0x1_0000
  type u32 = n: nat | n < 0x1_0000_0000
  type u64 = n: nat | n < 0x1_0000_0000_0000_0000
  type i32 = n: int | -0x8000_0000 <= n < 0x8000_0000

  const VERSION: byte := 1
  const MAX_FRAMES: nat := 64
  const VERSION_LEN: nat := 32
  const HEADER_SIZE: nat := 64
  const MAX_FILE_SIZE: nat := 576

  /** "GCRX". */
  function Magic(): (m: seq<byte>)
    ensures |m| == 4
  {
    [0x47, 0x43, 0x52, 0x58]
  }

  datatype Header = Header(signal: byte, siCode: i32, siAddr: u64, pid: u32, timestamp: u64)

  datatype Blob = Blob(header: Header, frames: seq<u64>, appVersion: string)

  // ----- Little-endian numbers -----

  function Pow256(w: nat): (p: nat)
    ensures p >= 1
  {
    if w == 0 then 1 else 256 * Pow256(w - 1)
  }

  function ToLe(n: nat, w: nat): (bytes: seq<byte>)
    ensures |bytes| == w
  {
    if w == 0 then [] else [n % 256] + ToLe(n / 256, w - 1)
  }

  function FromLe(bytes: seq<byte>): (n: nat)
    ensures n < Pow256(|bytes|)
  {
    if bytes == [] then 0 else bytes[0] + 256 * FromLe(bytes[1..])
  }

  lemma {:induction false} FromToLe(n: nat, w: nat)
    requires n < Pow256(w)
    ensures FromLe(ToLe(n, w)) == n
  {
    if w > 0 {
      var rest := ToLe(n / 256, w - 1);
      FromToLe(n / 256, w - 1);
      assert ToLe(n, w)[1..] == rest;
    }
  }

  lemma WordSizes()
    ensures Pow256(2) == 0x1_0000 && Pow256(4) == 0x1_0000_0000 && Pow256(8) == 0x1_0000_0000_0000_0000
  {
    assert Pow256(1) == 256 * Pow256(0);
    assert Pow256(3) == 256 * Pow256(2);
    assert Pow256(5) == 256 * Pow256(4);
    assert Pow256(6) == 256 * Pow256(5);
    assert Pow256(7) == 256 * Pow256(6);
  }

  function FieldU16(data: seq<byte>, at: nat): u16
    requires at + 2 <= |data|
  {
    WordSizes();
    FromLe(data[at..at + 2])
  }

  function FieldU32(data: seq<byte>, at: nat): u32
    requires at + 4 <= |data|
  {
    WordSizes();
    FromLe(data[at..at + 4])
  }

  function FieldU64(data: seq<byte>, at: nat): u64
    requires at + 8 <= |data|
  {
    WordSizes();
    FromLe(data[at..at + 8])
  }

  /** Two's complement. */
  function ToUnsigned(n: i32): u32 { if n < 0 then n + 0x1_0000_0000 else n }

  function ToSigned(n: u32): i32 { if n >= 0x8000_0000 then n - 0x1_0000_0000 else n }

  // ----- Parsing -----

  function TrimNuls(s: string): string
  {
    if s != "" && s[|s| - 1] == '\0' then TrimNuls(s[..|s| - 1]) else s
  }

  function VersionText(field: seq<byte>): string
  {
    match Decode(field)
    case Some(s) => TrimNuls(s)
    case None => ""
  }

  function FramesOf(data: seq<byte>, n: nat): (frames: seq<u64>)
    requires HEADER_SIZE + n * 8 <= |data|
    ensures |frames| == n
  {
    if n == 0 then [] else FramesOf(data, n - 1) + [FieldU64(data, HEADER_SIZE + (n - 1) * 8)]
  }

  function HeaderOf(data: seq<byte>): Header
    requires |data| >= HEADER_SIZE
  {
    Header(data[5], ToSigned(FieldU32(data, 6)), FieldU64(data, 10), FieldU32(data, 18), FieldU64(data, 22))
  }

  function Parse(data: seq<byte>): Option<Blob>
  {
    if |data| < HEADER_SIZE || data[0..4] != Magic() || data[4] != VERSION then None
    else
      var n := FieldU16(data, 30);
      if n > MAX_FRAMES || |data| < HEADER_SIZE + n * 8 then None
      else Some(Blob(HeaderOf(data), FramesOf(data, n), VersionText(data[32..32 + VERSION_LEN])))
  }

  method ParseBlob(data: seq<byte>) returns (r: Option<Blob>)
    ensures r == Parse(data)
  {
    if |data| < HEADER_SIZE || data[0..4] != Magic() || data[4] != VERSION {
      return None;
    }
    var header := HeaderOf(data);
    var nFrames := FieldU16(data, 30);
    var appVersion := VersionText(data[32..32 + VERSION_LEN]);
    if nFrames > MAX_FRAMES || |data| < HEADER_SIZE + nFrames * 8 {
      return None;
    }
    var frames: seq<u64> := [];
    for i := 0 to nFrames
      invariant frames == FramesOf(data, i)
    {
      frames := frames + [FieldU64(data, HEADER_SIZE + i * 8)];
    }
    r := Some(Blob(header, frames, appVersion));
  }

  // ----- Writing -----

  /** The version field: cut to 32 bytes, padded with NULs. */
  function VersionField(version: seq<byte>): (field: seq<byte>)
    ensures |field| == VERSION_LEN
  {
    var kept := if |version| < VERSION_LEN then version else version[..VERSION_LEN];
    kept + seq(VERSION_LEN - |kept|, _ => 0)
  }

  /** The header's fields are at their places. */
  ghost predicate HoldsHeader(data: seq<byte>, h: Header, nFrames: u16, version: seq<byte>)
  {
    && |data| >= HEADER_SIZE
    && data[0..4] == Magic() && data[4] == VERSION && data[5] == h.signal
    && data[6..10] == ToLe(ToUnsigned(h.siCode), 4)
    && data[10..18] == ToLe(h.siAddr, 8)
    && data[18..22] == ToLe(h.pid, 4)
    && data[22..30] == ToLe(h.timestamp, 8)
    && data[30..32] == ToLe(nFrames, 2)
    && data[32..64] == VersionField(version)
  }

  ghost predicate HoldsFrames(data: seq<byte>, frames: seq<u64>)
  {
    && |data| >= HEADER_SIZE + |frames| * 8
    && forall i :: 0 <= i < |frames| ==> FrameAt(data, i, frames[i])
  }

  ghost predicate FrameAt(data: seq<byte>, i: nat, frame: u64)
  {
    |data| >= HEADER_SIZE + (i + 1) * 8 && data[HEADER_SIZE + i * 8..HEADER_SIZE + i * 8 + 8] == ToLe(frame, 8)
  }

  method CopyAt(buf: array<byte>, at: nat, bytes: seq<byte>)
    requires at + |bytes| <= buf.Length
    modifies buf
    ensures buf[at..at + |bytes|] == bytes
    ensures forall i :: 0 <= i < buf.Length && !(at <= i < at + |bytes|) ==> buf[i] == old(buf[i])
  {
    for i := 0 to |bytes|
      invariant forall j :: 0 <= j < i ==> buf[at + j] == bytes[j]
      invariant forall j :: 0 <= j < buf.Length && !(at <= j < at + i) ==> buf[j] == old(buf[j])
    {
      buf[at + i] := bytes[i];
    }
  }

  method WriteHeader(buf: array<byte>, h: Header, nFrames: u16, version: seq<byte>) returns (offset: nat)
    requires buf.Length >= HEADER_SIZE
    modifies buf
    ensures offset == HEADER_SIZE && HoldsHeader(buf[..], h, nFrames, version)
    ensures forall i :: HEADER_SIZE <= i < buf.Length ==> buf[i] == old(buf[i])
  {
    CopyAt(buf, 0, Magic());
    buf[4] := VERSION;
    buf[5] := h.signal;
    CopyAt(buf, 6, ToLe(ToUnsigned(h.siCode), 4));
    CopyAt(buf, 10, ToLe(h.siAddr, 8));
    CopyAt(buf, 18, ToLe(h.pid, 4));
    CopyAt(buf, 22, ToLe(h.timestamp, 8));
    CopyAt(buf, 30, ToLe(nFrames, 2));
    CopyAt(buf, 32, VersionField(version));
    assert buf[..][0..4] == buf[0..4] == Magic();
    offset := 32 + VERSION_LEN;
  }

  method WriteFrame(buf: array<byte>, offset: nat, address: u64) returns (next: nat)
    requires offset + 8 <= buf.Length
    modifies buf
    ensures next == offset + 8 && buf[offset..next] == ToLe(address, 8)
    ensures forall i :: 0 <= i < buf.Length && !(offset <= i < next) ==> buf[i] == old(buf[i])
  {
    CopyAt(buf, offset, ToLe(address, 8));
    next := offset + 8;
  }

  lemma SameHeader(a: seq<byte>, b: seq<byte>, h: Header, n: u16, version: seq<byte>)
    requires HoldsHeader(a, h, n, version) && |b| >= HEADER_SIZE
    requires forall i :: 0 <= i < HEADER_SIZE ==> a[i] == b[i]
    ensures HoldsHeader(b, h, n, version)
  {
    forall x, y | 0 <= x <= y <= HEADER_SIZE ensures a[x..y] == b[x..y] { }
    assert a[0..4] == b[0..4];
    assert a[6..10] == b[6..10];
    assert a[10..18] == b[10..18];
    assert a[18..22] == b[18..22];
    assert a[22..30] == b[22..30];
    assert a[30..32] == b[30..32];
    assert a[32..64] == b[32..64];
  }

  lemma SameFrame(a: seq<byte>, b: seq<byte>, i: nat, frame: u64)
    requires FrameAt(a, i, frame) && |b| >= HEADER_SIZE + (i + 1) * 8
    requires forall k :: HEADER_SIZE + i * 8 <= k < HEADER_SIZE + i * 8 + 8 ==> a[k] == b[k]
    ensures FrameAt(b, i, frame)
  {
    var at := HEADER_SIZE + i * 8;
    assert a[at..at + 8] == b[at..at + 8];
  }

  method WriteFrames(buf: array<byte>, frames: seq<u64>) returns (size: nat)
    requires |frames| <= MAX_FRAMES && buf.Length == MAX_FILE_SIZE
    modifies buf
    ensures size == HEADER_SIZE + |frames| * 8 && HoldsFrames(buf[..], frames)
    ensures forall k :: 0 <= k < HEADER_SIZE ==> buf[k] == old(buf[k])
  {
    size := HEADER_SIZE;
    for i := 0 to |frames|
      invariant size == HEADER_SIZE + i * 8
      invariant forall k :: 0 <= k < HEADER_SIZE ==> buf[k] == old(buf[k])
      invariant forall j :: 0 <= j < i ==> FrameAt(buf[..], j, frames[j])
    {
      ghost var before := buf[..];
      size := WriteFrame(buf, size, frames[i]);
      forall j | 0 <= j < i ensures FrameAt(buf[..], j, frames[j]) {
        SameFrame(before, buf[..], j, frames[j]);
      }
      assert FrameAt(buf[..], i, frames[i]);
    }
  }

  /** Header and frames into the buffer; the bytes before `size` are the file. */
  method WriteBlob(buf: array<byte>, h: Header, frames: seq<u64>, version: seq<byte>) returns (size: nat)
    requires |frames| <= MAX_FRAMES && buf.Length == MAX_FILE_SIZE
    modifies buf
    ensures size == HEADER_SIZE + |frames| * 8
    ensures HoldsHeader(buf[..size], h, |frames|, version) && HoldsFrames(buf[..size], frames)
  {
    size := WriteHeader(buf, h, |frames|, version);
    ghost var header := buf[..];
    size := WriteFrames(buf, frames);
    FileOf(header, buf[..], size, h, frames, version);
  }

  lemma FileOf(header: seq<byte>, all: seq<byte>, size: nat, h: Header, frames: seq<u64>, version: seq<byte>)
    requires |frames| <= MAX_FRAMES && HoldsHeader(header, h, |frames|, version) && HoldsFrames(all, frames)
    requires size == HEADER_SIZE + |frames| * 8 <= |all|
    requires forall k :: 0 <= k < HEADER_SIZE ==> header[k] == all[k]
    ensures HoldsHeader(all[..size], h, |frames|, version) && HoldsFrames(all[..size], frames)
  {
    var file := all[..size];
    SameHeader(header, file, h, |frames|, version);
    forall j | 0 <= j < |frames| ensures FrameAt(file, j, frames[j]) {
      SameFrame(all, file, j, frames[j]);
    }
  }

  // ----- Parsing inverts writing -----

  lemma ParsedHeader(data: seq<byte>, h: Header, n: u16, version: seq<byte>)
    requires HoldsHeader(data, h, n, version)
    ensures HeaderOf(data) == h && FieldU16(data, 30) == n
  {
    WordSizes();
    FromToLe(ToUnsigned(h.siCode), 4);
    FromToLe(h.siAddr, 8);
    FromToLe(h.pid, 4);
    FromToLe(h.timestamp, 8);
    FromToLe(n, 2);
  }

  lemma {:induction false} ParsedFrames(data: seq<byte>, frames: seq<u64>, n: nat)
    requires HoldsFrames(data, frames) && n <= |frames|
    ensures FramesOf(data, n) == frames[..n]
  {
    if n > 0 {
      ParsedFrames(data, frames, n - 1);
      assert FrameAt(data, n - 1, frames[n - 1]);
      WordSizes();
      FromToLe(frames[n - 1], 8);
      assert frames[..n] == frames[..n - 1] + [frames[n - 1]];
    }
  }

  /** Parsing gives back what was written, whatever follows it in the file. */
  lemma ParseInvertsWrite(data: seq<byte>, h: Header, frames: seq<u64>, version: seq<byte>)
    requires |frames| <= MAX_FRAMES
    requires HoldsHeader(data, h, |frames|, version) && HoldsFrames(data, frames)
    ensures Parse(data) == Some(Blob(h, frames, VersionText(VersionField(version))))
  {
    ParsedHeader(data, h, |frames|, version);
    ParsedFrames(data, frames, |frames|);
    assert frames[..|frames|] == frames;
  }

  lemma {:induction false} ToLeOfFrom(bytes: seq<byte>)
    ensures ToLe(FromLe(bytes), |bytes|) == bytes
  {
    if bytes != [] {
      ToLeOfFrom(bytes[1..]);
      LowByte(bytes[0], FromLe(bytes[1..]));
      assert bytes == [bytes[0]] + bytes[1..];
    }
  }

  lemma LowByte(low: byte, rest: nat)
    ensures (low + 256 * rest) % 256 == low && (low + 256 * rest) / 256 == rest
  {
  }

  lemma SignedAgain(n: u32)
    ensures ToUnsigned(ToSigned(n)) == n
  {
  }

  lemma FieldsAgain(data: seq<byte>, at: nat, w: nat)
    requires at + w <= |data|
    ensures ToLe(FromLe(data[at..at + w]), w) == data[at..at + w]
  {
    ToLeOfFrom(data[at..at + w]);
  }

  lemma HeaderAgain(data: seq<byte>)
    requires |data| >= HEADER_SIZE && data[0..4] == Magic() && data[4] == VERSION
    ensures HoldsHeader(data, HeaderOf(data), FieldU16(data, 30), data[32..64])
  {
    WordSizes();
    SignedAgain(FieldU32(data, 6));
    FieldsAgain(data, 6, 4);
    FieldsAgain(data, 10, 8);
    FieldsAgain(data, 18, 4);
    FieldsAgain(data, 22, 8);
    FieldsAgain(data, 30, 2);
    var field := data[32..64];
    assert field[..VERSION_LEN] == field && VersionField(field) == field + [];
  }

  lemma {:induction false} FramesAgain(data: seq<byte>, n: nat)
    requires HEADER_SIZE + n * 8 <= |data|
    ensures HoldsFrames(data, FramesOf(data, n))
  {
    if n > 0 {
      FramesAgain(data, n - 1);
      var frames := FramesOf(data, n);
      assert forall i :: 0 <= i < n - 1 ==> frames[i] == FramesOf(data, n - 1)[i];
      WordSizes();
      FieldsAgain(data, HEADER_SIZE + (n - 1) * 8, 8);
      assert FrameAt(data, n - 1, frames[n - 1]);
    }
  }

  function CountIn(low: int, high: int): int { low + 256 * high }

  /** Exactly which files parse: the magic and the version are there, and at most 64 frames,
      all of them in the file, are counted in the bytes 30 and 31. */
  lemma ParsesIff(data: seq<byte>)
    ensures Parse(data).Some?
            <==> && |data| >= 64 && data[0..4] == [0x47, 0x43, 0x52, 0x58] && data[4] == 1
                 && CountIn(data[30], data[31]) <= 64 && |data| >= 64 + 8 * CountIn(data[30], data[31])
  {
    if |data| >= 64 {
      var field := data[30..32];
      assert field[0] == data[30] && field[1..] == [data[31]];
      assert FromLe([data[31]]) == data[31] + 256 * FromLe([data[31]][1..]);
    }
  }

  /** What parses is what writing its own content puts there: no field is read from
      elsewhere. */
  lemma ParsedIsWritten(data: seq<byte>)
    requires Parse(data).Some?
    ensures var blob := Parse(data).value;
            && |blob.frames| <= MAX_FRAMES && HoldsHeader(data, blob.header, |blob.frames|, data[32..64])
            && HoldsFrames(data, blob.frames) && blob.appVersion == VersionText(data[32..64])
  {
    HeaderAgain(data);
    FramesAgain(data, FieldU16(data, 30));
  }

  lemma {:induction false} TrimPadding(s: string, n: nat)
    requires s == "" || s[|s| - 1] != '\0'
    ensures TrimNuls(s + seq(n, _ => '\0')) == s
  {
    var padded := s + seq(n, _ => '\0');
    if n > 0 {
      assert padded[..|padded| - 1] == s + seq(n - 1, _ => '\0');
      TrimPadding(s, n - 1);
    } else {
      assert padded == s;
    }
  }

  lemma {:induction false} NulsEncode(n: nat)
    ensures Utf8(seq(n, _ => '\0')) == seq(n, _ => 0)
  {
    if n > 0 {
      NulsEncode(n - 1);
      assert seq(n, _ => '\0')[1..] == seq(n - 1, _ => '\0');
    }
  }

  lemma {:induction false} Utf8Concat(a: string, b: string)
    ensures Utf8(a + b) == Utf8(a) + Utf8(b)
  {
    if a == "" {
      assert a + b == b;
    } else {
      var c, t := a[0], a[1..];
      Utf8Concat(t, b);
      ConsSplit(a, b);
      Utf8Cons(c, t + b);
      Utf8Cons(c, t);
      Assoc(Encode(c), Utf8(t), Utf8(b));
    }
  }

  lemma ConsSplit(a: string, b: string)
    requires a != ""
    ensures a == [a[0]] + a[1..] && a + b == [a[0]] + (a[1..] + b)
  {
  }

  lemma Assoc(a: seq<byte>, b: seq<byte>, c: seq<byte>)
    ensures a + (b + c) == (a + b) + c
  {
  }

  /** A version of at most 32 bytes without trailing NULs comes back whole. */
  lemma VersionSurvives(s: string)
    requires Size(s) <= VERSION_LEN && (s == "" || s[|s| - 1] != '\0')
    ensures VersionText(VersionField(Utf8(s))) == s
  {
    var n := VERSION_LEN - Size(s);
    NulsEncode(n);
    Utf8Concat(s, seq(n, _ => '\0'));
    DecodeEncoded(s + seq(n, _ => '\0'));
    TrimPadding(s, n);
    ShortVersion(Utf8(s));
  }

  lemma ShortVersion(version: seq<byte>)
    requires |version| <= VERSION_LEN
    ensures VersionField(version) == version + seq(VERSION_LEN - |version|, _ => 0)
  {
    assert |version| == VERSION_LEN ==> version[..VERSION_LEN] == version;
  }
}
