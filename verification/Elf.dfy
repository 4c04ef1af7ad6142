/** The ELF image of a compiled program: the headers the compiler writes in front of the code, and how
    the loader reads them back. */
module Elf {
  import opened Words
  import opened Compiler

  const LOAD_VADDR := 0x2000_0000_0000
  const HDR_SIZE := 64
  const PHDR_SIZE := 56
  const PAGE := 4096

  // ----- Writing the headers -----

  function Le16(v: nat): (bs: seq<byte>)
    ensures |bs| == 2
  {
    [v % 256, v / 256 % 256]
  }

  /** The file header: magic number, entry point, and one program header right behind it. */
  function FileHeader(): (bs: seq<byte>)
    ensures |bs| == HDR_SIZE
  {
    Preamble() + Le64(HDR_SIZE) + Le64(0) + Le32(0)
    + Le16(HDR_SIZE) + Le16(PHDR_SIZE) + Le16(1) + Le16(0) + Le16(0) + Le16(0)
  }

  /** One loadable, writable segment that covers the whole file. */
  function SegmentHeader(total: u64): (bs: seq<byte>)
    ensures |bs| == PHDR_SIZE
  {
    Le32(1) + Le32(7) + Le64(0) + Le64(LOAD_VADDR) + Le64(LOAD_VADDR) + Le64(total) + Le64(total) + Le64(0x1000)
  }

  /** The bytes behind `off` are set to `bs`; those before and after stay. */
  method Put(buf: array<byte>, off: nat, bs: seq<byte>, ghost before: seq<byte>)
    requires off + |bs| <= buf.Length && buf[..off] == before
    modifies buf
    ensures buf[..off + |bs|] == before + bs && buf[off + |bs|..] == old(buf[off + |bs|..])
  {
    var i := 0;
    while i < |bs|
      invariant 0 <= i <= |bs| && buf[..off] == before && buf[off..off + i] == bs[..i]
      invariant buf[off + |bs|..] == old(buf[off + |bs|..])
    {
      buf[off + i] := bs[i];
      i := i + 1;
    }
    assert buf[..off + |bs|] == buf[..off] + buf[off..off + |bs|];
  }

  /** The first half of the file header. */
  function Preamble(): (bs: seq<byte>)
    ensures |bs| == 32
  {
    [0x7f, 0x45, 0x4c, 0x46, 2, 1, 1, 0, 0, 0, 0, 0, 0, 0, 0, 0] + Le16(2) + Le16(0x3e) + Le32(1)
    + Le64(LOAD_VADDR + CODE_OFF)
  }

  method WritePreamble(buf: array<byte>)
    requires buf.Length >= CODE_OFF
    modifies buf
    ensures buf[..32] == Preamble() && forall i :: 32 <= i < buf.Length ==> buf[i] == old(buf[i])
  {
    hide Le16, Le32, Le64;
    var ident: seq<byte> := [0x7f, 0x45, 0x4c, 0x46, 2, 1, 1, 0, 0, 0, 0, 0, 0, 0, 0, 0];
    ghost var h := PutNext(buf, 0, ident, []);
    h := PutNext(buf, 16, Le16(2), h);
    h := PutNext(buf, 18, Le16(0x3e), h);
    h := PutNext(buf, 20, Le32(1), h);
    h := PutNext(buf, 24, Le64(LOAD_VADDR + CODE_OFF), h);
  }

  method WriteFileHeader(buf: array<byte>)
    requires buf.Length >= CODE_OFF
    modifies buf
    ensures buf[..HDR_SIZE] == FileHeader() && forall i :: HDR_SIZE <= i < buf.Length ==> buf[i] == old(buf[i])
  {
    hide Le16, Le32, Le64, Preamble;
    WritePreamble(buf);
    ghost var h := Preamble();
    h := PutNext(buf, 32, Le64(HDR_SIZE), h);
    h := PutNext(buf, 40, Le64(0), h);
    h := PutNext(buf, 48, Le32(0), h);
    h := PutNext(buf, 52, Le16(HDR_SIZE), h);
    h := PutNext(buf, 54, Le16(PHDR_SIZE), h);
    h := PutNext(buf, 56, Le16(1), h);
    h := PutNext(buf, 58, Le16(0), h);
    h := PutNext(buf, 60, Le16(0), h);
    h := PutNext(buf, 62, Le16(0), h);
  }

  method PutNext(buf: array<byte>, off: nat, bs: seq<byte>, ghost before: seq<byte>) returns (ghost after: seq<byte>)
    requires off + |bs| <= CODE_OFF <= buf.Length && buf[..off] == before
    modifies buf
    ensures after == before + bs && buf[..off + |bs|] == after
    ensures forall i :: off + |bs| <= i < buf.Length ==> buf[i] == old(buf[i])
  {
    Put(buf, off, bs, before);
    after := before + bs;
    forall i | off + |bs| <= i < buf.Length ensures buf[i] == old(buf[i]) {
      assert buf[i] == buf[off + |bs|..][i - off - |bs|] == old(buf[off + |bs|..])[i - off - |bs|];
    }
  }

  /** Both headers are in place and the code behind them is untouched. */
  method WriteElfHeaders(buf: array<byte>, total: u64)
    requires buf.Length >= CODE_OFF
    modifies buf
    ensures buf[..CODE_OFF] == FileHeader() + SegmentHeader(total) && buf[CODE_OFF..] == old(buf[CODE_OFF..])
  {
    hide FileHeader, SegmentHeader;
    WriteFileHeader(buf);
    WriteSegmentHeader(buf, total, FileHeader());
    assert buf[CODE_OFF..] == old(buf[CODE_OFF..]);
  }

  method WriteSegmentHeader(buf: array<byte>, total: u64, ghost before: seq<byte>)
    requires buf.Length >= CODE_OFF && |before| == HDR_SIZE && buf[..HDR_SIZE] == before
    modifies buf
    ensures buf[..CODE_OFF] == before + SegmentHeader(total)
    ensures forall i :: CODE_OFF <= i < buf.Length ==> buf[i] == old(buf[i])
  {
    hide Le32, Le64;
    ghost var h := PutNext(buf, 64, Le32(1), before);
    h := PutNext(buf, 68, Le32(7), h);
    h := PutNext(buf, 72, Le64(0), h);
    h := PutNext(buf, 80, Le64(LOAD_VADDR), h);
    h := PutNext(buf, 88, Le64(LOAD_VADDR), h);
    h := PutNext(buf, 96, Le64(total), h);
    h := PutNext(buf, 104, Le64(total), h);
    h := PutNext(buf, 112, Le64(0x1000), h);
    assert h == before + SegmentHeader(total);
  }

  // ----- Reading them back -----

  function Word16At(bs: seq<byte>, i: int): int { ByteAt(bs, i) + 256 * ByteAt(bs, i + 1) }

  datatype Segment = Segment(kind: int, flags: int, offset: int, vaddr: int, filesz: int, memsz: int)

  function SegmentAt(file: seq<byte>, at: int): Segment {
    Segment(Word32At(file, at), Word32At(file, at + 4), Word64At(file, at + 8), Word64At(file, at + 16),
            Word64At(file, at + 32), Word64At(file, at + 40))
  }

  /** What the compiler leaves in its buffer: both headers and code, one page at most. */
  ghost predicate BarrelFile(file: seq<byte>) {
    CODE_OFF <= |file| <= PAGE && file[..CODE_OFF] == FileHeader() + SegmentHeader(|file|)
  }

  lemma HeaderBytes(file: seq<byte>)
    requires BarrelFile(file)
    ensures BytesAt(file, 0, [0x7f, 0x45, 0x4c, 0x46, 2]) && BytesAt(file, 18, Le16(0x3e))
    ensures BytesAt(file, 24, Le64(LOAD_VADDR + CODE_OFF)) && BytesAt(file, 32, Le64(HDR_SIZE))
    ensures BytesAt(file, 54, Le16(PHDR_SIZE)) && BytesAt(file, 56, Le16(1))
  {
    hide Le16, Le32, Le64;
    var h := FileHeader();
    assert file[..HDR_SIZE] == file[..CODE_OFF][..HDR_SIZE] == h;
    assert file[0..5] == h[0..5] && file[18..20] == h[18..20] && file[24..32] == h[24..32] && file[32..40] == h[32..40];
    assert file[54..56] == h[54..56] && file[56..58] == h[56..58];
  }

  lemma SegmentBytes(file: seq<byte>)
    requires BarrelFile(file)
    ensures BytesAt(file, 64, Le32(1)) && BytesAt(file, 68, Le32(7)) && BytesAt(file, 72, Le64(0))
    ensures BytesAt(file, 80, Le64(LOAD_VADDR))
    ensures BytesAt(file, 96, Le64(|file|)) && BytesAt(file, 104, Le64(|file|))
  {
    hide Le32, Le64, FileHeader;
    var h := SegmentHeader(|file|);
    var f := file[HDR_SIZE..CODE_OFF];
    assert f == file[..CODE_OFF][HDR_SIZE..] == h;
    assert file[64..68] == f[0..4] && file[68..72] == f[4..8] && file[72..80] == f[8..16] && file[80..88] == f[16..24];
    assert file[96..104] == f[32..40] && file[104..112] == f[40..48];
  }

  /** The loader reads back what the compiler wrote. */
  lemma HeadersReadBack(file: seq<byte>)
    requires BarrelFile(file)
    ensures CODE_OFF <= |file| <= PAGE && file[..4] == [0x7f, 0x45, 0x4c, 0x46] && file[4] == 2
    ensures Word16At(file, 18) == 0x3e && Word64At(file, 24) == LOAD_VADDR + CODE_OFF
    ensures Word64At(file, 32) == HDR_SIZE && Word16At(file, 54) == PHDR_SIZE && Word16At(file, 56) == 1
    ensures SegmentAt(file, HDR_SIZE) == Segment(1, 7, 0, LOAD_VADDR, |file|, |file|)
  {
    hide Le32, Le64, FileHeader, SegmentHeader, Word32At, Word64At, BytesAt;
    HeaderBytes(file);
    SegmentBytes(file);
    Le16RoundTrip(file, 18, 0x3e);
    Le64RoundTrip(file, 24, LOAD_VADDR + CODE_OFF);
    Le64RoundTrip(file, 32, HDR_SIZE);
    Le16RoundTrip(file, 54, PHDR_SIZE);
    Le16RoundTrip(file, 56, 1);
    Le32RoundTripBelow(file, 64, 1);
    Le32RoundTripBelow(file, 68, 7);
    Le64RoundTrip(file, 72, 0);
    Le64RoundTrip(file, 80, LOAD_VADDR);
    Le64RoundTrip(file, 96, |file|);
    Le64RoundTrip(file, 104, |file|);
    FirstBytes(file);
  }

  lemma FirstBytes(file: seq<byte>)
    requires BytesAt(file, 0, [0x7f, 0x45, 0x4c, 0x46, 2])
    ensures 5 <= |file| && file[..4] == [0x7f, 0x45, 0x4c, 0x46] && file[4] == 2
  {
    assert file[0..5][..4] == file[..4] && file[0..5][4] == file[4];
  }

  lemma Le16RoundTrip(code: seq<byte>, pc: int, v: nat)
    requires BytesAt(code, pc, Le16(v)) && v < 65536
    ensures Word16At(code, pc) == v
  {
    BytesAtIndex(code, pc, Le16(v), 0);
    BytesAtIndex(code, pc, Le16(v), 1);
  }

  datatype Header = Header(entry: nat, phoff: int, phnum: int, phentsize: int)

  /** The checks of the file header, which a compiled file passes. */
  method ReadHeader(file: seq<byte>) returns (r: Option<Header>)
    requires BarrelFile(file)
    ensures r == Some(Header(LOAD_VADDR + CODE_OFF, HDR_SIZE, 1, PHDR_SIZE)) && 0 < |file| <= PAGE
    ensures SegmentAt(file, HDR_SIZE) == Segment(1, 7, 0, LOAD_VADDR, |file|, |file|)
  {
    HeadersReadBack(file);
    hide Word16At, Word32At, Word64At, SegmentAt, BarrelFile;
    if |file| < HDR_SIZE { return None; }
    if file[..4] != [0x7f, 0x45, 0x4c, 0x46] || file[4] != 2 || Word16At(file, 18) != 0x3e { return None; }
    var phnum, phentsize := Word16At(file, 56), Word16At(file, 54);
    if phnum == 0 || phentsize < PHDR_SIZE { return None; }
    r := Some(Header(Word64At(file, 24), Word64At(file, 32), phnum, phentsize));
  }

  /** First pass: the pages covered by the segments. */
  method FindRange(file: seq<byte>, phoff: int, phnum: int, phentsize: int) returns (r: Option<(nat, nat)>)
    requires phnum == 1 && SegmentAt(file, phoff) == Segment(1, 7, 0, LOAD_VADDR, |file|, |file|) && 0 < |file| <= PAGE
    ensures r == Some((LOAD_VADDR, LOAD_VADDR + PAGE))
  {
    hide SegmentAt;
    var base, end := W64 - 1, 0;
    var i := 0;
    while i < phnum
      invariant 0 <= i <= phnum
      invariant (if i == 0 then base == W64 - 1 && end == 0 else base == LOAD_VADDR && end == LOAD_VADDR + |file|)
    {
      var ph := SegmentAt(file, phoff + i * phentsize);
      if ph.kind == 1 {
        if ph.filesz > ph.memsz { return None; }
        if ph.vaddr + ph.memsz >= W64 { return None; }
        base := if ph.vaddr < base then ph.vaddr else base;
        end := if ph.vaddr + ph.memsz > end then ph.vaddr + ph.memsz else end;
      }
      i := i + 1;
    }
    if base == W64 - 1 { return None; }
    r := Some((base / PAGE * PAGE, (end + PAGE - 1) / PAGE * PAGE));
  }

  function FileOf(code: seq<byte>): (file: seq<byte>)
    requires CODE_OFF + |code| <= PAGE
    ensures |file| == CODE_OFF + |code|
  {
    FileHeader() + SegmentHeader(CODE_OFF + |code|) + code
  }

  lemma FileIsBarrel(code: seq<byte>)
    requires CODE_OFF + |code| <= PAGE
    ensures BarrelFile(FileOf(code))
  {
    hide FileHeader, SegmentHeader;
    assert FileOf(code)[..CODE_OFF] == FileHeader() + SegmentHeader(|FileOf(code)|);
  }
}
