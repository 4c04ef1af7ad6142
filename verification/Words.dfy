/** Machine words, bytes and their little-endian encodings, and optional values. */
module Words {
  const W32: int := 0x1_0000_0000
  const W64: int := 0x1_0000_0000_0000_0000

  datatype Option<+T> = None | Some(value: T)

  ghost predicate Distinct<T>(s: seq<T>) {
    forall i, j :: 0 <= i < j < |s| ==> s[i] != s[j]
  }

  type u64 = x: int | 0 <= x < W64
  type byte = x: int | 0 <= x < 256

  /** Reduction modulo 2^64, the `wrapping_*` arithmetic of the kernel and the CPU. */
  function Wrap(x: int): u64 { x % W64 }

  /** `to_le_bytes` of a 32-bit value; a negative value is taken in two's complement. */
  function Le32(v: int): (bs: seq<byte>)
    ensures |bs| == 4
  {
    [v % 256, v / 256 % 256, v / 65536 % 256, v / 16777216 % 256]
  }

  function Le64(v: u64): (bs: seq<byte>)
    ensures |bs| == 8
  {
    Le32(v % W32) + Le32(v / W32)
  }

  /** The byte at position `i`, or -1 outside the sequence. */
  function ByteAt(bs: seq<byte>, i: int): int {
    if 0 <= i < |bs| then bs[i] else -1
  }

  function Word32At(bs: seq<byte>, i: int): int {
    ByteAt(bs, i) + 256 * ByteAt(bs, i + 1) + 65536 * ByteAt(bs, i + 2) + 16777216 * ByteAt(bs, i + 3)
  }

  function Word64At(bs: seq<byte>, i: int): int {
    Word32At(bs, i) + W32 * Word32At(bs, i + 4)
  }

  /** A 32-bit pattern read as an `i32`. */
  function Signed32(w: int): int {
    if w < 0x8000_0000 then w else w - W32
  }

  /** `bs` lies in `code` at position `pc`. */
  ghost predicate BytesAt(code: seq<byte>, pc: int, bs: seq<byte>) {
    0 <= pc && pc + |bs| <= |code| && code[pc..pc + |bs|] == bs
  }

  lemma BytesAtIndex(code: seq<byte>, pc: int, bs: seq<byte>, i: int)
    requires BytesAt(code, pc, bs) && 0 <= i < |bs|
    ensures ByteAt(code, pc + i) == bs[i]
  {
    assert code[pc..pc + |bs|][i] == code[pc + i];
  }

  lemma BytesAtSplit(code: seq<byte>, pc: int, a: seq<byte>, b: seq<byte>)
    ensures BytesAt(code, pc, a + b) <==> BytesAt(code, pc, a) && BytesAt(code, pc + |a|, b)
  {
    if BytesAt(code, pc, a + b) {
      var w := code[pc..pc + |a + b|];
      assert code[pc..pc + |a|] == w[..|a|] == a;
      assert code[pc + |a|..pc + |a| + |b|] == w[|a|..] == b;
    }
    if BytesAt(code, pc, a) && BytesAt(code, pc + |a|, b) {
      assert code[pc..pc + |a + b|] == code[pc..pc + |a|] + code[pc + |a|..pc + |a| + |b|];
    }
  }

  /** Little-endian 32-bit encoding round-trips, modulo 2^32. */
  lemma Le32RoundTrip(code: seq<byte>, pc: int, v: int)
    requires BytesAt(code, pc, Le32(v))
    ensures Word32At(code, pc) == v % W32
  {
    hide BytesAt, ByteAt;
    var bs := Le32(v);
    BytesAtIndex(code, pc, bs, 0);
    BytesAtIndex(code, pc, bs, 1);
    BytesAtIndex(code, pc, bs, 2);
    BytesAtIndex(code, pc, bs, 3);
    Digits(v);
  }

  lemma Digits(v: int)
    ensures v % 256 + 256 * (v / 256 % 256) + 65536 * (v / 65536 % 256) + 16777216 * (v / 16777216 % 256) == v % W32
  {
    var a := v / 256;
    var b := a / 256;
    assert v / 65536 == b;
    var c := b / 256;
    assert v / 16777216 == c;
    assert v == 256 * a + v % 256;
    assert a == 256 * b + a % 256;
    assert b == 256 * c + b % 256;
    assert v % W32 == v - W32 * (v / W32);
    assert v / W32 == c / 256;
    assert c == 256 * (c / 256) + c % 256;
  }

  lemma Signed32RoundTrip(code: seq<byte>, pc: int, v: int)
    requires BytesAt(code, pc, Le32(v)) && -0x8000_0000 <= v < 0x8000_0000
    ensures Signed32(Word32At(code, pc)) == v
  {
    hide Word32At, BytesAt, Le32;
    Le32RoundTrip(code, pc, v);
  }

  lemma Le64RoundTrip(code: seq<byte>, pc: int, v: u64)
    requires BytesAt(code, pc, Le64(v))
    ensures Word64At(code, pc) == v
  {
    hide Word32At, BytesAt, Le32;
    BytesAtSplit(code, pc, Le32(v % W32), Le32(v / W32));
    Le32RoundTripBelow(code, pc, v % W32);
    Le32RoundTripBelow(code, pc + 4, v / W32);
  }

  lemma Le32RoundTripBelow(code: seq<byte>, pc: int, v: int)
    requires BytesAt(code, pc, Le32(v)) && 0 <= v < W32
    ensures Word32At(code, pc) == v
  {
    hide Word32At, BytesAt, Le32;
    Le32RoundTrip(code, pc, v);
  }
}
