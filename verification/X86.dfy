/** The part of the x86_64 instruction set that the Barrel compiler emits: byte encodings, and a decoder
    that undoes them. */
module X86 {
  import opened Words

  /** Condition codes of `setcc`, all unsigned. */
  datatype Cond = E | NE | B | BE | A | AE

  datatype Instr =
    | MovRaxImm(imm: u64)
    | PushRax
    | PopRax
    | MovRcxRax
    | LoadRax(disp: int)
    | StoreRax(disp: int)
    | AddRaxRcx
    | SubRaxRcx
    | ImulRaxRcx
    | NegRax
    | TestRcxRcx
    | TestRaxRax
    | XorEdxEdx
    | XorEaxEax
    | XorEsiEsi
    | XorEdiEdi
    | DivRcx
    | CmpRaxRcx
    | SetAl(cc: Cond)
    | MovzxRaxAl
    | Je(rel: int)
    | Jmp(rel: int)
    | MovRdiRax
    | MovEsi1
    | MovEaxImm(n: byte)
    | Syscall
    | PushRbp
    | MovRbpRsp
    | SubRspImm(n32: int)

  /** Operands that the encoding can represent. */
  predicate Encodable(i: Instr) {
    match i
    case LoadRax(d) => -0x8000_0000 <= d < 0x8000_0000
    case StoreRax(d) => -0x8000_0000 <= d < 0x8000_0000
    case Je(r) => -0x8000_0000 <= r < 0x8000_0000
    case Jmp(r) => -0x8000_0000 <= r < 0x8000_0000
    case SubRspImm(n) => 0 <= n < 0x8000_0000
    case _ => true
  }

  function CondByte(cc: Cond): byte {
    match cc
    case E => 0x94
    case NE => 0x95
    case B => 0x92
    case BE => 0x96
    case A => 0x97
    case AE => 0x93
  }

  /** Bytes of the encoding. */
  function Length(i: Instr): (n: nat)
    ensures n > 0
  {
    match i
    case MovRaxImm(_) => 10
    case PushRax => 1 case PopRax => 1 case PushRbp => 1
    case XorEdxEdx => 2 case XorEaxEax => 2 case XorEsiEsi => 2 case XorEdiEdi => 2 case Syscall => 2
    case LoadRax(_) => 7 case StoreRax(_) => 7 case SubRspImm(_) => 7
    case Je(_) => 6
    case Jmp(_) => 5 case MovEsi1 => 5 case MovEaxImm(_) => 5
    case ImulRaxRcx => 4 case MovzxRaxAl => 4
    case _ => 3
  }

  function Encode(i: Instr): (bs: seq<byte>)
    ensures |bs| == Length(i)
  {
    match i
    case MovRaxImm(v) => [0x48, 0xB8] + Le64(v)
    case PushRax => [0x50]
    case PopRax => [0x58]
    case MovRcxRax => [0x48, 0x89, 0xC1]
    case LoadRax(d) => [0x48, 0x8B, 0x85] + Le32(d)
    case StoreRax(d) => [0x48, 0x89, 0x85] + Le32(d)
    case AddRaxRcx => [0x48, 0x01, 0xC8]
    case SubRaxRcx => [0x48, 0x29, 0xC8]
    case ImulRaxRcx => [0x48, 0x0F, 0xAF, 0xC1]
    case NegRax => [0x48, 0xF7, 0xD8]
    case TestRcxRcx => [0x48, 0x85, 0xC9]
    case TestRaxRax => [0x48, 0x85, 0xC0]
    case XorEdxEdx => [0x31, 0xD2]
    case XorEaxEax => [0x31, 0xC0]
    case XorEsiEsi => [0x31, 0xF6]
    case XorEdiEdi => [0x31, 0xFF]
    case DivRcx => [0x48, 0xF7, 0xF1]
    case CmpRaxRcx => [0x48, 0x39, 0xC8]
    case SetAl(cc) => [0x0F, CondByte(cc), 0xC0]
    case MovzxRaxAl => [0x48, 0x0F, 0xB6, 0xC0]
    case Je(r) => [0x0F, 0x84] + Le32(r)
    case Jmp(r) => [0xE9] + Le32(r)
    case MovRdiRax => [0x48, 0x89, 0xC7]
    case MovEsi1 => [0xBE, 0x01, 0x00, 0x00, 0x00]
    case MovEaxImm(n) => [0xB8, n, 0x00, 0x00, 0x00]
    case Syscall => [0x0F, 0x05]
    case PushRbp => [0x55]
    case MovRbpRsp => [0x48, 0x89, 0xE5]
    case SubRspImm(n) => [0x48, 0x81, 0xEC] + Le32(n)
  }

  /** The instruction at `pc` and its length, or None for bytes outside the subset. */
  function Decode(c: seq<byte>, pc: int): (r: Option<(Instr, nat)>) {
    var b0, b1, b2 := ByteAt(c, pc), ByteAt(c, pc + 1), ByteAt(c, pc + 2);
    if b0 == 0x48 then DecodeWide(c, pc)
    else if b0 == 0x50 then Some((PushRax, 1))
    else if b0 == 0x58 then Some((PopRax, 1))
    else if b0 == 0x55 then Some((PushRbp, 1))
    else if b0 == 0x31 then
      (if b1 == 0xD2 then Some((XorEdxEdx, 2))
       else if b1 == 0xC0 then Some((XorEaxEax, 2))
       else if b1 == 0xF6 then Some((XorEsiEsi, 2))
       else if b1 == 0xFF then Some((XorEdiEdi, 2))
       else None)
    else if b0 == 0x0F then DecodeTwoByte(c, pc)
    else if b0 == 0xE9 && pc + 5 <= |c| then Some((Jmp(Signed32(Word32At(c, pc + 1))), 5))
    else if b0 == 0xBE && b1 == 1 && b2 == 0 && ByteAt(c, pc + 3) == 0 && ByteAt(c, pc + 4) == 0 then Some((MovEsi1, 5))
    else if b0 == 0xB8 && b1 >= 0 && b2 == 0 && ByteAt(c, pc + 3) == 0 && ByteAt(c, pc + 4) == 0
    then Some((MovEaxImm(b1), 5))
    else None
  }

  function DecodeTwoByte(c: seq<byte>, pc: int): (r: Option<(Instr, nat)>) {
    var b1, b2 := ByteAt(c, pc + 1), ByteAt(c, pc + 2);
    if b1 == 0x05 then Some((Syscall, 2))
    else if b1 == 0x84 && pc + 6 <= |c| then Some((Je(Signed32(Word32At(c, pc + 2))), 6))
    else if b2 != 0xC0 then None
    else if b1 == 0x94 then Some((SetAl(E), 3))
    else if b1 == 0x95 then Some((SetAl(NE), 3))
    else if b1 == 0x92 then Some((SetAl(B), 3))
    else if b1 == 0x96 then Some((SetAl(BE), 3))
    else if b1 == 0x97 then Some((SetAl(A), 3))
    else if b1 == 0x93 then Some((SetAl(AE), 3))
    else None
  }

  /** Instructions with a REX.W prefix. */
  function DecodeWide(c: seq<byte>, pc: int): (r: Option<(Instr, nat)>) {
    var b1, b2 := ByteAt(c, pc + 1), ByteAt(c, pc + 2);
    if b1 == 0xB8 then
      (if 0 <= pc && pc + 10 <= |c| && 0 <= Word64At(c, pc + 2) < W64
       then Some((MovRaxImm(Word64At(c, pc + 2)), 10)) else None)
    else if b1 == 0x89 && b2 == 0xC1 then Some((MovRcxRax, 3))
    else if b1 == 0x89 && b2 == 0xC7 then Some((MovRdiRax, 3))
    else if b1 == 0x89 && b2 == 0xE5 then Some((MovRbpRsp, 3))
    else if b1 == 0x89 && b2 == 0x85 && pc + 7 <= |c| then Some((StoreRax(Signed32(Word32At(c, pc + 3))), 7))
    else if b1 == 0x8B && b2 == 0x85 && pc + 7 <= |c| then Some((LoadRax(Signed32(Word32At(c, pc + 3))), 7))
    else if b1 == 0x81 && b2 == 0xEC && pc + 7 <= |c| then Some((SubRspImm(Signed32(Word32At(c, pc + 3))), 7))
    else if b1 == 0x01 && b2 == 0xC8 then Some((AddRaxRcx, 3))
    else if b1 == 0x29 && b2 == 0xC8 then Some((SubRaxRcx, 3))
    else if b1 == 0x39 && b2 == 0xC8 then Some((CmpRaxRcx, 3))
    else if b1 == 0x85 && b2 == 0xC9 then Some((TestRcxRcx, 3))
    else if b1 == 0x85 && b2 == 0xC0 then Some((TestRaxRax, 3))
    else if b1 == 0xF7 && b2 == 0xD8 then Some((NegRax, 3))
    else if b1 == 0xF7 && b2 == 0xF1 then Some((DivRcx, 3))
    else if b1 == 0x0F && b2 == 0xAF && ByteAt(c, pc + 3) == 0xC1 then Some((ImulRaxRcx, 4))
    else if b1 == 0x0F && b2 == 0xB6 && ByteAt(c, pc + 3) == 0xC0 then Some((MovzxRaxAl, 4))
    else None
  }

  /** Encoding is undone by decoding, wherever the bytes sit. */
  lemma DecodeEncode(c: seq<byte>, pc: int, i: Instr)
    requires BytesAt(c, pc, Encode(i)) && Encodable(i)
    ensures Decode(c, pc) == Some((i, |Encode(i)|))
  {
    hide Decode, Encode, BytesAt;
    if i.MovRaxImm? {
      DecodeMovImm(c, pc, i.imm);
    } else if HasOperand(i) {
      DecodeOperand(c, pc, i);
    } else {
      DecodePlain(c, pc, i);
    }
  }

  lemma DecodeOperand(c: seq<byte>, pc: int, i: Instr)
    requires BytesAt(c, pc, Encode(i)) && Encodable(i) && HasOperand(i) && !i.MovRaxImm?
    ensures Decode(c, pc) == Some((i, |Encode(i)|))
  {
    hide Le32, Word32At, ByteAt, Word64At;
    match i
    case LoadRax(d) => OperandAt(c, pc, [0x48, 0x8B, 0x85], d);
    case StoreRax(d) => OperandAt(c, pc, [0x48, 0x89, 0x85], d);
    case SubRspImm(n) => OperandAt(c, pc, [0x48, 0x81, 0xEC], n);
    case Je(r) => OperandAt(c, pc, [0x0F, 0x84], r);
    case Jmp(r) => OperandAt(c, pc, [0xE9], r);
  }

  predicate HasOperand(i: Instr) {
    i.MovRaxImm? || i.LoadRax? || i.StoreRax? || i.SubRspImm? || i.Je? || i.Jmp?
  }

  lemma DecodePlain(c: seq<byte>, pc: int, i: Instr)
    requires BytesAt(c, pc, Encode(i)) && !HasOperand(i)
    ensures Decode(c, pc) == Some((i, |Encode(i)|))
  {
    LeadingBytes(c, pc, Encode(i));
  }

  lemma DecodeMovImm(c: seq<byte>, pc: int, v: u64)
    requires BytesAt(c, pc, Encode(MovRaxImm(v)))
    ensures Decode(c, pc) == Some((MovRaxImm(v), 10))
  {
    BytesAtSplit(c, pc, [0x48, 0xB8], Le64(v));
    Le64RoundTrip(c, pc + 2, v);
    LeadingBytes(c, pc, [0x48, 0xB8]);
  }

  lemma LeadingBytes(c: seq<byte>, pc: int, bs: seq<byte>)
    requires BytesAt(c, pc, bs)
    ensures |bs| > 0 ==> ByteAt(c, pc) == bs[0]
    ensures |bs| > 1 ==> ByteAt(c, pc + 1) == bs[1]
    ensures |bs| > 2 ==> ByteAt(c, pc + 2) == bs[2]
    ensures |bs| > 3 ==> ByteAt(c, pc + 3) == bs[3]
    ensures |bs| > 4 ==> ByteAt(c, pc + 4) == bs[4]
  {
    forall k | 0 <= k < |bs| ensures ByteAt(c, pc + k) == bs[k] {
      BytesAtIndex(c, pc, bs, k);
    }
  }

  lemma OperandAt(c: seq<byte>, pc: int, op: seq<byte>, v: int)
    requires BytesAt(c, pc, op + Le32(v)) && -0x8000_0000 <= v < 0x8000_0000
    ensures Signed32(Word32At(c, pc + |op|)) == v
    ensures |op| > 0 ==> ByteAt(c, pc) == op[0]
    ensures |op| > 1 ==> ByteAt(c, pc + 1) == op[1]
    ensures |op| > 2 ==> ByteAt(c, pc + 2) == op[2]
  {
    hide BytesAt, Le32, Word32At, Signed32, ByteAt;
    BytesAtSplit(c, pc, op, Le32(v));
    Signed32RoundTrip(c, pc + |op|, v);
    LeadingBytes(c, pc, op);
  }
}
