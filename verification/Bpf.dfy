/** BPF instructions, as built by the constructor macros of the code generator. */
module Bpf {
  import opened Bytes

  type i16 = x: int | -0x8000 <= x < 0x8000
  type i32 = x: int | -0x8000_0000 <= x < 0x8000_0000
  type Reg = r: int | 0 <= r <= 10

  datatype Size = B | H | W | DW {
    function Len(): (n: nat)
      ensures 1 <= n <= 8
    {
      match this case B => 1 case H => 2 case W => 4 case DW => 8
    }
  }

  datatype AluOp = Add | Sub | Conj | Disj | Lsh
  datatype JmpOp = Jeq | Jne | Jlt | Jgt

  datatype Helper = MapLookupElem
  datatype Kfunc = DynptrFromXdp | DynptrFromSkb | DynptrSlice

  datatype Insn =
    | Mov64Reg(dst: Reg, src: Reg)
    | Mov64Imm(dst: Reg, imm: i32)
    | Mov32Imm(dst: Reg, imm: i32)
    | Alu64Reg(op: AluOp, dst: Reg, src: Reg)
    | Alu64Imm(op: AluOp, dst: Reg, imm: i32)
    | Alu32Reg(op: AluOp, dst: Reg, src: Reg)
    | Alu32Imm(op: AluOp, dst: Reg, imm: i32)
    | Ldx(size: Size, dst: Reg, src: Reg, off: i16)
    | Stx(size: Size, dst: Reg, src: Reg, off: i16)
    | St(size: Size, dst: Reg, off: i16, imm: i32)
    | JmpImm(jop: JmpOp, dst: Reg, imm: i32, off: i16)
    | JmpReg(jop: JmpOp, dst: Reg, src: Reg, off: i16)
    | Ja(off: i16)
    | CallRel(imm: i32)
    | CallHelper(helper: Helper)
    | CallKfunc(kfunc: Kfunc)
      // First and second slot of the 16-byte "load map file descriptor" instruction.
    | LdMapFd(dst: Reg, imm: i32)
    | LdHi
    | Exit

  /** Conversion of an integer to the signed 32-bit `imm` field. */
  function ToI32(x: int): (r: i32)
    ensures r % 0x1_0000_0000 == x % 0x1_0000_0000
  {
    (x + 0x8000_0000) % 0x1_0000_0000 - 0x8000_0000
  }

  /** Cast of an integer to the signed 16-bit `off` field. */
  function ToI16(x: int): (r: i16)
    ensures -0x8000 <= x < 0x8000 ==> r == x
  {
    (x + 0x8000) % 0x1_0000 - 0x8000
  }

  /** 64-bit operand made from a sign-extended immediate. */
  function Sext64(imm: i32): (r: u64)
  {
    if imm >= 0 then imm else imm + 0x1_0000_0000_0000_0000
  }

  /** 32-bit operand made from an immediate, zero-extended to the register width. */
  function Zext32(imm: i32): (r: u32)
    ensures r == imm % 0x1_0000_0000
  {
    if imm >= 0 then imm else imm + 0x1_0000_0000
  }

  predicate IsJump(insn: Insn)
  {
    insn.JmpImm? || insn.JmpReg? || insn.Ja?
  }

  /** Instructions after which control always continues with the next slot. */
  predicate IsPlain(insn: Insn)
  {
    !IsJump(insn) && !insn.Exit? && !insn.CallRel? && !insn.LdMapFd? && !insn.LdHi?
  }
}
