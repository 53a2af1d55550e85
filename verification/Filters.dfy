/** Which words the filter of the trace recorder accepts and which ones the translator has code for, from the bits. */
module Filters {
  import opened Rv32
  import opened Encoding
  import opened BlockHeap
  import opened BlockStores
  import RegionBuilder
  import SsaForm

  /** Instructions that leave the guest for the host. */
  predicate IsSystem(i: Insn) {
    i.Monitor? || i.ReadCycle? || i.OtherSystem?
  }

  lemma FilterOpcodes(w: int)
    ensures CanCompileInstr(w) <==> Opcode(w) in {0x03, 0x0f, 0x13, 0x17, 0x23, 0x33, 0x37, 0x63, 0x67, 0x6f}
  {
    Fields(w);
    hide Field, Opcode;
  }

  /** The filter accepts an instruction exactly if it is not a system instruction. */
  lemma FilterExact(w: int)
    requires Decode(w).Some?
    ensures CanCompileInstr(w) <==> !IsSystem(Decode(w).value)
  {
    FilterOpcodes(w);
    SystemOpcode(w);
    hide Decode, CanCompileInstr, Opcode;
  }

  lemma SystemOpcode(w: int)
    requires Decode(w).Some?
    ensures IsSystem(Decode(w).value) <==> Opcode(w) == 0x73
    ensures Opcode(w) in {0x03, 0x0f, 0x13, 0x17, 0x23, 0x33, 0x37, 0x63, 0x67, 0x6f, 0x73}
  {
    Fields(w);
    hide Field, Opcode, IImm, SImm, BImm, JImm, DecodeAlu;
  }

  /** A block is accepted exactly if it has no system instruction. */
  lemma AcceptedExact(v: Insns)
    requires forall i :: 0 <= i < |v| ==> Decode(v[i].0).Some?
    ensures Accepted(v) <==> forall i :: 0 <= i < |v| ==> !IsSystem(Decode(v[i].0).value)
  {
    hide Decode, CanCompileInstr, IsSystem;
    forall i | 0 <= i < |v|
      ensures CanCompileInstr(v[i].0) <==> !IsSystem(Decode(v[i].0).value)
    {
      FilterExact(v[i].0);
    }
  }

  /** What has a translation is accepted. */
  lemma TranslatableAccepted(v: Insns)
    requires RegionBuilder.CanTranslate(v)
    ensures Accepted(v)
  {
    hide Decode, CanCompileInstr;
    AcceptedExact(v);
    forall i | 0 <= i < |v|
      ensures !IsSystem(Decode(v[i].0).value)
    {
      assert SsaForm.Translatable(Decode(v[i].0).value);
    }
  }

  /** The words with a class of their own: all but fences and system instructions, and loads without a destination that
      have no width. */
  lemma HasClass(w: int)
    requires Decode(w).Some?
    ensures SsaForm.CanBind(Decode(w).value) <==>
      Opcode(w) in {0x13, 0x17, 0x23, 0x33, 0x37, 0x63, 0x67, 0x6f}
      || (Opcode(w) == 0x03 && Funct3(w) in {0, 1, 2, 4, 5})
  {
    Fields(w);
    hide Field, Opcode, Funct3, IImm, SImm, BImm, JImm, DecodeAlu;
  }

  /** The words with a translation: stores and transfers of control, and what writes a register other than x0. */
  lemma TranslatesExactly(w: int)
    requires Decode(w).Some?
    ensures SsaForm.Translatable(Decode(w).value) <==>
      || Opcode(w) in {0x23, 0x63, 0x67, 0x6f}
      || (Opcode(w) in {0x03, 0x13, 0x17, 0x33, 0x37} && Rd(w) != 0)
  {
    RegionBuilder.BoundInsn(w);
    HasClass(w);
    DecodeNone(w);
    if SsaForm.CanBind(Decode(w).value) {
      Destination(w);
    }
    hide Decode, SsaForm.CanBind, SsaForm.Translatable, Defines, Opcode, Rd;
  }

  lemma Destination(w: int)
    requires Decode(w).Some? && SsaForm.CanBind(Decode(w).value)
    ensures Defines(Decode(w).value) == Some(0) <==> Opcode(w) in {0x03, 0x13, 0x17, 0x33, 0x37} && Rd(w) == 0
  {
    Fields(w);
    hide Field, Opcode, Funct3, Rd, IImm, SImm, BImm, JImm, DecodeAlu;
  }

  /** What the flags of a block are set by, and what ends a block. */
  lemma FlagWords(w: int)
    requires 0 <= w < 0x1_0000_0000
    ensures IsJr(w) <==> Opcode(w) == 0x67 && Rd(w) == 0
    ensures IsJalr(w) <==> Opcode(w) == 0x67 && Rd(w) != 0
    ensures IsJal(w) <==> Opcode(w) == 0x6f && Rd(w) != 0
    ensures IsMonitor(w) <==> w == 0x73
    ensures Transfers(w) <==>
      Opcode(w) == 0x67 || Opcode(w) == 0x6f || (Opcode(w) == 0x63 && Funct3(w) != 2 && Funct3(w) != 3)
  {
    JumpWord(w);
    OtherWord(w);
    DecodeNone(w);
    assert Opcode(0x73) == 0x73;
    if Decode(w).Some? {
      ControlOpcode(w);
    }
    hide Decode, Opcode, Rd, Funct3;
  }

  lemma ControlOpcode(w: int)
    requires Decode(w).Some?
    ensures Decode(w).value.Jalr? <==> Opcode(w) == 0x67
    ensures Decode(w).value.Jal? <==> Opcode(w) == 0x6f
    ensures Decode(w).value.Branch? <==> Opcode(w) == 0x63
    ensures Decode(w).value.Monitor? ==> Opcode(w) == 0x73
  {
    Fields(w);
    hide Field, Opcode, IImm, SImm, BImm, JImm, DecodeAlu;
  }
}
