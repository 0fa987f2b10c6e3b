/**
 The format of x86-64 instructions, written down apart from the decoder of
 src/agent/x86_len.c: legacy prefixes, REX, opcode, ModRM, SIB, displacement and immediate,
 with the sizes of the Intel Software Developer's Manual, volume 2, sections 2.1 and 2.2 and
 Appendix A. The decoder is compared with it in both directions.
 */
module X86Format {
  import opened Framing
  import opened Options
  import opened X86Len

  // ---- the opcode maps ------------------------------------------------------

  /** The immediate of an opcode: none, a byte, a word, a word and a byte (enter), by operand
      size, a branch displacement, by operand size up to eight bytes (mov), an address (mov),
      or that of group 3, which only its test forms have. */
  datatype Imm = NoImm | Ib | Iw | IwIb | Iz | Jz | Iv | Moffs | Group3

  /** What follows an opcode: an immediate only, or ModRM first. Moves to and from control
      and debug registers have a ModRM byte whose mod field means nothing. */
  datatype Form = Refused | Plain(imm: Imm) | Modrm(imm: Imm) | RegisterOnly

  predicate Legacy(b: Byte) { b in {0x26, 0x2E, 0x36, 0x3E, 0x64, 0x65, 0x66, 0x67, 0xF0, 0xF2, 0xF3} }

  predicate Rex(b: Byte) { 0x40 <= b <= 0x4F }

  /** The one-byte map in 64-bit mode. VEX, EVEX and what 64-bit mode does not have is
      refused, and so are prefixes, REX and the escape byte. */
  function OneByte(b: Byte): Form
  {
    if Legacy(b) || Rex(b) || b == 0x0F then Refused
    else if b < 0x40 then // add, or, adc, sbb, and, sub, xor, cmp
      if b % 8 < 4 then Modrm(NoImm) else if b % 8 == 4 then Plain(Ib) else if b % 8 == 5 then Plain(Iz) else Refused
    else if b < 0x60 then Plain(NoImm) // push, pop
    else if b < 0x63 then Refused
    else if b == 0x63 then Modrm(NoImm) // movsxd
    else if b == 0x68 then Plain(Iz) // push
    else if b == 0x69 then Modrm(Iz) // imul
    else if b == 0x6A then Plain(Ib)
    else if b == 0x6B then Modrm(Ib)
    else if b < 0x70 then Plain(NoImm) // ins, outs
    else if b < 0x80 then Plain(Ib) // jcc rel8
    else if b == 0x81 then Modrm(Iz) // group 1
    else if b == 0x82 then Refused
    else if b < 0x84 then Modrm(Ib)
    else if b < 0x90 then Modrm(NoImm) // test, xchg, mov, lea, pop
    else if b == 0x9A then Refused
    else if b < 0xA0 then Plain(NoImm)
    else if b < 0xA4 then Plain(Moffs)
    else if b == 0xA8 then Plain(Ib) // test
    else if b == 0xA9 then Plain(Iz)
    else if b < 0xB0 then Plain(NoImm) // string operations
    else if b < 0xB8 then Plain(Ib) // mov
    else if b < 0xC0 then Plain(Iv)
    else HighByte(b)
  }

  /** The last quarter of the one-byte map. */
  function HighByte(b: Byte): Form
  {
    if Legacy(b) then Refused
    else if b in {0xC0, 0xC1, 0xC6} then Modrm(Ib) // shifts, mov
    else if b == 0xC7 then Modrm(Iz)
    else if b in {0xC2, 0xCA} then Plain(Iw) // ret, retf
    else if b == 0xC8 then Plain(IwIb) // enter
    else if b == 0xCD then Plain(Ib) // int
    else if b in {0xC4, 0xC5, 0xCE, 0xD4, 0xD5, 0xD6, 0xEA} then Refused
    else if b < 0xD0 || b == 0xD7 then Plain(NoImm)
    else if b < 0xE0 then Modrm(NoImm) // shifts, x87
    else if b < 0xE8 || b == 0xEB then Plain(Ib) // loop, in, out, jmp rel8
    else if b < 0xEA then Plain(Jz) // call, jmp
    else if b in {0xF6, 0xF7} then Modrm(Group3)
    else if b >= 0xFE then Modrm(NoImm) // groups 4 and 5
    else Plain(NoImm)
  }

  /** The map behind 0F. */
  function TwoByte(b: Byte): Form
  {
    if b in {0x04, 0x0A, 0x0C, 0x0F} then Refused // 3DNow!
    else if b == 0x0D then Modrm(NoImm) // prefetch
    else if 0x05 <= b < 0x10 then Plain(NoImm) // syscall, invd, ud2
    else if 0x20 <= b < 0x24 then RegisterOnly
    else if 0x24 <= b < 0x28 then Refused
    else if b == 0x36 || 0x38 <= b < 0x40 then Refused // the three-byte escapes among them
    else if 0x30 <= b < 0x38 then Plain(NoImm) // wrmsr, rdtsc, sysenter
    else if 0x70 <= b < 0x74 then Modrm(Ib) // shuffles and shifts
    else if b == 0x77 then Plain(NoImm) // emms
    else if b in {0x7A, 0x7B} then Refused
    else if 0x80 <= b < 0x90 then Plain(Jz) // jcc
    else if b in {0xA0, 0xA1, 0xA2, 0xA8, 0xA9, 0xAA} then Plain(NoImm) // push, pop, cpuid, rsm
    else if b in {0xA4, 0xAC, 0xBA, 0xC2, 0xC4, 0xC5, 0xC6} then Modrm(Ib) // shld, shrd, group 8, cmpps
    else if b in {0xA6, 0xA7} then Refused
    else if 0xC8 <= b < 0xD0 then Plain(NoImm) // bswap
    else Modrm(NoImm)
  }

  /** The opcode: of the one-byte map, or behind 0F, 0F 38 or 0F 3A. */
  datatype Op = One(b: Byte) | Two(b: Byte) | Map38(b: Byte) | Map3A(b: Byte)
  {
    function Bytes(): (p: seq<Byte>)
      ensures p != []
    {
      match this
      case One(b) => [b]
      case Two(b) => [0x0F, b]
      case Map38(b) => [0x0F, 0x38, b]
      case Map3A(b) => [0x0F, 0x3A, b]
    }

    function Form(): Form
    {
      match this
      case One(b) => OneByte(b)
      case Two(b) => TwoByte(b)
      case Map38(_) => Modrm(NoImm)
      case Map3A(_) => Modrm(Ib)
    }
  }

  // ---- instructions ---------------------------------------------------------

  datatype Instr = Instr(legacy: seq<Byte>, rex: Option<Byte>, op: Op, modrm: Option<Byte>, sib: Option<Byte>,
                         disp: seq<Byte>, imm: seq<Byte>)

  function Opt(b: Option<Byte>): seq<Byte> { if b.Some? then [b.value] else [] }

  function OpAt(i: Instr): nat { |i.legacy| + |Opt(i.rex)| }

  function Operand(i: Instr): seq<Byte> { Opt(i.modrm) + (Opt(i.sib) + (i.disp + i.imm)) }

  function Print(i: Instr): seq<Byte> { i.legacy + (Opt(i.rex) + (i.op.Bytes() + Operand(i))) }

  /** Two ways to read an instruction: as the manual says, and as the decoder does. */
  datatype Rule = Manual | AsRead

  predicate Wide(i: Instr) { i.rex.Some? && (i.rex.value / 8) % 2 == 1 }

  /** An immediate by operand size is a word under 66, unless REX.W makes the size 64 bits;
      the decoder does not look at REX.W here. */
  function ZSize(i: Instr, r: Rule): nat { if 0x66 in i.legacy && (r.AsRead? || !Wide(i)) then 2 else 4 }

  function ImmSize(i: Instr, imm: Imm, r: Rule): nat
  {
    match imm
    case NoImm => 0
    case Ib => 1
    case Iw => 2
    case IwIb => 3
    case Iz => ZSize(i, r)
    case Jz => if r.Manual? then 4 else ZSize(i, r) // in 64-bit mode 66 does not shorten a near branch
    case Iv => if Wide(i) then 8 else if 0x66 in i.legacy then 2 else 4
    case Moffs => if 0x67 in i.legacy then 4 else 8
    case Group3 =>
      if i.modrm.None? || (i.modrm.value / 8) % 8 > 1 then 0 else if i.op == One(0xF6) then 1 else ZSize(i, r)
  }

  /** A memory operand has a SIB byte for r/m 4, and a displacement by mod; with mod 0 only
      r/m 5 and a SIB without a base have one. */
  predicate SibFits(m: Byte, sib: Option<Byte>) { sib.Some? <==> m / 64 != 3 && m % 8 == 4 }

  function DispSize(m: Byte, sib: Option<Byte>): nat
  {
    match m / 64
    case 0 => if m % 8 == 5 || (sib.Some? && sib.value % 8 == 5) then 4 else 0
    case 1 => 1
    case 2 => 4
    case _ => 0
  }

  /** The form of an opcode as the decoder reads it: behind a REX byte, a prefix or another
      REX byte passes for an opcode without operands. */
  function FormUnder(i: Instr, r: Rule): Form { if r.AsRead? && Stray(i) then Plain(NoImm) else i.op.Form() }

  predicate Stray(i: Instr) { i.rex.Some? && i.op.One? && (Legacy(i.op.b) || Rex(i.op.b)) }

  predicate OperandFits(i: Instr, f: Form, r: Rule)
  {
    match f
    case Refused => false
    case Plain(imm) => i.modrm.None? && i.sib.None? && i.disp == [] && |i.imm| == ImmSize(i, imm, r)
    case Modrm(imm) =>
      && i.modrm.Some? && SibFits(i.modrm.value, i.sib) && |i.disp| == DispSize(i.modrm.value, i.sib)
      && |i.imm| == ImmSize(i, imm, r)
    case RegisterOnly =>
      && i.modrm.Some? && i.imm == []
      && if r.Manual? then i.sib.None? && i.disp == []
         else SibFits(i.modrm.value, i.sib) && |i.disp| == DispSize(i.modrm.value, i.sib)
  }

  predicate WellFormed(i: Instr, r: Rule)
  {
    && (forall k :: 0 <= k < |i.legacy| ==> Legacy(i.legacy[k]))
    && (i.rex.Some? ==> Rex(i.rex.value))
    && OperandFits(i, FormUnder(i, r), r)
  }

  /** Where the decoder takes another length than the manual: an operand-size prefix on an
      immediate that REX.W keeps at four bytes or on a near branch, and a memory form of a
      move to or from a control or debug register. */
  predicate Misread(i: Instr)
  {
    match i.op.Form()
    case Plain(Iz) => 0x66 in i.legacy && Wide(i)
    case Modrm(Iz) => 0x66 in i.legacy && Wide(i)
    case Modrm(Group3) =>
      0x66 in i.legacy && Wide(i) && i.op != One(0xF6) && i.modrm.Some? && (i.modrm.value / 8) % 8 <= 1
    case Plain(Jz) => 0x66 in i.legacy
    case RegisterOnly => i.modrm.Some? && InMemory(i.modrm.value)
    case _ => false
  }

  /** A ModRM byte that asks for a SIB byte or a displacement. */
  predicate InMemory(m: Byte) { m / 64 == 1 || m / 64 == 2 || (m / 64 == 0 && (m % 8 == 4 || m % 8 == 5)) }

  // ---- the tables -----------------------------------------------------------

  /** The form a letter of the tables stands for. */
  function AttrForm(a: char): Form
  {
    match a
    case 'M' => Modrm(NoImm)
    case 'm' => Modrm(Ib)
    case 'z' => Modrm(Iz)
    case 'g' => Modrm(Group3)
    case 'I' => Plain(Ib)
    case 'W' => Plain(Iw)
    case 'e' => Plain(IwIb)
    case 'Z' => Plain(Iz)
    case 'V' => Plain(Iv)
    case 'A' => Plain(Moffs)
    case '_' => Plain(NoImm)
    case _ => Refused
  }

  /** What the tables do not tell apart. */
  function Coarse(f: Form): Form
  {
    match f
    case Plain(Jz) => Plain(Iz)
    case RegisterOnly => Modrm(NoImm)
    case _ => f
  }

  /** The first table agrees with the map; prefixes and REX have empty entries. */
  predicate OneForm(b: Byte)
  {
    && AttrForm(Attr(OP1, b)) == (if Legacy(b) || Rex(b) then Plain(NoImm) else Coarse(OneByte(b)))
    && (AttrForm(Attr(OP1, b)).Refused? ==> Attr(OP1, b) == 'B')
  }

  predicate TwoForm(b: Byte)
  {
    AttrForm(Attr(OP2, b)) == Coarse(TwoByte(b)) && (AttrForm(Attr(OP2, b)).Refused? ==> Attr(OP2, b) == 'B')
  }

  lemma OneRows0(b: Byte)
    requires b < 0x20 && b != 0x0F
    ensures OneForm(b)
  {
    assert OP1[0] == "MMMMIZBBMMMMIZB_" && OP1[1] == "MMMMIZBBMMMMIZBB";
  }

  lemma OneRows2(b: Byte)
    requires 0x20 <= b < 0x40
    ensures OneForm(b)
  {
    assert OP1[2] == "MMMMIZ_BMMMMIZ_B" && OP1[3] == "MMMMIZ_BMMMMIZ_B";
  }

  lemma OneRows4(b: Byte)
    requires 0x40 <= b < 0x60
    ensures OneForm(b)
  {
    assert OP1[4] == "________________" && OP1[5] == "________________";
  }

  lemma OneRows6(b: Byte)
    requires 0x60 <= b < 0x70
    ensures OneForm(b)
  {
    assert OP1[6] == "BBBM____ZzIm____";
  }

  lemma OneRows7(b: Byte)
    requires 0x70 <= b < 0x90
    ensures OneForm(b)
  {
    assert OP1[7] == "IIIIIIIIIIIIIIII" && OP1[8] == "mzBmMMMMMMMMMMMM";
  }

  lemma OneRows9(b: Byte)
    requires 0x90 <= b < 0xB0
    ensures OneForm(b)
  {
    assert OP1[9] == "__________B_____" && OP1[10] == "AAAA____IZ______";
  }

  lemma OneRowsB(b: Byte)
    requires 0xB0 <= b < 0xC0
    ensures OneForm(b)
  {
    assert OP1[11] == "IIIIIIIIVVVVVVVV";
  }

  lemma OneRowsC(b: Byte)
    requires 0xC0 <= b < 0xD0
    ensures OneForm(b)
  {
    assert OP1[12] == "mmW_BBmze_W__IB_";
  }

  lemma OneRowsD(b: Byte)
    requires 0xD0 <= b < 0xE0
    ensures OneForm(b)
  {
    assert OP1[13] == "MMMMBBB_MMMMMMMM";
  }

  lemma OneRowsE(b: Byte)
    requires 0xE0 <= b < 0xF0
    ensures OneForm(b)
  {
    assert OP1[14] == "IIIIIIIIZZBI____";
  }

  lemma OneRowsF(b: Byte)
    requires 0xF0 <= b
    ensures OneForm(b)
  {
    assert OP1[15] == "______gg______MM";
  }

  lemma TwoRows0(b: Byte)
    requires b < 0x10
    ensures TwoForm(b)
  {
    assert OP2[0] == "MMMMB_____B_BM_B";
  }

  lemma TwoRows1(b: Byte)
    requires 0x10 <= b < 0x30
    ensures TwoForm(b)
  {
    assert OP2[1] == "MMMMMMMMMMMMMMMM" && OP2[2] == "MMMMBBBBMMMMMMMM";
  }

  lemma TwoRows3(b: Byte)
    requires 0x30 <= b < 0x40 && b != 0x38 && b != 0x3A
    ensures TwoForm(b)
  {
    assert OP2[3] == "______B__B_BBBBB";
  }

  lemma TwoRows4(b: Byte)
    requires 0x40 <= b < 0x70
    ensures TwoForm(b)
  {
    assert OP2[4] == "MMMMMMMMMMMMMMMM" && OP2[5] == "MMMMMMMMMMMMMMMM" && OP2[6] == "MMMMMMMMMMMMMMMM";
  }

  lemma TwoRows7(b: Byte)
    requires 0x70 <= b < 0x80
    ensures TwoForm(b)
  {
    assert OP2[7] == "mmmmMMM_MMBBMMMM";
  }

  lemma TwoRows8(b: Byte)
    requires 0x80 <= b < 0xA0
    ensures TwoForm(b)
  {
    assert OP2[8] == "ZZZZZZZZZZZZZZZZ" && OP2[9] == "MMMMMMMMMMMMMMMM";
  }

  lemma TwoRowsA(b: Byte)
    requires 0xA0 <= b < 0xB0
    ensures TwoForm(b)
  {
    assert OP2[10] == "___MmMBB___MmMMM";
  }

  lemma TwoRowsB(b: Byte)
    requires 0xB0 <= b < 0xC0
    ensures TwoForm(b)
  {
    assert OP2[11] == "MMMMMMMMMMmMMMMM";
  }

  lemma TwoRowsC(b: Byte)
    requires 0xC0 <= b < 0xD0
    ensures TwoForm(b)
  {
    assert OP2[12] == "MMmMmmmM________";
  }

  lemma TwoRowsD(b: Byte)
    requires 0xD0 <= b
    ensures TwoForm(b)
  {
    assert OP2[13] == "MMMMMMMMMMMMMMMM" && OP2[14] == "MMMMMMMMMMMMMMMM" && OP2[15] == "MMMMMMMMMMMMMMMM";
  }

  lemma OneByteTable(b: Byte)
    requires b != 0x0F
    ensures OneForm(b)
  {
    hide OneForm;
    if b < 0x20 {
      OneRows0(b);
    } else if b < 0x40 {
      OneRows2(b);
    } else if b < 0x60 {
      OneRows4(b);
    } else if b < 0x70 {
      OneRows6(b);
    } else if b < 0x90 {
      OneRows7(b);
    } else if b < 0xB0 {
      OneRows9(b);
    } else if b < 0xC0 {
      OneRowsB(b);
    } else if b < 0xD0 {
      OneRowsC(b);
    } else if b < 0xE0 {
      OneRowsD(b);
    } else if b < 0xF0 {
      OneRowsE(b);
    } else {
      OneRowsF(b);
    }
  }

  lemma TwoByteTable(b: Byte)
    requires b != 0x38 && b != 0x3A
    ensures TwoForm(b)
  {
    hide TwoForm;
    if b < 0x10 {
      TwoRows0(b);
    } else if b < 0x30 {
      TwoRows1(b);
    } else if b < 0x40 {
      TwoRows3(b);
    } else if b < 0x70 {
      TwoRows4(b);
    } else if b < 0x80 {
      TwoRows7(b);
    } else if b < 0xA0 {
      TwoRows8(b);
    } else if b < 0xB0 {
      TwoRowsA(b);
    } else if b < 0xC0 {
      TwoRowsB(b);
    } else if b < 0xD0 {
      TwoRowsC(b);
    } else {
      TwoRowsD(b);
    }
  }

  // ---- every instruction is read --------------------------------------------

  lemma LegacyIs(b: Byte)
    ensures Legacy(b) <==> b == 0x66 || b == 0x67 || SizeNeutral(b)
    ensures Rex(b) <==> IsRex(b)
  {
  }

  /** The prefix loop stops behind the legacy prefixes and has noted the size overrides. */
  lemma {:induction false} PrefixesAre(legacy: seq<Byte>, tail: seq<Byte>, k: nat)
    requires k <= |legacy| && (forall j :: 0 <= j < |legacy| ==> Legacy(legacy[j])) && tail != [] && !Legacy(tail[0])
    ensures Prefixes(legacy + tail, Prefixed(k, 0x66 in legacy[..k], 0x67 in legacy[..k])) ==
            if |legacy| < 15 then Some(Prefixed(|legacy|, 0x66 in legacy, 0x67 in legacy)) else None
    decreases |legacy| - k
  {
    var p := legacy + tail;
    LegacyIs(p[k]);
    if k == |legacy| {
      assert legacy[..k] == legacy;
    } else {
      assert legacy[..k + 1] == legacy[..k] + [legacy[k]];
      PrefixesAre(legacy, tail, k + 1);
    }
  }

  /** The decoder behind prefixes and REX. */
  lemma DecodeFrom(legacy: seq<Byte>, rex: Option<Byte>, tail: seq<Byte>)
    requires (forall j :: 0 <= j < |legacy| ==> Legacy(legacy[j])) && tail != []
    requires if rex.Some? then Rex(rex.value) else !Legacy(tail[0]) && !Rex(tail[0])
    ensures var p, at := legacy + (Opt(rex) + tail), |legacy| + |Opt(rex)|;
            Decode(p) ==
            if |legacy| >= 15 then None
            else FromOpcode(p, Prefixed(|legacy|, 0x66 in legacy, 0x67 in legacy), at,
                            rex.Some? && (rex.value / 8) % 2 == 1)
  {
    hide FromOpcode, Prefixes;
    var p, rest := legacy + (Opt(rex) + tail), Opt(rex) + tail;
    LegacyIs(rest[0]);
    PrefixesAre(legacy, rest, 0);
    assert legacy[..0] == [];
    assert p[|legacy|] == rest[0];
  }

  /** The form the tables know of an opcode. */
  function Tabled(op: Op): Form { if op.One? && (Legacy(op.b) || Rex(op.b)) then Plain(NoImm) else Coarse(op.Form()) }

  predicate Proper(op: Op) { (op.One? ==> op.b != 0x0F) && (op.Two? ==> op.b != 0x38 && op.b != 0x3A) }

  /** The byte by which group 3 is told apart. */
  function Last(op: Op): Byte
  {
    match op
    case One(b) => b
    case Two(b) => b
    case Map38(_) => 0x38
    case Map3A(_) => 0x3A
  }

  lemma OpcodeIs(p: seq<Byte>, at: nat, op: Op)
    requires at + |op.Bytes()| <= |p| && p[at..at + |op.Bytes()|] == op.Bytes() && Proper(op)
    ensures at < |p| && OpcodeAt(p, at).Some?
    ensures var o := OpcodeAt(p, at).value;
            && o.next == at + |op.Bytes()| && AttrForm(o.attr) == Tabled(op) && o.op == Last(op)
            && (Tabled(op).Refused? ==> o.attr == 'B')
  {
    hide Attr, OneByte, TwoByte;
    var bs := op.Bytes();
    var q := p[at..at + |bs|];
    assert p[at] == q[0] && (|bs| > 1 ==> p[at + 1] == q[1]);
    match op
    case One(b) => OneByteTable(b);
    case Two(b) => TwoByteTable(b);
    case Map38(_) =>
    case Map3A(_) =>
  }

  lemma AttrIs(a: char)
    ensures HasModrm(a) <==> AttrForm(a).Modrm?
    ensures a == 'B' ==> AttrForm(a) == Refused
    ensures !AttrForm(a).RegisterOnly?
    ensures a == 'g' <==> AttrForm(a) == Modrm(Group3)
  {
  }

  lemma ModrmIs(p: seq<Byte>, o: X86Len.Opcode, m: Byte, sib: Option<Byte>)
    requires o.next < |p| && p[o.next] == m && SibFits(m, sib)
    requires sib.Some? ==> o.next + 1 < |p| && p[o.next + 1] == sib.value
    ensures ModrmAt(p, o) ==
            Some(Operands(o.next + 1 + |Opt(sib)| + DispSize(m, sib), o.attr == 'g' && (m / 8) % 8 <= 1))
  {
  }

  /** The immediate by the tables' letters is that of the format. */
  lemma ImmediatesAre(o: X86Len.Opcode, i: Instr, imm: Imm, test: bool)
    requires AttrForm(o.attr) == Plain(imm) || AttrForm(o.attr) == Modrm(imm)
    requires o.op == Last(i.op) && (AttrForm(o.attr) == Modrm(Group3) ==> i.op.One?)
    requires test <==> o.attr == 'g' && i.modrm.Some? && (i.modrm.value / 8) % 8 <= 1
    ensures Immediates(o, test, Prefixed(|i.legacy|, 0x66 in i.legacy, 0x67 in i.legacy), Wide(i)) ==
            ImmSize(i, imm, AsRead)
  {
  }

  lemma TabledGroup3(op: Op)
    requires Tabled(op) == Modrm(Group3)
    ensures op.One?
  {
  }

  /** Where the parts of a printed instruction are. */
  lemma Layout(i: Instr, rest: seq<Byte>)
    ensures var p, at, b := Print(i) + rest, OpAt(i), i.op.Bytes();
            && p == i.legacy + (Opt(i.rex) + (b + (Operand(i) + rest)))
            && at + |b| + |Operand(i)| == |Print(i)| <= |p|
            && p[at..at + |b|] == b && p[at + |b|..at + |b| + |Operand(i)|] == Operand(i)
  {
    var p, at, b := Print(i) + rest, OpAt(i), i.op.Bytes();
    assert p == (i.legacy + Opt(i.rex)) + (b + (Operand(i) + rest));
    assert p == ((i.legacy + Opt(i.rex)) + b) + (Operand(i) + rest);
  }

  lemma OperandParts(i: Instr)
    ensures |Operand(i)| == |Opt(i.modrm)| + |Opt(i.sib)| + |i.disp| + |i.imm|
    ensures i.modrm.Some? ==> Operand(i)[0] == i.modrm.value
    ensures i.modrm.Some? && i.sib.Some? ==> Operand(i)[1] == i.sib.value
  {
  }

  /** Opcode, operand and immediate of an instruction that lies at its place in `p`. */
  lemma OperandRead(p: seq<Byte>, at: nat, i: Instr, s: Prefixed)
    requires at + |i.op.Bytes()| + |Operand(i)| <= |p| && Proper(i.op)
    requires p[at..at + |i.op.Bytes()|] == i.op.Bytes()
    requires p[at + |i.op.Bytes()|..at + |i.op.Bytes()| + |Operand(i)|] == Operand(i)
    requires s == Prefixed(|i.legacy|, 0x66 in i.legacy, 0x67 in i.legacy)
    requires OperandFits(i, Tabled(i.op), AsRead)
    ensures var end := at + |i.op.Bytes()| + |Operand(i)|;
            at < |p| && FromOpcode(p, s, at, Wide(i)) == if end > 15 then None else Some(Insn(end, at))
  {
    hide Print, OneByte, TwoByte, Attr, OpcodeAt, ModrmAt, Immediates, HasModrm, AttrForm, Operand, ImmSize, DispSize,
         Op.Form, Tabled;
    OpcodeIs(p, at, i.op);
    var o := OpcodeAt(p, at).value;
    AttrIs(o.attr);
    OperandParts(i);
    var q := p[o.next..o.next + |Operand(i)|];
    if i.modrm.Some? {
      assert p[o.next] == q[0];
      if i.sib.Some? { assert p[o.next + 1] == q[1]; }
      ModrmIs(p, o, i.modrm.value, i.sib);
    }
    if Tabled(i.op) == Modrm(Group3) { TabledGroup3(i.op); }
    ImmediatesAre(o, i, Tabled(i.op).imm, o.attr == 'g' && i.modrm.Some? && (i.modrm.value / 8) % 8 <= 1);
  }

  /** As the decoder reads, an opcode is well formed by its entry in the tables. */
  lemma FitsTabled(i: Instr)
    requires WellFormed(i, AsRead)
    ensures Proper(i.op) && OperandFits(i, Tabled(i.op), AsRead)
    ensures i.rex.None? ==> !Legacy(i.op.Bytes()[0]) && !Rex(i.op.Bytes()[0])
  {
    hide DispSize;
  }

  /** Every instruction of the format as it is read, whatever follows it, is decoded to its
      own length and its own opcode offset, unless it is longer than 15 bytes. */
  lemma ReadIsDecoded(i: Instr, rest: seq<Byte>)
    requires WellFormed(i, AsRead)
    ensures Decode(Print(i) + rest) == if |Print(i)| <= 15 then Some(Insn(|Print(i)|, OpAt(i))) else None
  {
    hide FromOpcode, OperandFits, FormUnder, Decode, Operand, Tabled, Proper;
    var p := Print(i) + rest;
    Layout(i, rest);
    FitsTabled(i);
    var tail := i.op.Bytes() + (Operand(i) + rest);
    assert tail[0] == i.op.Bytes()[0];
    DecodeFrom(i.legacy, i.rex, tail);
    OperandRead(p, OpAt(i), i, Prefixed(|i.legacy|, 0x66 in i.legacy, 0x67 in i.legacy));
  }

  // ---- nothing else is read -------------------------------------------------

  lemma {:induction false} PrefixesFound(p: seq<Byte>, s: Prefixed)
    requires Prefixes(p, s).Some?
    ensures var r := Prefixes(p, s).value;
            && (forall k :: s.i <= k < r.i ==> Legacy(p[k])) && !Legacy(p[r.i])
            && (r.opsz <==> s.opsz || 0x66 in p[s.i..r.i]) && (r.addrsz <==> s.addrsz || 0x67 in p[s.i..r.i])
    decreases |p| - s.i
  {
    LegacyIs(p[s.i]);
    if Legacy(p[s.i]) {
      var t := Prefixed(s.i + 1, s.opsz || p[s.i] == 0x66, s.addrsz || p[s.i] == 0x67);
      assert Prefixes(p, s) == Prefixes(p, t);
      PrefixesFound(p, t);
      var r := Prefixes(p, s).value;
      assert p[s.i..r.i] == [p[s.i]] + p[s.i + 1..r.i];
    }
  }

  /** The opcode at an offset. */
  function OpIn(p: seq<Byte>, at: nat): (op: Op)
    requires at < |p| && OpcodeAt(p, at).Some?
    ensures at + |op.Bytes()| <= |p| && p[at..at + |op.Bytes()|] == op.Bytes() && Proper(op)
  {
    if p[at] != 0x0F then One(p[at])
    else if p[at + 1] == 0x38 then Map38(p[at + 2])
    else if p[at + 1] == 0x3A then Map3A(p[at + 2])
    else Two(p[at + 1])
  }

  /** ModRM and SIB behind an opcode. */
  lemma ModrmFound(p: seq<Byte>, o: X86Len.Opcode)
    requires ModrmAt(p, o).Some? && ModrmAt(p, o).value.end <= |p|
    ensures var m := p[o.next];
            var sib := if m / 64 != 3 && m % 8 == 4 then Some(p[o.next + 1]) else None;
            && SibFits(m, sib) && ModrmAt(p, o).value.end == o.next + 1 + |Opt(sib)| + DispSize(m, sib)
            && (ModrmAt(p, o).value.test <==> o.attr == 'g' && (m / 8) % 8 <= 1)
  {
  }

  /** The operand at an offset, given where displacement and immediate end. */
  function OperandIn(i: Instr, p: seq<Byte>, at: nat, modrm: bool, end: nat, len: nat): Instr
    requires at <= end <= len <= |p| && (modrm ==> at < end)
    requires modrm && p[at] / 64 != 3 && p[at] % 8 == 4 ==> at + 1 < end
  {
    if !modrm then i.(modrm := None, sib := None, disp := [], imm := p[end..len])
    else
      var sib := if p[at] / 64 != 3 && p[at] % 8 == 4 then Some(p[at + 1]) else None;
      i.(modrm := Some(p[at]), sib := sib, disp := p[at + 1 + |Opt(sib)|..end], imm := p[end..len])
  }

  lemma OperandInPrints(i: Instr, p: seq<Byte>, at: nat, modrm: bool, end: nat, len: nat)
    requires at <= end <= len <= |p| && (modrm ==> at < end) && (!modrm ==> at == end)
    requires modrm && p[at] / 64 != 3 && p[at] % 8 == 4 ==> at + 1 < end
    ensures Operand(OperandIn(i, p, at, modrm, end, len)) == p[at..len]
  {
  }

  /** As the decoder reads, the entry in the tables makes an instruction well formed. */
  lemma TabledFits(i: Instr)
    requires (forall k :: 0 <= k < |i.legacy| ==> Legacy(i.legacy[k])) && (i.rex.Some? ==> Rex(i.rex.value))
    requires i.rex.None? && i.op.One? ==> !Legacy(i.op.b) && !Rex(i.op.b)
    requires OperandFits(i, Tabled(i.op), AsRead)
    ensures WellFormed(i, AsRead)
  {
    hide DispSize;
  }

  /** What is decoded from the opcode on is an operand that fits. */
  lemma OperandFound(p: seq<Byte>, at: nat, legacy: seq<Byte>, rex: Option<Byte>, s: Prefixed) returns (i: Instr)
    requires at < |p| && s == Prefixed(|legacy|, 0x66 in legacy, 0x67 in legacy)
    requires FromOpcode(p, s, at, rex.Some? && (rex.value / 8) % 2 == 1).Some?
    ensures i.legacy == legacy && i.rex == rex && OpcodeAt(p, at).Some? && i.op == OpIn(p, at)
    ensures var len := FromOpcode(p, s, at, rex.Some? && (rex.value / 8) % 2 == 1).value.len;
            at + |i.op.Bytes()| <= len <= |p| && Operand(i) == p[at + |i.op.Bytes()|..len]
    ensures OperandFits(i, Tabled(i.op), AsRead)
  {
    hide OneByte, TwoByte, Attr, OpcodeAt, ModrmAt, Immediates, HasModrm, AttrForm, Operand, ImmSize, DispSize, Op.Form,
         Tabled;
    var o, op := OpcodeAt(p, at).value, OpIn(p, at);
    OpcodeIs(p, at, op);
    AttrIs(o.attr);
    var has := HasModrm(o.attr);
    if has { ModrmFound(p, o); }
    var end := if has then ModrmAt(p, o).value.end else o.next;
    var len := FromOpcode(p, s, at, rex.Some? && (rex.value / 8) % 2 == 1).value.len;
    i := OperandIn(Instr(legacy, rex, op, None, None, [], []), p, o.next, has, end, len);
    OperandInPrints(Instr(legacy, rex, op, None, None, [], []), p, o.next, has, end, len);
    if Tabled(op) == Modrm(Group3) { TabledGroup3(op); }
    ImmediatesAre(o, i, Tabled(op).imm, o.attr == 'g' && i.modrm.Some? && (i.modrm.value / 8) % 8 <= 1);
  }

  /** Everything that is decoded is an instruction of the format as it is read. */
  lemma DecodedIsRead(p: seq<Byte>) returns (i: Instr)
    requires Decode(p).Some?
    ensures WellFormed(i, AsRead) && Print(i) == p[..Decode(p).value.len] && OpAt(i) == Decode(p).value.op
  {
    hide FromOpcode, OperandFits, Operand, Tabled, Prefixes, OpcodeAt, Op.Bytes, WellFormed, Proper, Legacy, Rex,
         Print;
    var s := Prefixes(p, Prefixed(0, false, false)).value;
    PrefixesFound(p, Prefixed(0, false, false));
    LegacyIs(p[s.i]);
    var legacy, rex := p[..s.i], if Rex(p[s.i]) then Some(p[s.i]) else None;
    assert legacy == p[0..s.i];
    var at, r := s.i + |Opt(rex)|, Decode(p).value;
    i := OperandFound(p, at, legacy, rex, s);
    TabledFits(i);
    ReadPrints(p, i, s.i, at, r.len);
  }

  lemma ReadPrints(p: seq<Byte>, i: Instr, k: nat, at: nat, n: nat)
    requires k <= at && at + |i.op.Bytes()| <= n <= |p| && i.legacy == p[..k] && Opt(i.rex) == p[k..at]
    requires i.op.Bytes() == p[at..at + |i.op.Bytes()|] && Operand(i) == p[at + |i.op.Bytes()|..n]
    ensures Print(i) == p[..n]
  {
    hide Operand, Op.Bytes, Opt;
    Pieces(p, k, at, at + |i.op.Bytes()|, n);
  }

  lemma Pieces(p: seq<Byte>, a: nat, b: nat, c: nat, n: nat)
    requires a <= b <= c <= n <= |p|
    ensures p[..n] == p[..a] + (p[a..b] + (p[b..c] + p[c..n]))
  {
  }

  /** The decoder decides the format as it is read: it returns a length and an opcode offset
      if and only if an instruction of that length, at most 15, is there. */
  lemma DecodeIff(p: seq<Byte>, n: nat, at: nat)
    requires n <= |p|
    ensures Decode(p) == Some(Insn(n, at)) <==>
            n <= 15 && exists i :: WellFormed(i, AsRead) && Print(i) == p[..n] && OpAt(i) == at
  {
    hide Decode, WellFormed, Print, OpAt;
    if Decode(p) == Some(Insn(n, at)) {
      var i := DecodedIsRead(p);
      DecodeIsPrefixCode(p, [], 0);
    }
    if n <= 15 && exists i :: WellFormed(i, AsRead) && Print(i) == p[..n] && OpAt(i) == at {
      var i :| WellFormed(i, AsRead) && Print(i) == p[..n] && OpAt(i) == at;
      ReadIsDecoded(i, p[n..]);
      assert p == p[..n] + p[n..];
    }
  }

  // ---- the manual -----------------------------------------------------------

  /** What is read is as the manual says, except behind REX and where sizes differ. */
  lemma ReadIsManualIff(i: Instr)
    requires WellFormed(i, AsRead)
    ensures WellFormed(i, Manual) <==> !Stray(i) && !Misread(i)
  {
    hide OneByte, TwoByte, DispSize, InMemory;
    FormsExist(i.op);
    if i.modrm.Some? { RegisterShape(i.modrm.value, i.sib); }
  }

  lemma RegisterShape(m: Byte, sib: Option<Byte>)
    ensures InMemory(m) <==> !(SibFits(m, None) && DispSize(m, None) == 0)
    ensures InMemory(m) && SibFits(m, sib) ==> sib.Some? || DispSize(m, sib) > 0
    ensures !InMemory(m) && SibFits(m, sib) ==> sib.None?
  {
  }

  lemma FormsExist(op: Op)
    ensures op.One? && (Legacy(op.b) || Rex(op.b)) ==> op.Form().Refused?
    ensures op.Form() != Modrm(Jz) && (op.Form() == Modrm(Group3) ==> op.One?)
  {
  }

  lemma ManualIsRead(i: Instr)
    requires WellFormed(i, Manual) && !Misread(i)
    ensures WellFormed(i, AsRead)
  {
    hide OneByte, TwoByte, DispSize, InMemory;
    FormsExist(i.op);
    if i.modrm.Some? { RegisterShape(i.modrm.value, i.sib); }
  }

  /** A misread immediate: the decoder takes two bytes of four. */
  lemma Shortened(i: Instr, rest: seq<Byte>)
    requires WellFormed(i, Manual) && Misread(i) && !i.op.Form().RegisterOnly?
    ensures Decode(Print(i) + rest) == if |Print(i)| <= 17 then Some(Insn(|Print(i)| - 2, OpAt(i))) else None
  {
    hide Decode;
    hide WellFormed, Print, Misread;
    ShortenedRead(i);
    CutPrint(i, rest);
    ReadIsDecoded(i.(imm := i.imm[..2]), i.imm[2..] + rest);
  }

  lemma CutPrint(i: Instr, rest: seq<Byte>)
    requires |i.imm| == 4
    ensures var j := i.(imm := i.imm[..2]);
            && Print(i) + rest == Print(j) + (i.imm[2..] + rest)
            && |Print(j)| == |Print(i)| - 2 && OpAt(j) == OpAt(i)
  {
    var j := i.(imm := i.imm[..2]);
    assert i.imm == j.imm + i.imm[2..];
    assert Operand(i) == Operand(j) + i.imm[2..];
    hide Operand;
    assert Print(i) == Print(j) + i.imm[2..];
  }

  lemma ShortenedRead(i: Instr)
    requires WellFormed(i, Manual) && Misread(i) && !i.op.Form().RegisterOnly?
    ensures |i.imm| == 4 && WellFormed(i.(imm := i.imm[..2]), AsRead)
  {
    hide OneByte, TwoByte;
    FormsExist(i.op);
  }

  /** A misread register form: the decoder takes a SIB byte or a displacement behind it. */
  lemma Lengthened(i: Instr, rest: seq<Byte>)
    requires WellFormed(i, Manual) && Misread(i) && i.op.Form().RegisterOnly?
    ensures var r := Decode(Print(i) + rest); r.Some? ==> r.value.len > |Print(i)|
  {
    hide Decode, TwoByte, OneByte, Attr, OpcodeAt, HasModrm, AttrForm;
    var p, at := Print(i) + rest, OpAt(i);
    Layout(i, rest);
    RegisterOps(i.op);
    DecodeFrom(i.legacy, i.rex, i.op.Bytes() + (Operand(i) + rest));
    OpcodeIs(p, at, i.op);
    var o := OpcodeAt(p, at).value;
    AttrIs(o.attr);
    OperandParts(i);
    assert p[o.next] == p[o.next..o.next + |Operand(i)|][0];
  }

  lemma RegisterOps(op: Op)
    requires op.Form().RegisterOnly?
    ensures op.Two? && Proper(op) && Tabled(op) == Modrm(NoImm)
  {
  }

  /** Every instruction the manual describes, whatever follows it, is decoded to its length
      and opcode offset if and only if it is not one of the misread ones, given that it has
      at most 15 bytes. */
  lemma ManualIsDecodedIff(i: Instr, rest: seq<Byte>)
    requires WellFormed(i, Manual) && |Print(i)| <= 15
    ensures Decode(Print(i) + rest) == Some(Insn(|Print(i)|, OpAt(i))) <==> !Misread(i)
  {
    hide Decode, WellFormed, Print, Misread;
    if !Misread(i) {
      ManualIsRead(i);
      ReadIsDecoded(i, rest);
    } else if i.op.Form().RegisterOnly? {
      Lengthened(i, rest);
    } else {
      Shortened(i, rest);
    }
  }

  /** add rax, imm32 under an operand-size prefix, which REX.W overrides: 7 bytes, of which
      the decoder takes 5. */
  lemma WideImmediateIsCut()
    ensures var i := Instr([0x66], Some(0x48), One(0x05), None, None, [], [1, 2, 3, 4]);
            WellFormed(i, Manual) && |Print(i)| == 7 && Decode(Print(i)) == Some(Insn(5, 2))
  {
    hide Decode;
    var i := Instr([0x66], Some(0x48), One(0x05), None, None, [], [1, 2, 3, 4]);
    assert OneByte(0x05) == Plain(Iz);
    assert |Print(i)| == 7;
    Shortened(i, []);
    assert Print(i) + [] == Print(i);
  }

  /** A prefix behind REX passes for an instruction of its own, and the return behind it is
      found in the middle of the three bytes. */
  lemma PrefixBehindRex()
    ensures Decode([0x48, 0xF3, 0xC3]) == Some(Insn(2, 1)) && Rets([0x48, 0xF3, 0xC3]) == Some([2])
  {
    hide Decode, Print, WellFormed, Rets, Shift, OpAt;
    var i, j := Instr([], Some(0x48), One(0xF3), None, None, [], []), Instr([], None, One(0xC3), None, None, [], []);
    RepReturn(i, j);
    assert [0x48, 0xF3, 0xC3] == Print(i) + Print(j);
    ReadIsDecoded(i, Print(j));
    RetsOne(i);
    RetsOne(j);
    RetsConcatenate(Print(i), Print(j));
    assert [] + Shift([0], 2) == [2];
  }

  lemma RepReturn(i: Instr, j: Instr)
    requires i == Instr([], Some(0x48), One(0xF3), None, None, [], [])
    requires j == Instr([], None, One(0xC3), None, None, [], [])
    ensures WellFormed(i, AsRead) && WellFormed(j, AsRead) && OpAt(i) == 1
    ensures Print(i) == [0x48, 0xF3] && Print(j) == [0xC3]
  {
    assert OneByte(0xC3) == Plain(NoImm);
  }

  // ---- programs -------------------------------------------------------------

  predicate Returns(i: Instr) { i.op == One(0xC3) || i.op == One(0xC2) }

  function PrintAll(code: seq<Instr>): seq<Byte> { if code == [] then [] else Print(code[0]) + PrintAll(code[1..]) }

  /** Where the returns of a program start. */
  function ReturnsOf(code: seq<Instr>): seq<nat>
  {
    if code == [] then []
    else (if Returns(code[0]) then [0] else []) + Shift(ReturnsOf(code[1..]), |Print(code[0])|)
  }

  lemma FirstByte(op: Op)
    ensures op.Bytes()[0] in {0xC3, 0xC2} <==> op == One(0xC3) || op == One(0xC2)
  {
  }

  lemma RetsOne(i: Instr)
    requires WellFormed(i, AsRead) && |Print(i)| <= 15
    ensures Rets(Print(i)) == Some(if Returns(i) then [0] else [])
  {
    hide Decode, WellFormed, Starts, X86Len.Kept, Print, Op.Bytes;
    var p := Print(i);
    ReadIsDecoded(i, []);
    Layout(i, []);
    assert p + [] == p && p[0..] == p && p[|p|..] == [];
    assert p[OpAt(i)] == p[OpAt(i)..OpAt(i) + |i.op.Bytes()|][0] == i.op.Bytes()[0];
    StartsBase(p);
    StartsStep(p);
    assert [0] + [] == [0] && Shift([], |p|) == [];
    KeptStep(p, 0, []);
    FirstByte(i.op);
  }

  /** A function body made of instructions as the manual describes them, none misread: the
      search finds exactly its returns, at their first bytes. */
  lemma {:induction false} RetsOfProgram(code: seq<Instr>)
    requires forall k :: 0 <= k < |code| ==>
               WellFormed(code[k], Manual) && !Misread(code[k]) && |Print(code[k])| <= 15
    ensures Rets(PrintAll(code)) == Some(ReturnsOf(code))
  {
    hide Rets, Print, WellFormed, Misread, Returns;
    if code == [] {
      NoRets();
    } else {
      ManualIsRead(code[0]);
      RetsOne(code[0]);
      RetsOfProgram(code[1..]);
      RetsConcatenate(Print(code[0]), PrintAll(code[1..]));
    }
  }

  lemma NoRets()
    ensures Rets([]) == Some([])
  {
  }
}
