/**
 The instruction-length decoder of src/agent/x86_len.c: a prefix code over byte strings,
 and the search for return instructions that walks a function body with it.
 */
module X86Len {
  import opened Framing
  import opened Options

  const MAX_INSN: nat := 15

  /** The two opcode maps, sixteen opcodes to a row as in the source. The letters are the
      source's attributes: M ModRM, I imm8, W imm16, Z operand-size immediate, V the same
      with REX.W, A address-size immediate, B refused, _ nothing; m is M|I, z is M|Z,
      g is M|G (an immediate only for ModRM.reg 0 and 1) and e is W|I. */
  const OP1: seq<string> := [
    "MMMMIZBBMMMMIZB_", "MMMMIZBBMMMMIZBB", "MMMMIZ_BMMMMIZ_B", "MMMMIZ_BMMMMIZ_B",
    "________________", "________________", "BBBM____ZzIm____", "IIIIIIIIIIIIIIII",
    "mzBmMMMMMMMMMMMM", "__________B_____", "AAAA____IZ______", "IIIIIIIIVVVVVVVV",
    "mmW_BBmze_W__IB_", "MMMMBBB_MMMMMMMM", "IIIIIIIIZZBI____", "______gg______MM"]

  const OP2: seq<string> := [
    "MMMMB_____B_BM_B", "MMMMMMMMMMMMMMMM", "MMMMBBBBMMMMMMMM", "______B__B_BBBBB",
    "MMMMMMMMMMMMMMMM", "MMMMMMMMMMMMMMMM", "MMMMMMMMMMMMMMMM", "mmmmMMM_MMBBMMMM",
    "ZZZZZZZZZZZZZZZZ", "MMMMMMMMMMMMMMMM", "___MmMBB___MmMMM", "MMMMMMMMMMmMMMMM",
    "MMmMmmmM________", "MMMMMMMMMMMMMMMM", "MMMMMMMMMMMMMMMM", "MMMMMMMMMMMMMMMM"]

  /** The entry of an opcode: row by its high digit, column by its low one. */
  function Attr(table: seq<string>, b: Byte): char
  {
    if b / 16 < |table| && b % 16 < |table[b / 16]| then table[b / 16][b % 16] else 'B'
  }

  predicate HasModrm(a: char) { a in {'M', 'm', 'z', 'g'} }

  predicate HasImm8(a: char) { a in {'I', 'm', 'e'} }

  predicate HasImm16(a: char) { a in {'W', 'e'} }

  predicate HasImmZ(a: char) { a in {'Z', 'z'} }

  predicate SizeNeutral(b: Byte) { b in {0xF0, 0xF2, 0xF3, 0x2E, 0x36, 0x3E, 0x26, 0x64, 0x65} }

  /** The first byte behind the legacy prefixes, and the size overrides among them. */
  datatype Prefixed = Prefixed(i: nat, opsz: bool, addrsz: bool)

  function Prefixes(p: seq<Byte>, s: Prefixed): (r: Option<Prefixed>)
    ensures r.Some? ==> s.i <= r.value.i < |p| && r.value.i < MAX_INSN
    decreases |p| - s.i
  {
    if s.i >= |p| || s.i >= MAX_INSN then None
    else if p[s.i] == 0x66 then Prefixes(p, s.(i := s.i + 1, opsz := true))
    else if p[s.i] == 0x67 then Prefixes(p, s.(i := s.i + 1, addrsz := true))
    else if SizeNeutral(p[s.i]) then Prefixes(p, s.(i := s.i + 1))
    else Some(s)
  }

  /** The attributes of an opcode, the byte behind it, and the opcode byte that decides
      between the forms of F6 and F7. */
  datatype Opcode = Opcode(attr: char, next: nat, op: Byte)

  function OpcodeAt(p: seq<Byte>, i: nat): (r: Option<Opcode>)
    requires i < |p|
    ensures r.Some? ==> i < r.value.next <= |p|
  {
    if p[i] != 0x0F then Some(Opcode(Attr(OP1, p[i]), i + 1, p[i]))
    else if i + 1 >= |p| then None
    else if p[i + 1] != 0x38 && p[i + 1] != 0x3A then Some(Opcode(Attr(OP2, p[i + 1]), i + 2, p[i + 1]))
    else if i + 2 >= |p| then None
    else Some(Opcode(if p[i + 1] == 0x3A then 'm' else 'M', i + 3, p[i + 1]))
  }

  /** Where the operands in memory end, and whether a test immediate follows. */
  datatype Operands = Operands(end: nat, test: bool)

  function DispOf(mod: nat): nat { if mod == 1 then 1 else if mod == 2 then 4 else 0 }

  function ModrmAt(p: seq<Byte>, o: Opcode): (r: Option<Operands>)
    ensures r.Some? ==> r.value.end > o.next
  {
    if o.next >= |p| then None
    else
      var modrm := p[o.next];
      var mod, rm, test := modrm / 64, modrm % 8, o.attr == 'g' && (modrm / 8) % 8 <= 1;
      if mod == 3 then Some(Operands(o.next + 1, test))
      else if rm != 4 then Some(Operands(o.next + 1 + (if mod == 0 && rm == 5 then 4 else DispOf(mod)), test))
      else if o.next + 1 >= |p| then None
      else Some(Operands(o.next + 2 + (if mod == 0 && p[o.next + 1] % 8 == 5 then 4 else DispOf(mod)), test))
  }

  function Immediates(o: Opcode, test: bool, s: Prefixed, rexW: bool): nat
  {
    (if HasImm8(o.attr) || (test && o.op == 0xF6) then 1 else 0) +
    (if HasImm16(o.attr) then 2 else 0) +
    (if HasImmZ(o.attr) || (test && o.op != 0xF6) then (if s.opsz then 2 else 4) else 0) +
    (if o.attr == 'V' then (if rexW then 8 else if s.opsz then 2 else 4) else 0) +
    (if o.attr == 'A' then (if s.addrsz then 4 else 8) else 0)
  }

  /** An instruction: its length and the offset of its opcode byte. */
  datatype Insn = Insn(len: nat, op: nat)

  /** The decoder from the opcode on. */
  function FromOpcode(p: seq<Byte>, s: Prefixed, i: nat, rexW: bool): (r: Option<Insn>)
    requires i < |p|
    ensures r.Some? ==> r.value.op == i < r.value.len <= |p| && r.value.len <= MAX_INSN
  {
    match OpcodeAt(p, i)
    case None => None
    case Some(o) =>
      if o.attr == 'B' then None
      else
        match if HasModrm(o.attr) then ModrmAt(p, o) else Some(Operands(o.next, false))
        case None => None
        case Some(m) =>
          var end := m.end + Immediates(o, m.test, s, rexW);
          if end > |p| || end > MAX_INSN then None else Some(Insn(end, i))
  }

  predicate IsRex(b: Byte) { b / 16 == 4 }

  /** insn_len. */
  function Decode(p: seq<Byte>): (r: Option<Insn>)
    ensures r.Some? ==> r.value.op < r.value.len <= |p| && r.value.len <= MAX_INSN
  {
    match Prefixes(p, Prefixed(0, false, false))
    case None => None
    case Some(s) =>
      if !IsRex(p[s.i]) then FromOpcode(p, s, s.i, false)
      else if s.i + 1 >= |p| then None
      else FromOpcode(p, s, s.i + 1, (p[s.i] / 8) % 2 == 1)
  }

  // ---- a prefix code --------------------------------------------------------

  /** `q` has the first `n` bytes of `p`. */
  predicate Agree(p: seq<Byte>, q: seq<Byte>, n: nat) { n <= |p| && n <= |q| && p[..n] == q[..n] }

  lemma AgreeAt(p: seq<Byte>, q: seq<Byte>, n: nat, i: nat)
    requires Agree(p, q, n) && i < n
    ensures p[i] == q[i]
  {
    assert p[i] == p[..n][i] && q[i] == q[..n][i];
  }

  lemma {:induction false} PrefixesLocal(p: seq<Byte>, q: seq<Byte>, s: Prefixed)
    requires Prefixes(p, s).Some? && Agree(p, q, Prefixes(p, s).value.i + 1)
    ensures Prefixes(q, s) == Prefixes(p, s)
    decreases |p| - s.i
  {
    AgreeAt(p, q, Prefixes(p, s).value.i + 1, s.i);
    if p[s.i] == 0x66 {
      PrefixesLocal(p, q, s.(i := s.i + 1, opsz := true));
    } else if p[s.i] == 0x67 {
      PrefixesLocal(p, q, s.(i := s.i + 1, addrsz := true));
    } else if SizeNeutral(p[s.i]) {
      PrefixesLocal(p, q, s.(i := s.i + 1));
    }
  }

  lemma OpcodeLocal(p: seq<Byte>, q: seq<Byte>, i: nat)
    requires i < |p| && OpcodeAt(p, i).Some? && Agree(p, q, OpcodeAt(p, i).value.next)
    ensures OpcodeAt(q, i) == OpcodeAt(p, i)
  {
    hide Attr;
    var n := OpcodeAt(p, i).value.next;
    AgreeAt(p, q, n, i);
    if n > i + 1 { AgreeAt(p, q, n, i + 1); }
  }

  lemma ModrmLocal(p: seq<Byte>, q: seq<Byte>, o: Opcode, n: nat)
    requires ModrmAt(p, o).Some? && Agree(p, q, n) && ModrmAt(p, o).value.end <= n
    ensures ModrmAt(q, o) == ModrmAt(p, o)
  {
    AgreeAt(p, q, n, o.next);
    if p[o.next] / 64 != 3 && p[o.next] % 8 == 4 { AgreeAt(p, q, n, o.next + 1); }
  }

  lemma FromOpcodeLocal(p: seq<Byte>, q: seq<Byte>, s: Prefixed, i: nat, rexW: bool)
    requires i < |p| && FromOpcode(p, s, i, rexW).Some? && Agree(p, q, FromOpcode(p, s, i, rexW).value.len)
    ensures i < |q| && FromOpcode(q, s, i, rexW) == FromOpcode(p, s, i, rexW)
  {
    hide OpcodeAt, ModrmAt, Immediates, HasModrm;
    var n := FromOpcode(p, s, i, rexW).value.len;
    var o := OpcodeAt(p, i).value;
    AgreeLess(p, q, n, o.next);
    OpcodeLocal(p, q, i);
    if HasModrm(o.attr) { ModrmLocal(p, q, o, n); }
  }

  lemma AgreeLess(p: seq<Byte>, q: seq<Byte>, n: nat, m: nat)
    requires Agree(p, q, n)
    ensures m <= n ==> Agree(p, q, m)
  {
    if m <= n { assert p[..m] == p[..n][..m] && q[..m] == q[..n][..m]; }
  }

  /** The bytes of an instruction decide its decoding, whatever follows them. */
  lemma DecodeIsLocal(p: seq<Byte>, q: seq<Byte>)
    requires Decode(p).Some? && Agree(p, q, Decode(p).value.len)
    ensures Decode(q) == Decode(p)
  {
    hide FromOpcode, Prefixes;
    var n := Decode(p).value.len;
    var s := Prefixes(p, Prefixed(0, false, false)).value;
    AgreeLess(p, q, n, s.i + 1);
    PrefixesLocal(p, q, Prefixed(0, false, false));
    AgreeAt(p, q, n, s.i);
    if IsRex(p[s.i]) {
      FromOpcodeLocal(p, q, s, s.i + 1, (p[s.i] / 8) % 2 == 1);
    } else {
      FromOpcodeLocal(p, q, s, s.i, false);
    }
  }

  /** Extending the input keeps the length, 1 to 15; cutting it short of the length makes
      the decoder refuse. */
  lemma DecodeIsPrefixCode(p: seq<Byte>, more: seq<Byte>, n: nat)
    requires Decode(p).Some?
    ensures 1 <= Decode(p).value.len <= 15 && Decode(p + more) == Decode(p)
    ensures n < Decode(p).value.len ==> Decode(p[..n]) == None
  {
    var len := Decode(p).value.len;
    assert (p + more)[..len] == p[..len];
    DecodeIsLocal(p, p + more);
    if n < len && Decode(p[..n]).Some? {
      assert p[..n][..Decode(p[..n]).value.len] == p[..Decode(p[..n]).value.len];
      DecodeIsLocal(p[..n], p);
      assert false;
    }
  }

  // ---- the decoder as it runs -----------------------------------------------

  /** The prefix loop of insn_len. */
  method SkipPrefixes(p: seq<Byte>) returns (r: Option<Prefixed>)
    ensures r == Prefixes(p, Prefixed(0, false, false))
  {
    var s := Prefixed(0, false, false);
    while true
      invariant Prefixes(p, s) == Prefixes(p, Prefixed(0, false, false))
      decreases |p| - s.i
    {
      if s.i >= |p| || s.i >= MAX_INSN { return None; }
      var b := p[s.i];
      if b == 0x66 {
        s := s.(opsz := true);
      } else if b == 0x67 {
        s := s.(addrsz := true);
      } else if !SizeNeutral(b) {
        return Some(s);
      }
      s := s.(i := s.i + 1);
    }
  }

  /** insn_len from the opcode on: an index that moves over opcode, ModRM, SIB,
      displacement and immediates. */
  method MeasureOpcode(p: seq<Byte>, s: Prefixed, start: nat, rexW: bool) returns (len: int)
    requires start < |p|
    ensures len == match FromOpcode(p, s, start, rexW) case None => -1 case Some(r) => r.len
  {
    hide Attr;
    var i, op, attr := start + 1, p[start], Attr(OP1, p[start]);
    if op == 0x0F {
      if i >= |p| { return -1; }
      op := p[i];
      i := i + 1;
      if op == 0x38 || op == 0x3A {
        if i >= |p| { return -1; }
        i := i + 1;
        attr := if op == 0x3A then 'm' else 'M';
      } else {
        attr := Attr(OP2, op);
      }
    }
    assert OpcodeAt(p, start) == Some(Opcode(attr, i, op));
    if attr == 'B' { return -1; }
    var end, test := MeasureModrm(p, Opcode(attr, i, op));
    if end < 0 { return -1; }
    var imm := Immediates(Opcode(attr, i, op), test, s, rexW);
    len := if end + imm > |p| || end + imm > MAX_INSN then -1 else end + imm;
  }

  method MeasureModrm(p: seq<Byte>, o: Opcode) returns (i: int, test: bool)
    ensures match if HasModrm(o.attr) then ModrmAt(p, o) else Some(Operands(o.next, false))
            case None => i == -1
            case Some(m) => i == m.end && test == m.test
  {
    i, test := o.next, false;
    if HasModrm(o.attr) {
      if i >= |p| { return -1, false; }
      var modrm := p[i];
      i := i + 1;
      var mod, rm := modrm / 64, modrm % 8;
      test := o.attr == 'g' && (modrm / 8) % 8 <= 1;
      if mod != 3 {
        if rm == 4 {
          if i >= |p| { return -1, false; }
          var sib := p[i];
          i := i + 1;
          if mod == 0 && sib % 8 == 5 { i := i + 4; }
        } else if mod == 0 && rm == 5 {
          i := i + 4;
        }
        if mod == 1 {
          i := i + 1;
        } else if mod == 2 {
          i := i + 4;
        }
      }
    }
  }

  /** insn_len: the length or -1, and the offset of the opcode byte. */
  method InsnLen(p: seq<Byte>) returns (len: int, opOff: nat)
    ensures match Decode(p)
            case None => len == -1
            case Some(r) => len == r.len && opOff == r.op
  {
    hide FromOpcode, Prefixes;
    opOff := 0;
    var s := SkipPrefixes(p);
    if s.None? { return -1, 0; }
    var i, rexW := s.value.i, false;
    if IsRex(p[i]) {
      rexW := (p[i] / 8) % 2 == 1;
      i := i + 1;
      if i >= |p| { return -1, 0; }
    }
    opOff := i;
    len := MeasureOpcode(p, s.value, i, rexW);
  }

  // ---- the search for returns -----------------------------------------------

  function Shift(xs: seq<nat>, n: nat): (ys: seq<nat>)
    ensures |ys| == |xs| && forall i :: 0 <= i < |xs| ==> ys[i] == xs[i] + n
  {
    if xs == [] then [] else [xs[0] + n] + Shift(xs[1..], n)
  }

  /** Where the instructions of a body start, if it decodes to its end. */
  function Starts(code: seq<Byte>): Option<seq<nat>>
    decreases |code|
  {
    if code == [] then Some([])
    else
      match Decode(code)
      case None => None
      case Some(r) =>
        match Starts(code[r.len..])
        case None => None
        case Some(xs) => Some([0] + Shift(xs, r.len))
  }

  /** The instruction at an offset has opcode byte C3 or C2. */
  predicate IsRet(code: seq<Byte>, off: nat)
  {
    off <= |code| && Decode(code[off..]).Some? && code[off + Decode(code[off..]).value.op] in {0xC3, 0xC2}
  }

  function Kept(code: seq<Byte>, xs: seq<nat>): seq<nat>
  {
    if xs == [] then [] else (if IsRet(code, xs[0]) then [xs[0]] else []) + Kept(code, xs[1..])
  }

  /** Where the instruction at an offset ends; the offset itself if there is none. */
  function Past(code: seq<Byte>, off: nat): (e: nat)
    ensures off <= e && (e > off ==> off < e <= |code|)
  {
    if off < |code| && Decode(code[off..]).Some? then off + Decode(code[off..]).value.len else off
  }

  /** The offsets cut the body into instructions, from its first byte to its last. */
  ghost predicate Tiles(code: seq<Byte>, xs: seq<nat>)
  {
    if code == [] then xs == []
    else xs != [] && xs[0] == 0 && forall i :: 0 <= i < |xs| ==> TileAt(code, xs, i)
  }

  ghost predicate TileAt(code: seq<Byte>, xs: seq<nat>, i: int)
    requires 0 <= i < |xs|
  {
    xs[i] < Past(code, xs[i]) == if i + 1 < |xs| then xs[i + 1] else |code|
  }

  lemma PastShift(code: seq<Byte>, n: nat, off: nat)
    requires n <= |code|
    ensures Past(code, n + off) == n + Past(code[n..], off)
  {
    if n + off < |code| { assert code[n..][off..] == code[n + off..]; }
  }

  lemma PastZero(code: seq<Byte>)
    ensures Past(code, 0) == if code != [] && Decode(code).Some? then Decode(code).value.len else 0
  {
    assert code[0..] == code;
  }

  lemma TailTiles(code: seq<Byte>, xs: seq<nat>, n: nat)
    requires 0 < n == Past(code, 0) && Tiles(code[n..], xs)
    ensures Tiles(code, [0] + Shift(xs, n))
  {
    hide Past, Shift;
    var ys := [0] + Shift(xs, n);
    forall i | 0 <= i < |ys|
      ensures TileAt(code, ys, i)
    {
      if i > 0 {
        assert TileAt(code[n..], xs, i - 1);
        PastShift(code, n, xs[i - 1]);
      }
    }
  }

  /** The walk finds a tiling whenever it succeeds. */
  lemma {:induction false} StartsTile(code: seq<Byte>)
    requires Starts(code).Some?
    ensures Tiles(code, Starts(code).value)
    decreases |code|
  {
    hide Tiles, Decode;
    if code != [] {
      PastZero(code);
      var n := Decode(code).value.len;
      StartsTile(code[n..]);
      TailTiles(code, Starts(code[n..]).value, n);
    } else {
      NothingTiles();
    }
  }

  lemma NothingTiles()
    ensures forall xs :: Tiles([], xs) <==> xs == []
  {
  }

  /** A body has at most one tiling, and the walk finds it. */
  lemma {:induction false} TilingIsUnique(code: seq<Byte>, xs: seq<nat>)
    requires Tiles(code, xs)
    ensures Starts(code) == Some(xs)
    decreases |code|
  {
    hide Decode;
    if code != [] {
      assert TileAt(code, xs, 0);
      PastZero(code);
      var n := Past(code, 0);
      var ys := Unshift(code, xs, n);
      TilingIsUnique(code[n..], ys);
    }
  }

  lemma Unshift(code: seq<Byte>, xs: seq<nat>, n: nat) returns (ys: seq<nat>)
    requires code != [] && Tiles(code, xs) && n == Past(code, 0)
    ensures xs == [0] + Shift(ys, n) && Tiles(code[n..], ys)
  {
    hide Past, Shift;
    assert TileAt(code, xs, 0) && (|xs| > 1 ==> TileAt(code, xs, 1));
    forall i | 1 <= i < |xs|
      ensures xs[i] >= n
    {
      Ascending(code, xs, 1, i);
    }
    ys := seq(|xs| - 1, i requires 0 <= i < |xs| - 1 => xs[i + 1] - n);
    forall i | 0 <= i < |ys|
      ensures TileAt(code[n..], ys, i)
    {
      assert TileAt(code, xs, i + 1);
      PastShift(code, n, ys[i]);
    }
  }

  lemma {:induction false} Ascending(code: seq<Byte>, xs: seq<nat>, i: int, j: int)
    requires Tiles(code, xs) && 0 <= i <= j < |xs|
    ensures xs[i] <= xs[j] && (i < j ==> xs[i] < xs[j])
    decreases j
  {
    hide Past;
    if i < j {
      assert TileAt(code, xs, j - 1);
      Ascending(code, xs, i, j - 1);
    }
  }

  /** The returns of a body are the starts of its instructions whose opcode is a return,
      in increasing order. */
  function Rets(code: seq<Byte>): Option<seq<nat>>
  {
    match Starts(code)
    case None => None
    case Some(xs) => Some(Kept(code, xs))
  }

  lemma {:induction false} KeptExact(code: seq<Byte>, xs: seq<nat>)
    ensures forall x :: x in Kept(code, xs) <==> x in xs && IsRet(code, x)
    ensures (forall i, j :: 0 <= i < j < |xs| ==> xs[i] < xs[j]) ==>
              forall i, j :: 0 <= i < j < |Kept(code, xs)| ==> Kept(code, xs)[i] < Kept(code, xs)[j]
  {
    hide IsRet;
    if xs != [] {
      var rest := Kept(code, xs[1..]);
      KeptExact(code, xs[1..]);
      assert xs == [xs[0]] + xs[1..];
      if forall i, j :: 0 <= i < j < |xs| ==> xs[i] < xs[j] {
        assert forall i :: 0 <= i < |rest| ==> rest[i] in xs[1..];
        assert forall x :: x in xs[1..] ==> xs[0] < x;
      }
    }
  }

  /** A successful search partitions the body and lists, strictly increasing, exactly the
      instruction starts whose opcode byte is C3 or C2. */
  lemma RetsAreExact(code: seq<Byte>)
    requires Rets(code).Some?
    ensures var xs, rs := Starts(code).value, Rets(code).value;
            && Tiles(code, xs)
            && (forall x :: x in rs <==> x in xs && IsRet(code, x))
            && (forall i, j :: 0 <= i < j < |rs| ==> rs[i] < rs[j])
  {
    hide Tiles, IsRet, Starts, Kept;
    var xs := Starts(code).value;
    StartsTile(code);
    KeptExact(code, xs);
    forall i, j | 0 <= i < j < |xs|
      ensures xs[i] < xs[j]
    {
      Ascending(code, xs, i, j);
    }
  }

  // ---- concatenation --------------------------------------------------------

  lemma ShiftShift(xs: seq<nat>, m: nat, n: nat)
    ensures Shift(Shift(xs, m), n) == Shift(xs, m + n)
  {
    hide Shift;
  }

  lemma ShiftAppend(xs: seq<nat>, ys: seq<nat>, n: nat)
    ensures Shift(xs + ys, n) == Shift(xs, n) + Shift(ys, n)
  {
    hide Shift;
  }

  lemma StartsStep(code: seq<Byte>)
    requires code != [] && Decode(code).Some?
    ensures var n := Decode(code).value.len;
            Starts(code) == match Starts(code[n..]) case None => None case Some(xs) => Some([0] + Shift(xs, n))
  {
  }

  lemma StartsBase(code: seq<Byte>)
    ensures Starts([]) == Some([]) && (code != [] && Starts(code).Some? ==> Decode(code).Some?)
  {
  }

  /** Behind a body that decodes cleanly, the rest decodes as it does alone. */
  lemma {:induction false} StartsAppend(a: seq<Byte>, b: seq<Byte>)
    requires Starts(a).Some?
    ensures Starts(a + b) == (match Starts(b) case None => None case Some(ys) => Some(Starts(a).value + Shift(ys, |a|)))
    decreases |a|
  {
    hide Decode, Shift, Starts;
    StartsBase(a);
    if a == [] {
      assert a + b == b;
      if Starts(b).Some? { assert [] + Shift(Starts(b).value, 0) == Starts(b).value; }
    } else {
      var n := Decode(a).value.len;
      DecodeIsPrefixCode(a, b, 0);
      StartsStep(a);
      StartsStep(a + b);
      assert (a + b)[n..] == a[n..] + b;
      StartsAppend(a[n..], b);
      if Starts(b).Some? {
        var xs, ys := Starts(a[n..]).value, Starts(b).value;
        ShiftAppend(xs, Shift(ys, |a| - n), n);
        ShiftShift(ys, |a| - n, n);
        assert [0] + (Shift(xs, n) + Shift(ys, |a|)) == ([0] + Shift(xs, n)) + Shift(ys, |a|);
      }
    }
  }

  lemma KeptStep(c: seq<Byte>, x: nat, xs: seq<nat>)
    ensures Kept(c, [x] + xs) == (if IsRet(c, x) then [x] else []) + Kept(c, xs) && Kept(c, []) == []
  {
    hide IsRet;
    assert ([x] + xs)[1..] == xs;
  }

  lemma IsRetIn(a: seq<Byte>, b: seq<Byte>, x: nat)
    requires x < Past(a, x)
    ensures IsRet(a + b, x) == IsRet(a, x)
  {
    hide Decode;
    DecodeIsPrefixCode(a[x..], b, 0);
    assert (a + b)[x..] == a[x..] + b;
  }

  lemma {:induction false} KeptIn(a: seq<Byte>, b: seq<Byte>, xs: seq<nat>)
    requires forall i :: 0 <= i < |xs| ==> xs[i] < Past(a, xs[i])
    ensures Kept(a + b, xs) == Kept(a, xs)
  {
    hide IsRet, Past;
    if xs != [] {
      IsRetIn(a, b, xs[0]);
      KeptIn(a, b, xs[1..]);
    }
  }

  lemma IsRetBehind(a: seq<Byte>, b: seq<Byte>, y: nat)
    ensures IsRet(a + b, y + |a|) == IsRet(b, y)
  {
    hide Decode;
    if y <= |b| { assert (a + b)[y + |a|..] == b[y..]; }
  }

  lemma {:induction false} KeptBehind(a: seq<Byte>, b: seq<Byte>, ys: seq<nat>)
    ensures Kept(a + b, Shift(ys, |a|)) == Shift(Kept(b, ys), |a|)
  {
    hide IsRet, Kept, Shift;
    if ys == [] {
      KeptStep(b, 0, []);
      KeptStep(a + b, 0, []);
      assert Shift([], |a|) == [];
    } else {
      var y, rest := ys[0], ys[1..];
      IsRetBehind(a, b, y);
      KeptBehind(a, b, rest);
      KeptStep(b, y, rest);
      KeptStep(a + b, y + |a|, Shift(rest, |a|));
      assert ys == [y] + rest && Shift(ys, |a|) == [y + |a|] + Shift(rest, |a|);
      ShiftAppend(if IsRet(b, y) then [y] else [], Kept(b, rest), |a|);
      assert Shift([y], |a|) == [y + |a|] && Shift([], |a|) == [];
    }
  }

  lemma {:induction false} KeptSplit(c: seq<Byte>, xs: seq<nat>, ys: seq<nat>)
    ensures Kept(c, xs + ys) == Kept(c, xs) + Kept(c, ys)
  {
    hide IsRet, Kept;
    if xs == [] {
      KeptStep(c, 0, []);
      assert xs + ys == ys;
    } else {
      KeptSplit(c, xs[1..], ys);
      KeptStep(c, xs[0], xs[1..]);
      KeptStep(c, xs[0], xs[1..] + ys);
      assert xs == [xs[0]] + xs[1..] && xs + ys == [xs[0]] + (xs[1..] + ys);
    }
  }

  lemma TilesPast(a: seq<Byte>, xs: seq<nat>)
    requires Tiles(a, xs)
    ensures forall i :: 0 <= i < |xs| ==> xs[i] < Past(a, xs[i])
  {
    hide Past;
    forall i | 0 <= i < |xs|
      ensures xs[i] < Past(a, xs[i])
    {
      assert TileAt(a, xs, i);
    }
  }

  /** The search distributes over the concatenation of two bodies, the first of which
      decodes cleanly: it fails on the whole if and only if it fails on the second. */
  lemma RetsConcatenate(a: seq<Byte>, b: seq<Byte>)
    requires Rets(a).Some?
    ensures Rets(a + b) == (match Rets(b) case None => None case Some(ys) => Some(Rets(a).value + Shift(ys, |a|)))
  {
    hide Starts, Shift, Kept, Past, Tiles;
    StartsAppend(a, b);
    if Starts(b).Some? {
      var xs, ys := Starts(a).value, Starts(b).value;
      StartsTile(a);
      TilesPast(a, xs);
      KeptSplit(a + b, xs, Shift(ys, |a|));
      KeptIn(a, b, xs);
      KeptBehind(a, b, ys);
    }
  }

  /** What lk_x86_find_rets promises: all returns, or a refusal. */
  function Found(code: seq<Byte>, max: nat): Option<seq<nat>>
  {
    if code == [] || max == 0 || Rets(code) == None || |Rets(code).value| > max then None else Rets(code)
  }

  lemma NoneYet(code: seq<Byte>)
    ensures Rets(code[..0]) == Some([])
  {
  }

  lemma Stuck(rest: seq<Byte>)
    requires rest != [] && Decode(rest) == None
    ensures Rets(rest) == None
  {
  }

  /** A single instruction. */
  lemma RetsOfOne(insn: seq<Byte>)
    requires Decode(insn).Some? && Decode(insn).value.len == |insn|
    ensures Rets(insn) == Some(if insn[Decode(insn).value.op] in {0xC3, 0xC2} then [0] else [])
  {
    hide Decode, Starts, Kept, Shift;
    assert insn[|insn|..] == [] && insn[0..] == insn;
    StartsBase([]);
    StartsStep(insn);
    assert [0] + Shift([], |insn|) == [0] + [] == [0];
    KeptStep(insn, 0, []);
    assert Rets(insn) == Some((if IsRet(insn, 0) then [0] else []) + []);
  }

  /** The walk advances by one instruction and lists it if it is a return. */
  lemma OneMore(code: seq<Byte>, off: nat)
    requires off < |code| && Rets(code[..off]).Some? && Decode(code[off..]).Some?
    ensures var r := Decode(code[off..]).value;
            Rets(code[..off + r.len]) ==
            Some(Rets(code[..off]).value + if code[off + r.op] in {0xC3, 0xC2} then [off] else [])
  {
    hide Decode, Rets, Shift;
    var r := Decode(code[off..]).value;
    var insn := code[off..off + r.len];
    assert code[off..][..r.len] == insn[..r.len];
    DecodeIsLocal(code[off..], insn);
    RetsOfOne(insn);
    assert code[..off + r.len] == code[..off] + insn;
    RetsConcatenate(code[..off], insn);
    assert insn[r.op] == code[off + r.op];
    assert Shift([0], off) == [off] && Shift([], off) == [];
  }

  /** Returns only accumulate. */
  lemma RetsGrow(code: seq<Byte>, off: nat)
    requires off <= |code| && Rets(code[..off]).Some? && Rets(code).Some?
    ensures |Rets(code[..off]).value| <= |Rets(code).value|
  {
    hide Rets, Shift;
    assert code == code[..off] + code[off..];
    RetsConcatenate(code[..off], code[off..]);
  }

  /** lk_x86_find_rets; `max` is the room in `out`. */
  method FindRets(code: seq<Byte>, out: array<nat>) returns (n: int)
    modifies out
    ensures match Found(code, out.Length)
            case None => n == -1
            case Some(rs) => n == |rs| && out[..n] == rs
  {
    hide Decode, Rets, Shift, IsRet;
    if code == [] || out.Length == 0 { return -1; }
    var off: nat := 0;
    n := 0;
    NoneYet(code);
    while off < |code|
      invariant off <= |code| && 0 <= n <= out.Length
      invariant Rets(code[..off]).Some? && out[..n] == Rets(code[..off]).value
    {
      var rest := code[off..];
      var l, opOff := InsnLen(rest);
      if l <= 0 {
        Stuck(rest);
        assert code == code[..off] + rest;
        RetsConcatenate(code[..off], rest);
        return -1;
      }
      OneMore(code, off);
      if code[off + opOff] == 0xC3 || code[off + opOff] == 0xC2 {
        if n == out.Length {
          if Rets(code).Some? { RetsGrow(code, off + l); }
          return -1;
        }
        out[n] := off;
        n := n + 1;
        assert out[..n] == out[..n - 1] + [off];
      }
      off := off + l;
    }
    assert code[..off] == code;
  }
}
