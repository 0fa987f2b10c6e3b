/**
 The protobuf writer of src/export/pbuf.c: the wire encoding and its decoder as
 functions, the back-patching of nested messages as a machine over offsets, and the
 growing buffer that carries it out.
 */
module Pbuf {
  import opened Framing
  import opened Options
  import opened Memory

  // ---- scalars --------------------------------------------------------------

  /** Base-128, least significant group first, the high bit on all but the last. */
  function Varint(v: nat): (s: seq<Byte>)
    ensures |s| > 0
    decreases v
  {
    if v < 128 then [v] else [v % 128 + 128] + Varint(v / 128)
  }

  /** A decoded value and how many bytes it took. */
  datatype Read = Read(value: nat, used: nat)

  function ReadVarint(s: seq<Byte>): (r: Option<Read>)
    ensures r.Some? ==> 0 < r.value.used <= |s|
  {
    if s == [] then None
    else if s[0] < 128 then Some(Read(s[0], 1))
    else
      match ReadVarint(s[1..])
      case None => None
      case Some(r) => Some(Read(s[0] - 128 + 128 * r.value, r.used + 1))
  }

  lemma {:induction false} VarintRoundTrip(v: nat, rest: seq<Byte>)
    ensures ReadVarint(Varint(v) + rest) == Some(Read(v, |Varint(v)|))
    decreases v
  {
    var s := Varint(v) + rest;
    if v < 128 {
      assert s[0] == v;
    } else {
      VarintRoundTrip(v / 128, rest);
      assert s[0] == v % 128 + 128 && s[1..] == Varint(v / 128) + rest;
    }
  }

  function Pow128(n: nat): nat { if n == 0 then 1 else 128 * Pow128(n - 1) }

  /** A varint has n bytes exactly for values below 128^n and, beyond one byte, from
      128^(n-1) on. */
  lemma {:induction false} VarintSize(v: nat, n: nat)
    requires n > 0
    ensures |Varint(v)| <= n <==> v < Pow128(n)
    decreases v
  {
    if v >= 128 {
      if n > 1 {
        VarintSize(v / 128, n - 1);
        assert v / 128 < Pow128(n - 1) <==> v < 128 * Pow128(n - 1);
      }
    } else {
      PowPositive(n - 1);
    }
  }

  lemma {:induction false} PowPositive(n: nat)
    ensures Pow128(n) >= 1
  {
    if n > 0 { PowPositive(n - 1); }
  }

  const TWO_31: int := 0x8000_0000
  const TWO_32: nat := 0x1_0000_0000
  const TWO_64: nat := 0x1_0000_0000_0000_0000

  /** The zigzag word of a 32-bit signed integer: the doubled word, complemented when the
      sign is set. */
  function Zigzag(v: int): nat
    requires -TWO_31 <= v < TWO_31
  {
    var doubled := (2 * v) % TWO_32;
    if v < 0 then TWO_32 - 1 - doubled else doubled
  }

  function Unzigzag(z: nat): int { if z % 2 == 0 then z / 2 else -(z / 2) - 1 }

  /** Small magnitudes stay small, and decoding gives the integer back. */
  lemma ZigzagRoundTrip(v: int)
    requires -TWO_31 <= v < TWO_31
    ensures Zigzag(v) == (if v >= 0 then 2 * v else -2 * v - 1)
    ensures Zigzag(v) < TWO_32 && Unzigzag(Zigzag(v)) == v
  {
    if v < 0 { assert (2 * v) % TWO_32 == 2 * v + TWO_32; }
  }

  /** The low `n` bytes, least significant first. */
  function Fixed(v: nat, n: nat): (s: seq<Byte>)
    ensures |s| == n
  {
    if n == 0 then [] else [v % 256] + Fixed(v / 256, n - 1)
  }

  function ReadFixed(s: seq<Byte>): nat
  {
    if s == [] then 0 else s[0] + 256 * ReadFixed(s[1..])
  }

  function Pow256(n: nat): nat { if n == 0 then 1 else 256 * Pow256(n - 1) }

  lemma {:induction false} FixedRoundTrip(v: nat, n: nat)
    ensures v < Pow256(n) ==> ReadFixed(Fixed(v, n)) == v
  {
    if n > 0 && v < Pow256(n) {
      FixedRoundTrip(v / 256, n - 1);
      assert Fixed(v, n)[1..] == Fixed(v / 256, n - 1);
    }
  }

  lemma Fixed64RoundTrip(v: nat)
    requires v < TWO_64
    ensures ReadFixed(Fixed(v, 8)) == v
  {
    assert Pow256(8) == TWO_64 by {
      assert Pow256(4) == TWO_32;
      assert Pow256(8) == 256 * 256 * 256 * 256 * Pow256(4);
    }
    FixedRoundTrip(v, 8);
  }

  // ---- messages -------------------------------------------------------------

  /** A field: a varint (also booleans and zigzagged integers), eight bytes, raw bytes
      (also strings and packed arrays), or a nested message. */
  datatype Field =
    | Scalar(num: nat, v: nat)
    | Fixed64(num: nat, v: nat)
    | Bytes(num: nat, data: seq<Byte>)
    | Sub(num: nat, msg: seq<Field>)

  const WIRE_VARINT: nat := 0
  const WIRE_I64: nat := 1
  const WIRE_LEN: nat := 2

  function Tag(num: nat, wire: nat): seq<Byte> { Varint(8 * num + wire) }

  function EncodeField(f: Field): (s: seq<Byte>)
    ensures |s| > 0
    decreases f
  {
    match f
    case Scalar(num, v) => Tag(num, WIRE_VARINT) + Varint(v)
    case Fixed64(num, v) => Tag(num, WIRE_I64) + Fixed(v, 8)
    case Bytes(num, data) => Tag(num, WIRE_LEN) + Varint(|data|) + data
    case Sub(num, msg) => Tag(num, WIRE_LEN) + Varint(|Encode(msg)|) + Encode(msg)
  }

  function Encode(msg: seq<Field>): seq<Byte>
    decreases msg
  {
    if msg == [] then [] else EncodeField(msg[0]) + Encode(msg[1..])
  }

  /** Which fields of a message are nested messages, and of what schema. */
  datatype Schema = Schema(subs: map<nat, Schema>)

  /** The values fit the wire and nested messages are where the schema has them. */
  predicate FieldFits(f: Field, sch: Schema)
    decreases f
  {
    match f
    case Scalar(_, _) => true
    case Fixed64(_, v) => v < TWO_64
    case Bytes(num, _) => num !in sch.subs
    case Sub(num, msg) => num in sch.subs && Fits(msg, sch.subs[num])
  }

  predicate Fits(msg: seq<Field>, sch: Schema)
    decreases msg
  {
    msg == [] || (FieldFits(msg[0], sch) && Fits(msg[1..], sch))
  }

  /** A decoded field and the bytes behind it. Wire type 0 is a varint, 1 eight bytes and 2
      a length with as many bytes. */
  datatype Parsed = Parsed(f: Field, rest: seq<Byte>)

  function ReadTagged(num: nat, wire: nat, s: seq<Byte>, sch: Schema): (r: Option<Parsed>)
    ensures r.Some? ==> |r.value.rest| <= |s|
    decreases |s|, 0
  {
    if wire == 1 then
      if |s| < 8 then None else Some(Parsed(Fixed64(num, ReadFixed(s[..8])), s[8..]))
    else
      match ReadVarint(s)
      case None => None
      case Some(r) =>
        var rest := s[r.used..];
        if wire == 0 then Some(Parsed(Scalar(num, r.value), rest))
        else if wire != 2 || r.value > |rest| then None
        else if num !in sch.subs then Some(Parsed(Bytes(num, rest[..r.value]), rest[r.value..]))
        else
          match Decode(rest[..r.value], sch.subs[num])
          case None => None
          case Some(msg) => Some(Parsed(Sub(num, msg), rest[r.value..]))
  }

  /** A protobuf decoder for the wire types the writer uses. */
  function Decode(s: seq<Byte>, sch: Schema): Option<seq<Field>>
    decreases |s|, 1
  {
    if s == [] then Some([])
    else
      match ReadVarint(s)
      case None => None
      case Some(t) =>
        match ReadTagged(t.value / 8, t.value % 8, s[t.used..], sch)
        case None => None
        case Some(p) =>
          match Decode(p.rest, sch)
          case None => None
          case Some(fs) => Some([p.f] + fs)
  }

  lemma {:induction false} FieldRoundTrip(f: Field, sch: Schema, rest: seq<Byte>)
    requires FieldFits(f, sch)
    ensures var s := EncodeField(f) + rest;
            var t := ReadVarint(s);
            t.Some? && ReadTagged(t.value.value / 8, t.value.value % 8, s[t.value.used..], sch) == Some(Parsed(f, rest))
    decreases f
  {
    var s := EncodeField(f) + rest;
    match f
    case Scalar(num, v) =>
      TagRoundTrip(num, WIRE_VARINT, Varint(v) + rest, s);
      VarintRoundTrip(v, rest);
      assert (Varint(v) + rest)[|Varint(v)|..] == rest;
    case Fixed64(num, v) => FixedField(num, v, sch, rest);
    case Bytes(num, data) =>
      Delimited(num, data, rest, s);
    case Sub(num, msg) =>
      Delimited(num, Encode(msg), rest, s);
      RoundTrip(msg, sch.subs[num]);
  }

  lemma FixedField(num: nat, v: nat, sch: Schema, rest: seq<Byte>)
    requires FieldFits(Fixed64(num, v), sch)
    ensures var s := EncodeField(Fixed64(num, v)) + rest;
            var t := ReadVarint(s);
            t.Some? && ReadTagged(t.value.value / 8, t.value.value % 8, s[t.value.used..], sch) ==
              Some(Parsed(Fixed64(num, v), rest))
  {
    hide ReadVarint, Fixed;
    var tail := Fixed(v, 8) + rest;
    TagRoundTrip(num, WIRE_I64, tail, EncodeField(Fixed64(num, v)) + rest);
    Fixed64RoundTrip(v);
    assert tail[..8] == Fixed(v, 8) && tail[8..] == rest;
  }

  lemma TagRoundTrip(num: nat, wire: nat, tail: seq<Byte>, s: seq<Byte>)
    requires wire < 8 && s == Tag(num, wire) + tail
    ensures var t := ReadVarint(s);
            t.Some? && t.value.value / 8 == num && t.value.value % 8 == wire && s[t.value.used..] == tail
  {
    VarintRoundTrip(8 * num + wire, tail);
  }

  lemma Delimited(num: nat, data: seq<Byte>, rest: seq<Byte>, s: seq<Byte>)
    requires s == Tag(num, WIRE_LEN) + Varint(|data|) + data + rest
    ensures var t := ReadVarint(s);
            && t.Some? && t.value.value / 8 == num && t.value.value % 8 == WIRE_LEN
            && var u := s[t.value.used..];
               var n := ReadVarint(u);
               && n.Some? && n.value.value == |data|
               && var v := u[n.value.used..]; |data| <= |v| && v[..|data|] == data && v[|data|..] == rest
  {
    var u := Varint(|data|) + (data + rest);
    assert s == Tag(num, WIRE_LEN) + u;
    TagRoundTrip(num, WIRE_LEN, u, s);
    VarintRoundTrip(|data|, data + rest);
    assert u[|Varint(|data|)|..] == data + rest;
    assert (data + rest)[..|data|] == data && (data + rest)[|data|..] == rest;
  }

  lemma DecodeStep(s: seq<Byte>, sch: Schema, t: Read, f: Field, rest: seq<Byte>)
    requires ReadVarint(s) == Some(t) && ReadTagged(t.value / 8, t.value % 8, s[t.used..], sch) == Some(Parsed(f, rest))
    ensures Decode(s, sch) == match Decode(rest, sch) case None => None case Some(fs) => Some([f] + fs)
  {
    hide ReadTagged;
  }

  lemma DecodeNothing(sch: Schema)
    ensures Decode([], sch) == Some([])
  {
  }

  /** The decoder gives every message back. */
  lemma {:induction false} RoundTrip(msg: seq<Field>, sch: Schema)
    requires Fits(msg, sch)
    ensures Decode(Encode(msg), sch) == Some(msg)
    decreases msg
  {
    hide Decode, ReadTagged, ReadVarint, EncodeField, FieldFits;
    if msg == [] {
      DecodeNothing(sch);
    } else {
      var rest := Encode(msg[1..]);
      FieldRoundTrip(msg[0], sch, rest);
      var s := EncodeField(msg[0]) + rest;
      DecodeStep(s, sch, ReadVarint(s).value, msg[0], rest);
      RoundTrip(msg[1..], sch);
      assert msg == [msg[0]] + msg[1..];
    }
  }

  // ---- nesting --------------------------------------------------------------

  lemma EncodeCons(f: Field, fs: seq<Field>)
    ensures Encode([f] + fs) == EncodeField(f) + Encode(fs) && Encode([]) == []
  {
    hide EncodeField;
    assert ([f] + fs)[1..] == fs;
  }

  lemma {:induction false} EncodeAppend(a: seq<Field>, b: seq<Field>)
    ensures Encode(a + b) == Encode(a) + Encode(b)
  {
    hide Encode, EncodeField;
    if a == [] {
      EncodeCons(Scalar(0, 0), []);
      assert a + b == b;
    } else {
      EncodeAppend(a[1..], b);
      EncodeCons(a[0], a[1..]);
      EncodeCons(a[0], a[1..] + b);
      assert a == [a[0]] + a[1..] && a + b == [a[0]] + (a[1..] + b);
    }
  }

  lemma EncodeOne(a: seq<Field>, f: Field)
    ensures Encode(a + [f]) == Encode(a) + EncodeField(f)
  {
    hide Encode, EncodeField;
    EncodeAppend(a, [f]);
    EncodeCons(f, []);
    assert [f] + [] == [f];
  }

  /** What a caller of the writer does. */
  datatype Op = Append(f: Field) | Begin(num: nat) | End

  /** The buffer, and the offsets pb_submsg_begin handed out and pb_submsg_end has not
      yet taken back. */
  datatype Writer = Writer(bytes: seq<Byte>, starts: seq<nat>)

  /** pb_submsg_end: the body moves up and its length goes in front. */
  function Patched(s: seq<Byte>, start: nat): seq<Byte>
    requires start <= |s|
  {
    s[..start] + Varint(|s| - start) + s[start..]
  }

  function Exec(w: Writer, op: Op): Writer
  {
    match op
    case Append(f) => w.(bytes := w.bytes + EncodeField(f))
    case Begin(num) =>
      var s := w.bytes + Tag(num, WIRE_LEN);
      Writer(s, w.starts + [|s|])
    case End =>
      if w.starts == [] || w.starts[|w.starts| - 1] > |w.bytes| then w
      else Writer(Patched(w.bytes, w.starts[|w.starts| - 1]), w.starts[..|w.starts| - 1])
  }

  function ExecAll(ops: seq<Op>): Writer
  {
    if ops == [] then Writer([], []) else Exec(ExecAll(ops[..|ops| - 1]), ops[|ops| - 1])
  }

  /** A nested message that is still open. */
  datatype Level = Level(num: nat, fields: seq<Field>)

  /** The message tree so far: the outermost message and the open ones, innermost last. */
  datatype Doc = Doc(root: seq<Field>, open: seq<Level>)

  function AddField(d: Doc, f: Field): Doc
  {
    if d.open == [] then d.(root := d.root + [f])
    else
      var n := |d.open| - 1;
      d.(open := d.open[..n] + [d.open[n].(fields := d.open[n].fields + [f])])
  }

  function Build(d: Doc, op: Op): Doc
  {
    match op
    case Append(f) => AddField(d, f)
    case Begin(num) => d.(open := d.open + [Level(num, [])])
    case End =>
      if d.open == [] then d
      else
        var top := d.open[|d.open| - 1];
        AddField(d.(open := d.open[..|d.open| - 1]), Sub(top.num, top.fields))
  }

  function BuildAll(ops: seq<Op>): Doc
  {
    if ops == [] then Doc([], []) else Build(BuildAll(ops[..|ops| - 1]), ops[|ops| - 1])
  }

  /** Every End closes a message that is open. */
  predicate WellNested(ops: seq<Op>)
  {
    ops == [] || (WellNested(ops[..|ops| - 1]) && (ops[|ops| - 1].End? ==> BuildAll(ops[..|ops| - 1]).open != []))
  }

  /** The buffer while messages are open: their tags and fields, and no lengths yet. */
  function Layout(root: seq<Field>, open: seq<Level>): seq<Byte>
  {
    if open == [] then Encode(root)
    else
      var n := |open| - 1;
      Layout(root, open[..n]) + Tag(open[n].num, WIRE_LEN) + Encode(open[n].fields)
  }

  /** Where the open messages' bodies start in the buffer. */
  function Starts(root: seq<Field>, open: seq<Level>): seq<nat>
  {
    if open == [] then []
    else
      var n := |open| - 1;
      Starts(root, open[..n]) + [|Layout(root, open[..n]) + Tag(open[n].num, WIRE_LEN)|]
  }

  ghost predicate Holds(w: Writer, d: Doc)
  {
    w == Writer(Layout(d.root, d.open), Starts(d.root, d.open))
  }

  lemma AddFieldLayout(d: Doc, f: Field)
    ensures var e := AddField(d, f);
            && Layout(e.root, e.open) == Layout(d.root, d.open) + EncodeField(f)
            && Starts(e.root, e.open) == Starts(d.root, d.open)
  {
    hide Encode, EncodeField, Tag;
    var e := AddField(d, f);
    if d.open == [] {
      EncodeOne(d.root, f);
    } else {
      var n := |d.open| - 1;
      EncodeOne(d.open[n].fields, f);
      assert e.open[..n] == d.open[..n] && e.open[n] == d.open[n].(fields := d.open[n].fields + [f]);
    }
  }

  lemma BeginLayout(w: Writer, d: Doc, num: nat)
    requires Holds(w, d)
    ensures Holds(Exec(w, Begin(num)), Build(d, Begin(num)))
  {
    var open := d.open + [Level(num, [])];
    assert open[..|open| - 1] == d.open;
  }

  lemma SubIs(num: nat, msg: seq<Field>)
    ensures EncodeField(Sub(num, msg)) == Tag(num, WIRE_LEN) + Varint(|Encode(msg)|) + Encode(msg)
  {
  }

  /** Closing the innermost message leaves the offsets of the outer ones where their
      bodies start. */
  lemma EndLayout(w: Writer, d: Doc)
    requires Holds(w, d) && d.open != []
    ensures Holds(Exec(w, End), Build(d, End))
  {
    hide Encode, EncodeField, Tag, Varint, AddField;
    var n := |d.open| - 1;
    SubIs(d.open[n].num, d.open[n].fields);
    var top, outer := d.open[n], Doc(d.root, d.open[..n]);
    var s, tag, body := Layout(outer.root, outer.open), Tag(top.num, WIRE_LEN), Encode(top.fields);
    assert w.bytes == s + tag + body && w.starts[|w.starts| - 1] == |s + tag|;
    assert w.bytes[..|s + tag|] == s + tag && w.bytes[|s + tag|..] == body;
    AddFieldLayout(outer, Sub(top.num, top.fields));
    assert s + tag + Varint(|body|) + body == s + (tag + Varint(|body|) + body);
  }

  /** Whatever is written, the buffer is the layout of the tree so far and the offsets
      point at the bodies of the open messages. */
  lemma {:induction false} WritingIsLayout(ops: seq<Op>)
    requires WellNested(ops)
    ensures Holds(ExecAll(ops), BuildAll(ops))
  {
    if ops != [] {
      var p, op := ops[..|ops| - 1], ops[|ops| - 1];
      WritingIsLayout(p);
      match op
      case Append(f) => AddFieldLayout(BuildAll(p), f);
      case Begin(num) => BeginLayout(ExecAll(p), BuildAll(p), num);
      case End => EndLayout(ExecAll(p), BuildAll(p));
    }
  }

  /** Once everything is closed the buffer is the encoding of the tree, and the decoder
      recovers it. */
  lemma NestedWritingRoundTrips(ops: seq<Op>, sch: Schema)
    requires WellNested(ops) && BuildAll(ops).open == []
    ensures ExecAll(ops).bytes == Encode(BuildAll(ops).root)
    ensures Fits(BuildAll(ops).root, sch) ==> Decode(ExecAll(ops).bytes, sch) == Some(BuildAll(ops).root)
  {
    WritingIsLayout(ops);
    if Fits(BuildAll(ops).root, sch) { RoundTrip(BuildAll(ops).root, sch); }
  }

  // ---- the buffer -----------------------------------------------------------

  const MIN_CAP: nat := 256

  /** varint_len. */
  method VarintLen(v: nat) returns (n: nat)
    ensures n == |Varint(v)|
  {
    n := 1;
    var u := v;
    while u / 128 > 0
      invariant |Varint(v)| == n - 1 + |Varint(u)|
      decreases u
    {
      u := u / 128;
      n := n + 1;
    }
  }

  /** The C types of the writer's arguments. */
  predicate Legal(f: Field)
    decreases f
  {
    f.num < TWO_32 &&
    match f
    case Scalar(_, v) => v < TWO_64
    case Fixed64(_, v) => v < TWO_64
    case Bytes(_, data) => |data| < TWO_64
    case Sub(_, msg) => AllLegal(msg)
  }

  predicate AllLegal(msg: seq<Field>)
    decreases msg
  {
    msg == [] || (Legal(msg[0]) && AllLegal(msg[1..]))
  }

  /** The loop of pb_fixed64. */
  method LittleEndian(v: nat) returns (b: seq<Byte>)
    ensures b == Fixed(v, 8)
  {
    hide Fixed;
    b := [];
    var u, i := v, 0;
    while i < 8
      invariant 0 <= i <= 8 && b + Fixed(u, 8 - i) == Fixed(v, 8)
    {
      FixedStep(u, 8 - i);
      Regroup(b, [u % 256], Fixed(u / 256, 7 - i));
      b := b + [u % 256];
      u := u / 256;
      i := i + 1;
    }
    FixedNone(u);
  }

  lemma FixedStep(u: nat, n: nat)
    requires n > 0
    ensures Fixed(u, n) == [u % 256] + Fixed(u / 256, n - 1)
  {
  }

  lemma FixedNone(u: nat)
    ensures Fixed(u, 0) == []
  {
  }

  lemma Regroup(a: seq<Byte>, b: seq<Byte>, c: seq<Byte>)
    ensures (a + b) + c == a + (b + c)
  {
  }

  /** Closing a nested message right behind its own bytes. */
  lemma Nested(was: seq<Byte>, num: nat, msg: seq<Field>)
    ensures Patched((was + Tag(num, WIRE_LEN)) + Encode(msg), |was + Tag(num, WIRE_LEN)|) ==
            was + EncodeField(Sub(num, msg))
  {
    hide Varint, Encode, EncodeField, Tag;
    var s, e := was + Tag(num, WIRE_LEN), Encode(msg);
    assert (s + e)[..|s|] == s && (s + e)[|s|..] == e;
    SubIs(num, msg);
    Regroup(was, Tag(num, WIRE_LEN), Varint(|e|));
    Regroup(was, Tag(num, WIRE_LEN) + Varint(|e|), e);
  }

  class Buffer {
    var buf: array<Byte>
    var len: nat

    ghost predicate Valid()
      reads this
    {
      len <= buf.Length
    }

    ghost function Contents(): seq<Byte>
      requires Valid()
      reads this, buf
    {
      buf[..len]
    }

    /** pb_init. */
    constructor ()
      ensures Valid() && Contents() == [] && fresh(buf)
    {
      buf := new Byte[0];
      len := 0;
    }

    /** pb_reserve: room for `n` more bytes, doubling the capacity. */
    method Reserve(n: nat)
      requires Valid()
      modifies this`buf
      ensures Valid() && Contents() == old(Contents()) && len + n <= buf.Length && (buf == old(buf) || fresh(buf))
    {
      var need := len + n;
      if need <= buf.Length { return; }
      var cap := Doubled(if buf.Length == 0 then MIN_CAP else buf.Length, need);
      var nb := new Byte[cap];
      Copy(nb, 0, buf[..len]);
      assert nb[..len] == buf[..len];
      buf := nb;
    }

    /** pb_raw. */
    method Raw(data: seq<Byte>)
      requires Valid()
      modifies this, buf
      ensures Valid() && Contents() == old(Contents()) + data && (buf == old(buf) || fresh(buf))
    {
      Reserve(|data|);
      ghost var was := buf[..len];
      Copy(buf, len, data);
      len := len + |data|;
      assert buf[..len] == was + data;
    }

    /** pb_varint: the groups go through a buffer of ten bytes. */
    method PutVarint(v: nat)
      requires Valid() && v < TWO_64
      modifies this, buf
      ensures Valid() && Contents() == old(Contents()) + Varint(v) && (buf == old(buf) || fresh(buf))
    {
      var tmp := Groups(v);
      Raw(tmp);
    }

    /** pb_tag. */
    method PutTag(num: nat, wire: nat)
      requires Valid() && num < TWO_32 && wire < 8
      modifies this, buf
      ensures Valid() && Contents() == old(Contents()) + Tag(num, wire) && (buf == old(buf) || fresh(buf))
    {
      PutVarint(8 * num + wire);
    }

    /** pb_submsg_begin. */
    method SubmsgBegin(num: nat) returns (start: nat)
      requires Valid() && num < TWO_32
      modifies this, buf
      ensures Valid() && Contents() == old(Contents()) + Tag(num, WIRE_LEN) && start == len &&
              (buf == old(buf) || fresh(buf))
    {
      PutTag(num, WIRE_LEN);
      start := len;
    }

    /** pb_submsg_end. */
    method SubmsgEnd(start: nat)
      requires Valid() && start <= len
      modifies this, buf
      ensures Valid() && Contents() == Patched(old(Contents()), start) && (buf == old(buf) || fresh(buf))
    {
      hide Varint;
      var body := len - start;
      var vlen := VarintLen(body);
      Reserve(vlen);
      Splice(buf, start, len, vlen);
      len := len + vlen;
    }

    /** pb_fixed64. */
    method PutFixed64(v: nat)
      requires Valid() && v < TWO_64
      modifies this, buf
      ensures Valid() && Contents() == old(Contents()) + Fixed(v, 8) && (buf == old(buf) || fresh(buf))
    {
      var b := LittleEndian(v);
      Raw(b);
    }

    /** pb_field_varint, and with `v` zigzagged or 0/1 also pb_field_sint32 and pb_field_bool. */
    method PutScalar(num: nat, v: nat)
      requires Valid() && num < TWO_32 && v < TWO_64
      modifies this, buf
      ensures Valid() && Contents() == old(Contents()) + EncodeField(Scalar(num, v)) && (buf == old(buf) || fresh(buf))
    {
      PutTag(num, WIRE_VARINT);
      PutVarint(v);
    }

    /** pb_field_fixed64. */
    method PutFixedField(num: nat, v: nat)
      requires Valid() && num < TWO_32 && v < TWO_64
      modifies this, buf
      ensures Valid() && Contents() == old(Contents()) + EncodeField(Fixed64(num, v)) && (buf == old(buf) || fresh(buf))
    {
      PutTag(num, WIRE_I64);
      PutFixed64(v);
    }

    /** pb_field_bytes. */
    method PutBytes(num: nat, data: seq<Byte>)
      requires Valid() && num < TWO_32 && |data| < TWO_64
      modifies this, buf
      ensures Valid() && Contents() == old(Contents()) + EncodeField(Bytes(num, data)) &&
              (buf == old(buf) || fresh(buf))
    {
      hide Varint;
      PutTag(num, WIRE_LEN);
      PutVarint(|data|);
      Raw(data);
    }

    /** A nested message between pb_submsg_begin and pb_submsg_end. */
    method PutSub(num: nat, msg: seq<Field>)
      requires Valid() && num < TWO_32 && AllLegal(msg)
      modifies this, buf
      ensures Valid() && Contents() == old(Contents()) + EncodeField(Sub(num, msg)) && (buf == old(buf) || fresh(buf))
      decreases msg, 1
    {
      hide Varint, Encode, EncodeField, AllLegal, Tag, Patched;
      ghost var was := Contents();
      var start := SubmsgBegin(num);
      PutAll(msg);
      Nested(was, num, msg);
      SubmsgEnd(start);
    }

    method PutField(f: Field)
      requires Valid() && Legal(f)
      modifies this, buf
      ensures Valid() && Contents() == old(Contents()) + EncodeField(f) && (buf == old(buf) || fresh(buf))
      decreases f
    {
      hide EncodeField;
      match f
      case Scalar(num, v) => PutScalar(num, v);
      case Fixed64(num, v) => PutFixedField(num, v);
      case Bytes(num, data) => PutBytes(num, data);
      case Sub(num, msg) => PutSub(num, msg);
    }

    /** The fields of a message one after the other, as the exporter writes them. */
    method PutAll(msg: seq<Field>)
      requires Valid() && AllLegal(msg)
      modifies this, buf
      ensures Valid() && Contents() == old(Contents()) + Encode(msg) && (buf == old(buf) || fresh(buf))
      decreases msg, 0
    {
      if msg != [] {
        ghost var was := Contents();
        PutField(msg[0]);
        PutAll(msg[1..]);
        assert Contents() == was + (EncodeField(msg[0]) + Encode(msg[1..]));
      }
    }
  }

  /** The outer part, the length, and the body in its new place. */
  lemma InThree(s: seq<Byte>, moved: seq<Byte>, now: seq<Byte>, start: nat, vlen: nat)
    requires start <= |s| && |s| + vlen <= |moved| == |now|
    requires moved[..start] == s[..start] && moved[start + vlen..|s| + vlen] == s[start..]
    requires now[..start] == moved[..start] && now[start + vlen..] == moved[start + vlen..]
    ensures now[..|s| + vlen] == s[..start] + now[start..start + vlen] + s[start..]
  {
    assert now[start + vlen..|s| + vlen] == now[start + vlen..][..|s| - start] == moved[start + vlen..][..|s| - start];
    assert now[..|s| + vlen] == now[..start] + now[start..start + vlen] + now[start + vlen..|s| + vlen];
  }

  /** The back-patch on the bytes: body up by `vlen`, then the length into the gap. */
  method Splice(a: array<Byte>, start: nat, len: nat, vlen: nat)
    requires start <= len && len + vlen <= a.Length && vlen == |Varint(len - start)|
    modifies a
    ensures a[..len + vlen] == Patched(old(a[..len]), start)
  {
    hide Varint;
    ghost var s := a[..len];
    MoveUp(a, start, len - start, vlen);
    ghost var moved := a[..];
    assert moved[..start] == s[..start] && moved[start + vlen..len + vlen] == s[start..];
    PutLength(a, start, len - start);
    InThree(s, moved, a[..], start, vlen);
  }

  method Doubled(from: nat, need: nat) returns (cap: nat)
    requires from > 0
    ensures cap >= need
  {
    cap := from;
    while cap < need
      invariant cap > 0
    {
      cap := cap * 2;
    }
  }

  /** The groups of a 64-bit value never overrun the ten bytes of the scratch buffer. */
  method Groups(v: nat) returns (s: seq<Byte>)
    requires v < TWO_64
    ensures s == Varint(v)
  {
    TenGroups(v);
    var tmp := new Byte[10];
    var u, n := v, 0;
    while u >= 128
      invariant 0 <= n < |Varint(v)| && tmp[..n] + Varint(u) == Varint(v)
      decreases u
    {
      tmp[n] := u % 128 + 128;
      assert tmp[..n + 1] == tmp[..n] + [u % 128 + 128];
      u := u / 128;
      n := n + 1;
    }
    tmp[n] := u;
    s := tmp[..n + 1];
    assert s == tmp[..n] + [u];
  }

  lemma TenGroups(v: nat)
    requires v < TWO_64
    ensures |Varint(v)| <= 10
  {
    assert Pow128(5) == 128 * 128 * 128 * 128 * 128;
    assert Pow128(10) == 128 * 128 * 128 * 128 * 128 * Pow128(5);
    VarintSize(v, 10);
  }

  /** The length varint written in place by pb_submsg_end. */
  method PutLength(a: array<Byte>, at: nat, v: nat)
    requires at + |Varint(v)| <= a.Length
    modifies a
    ensures a[at..at + |Varint(v)|] == Varint(v)
    ensures a[..at] == old(a[..at]) && a[at + |Varint(v)|..] == old(a[at + |Varint(v)|..])
  {
    var u, i := v, at;
    while u >= 128
      invariant at <= i < at + |Varint(v)| && a[at..i] + Varint(u) == Varint(v)
      invariant a[..at] == old(a[..at]) && a[at + |Varint(v)|..] == old(a[at + |Varint(v)|..])
      decreases u
    {
      a[i] := u % 128 + 128;
      assert a[at..i + 1] == a[at..i] + [u % 128 + 128];
      u := u / 128;
      i := i + 1;
    }
    a[i] := u;
    assert a[at..i + 1] == a[at..i] + [u];
  }
}
