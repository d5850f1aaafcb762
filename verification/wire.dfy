/**
  The wire format: octets, big-endian integers, the sixteen-octet frame header, and the
  payload writer and reader.
  */
module Wire {

  type Octet = c: char | c as int < 256
  type Bytes = seq<Octet>

  function Pow256(n: nat): (p: nat)
    ensures p > 0
  {
    if n == 0 then 1 else 256 * Pow256(n - 1)
  }

  // ---------------------------------------------------------------- big-endian integers

  /** The `n` octets of `v`, most significant first; higher digits of `v` are cut off. */
  function BigEndian(v: nat, n: nat): (b: Bytes)
    ensures |b| == n
  {
    if n == 0 then [] else BigEndian(v / 256, n - 1) + [(v % 256) as char]
  }

  function Value(b: Bytes): (v: nat)
    ensures v < Pow256(|b|)
  {
    if b == [] then 0 else Value(b[..|b|-1]) * 256 + b[|b|-1] as int
  }

  lemma {:induction false} ValueOfBigEndian(v: nat, n: nat)
    requires v < Pow256(n)
    ensures Value(BigEndian(v, n)) == v
  {
    if n > 0 {
      ValueOfBigEndian(v / 256, n - 1);
      assert BigEndian(v, n)[..n-1] == BigEndian(v / 256, n - 1);
    }
  }

  method StoreBe16(p: array<Octet>, at: nat, v: nat)
    requires at + 2 <= p.Length && v < 0x1_0000
    modifies p
    ensures p[..] == old(p[..at]) + BigEndian(v, 2) + old(p[at+2..])
  {
    p[at] := (v / 0x100 % 0x100) as char;
    p[at+1] := (v % 0x100) as char;
    assert BigEndian(v, 2) == BigEndian(v / 0x100, 1) + [(v % 0x100) as char];
    assert BigEndian(v / 0x100, 1) == [(v / 0x100 % 0x100) as char];
  }

  method StoreBe32(p: array<Octet>, at: nat, v: nat)
    requires at + 4 <= p.Length && v < 0x1_0000_0000
    modifies p
    ensures p[..] == old(p[..at]) + BigEndian(v, 4) + old(p[at+4..])
  {
    p[at] := (v / 0x100_0000 % 0x100) as char;
    p[at+1] := (v / 0x1_0000 % 0x100) as char;
    p[at+2] := (v / 0x100 % 0x100) as char;
    p[at+3] := (v % 0x100) as char;
    BigEndianDigit(v, 4, 0);
    BigEndianDigit(v, 4, 1);
    BigEndianDigit(v, 4, 2);
    BigEndianDigit(v, 4, 3);
    assert Pow256(3) == 0x100_0000 && Pow256(2) == 0x1_0000 && Pow256(1) == 0x100;
  }

  /** Digit `i` is what a right shift by eight bits per lower digit leaves in the low octet. */
  lemma {:induction false} BigEndianDigit(v: nat, n: nat, i: nat)
    requires i < n
    ensures BigEndian(v, n)[i] as int == v / Pow256(n - 1 - i) % 256
  {
    if i < n - 1 {
      BigEndianDigit(v / 256, n - 1, i);
      DivDiv(v, Pow256(n - 2 - i));
    }
  }

  lemma DivDiv(v: nat, q: nat)
    requires q > 0
    ensures v / 256 / q == v / (256 * q)
  {
    var a := v / 256;
    var k, r := a / q, a % q;
    assert a == k * q + r;
    assert v == k * (256 * q) + (r * 256 + v % 256);
    assert r * 256 + v % 256 < 256 * q by { assert r <= q - 1; }
    DivUnique(v, 256 * q, k, r * 256 + v % 256);
  }

  lemma DivUnique(v: nat, d: nat, k: nat, r: nat)
    requires d > 0 && v == k * d + r && r < d
    ensures v / d == k
  {
    var j := v / d;
    MulLess(k, j, d);
    MulLess(j, k, d);
    assert v == j * d + v % d;
  }

  lemma MulLess(a: nat, b: nat, d: nat)
    ensures a < b ==> a * d + d <= b * d
  {
    if a < b {
      var c := b - a - 1;
      assert b * d == (a + 1 + c) * d == a * d + d + c * d;
      assert c * d >= 0;
    }
  }

  lemma MultipleMod(k: nat, d: nat)
    requires d > 0
    ensures k * d % d == 0
  {
    DivUnique(k * d, d, k, 0);
    var j := k * d / d;
    assert k * d == j * d + k * d % d;
  }

  method StoreBe64(p: array<Octet>, at: nat, v: nat)
    requires at + 8 <= p.Length && v < 0x1_0000_0000_0000_0000
    modifies p
    ensures p[..] == old(p[..at]) + BigEndian(v, 8) + old(p[at+8..])
  {
    hide BigEndian, Pow256;
    ghost var was, b := p[..], BigEndian(v, 8);
    for i := 0 to 8
      invariant p[..] == was[..at] + b[..i] + was[at+i..]
    {
      BigEndianDigit(v, 8, i);
      NextOctet(was, b, at, i);
      p[at+i] := (v / Pow256(7 - i) % 256) as char;
    }
  }

  /** Storing the next octet. */
  lemma NextOctet(was: Bytes, b: Bytes, at: nat, i: nat)
    requires i < |b| && at + |b| <= |was|
    ensures (was[..at] + b[..i] + was[at+i..])[at+i := b[i]] == was[..at] + b[..i+1] + was[at+i+1..]
  {
  }

  method LoadBe64(p: array<Octet>, at: nat) returns (v: nat)
    requires at + 8 <= p.Length
    ensures v == Value(p[at..at+8])
  {
    v := 0;
    for i := 0 to 8
      invariant v == Value(p[at..at+i])
    {
      assert p[at..at+i+1][..i] == p[at..at+i];
      v := v * 256 + p[at+i] as int;
    }
  }

  // ---------------------------------------------------------------- frame header

  const MAGIC: nat := 0x42594441
  const VERSION: nat := 0x01
  const HEADER_SIZE: nat := 16
  const MAX_PAYLOAD: nat := 4 * 1024 * 1024

  datatype Header = Header(magic: nat, version: nat, kind: nat, flags: nat, len: nat) {
    predicate Fits() {
      && magic < 0x1_0000_0000 && version < 0x100 && kind < 0x100 && flags < 0x1_0000
      && len < 0x1_0000_0000_0000_0000
    }
  }

  function HeaderBytes(h: Header): (b: Bytes)
    requires h.Fits()
    ensures |b| == HEADER_SIZE
  {
    BigEndian(h.magic, 4) + [h.version as char] + [h.kind as char]
    + BigEndian(h.flags, 2) + BigEndian(h.len, 8)
  }

  function HeaderOf(b: Bytes): Header
    requires |b| == HEADER_SIZE
  {
    Header(Value(b[0..4]), b[4] as int, b[5] as int, Value(b[6..8]), Value(b[8..16]))
  }

  lemma HeaderRoundTrip(h: Header)
    requires h.Fits()
    ensures HeaderOf(HeaderBytes(h)) == h
  {
    hide BigEndian, Value;
    var b := HeaderBytes(h);
    assert Pow256(2) == 0x1_0000 && Pow256(4) == 0x1_0000_0000;
    assert Pow256(8) == 0x1_0000_0000_0000_0000 by { assert Pow256(5) == 0x100_0000_0000; }
    assert b[0..4] == BigEndian(h.magic, 4);
    assert b[6..8] == BigEndian(h.flags, 2);
    assert b[8..16] == BigEndian(h.len, 8);
    ValueOfBigEndian(h.magic, 4);
    ValueOfBigEndian(h.flags, 2);
    ValueOfBigEndian(h.len, 8);
  }

  /** `c` is the i-th octet of `v`, counted from the least significant. */
  predicate OctetOf(c: Octet, v: nat, i: nat) {
    c as int == v / Pow256(i) % 256
  }

  /**
    The sixteen octets: the letters "BYDA" for a header with the right magic number, the version,
    the kind, the flags and the length, numbers with their most significant octet first.
    */
  lemma HeaderLayout(h: Header)
    requires h.Fits()
    ensures var b := HeaderBytes(h);
            && |b| == 16
            && (b[..4] == "BYDA" <==> h.magic == MAGIC)
            && b[4] as int == h.version && b[5] as int == h.kind
            && b[6] as int * 256 + b[7] as int == h.flags
            && forall i | 8 <= i < 16 :: OctetOf(b[i], h.len, 15 - i)
  {
    hide BigEndian, Value, Pow256, OctetOf;
    var b := HeaderBytes(h);
    assert b[..4] == BigEndian(h.magic, 4) && b[6..8] == BigEndian(h.flags, 2) && b[8..] == BigEndian(h.len, 8);
    PowValues();
    LettersAre();
    ValueOfBigEndian(h.magic, 4);
    TwoOctets(h.flags);
    assert b[6] == b[6..8][0] && b[7] == b[6..8][1];
    forall i | 8 <= i < 16 ensures OctetOf(b[i], h.len, 15 - i) {
      OctetIs(b, h.len, i);
    }
  }

  lemma OctetIs(b: Bytes, v: nat, i: nat)
    requires |b| == 16 && b[8..] == BigEndian(v, 8) && 8 <= i < 16
    ensures OctetOf(b[i], v, 15 - i)
  {
    hide BigEndian, Pow256;
    BigEndianDigit(v, 8, i - 8);
    assert b[i] == b[8..][i - 8];
  }

  lemma LettersAre()
    ensures BigEndian(MAGIC, 4) == "BYDA" && Value("BYDA") == MAGIC
  {
    BigEndianDigit(MAGIC, 4, 0);
    BigEndianDigit(MAGIC, 4, 1);
    BigEndianDigit(MAGIC, 4, 2);
    BigEndianDigit(MAGIC, 4, 3);
    PowValues();
    assert Pow256(3) == 0x100_0000 && Pow256(0) == 1;
    var b := BigEndian(MAGIC, 4);
    assert b == [b[0], b[1], b[2], b[3]];
    ValueOfBigEndian(MAGIC, 4);
  }

  lemma TwoOctets(v: nat)
    requires v < 0x1_0000
    ensures BigEndian(v, 2)[0] as int * 256 + BigEndian(v, 2)[1] as int == v
  {
    BigEndianDigit(v, 2, 0);
    BigEndianDigit(v, 2, 1);
    assert Pow256(1) == 256 && Pow256(0) == 1;
  }

  method EncodeHeader(h: Header, out: array<Octet>)
    requires h.Fits() && out.Length == HEADER_SIZE
    modifies out
    ensures out[..] == HeaderBytes(h)
  {
    hide BigEndian;
    StoreBe32(out, 0, h.magic);
    assert out[..4] == BigEndian(h.magic, 4);
    out[4] := h.version as char;
    out[5] := h.kind as char;
    assert out[..6] == BigEndian(h.magic, 4) + [h.version as char] + [h.kind as char];
    StoreBe16(out, 6, h.flags);
    assert out[..8] == BigEndian(h.magic, 4) + [h.version as char] + [h.kind as char] + BigEndian(h.flags, 2);
    StoreBe64(out, 8, h.len);
  }

  // ---------------------------------------------------------------- payload fields

  datatype Field = U8(v: nat) | U16(v: nat) | U32(v: nat) | U64(v: nat) | Str(s: Bytes) {
    /** What the writer's parameter types and the 16-bit string length can carry. */
    predicate Fits() {
      match this
      case U8(v) => v < 0x100
      case U16(v) => v < 0x1_0000
      case U32(v) => v < 0x1_0000_0000
      case U64(v) => v < 0x1_0000_0000_0000_0000
      case Str(s) => |s| < 0x1_0000
    }

    function Kind(): FieldKind {
      match this
      case U8(_) => K8
      case U16(_) => K16
      case U32(_) => K32
      case U64(_) => K64
      case Str(_) => KStr
    }
  }

  datatype FieldKind = K8 | K16 | K32 | K64 | KStr {
    function Width(): nat {
      match this
      case K8 => 1
      case K16 => 2
      case K32 => 4
      case K64 => 8
      case KStr => 2
    }
  }

  function Encode(f: Field): Bytes {
    match f
    case U8(v) => BigEndian(v, 1)
    case U16(v) => BigEndian(v, 2)
    case U32(v) => BigEndian(v, 4)
    case U64(v) => BigEndian(v, 8)
    case Str(s) =>
      var n := if |s| < 0x1_0000 then |s| else 0xFFFF;
      BigEndian(n, 2) + s[..n]
  }

  function EncodeAll(fs: seq<Field>): Bytes {
    if fs == [] then [] else Encode(fs[0]) + EncodeAll(fs[1..])
  }

  lemma EncodeOne(f: Field)
    ensures EncodeAll([f]) == Encode(f)
  {
    hide Encode;
    assert EncodeAll([f][1..]) == [] && Encode(f) + [] == Encode(f);
  }

  lemma EncodeTwo(f: Field, g: Field)
    ensures EncodeAll([f, g]) == Encode(f) + Encode(g)
  {
    hide Encode;
    assert [f, g][1..] == [g];
    EncodeOne(g);
  }

  function Kinds(fs: seq<Field>): (ks: seq<FieldKind>) {
    if fs == [] then [] else [fs[0].Kind()] + Kinds(fs[1..])
  }

  datatype Read = Got(f: Field, rest: Bytes) | Short

  /** One read from the octets that remain. */
  function ReadField(k: FieldKind, rest: Bytes): Read {
    var w := k.Width();
    if |rest| < w then Short
    else
      var v := Value(rest[..w]);
      match k
      case K8 => Got(U8(v), rest[w..])
      case K16 => Got(U16(v), rest[w..])
      case K32 => Got(U32(v), rest[w..])
      case K64 => Got(U64(v), rest[w..])
      case KStr => if |rest| < 2 + v then Short else Got(Str(rest[2..2+v]), rest[2+v..])
  }

  datatype ReadAll = ReadAll(fields: seq<Field>, rest: Bytes, ok: bool)

  /** A sequence of reads: after the first that fails, all fail. */
  function ReadFields(ks: seq<FieldKind>, buf: Bytes): ReadAll {
    if ks == [] then ReadAll([], buf, true)
    else
      match ReadField(ks[0], buf)
      case Short => ReadAll([], buf, false)
      case Got(f, rest) =>
        var r := ReadFields(ks[1..], rest);
        ReadAll([f] + r.fields, r.rest, r.ok)
  }

  lemma PowValues()
    ensures Pow256(1) == 0x100 && Pow256(2) == 0x1_0000 && Pow256(4) == 0x1_0000_0000
    ensures Pow256(8) == 0x1_0000_0000_0000_0000
  {
    assert Pow256(5) == 0x100_0000_0000;
  }

  lemma FieldRoundTrip(f: Field, rest: Bytes)
    requires f.Fits()
    ensures ReadField(f.Kind(), Encode(f) + rest) == Got(f, rest)
  {
    hide BigEndian, Value;
    PowValues();
    var w := f.Kind().Width();
    var v := if f.Str? then |f.s| else f.v;
    ValueOfBigEndian(v, w);
    var e := Encode(f);
    assert (e + rest)[..w] == BigEndian(v, w);
    if f.Str? {
      assert f.s[..v] == f.s;
      assert (e + rest)[2..2+v] == f.s && (e + rest)[2+v..] == rest;
    } else {
      assert (e + rest)[w..] == rest;
    }
  }

  lemma Reassociate(a: Bytes, b: Bytes, c: Bytes)
    ensures a + (b + c) == (a + b) + c
  {
  }

  /** The octets of a field: the number, or the length of the text in sixteen bits and the text. */
  lemma FieldLayout(f: Field)
    requires f.Fits()
    ensures match f
            case U8(v) => Encode(f) == [v as char]
            case U16(v) => |Encode(f)| == 2 && Encode(f)[0] as int * 256 + Encode(f)[1] as int == v
            case U32(v) => |Encode(f)| == 4 && forall i | 0 <= i < 4 :: OctetOf(Encode(f)[i], v, 3 - i)
            case U64(v) => |Encode(f)| == 8 && forall i | 0 <= i < 8 :: OctetOf(Encode(f)[i], v, 7 - i)
            case Str(s) =>
              |Encode(f)| == 2 + |s| && Encode(f)[0] as int * 256 + Encode(f)[1] as int == |s| && Encode(f)[2..] == s
  {
    hide Pow256;
    match f
    case U8(v) => assert BigEndian(v / 256, 0) == [];
    case U16(v) => TwoOctets(v);
    case U32(v) => forall i | 0 <= i < 4 ensures OctetOf(Encode(f)[i], v, 3 - i) { BigEndianDigit(v, 4, i); }
    case U64(v) => forall i | 0 <= i < 8 ensures OctetOf(Encode(f)[i], v, 7 - i) { BigEndianDigit(v, 8, i); }
    case Str(s) => TwoOctets(|s|);
  }

  /** A text that is too long for its length field is written as its first 65535 octets. */
  lemma LongTextCut(s: Bytes)
    requires |s| >= 65535
    ensures Encode(Str(s)) == Encode(Str(s[..65535]))
  {
    assert s[..65535][..65535] == s[..65535];
  }

  /** Whatever is written is read back, field for field, and nothing else is consumed. */
  lemma {:induction false} FieldsRoundTrip(fs: seq<Field>, rest: Bytes)
    requires forall i | 0 <= i < |fs| :: fs[i].Fits()
    ensures ReadFields(Kinds(fs), EncodeAll(fs) + rest) == ReadAll(fs, rest, true)
  {
    hide Encode, ReadField;
    if fs == [] {
      assert EncodeAll(fs) + rest == rest;
    } else {
      FieldsRoundTrip(fs[1..], rest);
      FieldRoundTrip(fs[0], EncodeAll(fs[1..]) + rest);
      Reassociate(Encode(fs[0]), EncodeAll(fs[1..]), rest);
      assert Kinds(fs)[0] == fs[0].Kind() && Kinds(fs)[1..] == Kinds(fs[1..]);
      assert fs == [fs[0]] + fs[1..];
    }
  }

  lemma FieldTruncated(f: Field, n: nat)
    requires f.Fits() && n < |Encode(f)|
    ensures ReadField(f.Kind(), Encode(f)[..n]) == Short
  {
    hide BigEndian, Value;
    PowValues();
    var e := Encode(f);
    if f.Str? && n >= 2 {
      ValueOfBigEndian(|f.s|, 2);
      assert e[..n][..2] == BigEndian(|f.s|, 2);
    }
  }

  /** Cut short anywhere, the fields before the cut are read and then a read fails. */
  lemma {:induction false} FieldsTruncated(fs: seq<Field>, n: nat)
    requires forall i | 0 <= i < |fs| :: fs[i].Fits()
    requires n < |EncodeAll(fs)|
    ensures var r := ReadFields(Kinds(fs), EncodeAll(fs)[..n]);
            !r.ok && r.fields <= fs && |r.fields| < |fs|
  {
    hide Encode, ReadField;
    var e, es := Encode(fs[0]), EncodeAll(fs[1..]);
    if n < |e| {
      FieldTruncated(fs[0], n);
      assert (e + es)[..n] == e[..n];
    } else {
      FieldsTruncated(fs[1..], n - |e|);
      FieldRoundTrip(fs[0], es[..n-|e|]);
      assert (e + es)[..n] == e + es[..n-|e|];
      assert Kinds(fs)[1..] == Kinds(fs[1..]);
    }
  }

  lemma {:induction false} BigEndianOfValue(b: Bytes)
    ensures BigEndian(Value(b), |b|) == b
  {
    if b != [] {
      var init, last := b[..|b|-1], b[|b|-1];
      BigEndianOfValue(init);
      LastOctet(Value(init), last as int);
      assert b == init + [last];
    }
  }

  lemma LastOctet(q: nat, d: nat)
    requires d < 256
    ensures (q * 256 + d) / 256 == q && (q * 256 + d) % 256 == d
  {
  }

  /** What is read is what was written there, and no more octets than that are taken. */
  lemma FieldRead(k: FieldKind, buf: Bytes)
    requires ReadField(k, buf).Got?
    ensures var r := ReadField(k, buf); r.f.Fits() && r.f.Kind() == k && buf == Encode(r.f) + r.rest
  {
    hide BigEndian, Value;
    PowValues();
    var w := k.Width();
    var v := Value(buf[..w]);
    BigEndianOfValue(buf[..w]);
    assert buf == buf[..w] + buf[w..];
    if k.KStr? {
      assert buf[2..2+v][..v] == buf[2..2+v];
      assert buf == buf[..2] + (buf[2..2+v] + buf[2+v..]);
    }
  }

  /** Reads succeed exactly on the octets of fields of these kinds, whatever follows them. */
  lemma {:induction false} FieldsReadIff(ks: seq<FieldKind>, buf: Bytes)
    ensures var r := ReadFields(ks, buf);
            && (r.ok ==> Kinds(r.fields) == ks && AllFit(r.fields) && buf == EncodeAll(r.fields) + r.rest)
            && (r.ok <==> exists fs, rest :: Kinds(fs) == ks && AllFit(fs) && buf == EncodeAll(fs) + rest)
  {
    hide Encode, ReadField, Field.Fits, Field.Kind;
    forall fs, rest | Kinds(fs) == ks && AllFit(fs) && buf == EncodeAll(fs) + rest
      ensures ReadFields(ks, buf).ok
    {
      FieldsRoundTrip(fs, rest);
    }
    var r := ReadFields(ks, buf);
    if ks == [] {
      assert buf == EncodeAll([]) + buf;
    } else if r.ok {
      FieldRead(ks[0], buf);
      var got := ReadField(ks[0], buf);
      FieldsReadIff(ks[1..], got.rest);
      assert r.fields[1..] == ReadFields(ks[1..], got.rest).fields;
      Reassociate(Encode(got.f), EncodeAll(r.fields[1..]), r.rest);
      assert ks == [ks[0]] + ks[1..];
    }
  }

  ghost predicate AllFit(fs: seq<Field>) {
    forall i | 0 <= i < |fs| :: fs[i].Fits()
  }

  class PayloadWriter {
    var buf: Bytes

    constructor ()
      ensures buf == []
    {
      buf := [];
    }

    method Put(f: Field)
      requires !f.Str? ==> f.Fits()
      modifies this
      ensures buf == old(buf) + Encode(f)
    {
      match f
      case U8(v) => buf := buf + BigEndian(v, 1);
      case U16(v) => buf := buf + BigEndian(v, 2);
      case U32(v) => buf := buf + BigEndian(v, 4);
      case U64(v) => buf := buf + BigEndian(v, 8);
      case Str(s) =>
        // the length prefix has sixteen bits, so a longer string is cut
        var n := if |s| < 0xFFFF then |s| else 0xFFFF;
        buf := buf + BigEndian(n, 2);
        buf := buf + s[..n];
    }
  }

  class PayloadReader {
    const buf: Bytes
    var pos: nat
    var ok: bool

    ghost predicate Valid()
      reads this
    {
      pos <= |buf|
    }

    function Rest(): Bytes
      requires Valid()
      reads this
    {
      buf[pos..]
    }

    constructor (buf: Bytes)
      ensures Valid() && this.buf == buf && Rest() == buf && ok
    {
      this.buf := buf;
      pos, ok := 0, true;
    }

    method Need(n: nat) returns (enough: bool)
      requires Valid()
      modifies this`ok
      ensures enough == ok == (old(ok) && |Rest()| >= n)
    {
      if !ok || |buf| - pos < n {
        ok := false;
        return false;
      }
      return true;
    }

    /** A read of any kind: `ok` is sticky and the position never leaves the buffer. */
    method Get(k: FieldKind) returns (r: Read)
      requires Valid()
      modifies this
      ensures Valid()
      ensures r == if old(ok) then ReadField(k, old(Rest())) else Short
      ensures ok == r.Got?
      ensures r.Got? ==> Rest() == r.rest
    {
      var w := k.Width();
      var enough := Need(w);
      if !enough { return Short; }
      assert Rest()[..w] == buf[pos..pos+w];
      var v := Value(buf[pos..pos+w]);
      assert Rest()[w..] == buf[pos+w..];
      pos := pos + w;
      match k
      case K8 => r := Got(U8(v), buf[pos..]);
      case K16 => r := Got(U16(v), buf[pos..]);
      case K32 => r := Got(U32(v), buf[pos..]);
      case K64 => r := Got(U64(v), buf[pos..]);
      case KStr =>
        enough := Need(v);
        if !enough { return Short; }
        ghost var rest := old(Rest());
        assert rest == buf[pos-2..];
        assert rest[2..2+v] == buf[pos..pos+v];
        assert rest[2+v..] == buf[pos+v..];
        var s := buf[pos..pos+v];
        pos := pos + v;
        r := Got(Str(s), buf[pos..]);
    }
  }
}
