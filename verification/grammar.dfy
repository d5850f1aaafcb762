/**
  The line format as text.

  Which lines are accepted, with which hour, module and speed, and for which reason any other
  line is refused, stated with the characters of the line and nothing of the parser.
  */
module Grammar {
  import opened LogLines
  import opened Numbers
  import R = ResultCsv

  const NAMES: seq<string> := [
    "RadarTrackNodeState", "AntennaProfileSpec", "SectorSchedulerRTS",
    "DetectionTaskRunner", "BeamSteerCtrlUnitImpl"
  ]

  /** The layout of a timestamp, with a zero wherever a digit stands. */
  const STAMP := "[0000-00-00_00:00:00.000000]"

  const UPPER := "ABCDEFGHIJKLMNOPQRSTUVWXYZ"
  const LOWER := "abcdefghijklmnopqrstuvwxyz"

  predicate WordChar(c: char) {
    c in UPPER || c in LOWER || c in DIGITS || c == '_'
  }

  predicate Numeric(s: string) { forall i | 0 <= i < |s| :: s[i] in DIGITS }
  predicate Word(s: string) { s != "" && forall i | 0 <= i < |s| :: WordChar(s[i]) }
  predicate Field(s: string) { Numeric(s) && 1 <= |s| <= 20 }

  predicate Matches(s: string, layout: string) {
    && |s| == |layout|
    && forall i | 0 <= i < |s| :: if layout[i] == '0' then s[i] in DIGITS else s[i] == layout[i]
  }

  function Two(n: nat): (s: string)
    requires n < 100
    ensures |s| == 2
  {
    [DIGITS[n / 10], DIGITS[n % 10]]
  }

  function Four(n: nat): (s: string)
    requires n < 10000
    ensures |s| == 4
  {
    Two(n / 100) + Two(n % 100)
  }

  /** The date and the hour in front of a timestamp. */
  function Date(year: nat, month: nat, day: nat, hour: nat): (s: string)
    requires year < 10000 && month < 100 && day < 100 && hour < 100
    ensures |s| == 13
  {
    Four(year) + "-" + Two(month) + "-" + Two(day) + "_" + Two(hour)
  }

  // ---------------------------------------------------------------- characters

  lemma UpperIs(c: char)
    ensures 'A' <= c <= 'Z' <==> c in UPPER
  {
    forall k: nat | k < 26 ensures UPPER[k] == 'A' + k as char { Upper26(k); }
    if 'A' <= c <= 'Z' { assert UPPER[c as int - 'A' as int] == c; }
  }

  lemma Upper26(k: nat)
    requires k < 26
    ensures UPPER[k] == 'A' + k as char
  {
  }

  lemma LowerIs(c: char)
    ensures 'a' <= c <= 'z' <==> c in LOWER
  {
    forall k: nat | k < 26 ensures LOWER[k] == 'a' + k as char { Lower26(k); }
    if 'a' <= c <= 'z' { assert LOWER[c as int - 'a' as int] == c; }
  }

  lemma Lower26(k: nat)
    requires k < 26
    ensures LOWER[k] == 'a' + k as char
  {
  }

  /** Identifier characters are letters, digits and the underscore. */
  lemma WordCharIs(c: char)
    ensures IsIdent(c) <==> WordChar(c)
  {
    hide IsDigit;
    UpperIs(c);
    LowerIs(c);
    DigitIs(c);
  }

  lemma NumericIs(s: string)
    ensures Numeric(s) <==> Digits(s)
  {
    hide IsDigit;
    forall i | 0 <= i < |s| ensures IsDigit(s[i]) <==> s[i] in DIGITS { DigitIs(s[i]); }
  }

  lemma WordIs(s: string)
    ensures Word(s) <==> s != "" && Ident(s)
  {
    hide IsIdent, WordChar;
    forall i | 0 <= i < |s| ensures IsIdent(s[i]) <==> WordChar(s[i]) { WordCharIs(s[i]); }
  }

  lemma StampSlots(i: nat)
    requires i < 28
    ensures |STAMP| == 28
    ensures if TimestampSlot(i) == 'd' then STAMP[i] == '0' else STAMP[i] == TimestampSlot(i) != '0'
  {
    assert |STAMP| == 28;
  }

  lemma MatchesIs(s: string)
    ensures Matches(s, STAMP) <==> IsTimestamp(s)
  {
    hide IsDigit, TimestampSlot;
    StampSlots(0);
    if |s| == 28 {
      forall i: nat | i < 28
        ensures (if STAMP[i] == '0' then s[i] in DIGITS else s[i] == STAMP[i])
                <==> if TimestampSlot(i) == 'd' then IsDigit(s[i]) else s[i] == TimestampSlot(i)
      {
        StampSlots(i);
        DigitIs(s[i]);
      }
    }
  }

  // ---------------------------------------------------------------- dates

  lemma Ten2()
    ensures R.Ten(1) == 10 && R.Ten(2) == 100
  {
  }

  lemma TwoIs(s: string)
    requires |s| == 2 && Digits(s)
    ensures Number(s) < 100 && s == Two(Number(s))
  {
    hide Number, Digits;
    R.FixedOfNumber(s);
    var n := Number(s);
    Ten2();
    DigitIs('0');
    assert R.Fixed(n, 2) == R.Fixed(n / 10, 1) + [R.DigitChar(n % 10)];
    assert R.Fixed(n / 10, 1) == "" + [R.DigitChar(n / 10 % 10)];
  }

  lemma TwoNumber(n: nat)
    requires n < 100
    ensures Digits(Two(n)) && Number(Two(n)) == n
  {
    hide Number, Digits;
    NumberOne(n / 10);
    NumberOne(n % 10);
    NumberConcat([DIGITS[n / 10]], [DIGITS[n % 10]]);
    Ten2();
    assert Two(n) == [DIGITS[n / 10]] + [DIGITS[n % 10]];
  }

  lemma FourIs(s: string)
    requires |s| == 4 && Digits(s)
    ensures Number(s) < 10000 && s == Four(Number(s))
  {
    hide Number, Digits, Two, R.Ten;
    var a, b := s[..2], s[2..];
    assert s == a + b;
    DigitsConcat(a, b);
    NumberConcat(a, b);
    TwoIs(a);
    TwoIs(b);
    Ten2();
    R.Split100(Number(a), Number(b));
  }

  lemma FourNumber(n: nat)
    requires n < 10000
    ensures Digits(Four(n)) && Number(Four(n)) == n
  {
    hide Number, Digits;
    TwoNumber(n / 100);
    TwoNumber(n % 100);
    NumberConcat(Two(n / 100), Two(n % 100));
    Ten2();
  }

  ghost predicate DatedIn(ts: string, year: nat, month: nat, day: nat, hour: nat) {
    && |ts| == 28 && year < 10000 && 1 <= month <= 12 && 1 <= day <= 31 && hour <= 23
    && ts[1..14] == Date(year, month, day, hour)
  }

  function Key(year: nat, month: nat, day: nat, hour: nat): nat {
    year * 1000000 + month * 10000 + day * 100 + hour
  }

  lemma DateParts(a: string, b: string, c: string, d: string)
    requires |a| == 4 && |b| == 2 && |c| == 2 && |d| == 2
    ensures var s := a + "-" + b + "-" + c + "_" + d;
            s[..4] == a && s[5..7] == b && s[8..10] == c && s[11..13] == d && |s| == 13
  {
  }

  lemma StampDate(ts: string)
    requires IsTimestamp(ts)
    ensures |ts| == 28 && ts[1..14] == ts[1..5] + "-" + ts[6..8] + "-" + ts[9..11] + "_" + ts[12..14]
  {
    assert TimestampSlot(5) == '-' && TimestampSlot(8) == '-' && TimestampSlot(11) == '_';
  }

  /** The date check and the key of the hour, by the characters of the stamp. */
  lemma DatedIff(ts: string)
    requires IsTimestamp(ts)
    ensures DateInRange(ts) <==> exists y: nat, m: nat, d: nat, h: nat :: DatedIn(ts, y, m, d, h)
    ensures forall y: nat, m: nat, d: nat, h: nat | DatedIn(ts, y, m, d, h) :: BucketOf(ts) == Key(y, m, d, h)
  {
    hide Number, Digits, IsTimestamp, Two, Four;
    TimestampDigits(ts);
    StampDate(ts);
    var y0, m0, d0, h0 := ts[1..5], ts[6..8], ts[9..11], ts[12..14];
    forall y: nat, m: nat, d: nat, h: nat | DatedIn(ts, y, m, d, h)
      ensures DateInRange(ts) && BucketOf(ts) == Key(y, m, d, h)
    {
      DateParts(y0, m0, d0, h0);
      DateParts(Four(y), Two(m), Two(d), Two(h));
      FourNumber(y);
      TwoNumber(m);
      TwoNumber(d);
      TwoNumber(h);
    }
    if DateInRange(ts) {
      FourIs(y0);
      TwoIs(m0);
      TwoIs(d0);
      TwoIs(h0);
      assert DatedIn(ts, Number(y0), Number(m0), Number(d0), Number(h0));
    }
  }

  // ---------------------------------------------------------------- the parts of a line

  /** The timestamp and the three numbers behind it. */
  datatype Header = Header(stamp: string, pid: string, tid: string, sq: string) {
    predicate Valid() {
      Matches(stamp, STAMP) && Field(pid) && Field(tid) && Field(sq)
    }

    function Text(): string {
      stamp + "[" + pid + "]" + "[" + tid + "]" + "[" + sq + "]"
    }
  }

  ghost predicate Opens(s: string, h: Header, rest: string) {
    h.Valid() && s == h.Text() + rest
  }

  ghost predicate HasHeader(s: string) {
    exists h, rest :: Opens(s, h, rest)
  }

  ghost predicate HasTag(s: string) {
    exists h, rest :: Opens(s, h, " BYDA::" + rest)
  }

  /** The line `s` is complete: a header, the tag, a module name and a payload. */
  ghost predicate Complete(s: string, h: Header, mod: string, payload: string) {
    Word(mod) && Opens(s, h, " BYDA::" + (mod + (": " + payload)))
  }

  lemma HeaderText(h: Header, rest: string)
    ensures h.Text() + rest
            == h.stamp + ("[" + h.pid + "]" + ("[" + h.tid + "]" + ("[" + h.sq + "]" + rest)))
  {
  }

  lemma FieldsOfHeader(h: Header, rest: string)
    requires h.Valid()
    ensures |h.stamp| == 28 && FieldsEnd(h.Text() + rest, 28, 3) == Some(|h.Text()|)
  {
    hide FieldEnd, FieldDigits, Matches;
    StampLength(h.stamp);
    FieldIs(h.pid);
    FieldIs(h.tid);
    FieldIs(h.sq);
    HeaderText(h, rest);
    var s := h.Text() + rest;
    var t3 := rest;
    var t2 := "[" + h.sq + "]" + t3;
    var t1 := "[" + h.tid + "]" + t2;
    var p1 := h.stamp + ("[" + h.pid + "]");
    var p2 := p1 + ("[" + h.tid + "]");
    var p3 := p2 + ("[" + h.sq + "]");
    FieldEndAt(h.stamp, h.pid, t1);
    assert s == p1 + t1;
    FieldEndAt(p1, h.tid, t2);
    assert s == p2 + t2;
    FieldEndAt(p2, h.sq, t3);
    assert s == p3 + t3;
    FieldsDone(s, |p3|);
    FieldsNext(s, |p2|, 1);
    FieldsNext(s, |p1|, 2);
    FieldsNext(s, 28, 3);
  }

  lemma StampLength(s: string)
    requires Matches(s, STAMP)
    ensures |s| == 28 && s[0] == '[' && IsTimestamp(s)
  {
    MatchesIs(s);
    MatchesHead(s);
  }

  lemma FieldIs(d: string)
    ensures Field(d) <==> FieldDigits(d)
  {
    NumericIs(d);
  }

  /** The three fields are found exactly when the line opens with a header, and end with it. */
  lemma HeaderIff(s: string)
    requires |s| >= 28 && IsTimestamp(s[..28])
    ensures FieldsEnd(s, 28, 3).Some? <==> HasHeader(s)
    ensures forall h, rest | Opens(s, h, rest) ::
              FieldsEnd(s, 28, 3) == Some(|h.Text()|) && s[|h.Text()|..] == rest && s[..28] == h.stamp
    ensures forall e | FieldsEnd(s, 28, 3) == Some(e) :: exists h :: Opens(s, h, s[e..])
  {
    hide FieldsEnd, IsTimestamp, FieldDigits, Field, Matches;
    forall h, rest | Opens(s, h, rest)
      ensures FieldsEnd(s, 28, 3) == Some(|h.Text()|) && s[|h.Text()|..] == rest && s[..28] == h.stamp
    {
      FieldsOfHeader(h, rest);
      HeaderText(h, rest);
    }
    if FieldsEnd(s, 28, 3).Some? {
      var pid, tid, sq, e := FieldsForm(s, 28);
      MatchesIs(s[..28]);
      FieldIs(pid);
      FieldIs(tid);
      FieldIs(sq);
      var h := Header(s[..28], pid, tid, sq);
      HeaderText(h, s[e..]);
      assert s == s[..28] + s[28..];
      assert Opens(s, h, s[e..]);
    }
  }

  lemma TagIs()
    ensures TAG == " BYDA::" && |TAG| == 7 && MIN_LINE_LENGTH == 47
  {
  }

  /** The tag is found exactly when it follows the header. */
  lemma TagIff(s: string, i: nat, h0: Header)
    requires i <= |s| && Opens(s, h0, s[i..]) && i == |h0.Text()|
    requires forall h, rest | Opens(s, h, rest) :: |h.Text()| == i && s[i..] == rest
    ensures (i + 7 <= |s| && s[i..i+7] == " BYDA::") <==> HasTag(s)
  {
    hide Opens, Header.Text;
    if i + 7 <= |s| && s[i..i+7] == " BYDA::" {
      assert s[i..] == " BYDA::" + s[i+7..];
      assert Opens(s, h0, " BYDA::" + s[i+7..]);
    }
    if HasTag(s) {
      var h, rest :| Opens(s, h, " BYDA::" + rest);
      assert s[i..] == " BYDA::" + rest;
      assert s[i..i+7] == s[i..][..7];
    }
  }

  lemma CompleteShape(s: string, h: Header, mod: string, payload: string) returns (g: Shape)
    requires Complete(s, h, mod, payload)
    ensures g == Shape(h.stamp, h.pid, h.tid, h.sq, mod, payload) && g.Valid() && g.Line() == s
  {
    hide Field, FieldDigits, IsTimestamp, Matches, Ident, Word, Header.Text;
    g := Shape(h.stamp, h.pid, h.tid, h.sq, mod, payload);
    StampLength(h.stamp);
    FieldIs(h.pid);
    FieldIs(h.tid);
    FieldIs(h.sq);
    WordIs(mod);
    HeaderText(h, " BYDA::" + (mod + (": " + payload)));
  }

  /** Every line in which the parser found a name is complete. */
  lemma ShapeComplete(s: string) returns (h: Header, payload: string)
    requires ParseLine(s).token != ""
    ensures Complete(s, h, ParseLine(s).token, payload)
  {
    hide Field, FieldDigits, IsTimestamp, Matches, Ident, Word, Header.Text, ParseLine;
    var g := ShapeOfParse(s);
    h, payload := Header(g.ts, g.pid, g.tid, g.sq), g.payload;
    MatchesIs(g.ts);
    FieldIs(g.pid);
    FieldIs(g.tid);
    FieldIs(g.sq);
    WordIs(g.mod);
    HeaderText(h, " BYDA::" + (g.mod + (": " + payload)));
  }

  lemma NamesIs(name: string)
    ensures |NAMES| == |MODULES| == 5
    ensures LookupModule(name).Some? <==> name in NAMES
    ensures LookupModule(name).Some? ==> LookupModule(name).value < 5 && NAMES[LookupModule(name).value] == name
  {
    assert NAMES == MODULES;
  }

  /** The date in the timestamp `ts` is one of the calendar. */
  ghost predicate Dated(ts: string) {
    exists y: nat, m: nat, d: nat, h: nat :: DatedIn(ts, y, m, d, h)
  }

  /** `p` is what is kept of a line with this stamp, name and payload if it is accepted. */
  ghost predicate ReadAs(p: Parsed, ts: string, mod: string, payload: string) {
    && p.mod < |NAMES| && NAMES[p.mod] == mod && p.spd == SpdOf(payload)
    && forall y: nat, m: nat, d: nat, h: nat | DatedIn(ts, y, m, d, h) ::
         p.bucket == y * 1000000 + m * 10000 + d * 100 + h
  }

  /**
    What becomes of a complete line: an unlisted name is refused as such, a date outside the
    calendar as a bad timestamp, and any other line is accepted with its module, its hour and
    the speed of its payload.
    */
  lemma CompleteLine(s: string, h: Header, mod: string, payload: string)
    requires Complete(s, h, mod, payload)
    ensures var p := ParseLine(s);
            && p.token == mod
            && p.reason == (if mod !in NAMES then UnknownModule else if Dated(h.stamp) then Ok else BadTimestamp)
            && (p.reason == Ok ==> ReadAs(p, h.stamp, mod, payload))
  {
    hide Field, FieldDigits, IsTimestamp, Matches, Ident, Word, Header.Text, ParseLine, SpdOf, LookupModule,
         DateInRange, BucketOf, DatedIn, Complete;
    var g := CompleteShape(s, h, mod, payload);
    ParseOfShape(g);
    NamesIs(mod);
    DatedIff(h.stamp);
  }

  /**
    A line is accepted exactly when it is a header, the tag, one of the five names and a
    payload, with a date of the calendar in its timestamp.
    */
  lemma AcceptedIff(s: string)
    ensures ParseLine(s).reason == Ok <==>
            exists h, mod, payload :: Complete(s, h, mod, payload) && mod in NAMES && Dated(h.stamp)
  {
    hide Complete, Dated, ReadAs;
    forall h, mod, payload | Complete(s, h, mod, payload) && mod in NAMES && Dated(h.stamp)
      ensures ParseLine(s).reason == Ok
    {
      hide ParseLine;
      CompleteLine(s, h, mod, payload);
    }
    if ParseLine(s).reason == Ok {
      AcceptedToken(s);
      hide ParseLine;
      var h, payload := ShapeComplete(s);
      CompleteLine(s, h, ParseLine(s).token, payload);
    }
  }

  lemma AcceptedToken(s: string)
    requires ParseLine(s).reason == Ok
    ensures ParseLine(s).token != ""
  {
    hide DateInRange, BucketOf, SpdOf, IsTimestamp, FieldsEnd;
    assert "" !in MODULES;
  }

  // ---------------------------------------------------------------- refused lines

  lemma ModuleMissing(s: string, i: nat)
    requires i <= |s| && |s| >= 28 && IsTimestamp(s[..28])
    requires ParseModule(s, i).token == ""
    ensures ParseModule(s, i).reason == if i + 7 <= |s| && s[i..i+7] == " BYDA::" then BadModuleName else MissingBydaTag
  {
    hide IsTimestamp, DateInRange, BucketOf, SpdOf, LookupModule, SpanIdent;
    TagIs();
  }

  /** Any other line is refused for the first part of the format that is not there. */
  lemma RefusedFor(s: string)
    requires forall h, mod, payload :: !Complete(s, h, mod, payload)
    ensures ParseLine(s).token == ""
    ensures ParseLine(s).reason
            == if s == "" then TooShort
               else if s[0] != '[' then MissingOpenBracket
               else if |s| < 47 then TooShort
               else if !Matches(s[..28], STAMP) then BadTimestamp
               else if s[28] != '[' then GarbagePayload
               else if !HasHeader(s) then MissingCloseBracket
               else if !HasTag(s) then MissingBydaTag
               else BadModuleName
  {
    hide Complete, Matches, IsTimestamp, FieldsEnd, ParseModule, HasHeader, HasTag, Opens, Header.Text;
    if ParseLine(s).token != "" {
      var h, payload := ShapeComplete(s);
    }
    TagIs();
    if |s| >= 47 {
      MatchesIs(s[..28]);
      if IsTimestamp(s[..28]) {
        HeaderIff(s);
        if FieldsEnd(s, 28, 3).Some? && s[0] == '[' && s[28] == '[' {
          var e := FieldsEnd(s, 28, 3).value;
          var h0 :| Opens(s, h0, s[e..]);
          TagIff(s, e, h0);
          ModuleMissing(s, e);
        }
      }
    }
  }

  // ---------------------------------------------------------------- the speed

  /** A key of its own: "spd[" that is not the end of a longer word. */
  predicate KeyAt(p: string, k: nat) {
    k + 4 <= |p| && p[k..k+4] == "spd[" && (k == 0 || !WordChar(p[k-1]))
  }

  /** The first such key of a payload, with its value up to the next bracket. */
  ghost predicate SpeedAt(p: string, pre: string, token: string, post: string) {
    && p == pre + ("spd[" + (token + ("]" + post)))
    && KeyAt(p, |pre|) && (forall k | 0 <= k < |pre| :: !KeyAt(p, k))
    && forall i | 0 <= i < |token| :: token[i] != ']'
  }

  lemma KeyIs(p: string, k: nat)
    ensures KeyAt(p, k) <==> Anchor(p, k)
  {
    hide IsIdent, WordChar;
    if 0 < k <= |p| { WordCharIs(p[k-1]); }
  }

  lemma SpeedAtIs(p: string, pre: string, token: string, post: string)
    ensures SpeedAt(p, pre, token, post) <==> SpdAt(p, pre, token, post)
  {
    hide KeyAt, Anchor, IsIdent;
    forall k: nat ensures KeyAt(p, k) <==> Anchor(p, k) { KeyIs(p, k); }
    if p == pre + ("spd[" + (token + ("]" + post))) {
      AnchorAfter(p, pre, token + ("]" + post));
    }
  }

  lemma AnchorAfter(p: string, pre: string, rest: string)
    requires p == pre + ("spd[" + rest)
    ensures Anchor(p, |pre|) <==> (pre != "" ==> !IsIdent(pre[|pre|-1]))
  {
    hide IsIdent;
    assert p[|pre|..|pre|+4] == "spd[";
  }

  /** The value of a decimal times ten to the number of its decimal places. */
  function Scaled(d: Decimal): int
    requires d.Valid()
  {
    DigitsConcat(d.whole, d.fraction);
    var n: int := Number(d.whole + d.fraction);
    if d.sign == "-" then -n else n
  }

  /**
    The speed of a line: the decimal in the first key, if it is one of fewer than 64 characters,
    unless it lies outside 0 to 1000000000.
    */
  lemma SpeedRead(p: string, pre: string, token: string, post: string)
    requires SpeedAt(p, pre, token, post)
    ensures forall d: Decimal | d.Valid() && d.Text() == token && |token| < 64 ::
              var scale := R.Ten(|d.fraction|);
              if 0 <= Scaled(d) <= 1000000000 * scale then
                && SpdOf(p).value.Some? && !SpdOf(p).outOfRange
                && SpdOf(p).value.value * scale as real == Scaled(d) as real
              else SpdOf(p) == Spd(None, true)
    ensures |token| >= 64 || (forall d: Decimal | d.Valid() :: d.Text() != token) ==> SpdOf(p) == Spd(None, false)
  {
    hide SpeedAt, SpdAt, SpdOf, Scaled, DecimalParts, DecimalValue;
    SpeedAtIs(p, pre, token, post);
    SpdFound(p, pre, token, post);
    DecimalIff(token);
    forall d: Decimal | d.Valid() && d.Text() == token && |token| < 64
      ensures var scale := R.Ten(|d.fraction|);
              if 0 <= Scaled(d) <= 1000000000 * scale then
                && SpdOf(p).value.Some? && !SpdOf(p).outOfRange
                && SpdOf(p).value.value * scale as real == Scaled(d) as real
              else SpdOf(p) == Spd(None, true)
    {
      TokenRead(d);
    }
  }

  lemma TokenRead(d: Decimal)
    requires d.Valid() && |d.Text()| < 64
    ensures var scale, spd := R.Ten(|d.fraction|), TokenSpd(d.Text());
            if 0 <= Scaled(d) <= 1000000000 * scale then
              spd.value.Some? && !spd.outOfRange && spd.value.value * scale as real == Scaled(d) as real
            else spd == Spd(None, true)
  {
    hide DecimalParts, DecimalValue, Number, Digits, TokenSpd, R.Ten, Decimal.Text;
    DecimalWorth(d);
    SignIs(d);
    GateIs(d.Text());
    RangeScaled(DecimalValue(d.Text()), R.Ten(|d.fraction|), Scaled(d));
  }

  lemma GateIs(t: string)
    requires 0 < |t| < 64 && DecimalParts(t).Some?
    ensures TokenSpd(t) == if DecimalValue(t) < SPD_MIN || DecimalValue(t) > SPD_MAX then Spd(None, true)
                           else Spd(Some(DecimalValue(t)), false)
  {
    hide DecimalParts, DecimalValue;
  }

  lemma RangeScaled(v: real, t: nat, n: int)
    requires t > 0 && v * t as real == n as real
    ensures v < SPD_MIN || v > SPD_MAX <==> n < 0 || n > 1000000000 * t
  {
    Scales(v, 0.0, t as real);
    Scales(v, 1000000000.0, t as real);
    assert 0.0 * t as real == 0.0;
    assert (1000000000 * t) as real == 1000000000.0 * t as real;
  }

  lemma Scales(a: real, b: real, r: real)
    requires r > 0.0
    ensures a < b <==> a * r < b * r
    ensures a > b <==> a * r > b * r
  {
    assert (a - b) * r == a * r - b * r;
    if a < b { assert (b - a) * r > 0.0; }
    if a > b { assert (a - b) * r > 0.0; }
  }

  /** Without such a key a line has no speed. */
  lemma SpeedMissing(p: string)
    requires forall pre, token, post :: !SpeedAt(p, pre, token, post)
    ensures SpdOf(p) == Spd(None, false)
  {
    hide SpeedAt, SpdAt, SpdOf;
    forall pre, token, post ensures !SpdAt(p, pre, token, post) { SpeedAtIs(p, pre, token, post); }
    SpdDecidedByFirstAnchor(p);
  }
}
