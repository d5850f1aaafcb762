/**
  One log line:
    [YYYY-MM-DD_HH:MM:SS.ffffff][PID][TID][SEQ] BYDA::<Module>: <payload>

  `ParseLine` says which reason a line is refused for; `ParseLogLine` is the scanner that
  computes it with one index.  The grammar is stated separately, as a decomposition of the
  line, and the two are proved to agree.
  */
module LogLines {

  datatype Reason =
    | Ok | TooShort | MissingOpenBracket | BadTimestamp | GarbagePayload
    | MissingCloseBracket | MissingBydaTag | BadModuleName | UnknownModule

  datatype Option<T> = None | Some(value: T) {
    function GetOr(default: T): T {
      if None? then default else value
    }
  }

  const MODULES: seq<string> := [
    "RadarTrackNodeState", "AntennaProfileSpec", "SectorSchedulerRTS",
    "DetectionTaskRunner", "BeamSteerCtrlUnitImpl"
  ]

  const SPD_MIN: real := 0.0
  const SPD_MAX: real := 1000000000.0
  const MIN_LINE_LENGTH: nat := 47
  const TAG := " BYDA::"

  datatype Spd = Spd(value: Option<real>, outOfRange: bool)

  datatype Parsed = Parsed(reason: Reason, token: string, mod: nat, bucket: nat, spd: Spd)

  // ---------------------------------------------------------------- characters and runs

  predicate IsDigit(c: char) { '0' <= c <= '9' }

  predicate IsIdent(c: char) {
    'A' <= c <= 'Z' || 'a' <= c <= 'z' || IsDigit(c) || c == '_'
  }

  predicate Digits(s: string) { forall i | 0 <= i < |s| :: IsDigit(s[i]) }
  predicate Ident(s: string) { forall i | 0 <= i < |s| :: IsIdent(s[i]) }

  /** The end of the run of digits that starts at `i`. */
  function SpanDigits(s: string, i: nat): (j: nat)
    requires i <= |s|
    ensures i <= j <= |s|
    ensures forall k | i <= k < j :: IsDigit(s[k])
    ensures j < |s| ==> !IsDigit(s[j])
    decreases |s| - i
  {
    if i < |s| && IsDigit(s[i]) then SpanDigits(s, i + 1) else i
  }

  function SpanIdent(s: string, i: nat): (j: nat)
    requires i <= |s|
    ensures i <= j <= |s|
    ensures forall k | i <= k < j :: IsIdent(s[k])
    ensures j < |s| ==> !IsIdent(s[j])
    decreases |s| - i
  {
    if i < |s| && IsIdent(s[i]) then SpanIdent(s, i + 1) else i
  }

  /** "[dddd-dd-dd_dd:dd:dd.dddddd]", with 'd' for a digit. */
  function TimestampSlot(i: nat): char {
    if i == 0 then '['
    else if i == 5 || i == 8 then '-'
    else if i == 11 then '_'
    else if i == 14 || i == 17 then ':'
    else if i == 20 then '.'
    else if i == 27 then ']'
    else 'd'
  }

  predicate IsTimestamp(s: string) {
    && |s| == 28
    && forall i: nat | i < 28 ::
         if TimestampSlot(i) == 'd' then IsDigit(s[i]) else s[i] == TimestampSlot(i)
  }

  function DigitOf(c: char): nat
    requires IsDigit(c)
  {
    c as int - '0' as int
  }

  function Number(s: string): nat
    requires Digits(s)
  {
    if s == "" then 0 else Number(s[..|s|-1]) * 10 + DigitOf(s[|s|-1])
  }

  // ---------------------------------------------------------------- the speed value

  /** "spd[" starts at `at` and is not the end of a longer key. */
  predicate Anchor(p: string, at: nat) {
    at + 4 <= |p| && p[at..at+4] == "spd[" && (at == 0 || !IsIdent(p[at-1]))
  }

  function FirstAnchor(p: string, from: nat): (at: Option<nat>)
    ensures at.Some? ==> from <= at.value && Anchor(p, at.value)
    ensures forall k | from <= k < (if at.Some? then at.value else |p|) :: !Anchor(p, k)
    decreases |p| - from
  {
    if from >= |p| then None
    else if Anchor(p, from) then Some(from)
    else FirstAnchor(p, from + 1)
  }

  function FirstClose(p: string, from: nat): (k: nat)
    requires from <= |p|
    ensures from <= k <= |p|
    ensures forall i | from <= i < k :: p[i] != ']'
    ensures k < |p| ==> p[k] == ']'
    decreases |p| - from
  {
    if from == |p| || p[from] == ']' then from else FirstClose(p, from + 1)
  }

  function SignLength(t: string): nat {
    if t != "" && (t[0] == '+' || t[0] == '-') then 1 else 0
  }

  /** A signed decimal: at least one digit, at most one point. */
  function DecimalParts(t: string): (parts: Option<(string, string)>)
    ensures parts.Some? ==> Digits(parts.value.0) && Digits(parts.value.1)
  {
    var i := SignLength(t);
    var j := SpanDigits(t, i);
    var k := if j < |t| && t[j] == '.' then SpanDigits(t, j + 1) else j;
    var fraction := if j < |t| && t[j] == '.' then t[j+1..k] else "";
    if k == |t| && |t[i..j]| + |fraction| > 0 then Some((t[i..j], fraction)) else None
  }

  function Tens(n: nat): (r: real)
    ensures r > 0.0
  {
    if n == 0 then 1.0 else 10.0 * Tens(n - 1)
  }

  /** What strtod makes of a decimal, without its rounding. */
  function DecimalValue(t: string): real
    requires DecimalParts(t).Some?
  {
    var (whole, fraction) := DecimalParts(t).value;
    var v := Number(whole) as real + Number(fraction) as real / Tens(|fraction|);
    if t[0] == '-' then -v else v
  }

  function SpdOf(p: string): Spd {
    var at := FirstAnchor(p, 0);
    if at.None? then Spd(None, false)
    else
      var close := FirstClose(p, at.value + 4);
      if close == |p| then Spd(None, false)
      else TokenSpd(p[at.value+4..close])
  }

  function TokenSpd(t: string): Spd {
    if |t| == 0 || |t| >= 64 || DecimalParts(t).None? then Spd(None, false)
    else
      var v := DecimalValue(t);
      if v < SPD_MIN || v > SPD_MAX then Spd(None, true) else Spd(Some(v), false)
  }

  // ---------------------------------------------------------------- the line

  /** "[digits]" at `i`: where it ends, if it is there and has 1 to 20 digits. */
  function FieldEnd(s: string, i: nat): (r: Option<nat>)
    requires i <= |s|
    ensures r.Some? ==> i < r.value <= |s|
  {
    if i < |s| && s[i] == '[' then
      var j := SpanDigits(s, i + 1);
      if 1 <= j - (i + 1) <= 20 && j < |s| && s[j] == ']' then Some(j + 1) else None
    else None
  }

  function FieldsEnd(s: string, i: nat, n: nat): (r: Option<nat>)
    requires i <= |s|
    ensures r.Some? ==> i <= r.value <= |s|
    decreases n
  {
    if n == 0 then Some(i)
    else
      var e := FieldEnd(s, i);
      if e.None? then None else FieldsEnd(s, e.value, n - 1)
  }

  /** The whitelist, decided by length and first letter before any comparison. */
  function LookupModule(name: string): (r: Option<nat>)
    ensures r.Some? ==> r.value < |MODULES| && MODULES[r.value] == name
    ensures r.None? ==> name !in MODULES
  {
    if |name| == 18 then
      if name[0] == 'A' && name == "AntennaProfileSpec" then Some(1)
      else if name[0] == 'S' && name == "SectorSchedulerRTS" then Some(2)
      else None
    else if |name| == 19 then
      if name[0] == 'R' && name == "RadarTrackNodeState" then Some(0)
      else if name[0] == 'D' && name == "DetectionTaskRunner" then Some(3)
      else None
    else if |name| == 21 then
      if name[0] == 'B' && name == "BeamSteerCtrlUnitImpl" then Some(4) else None
    else None
  }

  lemma TimestampDigits(ts: string)
    requires IsTimestamp(ts)
    ensures Digits(ts[1..5]) && Digits(ts[6..8]) && Digits(ts[9..11]) && Digits(ts[12..14])
    ensures |ts| == 28
  {
    assert forall i: nat | i in {1, 2, 3, 4, 6, 7, 9, 10, 12, 13} :: TimestampSlot(i) == 'd';
  }

  predicate DateInRange(ts: string)
    requires IsTimestamp(ts)
  {
    TimestampDigits(ts);
    && 1 <= Number(ts[6..8]) <= 12
    && 1 <= Number(ts[9..11]) <= 31
    && Number(ts[12..14]) <= 23
  }

  /** YYYYMMDDHH. */
  function BucketOf(ts: string): nat
    requires IsTimestamp(ts)
  {
    TimestampDigits(ts);
    Number(ts[1..5]) * 1000000 + Number(ts[6..8]) * 10000 + Number(ts[9..11]) * 100 + Number(ts[12..14])
  }

  function Refused(r: Reason): Parsed {
    Parsed(r, "", 0, 0, Spd(None, false))
  }

  function ParseLine(s: string): Parsed {
    if |s| < MIN_LINE_LENGTH then
      Refused(if s != "" && s[0] != '[' then MissingOpenBracket else TooShort)
    else if s[0] != '[' then Refused(MissingOpenBracket)
    else if !IsTimestamp(s[..28]) then Refused(BadTimestamp)
    else if s[28] != '[' then Refused(GarbagePayload)
    else
      var e := FieldsEnd(s, 28, 3);
      if e.None? then Refused(MissingCloseBracket) else ParseModule(s, e.value)
  }

  /** From the tag onwards. */
  function ParseModule(s: string, i: nat): Parsed
    requires i <= |s| && |s| >= 28 && IsTimestamp(s[..28])
  {
    if i + |TAG| > |s| || s[i..i+|TAG|] != TAG then Refused(MissingBydaTag)
    else
      var m := i + |TAG|;
      var e := SpanIdent(s, m);
      if e == m || e + 1 >= |s| || s[e] != ':' || s[e+1] != ' ' then Refused(BadModuleName)
      else
        var mod := LookupModule(s[m..e]);
        if mod.None? then Parsed(UnknownModule, s[m..e], 0, 0, Spd(None, false))
        else if !DateInRange(s[..28]) then Refused(BadTimestamp).(token := s[m..e])
        else Parsed(Ok, s[m..e], mod.value, BucketOf(s[..28]), SpdOf(s[e+2..]))
  }

  // ---------------------------------------------------------------- the grammar

  /** The parts of a line with a complete header; `ts` includes its brackets. */
  datatype Shape = Shape(ts: string, pid: string, tid: string, sq: string, mod: string, payload: string) {
    predicate Valid() {
      && IsTimestamp(ts)
      && FieldDigits(pid) && FieldDigits(tid) && FieldDigits(sq)
      && mod != "" && Ident(mod)
    }

    function Line(): string {
      ts + ("[" + pid + "]" + ("[" + tid + "]" + ("[" + sq + "]" + (TAG + (mod + (": " + payload))))))
    }
  }

  predicate FieldDigits(d: string) {
    Digits(d) && 1 <= |d| <= 20
  }

  lemma SpanDigitsIs(s: string, i: nat, j: nat)
    requires i <= j <= |s| && Digits(s[i..j])
    requires j < |s| ==> !IsDigit(s[j])
    ensures SpanDigits(s, i) == j
  {
    assert forall k | i <= k < j :: s[k] == s[i..j][k-i];
  }

  lemma SpanIdentIs(s: string, i: nat, j: nat)
    requires i <= j <= |s| && Ident(s[i..j])
    requires j < |s| ==> !IsIdent(s[j])
    ensures SpanIdent(s, i) == j
  {
    assert forall k | i <= k < j :: s[k] == s[i..j][k-i];
  }

  lemma FieldEndAt(pre: string, d: string, rest: string)
    requires FieldDigits(d)
    ensures FieldEnd(pre + ("[" + d + "]" + rest), |pre|) == Some(|pre| + |d| + 2)
  {
    var s := pre + ("[" + d + "]" + rest);
    assert s[|pre|] == '[' && s[|pre|+1+|d|] == ']';
    assert s[|pre|+1..|pre|+1+|d|] == d;
    SpanDigitsIs(s, |pre| + 1, |pre| + 1 + |d|);
  }

  /** Conversely, a field that was recognized has that form. */
  lemma FieldEndForm(s: string, i: nat)
    requires i <= |s| && FieldEnd(s, i).Some?
    ensures var e := FieldEnd(s, i).value;
            i + 3 <= e && FieldDigits(s[i+1..e-1]) && s[i..] == "[" + s[i+1..e-1] + "]" + s[e..]
  {
    var e := FieldEnd(s, i).value;
    assert s[i..] == [s[i]] + s[i+1..e-1] + [s[e-1]] + s[e..];
  }

  /** A line of the grammar is taken apart into exactly the parts it was made of. */
  lemma ParseOfShape(g: Shape)
    requires g.Valid()
    ensures ParseLine(g.Line()) ==
            var mod := LookupModule(g.mod);
            if mod.None? then Parsed(UnknownModule, g.mod, 0, 0, Spd(None, false))
            else if !DateInRange(g.ts) then Refused(BadTimestamp).(token := g.mod)
            else Parsed(Ok, g.mod, mod.value, BucketOf(g.ts), SpdOf(g.payload))
  {
    hide IsTimestamp, LookupModule, DateInRange, BucketOf, SpdOf, FieldEnd, ParseModule;
    var s := g.Line();
    TimestampDigits(g.ts);
    assert s[..28] == g.ts;
    assert s[0] == '[' by { MatchesHead(g.ts); }
    assert s[28] == '[';
    var t3 := TAG + (g.mod + (": " + g.payload));
    var t2 := "[" + g.sq + "]" + t3;
    var t1 := "[" + g.tid + "]" + t2;
    var p1 := g.ts + ("[" + g.pid + "]");
    var p2 := p1 + ("[" + g.tid + "]");
    var p3 := p2 + ("[" + g.sq + "]");
    FieldEndAt(g.ts, g.pid, t1);
    assert s == p1 + t1;
    FieldEndAt(p1, g.tid, t2);
    assert s == p2 + t2;
    FieldEndAt(p2, g.sq, t3);
    assert s == p3 + t3;
    assert FieldsEnd(s, |p2|, 1) == Some(|p3|);
    assert FieldsEnd(s, |p1|, 2) == Some(|p3|);
    ModuleOfShape(p3, g.mod, g.payload, g.ts);
  }

  lemma MatchesHead(ts: string)
    requires IsTimestamp(ts)
    ensures |ts| == 28 && ts[0] == '['
  {
    assert TimestampSlot(0) == '[';
  }

  lemma ModuleOfShape(p: string, mod: string, payload: string, ts: string)
    requires mod != "" && Ident(mod) && |p| >= 28 && p[..28] == ts && IsTimestamp(ts)
    ensures ParseModule(p + (TAG + (mod + (": " + payload))), |p|) ==
            var m := LookupModule(mod);
            if m.None? then Parsed(UnknownModule, mod, 0, 0, Spd(None, false))
            else if !DateInRange(ts) then Refused(BadTimestamp).(token := mod)
            else Parsed(Ok, mod, m.value, BucketOf(ts), SpdOf(payload))
  {
    hide IsTimestamp, LookupModule, DateInRange, BucketOf, SpdOf;
    var s := p + (TAG + (mod + (": " + payload)));
    assert s[..28] == ts;
    assert s[|p|..|p|+|TAG|] == TAG;
    var m := |p| + |TAG|;
    var e := m + |mod|;
    assert s[m..e] == mod;
    assert s[e] == ':' && s[e+1] == ' ' && s[e+2..] == payload;
    SpanIdentIs(s, m, e);
  }

  /** The three fields in front of position `e`. */
  lemma FieldsForm(s: string, i: nat) returns (pid: string, tid: string, sq: string, e: nat)
    requires i <= |s| && FieldsEnd(s, i, 3).Some?
    ensures e == FieldsEnd(s, i, 3).value <= |s|
    ensures FieldDigits(pid) && FieldDigits(tid) && FieldDigits(sq)
    ensures s[i..] == "[" + pid + "]" + ("[" + tid + "]" + ("[" + sq + "]" + s[e..]))
  {
    hide FieldEnd, FieldDigits;
    var e1 := FieldEnd(s, i).value;
    assert FieldsEnd(s, e1, 2) == FieldsEnd(s, i, 3);
    var e2 := FieldEnd(s, e1).value;
    assert FieldsEnd(s, e2, 1) == FieldsEnd(s, e1, 2);
    e := FieldEnd(s, e2).value;
    assert FieldsEnd(s, e, 0) == FieldsEnd(s, e2, 1);
    FieldEndForm(s, i);
    FieldEndForm(s, e1);
    FieldEndForm(s, e2);
    pid, tid, sq := s[i+1..e1-1], s[e1+1..e2-1], s[e2+1..e-1];
  }

  /** The tag, the module and the payload from position `i`. */
  lemma ModuleForm(s: string, i: nat) returns (mod: string, payload: string)
    requires i <= |s| && |s| >= 28 && IsTimestamp(s[..28])
    requires ParseModule(s, i).token != ""
    ensures mod != "" && Ident(mod) && mod == ParseModule(s, i).token
    ensures s[i..] == TAG + (mod + (": " + payload))
  {
    hide IsTimestamp, LookupModule, DateInRange, BucketOf, SpdOf, SpanIdent, Ident;
    var m := i + |TAG|;
    var e := SpanIdent(s, m);
    mod, payload := s[m..e], s[e+2..];
    SpanIsIdent(s, m);
    CutFrom(s, i, m);
    CutFrom(s, m, e);
    CutFrom(s, e, e + 2);
    assert s[e..e+2] == ": ";
  }

  lemma SpanIsIdent(s: string, i: nat)
    requires i <= |s|
    ensures Ident(s[i..SpanIdent(s, i)])
  {
    hide SpanIdent;
    var run := s[i..SpanIdent(s, i)];
    assert forall k | 0 <= k < |run| :: run[k] == s[i+k];
  }

  lemma CutFrom(s: string, i: nat, j: nat)
    requires i <= j <= |s|
    ensures s[i..] == s[i..j] + s[j..]
  {
  }

  /** The parts of a line whose header is complete: exactly the lines a module name was found in. */
  lemma ShapeOfParse(s: string) returns (g: Shape)
    requires ParseLine(s).token != ""
    ensures g.Valid() && g.Line() == s && g.mod == ParseLine(s).token
  {
    hide IsTimestamp, FieldsEnd, ParseModule, FieldDigits, Ident;
    var pid, tid, sq, e := FieldsForm(s, 28);
    var mod, payload := ModuleForm(s, e);
    g := Shape(s[..28], pid, tid, sq, mod, payload);
    assert s == s[..28] + s[28..];
  }

  /**
    A line is accepted exactly when it is a line of the grammar with a whitelisted module and
    month, day and hour in range; what is extracted are the values of its parts.
    */
  lemma AcceptedIffInGrammar(s: string)
    ensures ParseLine(s).reason == Ok <==>
            exists g: Shape :: g.Valid() && g.Line() == s && g.mod in MODULES && DateInRange(g.ts)
    ensures forall g: Shape | g.Valid() && g.Line() == s && g.mod in MODULES && DateInRange(g.ts) ::
              var p := ParseLine(s);
              && p.mod < |MODULES| && MODULES[p.mod] == g.mod
              && p.bucket == BucketOf(g.ts) && p.spd == SpdOf(g.payload)
  {
    hide SpdOf, BucketOf;
    forall g: Shape | g.Valid() && g.Line() == s && g.mod in MODULES && DateInRange(g.ts)
      ensures ParseLine(s) == Parsed(Ok, g.mod, LookupModule(g.mod).value, BucketOf(g.ts), SpdOf(g.payload))
      ensures LookupModule(g.mod).Some?
    {
      ParseOfShape(g);
    }
    if ParseLine(s).reason == Ok {
      var g := ShapeOfParse(s);
      ParseOfShape(g);
    }
  }

  lemma FieldUnique(d: string, r: string, d': string, r': string)
    requires FieldDigits(d) && FieldDigits(d') && "[" + d + "]" + r == "[" + d' + "]" + r'
    ensures d == d' && r == r'
  {
    hide FieldEnd;
    var s := "[" + d + "]" + r;
    assert "" + s == s;
    FieldEndAt("", d, r);
    FieldEndAt("", d', r');
    assert d == s[1..1+|d|] && r == s[|d|+2..];
  }

  lemma ModuleUnique(m: string, p: string, m': string, p': string)
    requires Ident(m) && Ident(m') && m + (": " + p) == m' + (": " + p')
    ensures m == m' && p == p'
  {
    var s := m + (": " + p);
    assert s[..|m|] == m && s[|m|] == ':' && s[..|m'|] == m' && s[|m'|] == ':';
    assert s[0..|m|] == m && s[0..|m'|] == m';
    SpanIdentIs(s, 0, |m|);
    SpanIdentIs(s, 0, |m'|);
    assert p == s[|m|+2..];
  }

  lemma HeadUnique(a: string, r: string, a': string, r': string)
    requires |a| == |a'| && a + r == a' + r'
    ensures a == a' && r == r'
  {
    assert a == (a + r)[..|a|] && r == (a + r)[|a|..];
  }

  /** A line has at most one decomposition. */
  lemma ShapeUnique(g: Shape, h: Shape)
    requires g.Valid() && h.Valid() && g.Line() == h.Line()
    ensures g == h
  {
    hide IsTimestamp;
    MatchesHead(g.ts);
    MatchesHead(h.ts);
    var g3, h3 := TAG + (g.mod + (": " + g.payload)), TAG + (h.mod + (": " + h.payload));
    var g2, h2 := "[" + g.sq + "]" + g3, "[" + h.sq + "]" + h3;
    var g1, h1 := "[" + g.tid + "]" + g2, "[" + h.tid + "]" + h2;
    var g0, h0 := "[" + g.pid + "]" + g1, "[" + h.pid + "]" + h1;
    assert g.Line() == g.ts + g0 && h.Line() == h.ts + h0;
    HeadUnique(g.ts, g0, h.ts, h0);
    FieldUnique(g.pid, g1, h.pid, h1);
    FieldUnique(g.tid, g2, h.tid, h2);
    FieldUnique(g.sq, g3, h.sq, h3);
    HeadUnique(TAG, g.mod + (": " + g.payload), TAG, h.mod + (": " + h.payload));
    ModuleUnique(g.mod, g.payload, h.mod, h.payload);
  }

  /** `at` is where the speed is looked for: the first "spd[" that is a key of its own. */
  ghost predicate SpdAt(p: string, pre: string, token: string, post: string) {
    && p == pre + ("spd[" + (token + ("]" + post)))
    && (pre != "" ==> !IsIdent(pre[|pre|-1]))
    && (forall k | 0 <= k < |pre| :: !Anchor(p, k))
    && (forall i | 0 <= i < |token| :: token[i] != ']')
  }

  /** The speed is decided by the first anchor alone, up to the next closing bracket. */
  lemma SpdDecidedByFirstAnchor(p: string)
    ensures forall pre, token, post | SpdAt(p, pre, token, post) :: SpdOf(p) == TokenSpd(token)
    ensures (forall pre, token, post :: !SpdAt(p, pre, token, post)) ==> SpdOf(p) == Spd(None, false)
  {
    hide SpdAt, SpdOf;
    forall pre, token, post | SpdAt(p, pre, token, post) ensures SpdOf(p) == TokenSpd(token) {
      SpdFound(p, pre, token, post);
    }
    if SpdOf(p) != Spd(None, false) { SpdNotFound(p); }
  }

  lemma SpdFound(p: string, pre: string, token: string, post: string)
    requires SpdAt(p, pre, token, post)
    ensures SpdOf(p) == TokenSpd(token)
  {
    hide TokenSpd;
    var at := |pre|;
    assert p[at..at+4] == "spd[";
    assert at > 0 ==> p[at-1] == pre[at-1];
    var close := at + 4 + |token|;
    assert p[at+4..close] == token && p[close] == ']';
    assert forall i | at + 4 <= i < close :: p[i] == token[i-at-4];
    assert Anchor(p, at) && FirstAnchor(p, 0) == Some(at);
    assert FirstClose(p, at + 4) == close;
  }

  lemma CutAround(p: string, a: nat, c: nat)
    requires a + 4 <= c < |p| && p[a..a+4] == "spd[" && p[c] == ']'
    ensures p == p[..a] + ("spd[" + (p[a+4..c] + ("]" + p[c+1..])))
  {
    assert p[c..] == "]" + p[c+1..];
    assert p[a+4..] == p[a+4..c] + p[c..];
    assert p[a..] == p[a..a+4] + p[a+4..];
  }

  lemma SpdNotFound(p: string)
    requires SpdOf(p) != Spd(None, false)
    ensures exists pre, token, post :: SpdAt(p, pre, token, post)
  {
    hide TokenSpd, IsIdent, FirstAnchor, FirstClose;
    var a := FirstAnchor(p, 0).value;
    var c := FirstClose(p, a + 4);
    FoundAt(p, a, c);
  }

  lemma FoundAt(p: string, a: nat, c: nat)
    requires Anchor(p, a) && (forall k | 0 <= k < a :: !Anchor(p, k))
    requires a + 4 <= c < |p| && p[c] == ']' && forall i | a + 4 <= i < c :: p[i] != ']'
    ensures SpdAt(p, p[..a], p[a+4..c], p[c+1..])
  {
    hide IsIdent;
    CutAround(p, a, c);
    var token := p[a+4..c];
    forall i | 0 <= i < |token| ensures token[i] != ']' { assert token[i] == p[a+4+i]; }
  }

  datatype Decimal = Decimal(sign: string, whole: string, point: bool, fraction: string) {
    predicate Valid() {
      && sign in ["", "+", "-"] && Digits(whole) && Digits(fraction)
      && (!point ==> fraction == "") && |whole| + |fraction| > 0
    }

    function Text(): string {
      sign + (whole + (if point then "." + fraction else ""))
    }
  }

  /** The token is read as a number exactly when it is a signed decimal, digit for digit. */
  lemma DecimalIff(t: string)
    ensures DecimalParts(t).Some? <==> exists d: Decimal :: d.Valid() && d.Text() == t
    ensures forall d: Decimal | d.Valid() && d.Text() == t :: DecimalParts(t) == Some((d.whole, d.fraction))
  {
    forall d: Decimal | d.Valid() && d.Text() == t
      ensures DecimalParts(t) == Some((d.whole, d.fraction))
    {
      DecimalText(d);
    }
    if DecimalParts(t).Some? {
      var d := DecimalForm(t);
    }
  }

  lemma DecimalText(d: Decimal)
    requires d.Valid()
    ensures DecimalParts(d.Text()) == Some((d.whole, d.fraction))
  {
    hide SpanDigits, SignLength, Digits;
    var t := d.Text();
    var i := |d.sign|;
    var j := i + |d.whole|;
    SignOfText(d);
    Middle(d.sign, d.whole, if d.point then "." + d.fraction else "");
    DigitsEnd(t, i, j);
    if d.point {
      PointThen(t, j, d.fraction);
      DigitsEnd(t, j + 1, |t|);
    }
  }

  lemma Middle(a: string, b: string, c: string)
    ensures var t := a + (b + c);
            t[|a|..|a|+|b|] == b && t[|a|+|b|..] == c && |t| == |a| + |b| + |c|
  {
  }

  lemma PointThen(t: string, j: nat, f: string)
    requires j <= |t| && t[j..] == "." + f
    ensures j < |t| && t[j] == '.' && t[j+1..|t|] == f
  {
    assert t[j..][0] == t[j] && t[j..][1..] == f;
  }

  lemma DigitsEnd(t: string, i: nat, j: nat)
    requires i <= j <= |t| && Digits(t[i..j]) && (j < |t| ==> t[j..][0] == '.')
    ensures SpanDigits(t, i) == j
  {
    hide SpanDigits;
    SpanDigitsIs(t, i, j);
  }

  lemma SignOfText(d: Decimal)
    requires d.Valid()
    ensures SignLength(d.Text()) == |d.sign|
  {
    var rest := d.whole + (if d.point then "." + d.fraction else "");
    assert rest[0] == if d.whole == "" then '.' else d.whole[0];
  }

  lemma DecimalForm(t: string) returns (d: Decimal)
    requires DecimalParts(t).Some?
    ensures d.Valid() && d.Text() == t
  {
    hide SpanDigits, SignLength, Digits;
    SignForm(t);
    var i := SignLength(t);
    var j := SpanDigits(t, i);
    d := Decimal(t[..i], t[i..j], j < |t|, if j < |t| then t[j+1..] else "");
    SpanIsDigits(t, i);
    if j < |t| {
      SpanIsDigits(t, j + 1);
      CutAtPoint(t, i, j);
    } else {
      SpanIsDigits(t, j);
      CutAtEnd(t, i, j);
    }
  }

  lemma SignForm(t: string)
    ensures SignLength(t) <= |t| && t[..SignLength(t)] in ["", "+", "-"]
  {
    if SignLength(t) == 1 {
      assert t[..1] == [t[0]];
    } else {
      assert t[..0] == "";
    }
  }

  lemma SpanIsDigits(t: string, i: nat)
    requires i <= |t|
    ensures Digits(t[i..SpanDigits(t, i)])
  {
    hide SpanDigits;
    var j := SpanDigits(t, i);
    assert forall k | 0 <= k < j - i :: t[i..j][k] == t[i+k];
  }

  lemma CutAtPoint(t: string, i: nat, j: nat)
    requires i <= j < |t| && t[j] == '.'
    ensures t == t[..i] + (t[i..j] + ("." + t[j+1..])) && t[j+1..|t|] == t[j+1..]
  {
  }

  lemma CutAtEnd(t: string, i: nat, j: nat)
    requires i <= j == |t|
    ensures t == t[..i] + (t[i..j] + "") && t[j..j] == ""
  {
  }

  // ---------------------------------------------------------------- the scanner

  /** Where "spd[" occurs next (string_view::find). */
  function FindTag(p: string, from: nat): (at: Option<nat>)
    ensures at.Some? ==> from <= at.value && at.value + 4 <= |p| && p[at.value..at.value+4] == "spd["
    ensures forall k | from <= k < (if at.Some? then at.value else |p|) :: !Anchor(p, k)
    decreases |p| - from
  {
    if from + 4 > |p| then None
    else if p[from..from+4] == "spd[" then Some(from)
    else FindTag(p, from + 1)
  }

  lemma TagsDoNotOverlap(p: string, at: nat, k: nat)
    requires at + 4 <= |p| && p[at..at+4] == "spd[" && at < k < at + 4
    ensures !Anchor(p, k)
  {
    assert p[k] == p[at..at+4][k-at] != 's';
    assert k + 4 <= |p| ==> p[k..k+4][0] == p[k];
  }

  method FindSpd(payload: string) returns (found: bool, value: real, outOfRange: bool)
    ensures Spd(if found then Some(value) else None, outOfRange) == SpdOf(payload)
  {
    hide DecimalValue, DecimalParts;
    found, value, outOfRange := false, 0.0, false;
    var pos := 0;
    while true
      invariant pos <= |payload|
      invariant forall k | 0 <= k < pos :: !Anchor(payload, k)
      decreases |payload| - pos
    {
      var tag := FindTag(payload, pos);
      if tag.None? { return; }
      var at := tag.value;
      if at > 0 && IsIdent(payload[at-1]) {
        forall k | at < k < at + 4 ensures !Anchor(payload, k) { TagsDoNotOverlap(payload, at, k); }
        pos := at + 4;
        continue;
      }
      assert Anchor(payload, at) && FirstAnchor(payload, 0) == Some(at);
      var begin := at + 4;
      var close := FirstClose(payload, begin);
      if close == |payload| { return; }
      var token := payload[begin..close];
      if |token| == 0 || |token| >= 64 { return; }
      var numeric := CheckDecimal(token);
      if !numeric { return; }
      var v := DecimalValue(token);
      if v < SPD_MIN || v > SPD_MAX {
        outOfRange := true;
        return;
      }
      return true, v, false;
    }
  }

  /** The form check made before a token is handed to strtod. */
  method CheckDecimal(token: string) returns (numeric: bool)
    requires token != ""
    ensures numeric == DecimalParts(token).Some?
  {
    var i := 0;
    if token[i] == '+' || token[i] == '-' { i := i + 1; }
    var digits := 0;
    ghost var start := i;
    while i < |token| && IsDigit(token[i])
      invariant start <= i <= |token| && digits == i - start
      invariant SpanDigits(token, start) == SpanDigits(token, i)
    {
      i, digits := i + 1, digits + 1;
    }
    if i < |token| && token[i] == '.' {
      i := i + 1;
      ghost var point := i;
      ghost var before := digits;
      while i < |token| && IsDigit(token[i])
        invariant point <= i <= |token| && digits == before + i - point
        invariant SpanDigits(token, point) == SpanDigits(token, i)
      {
        i, digits := i + 1, digits + 1;
      }
    }
    numeric := digits != 0 && i == |token|;
  }

  method CheckTimestamp(s: string) returns (good: bool)
    requires |s| >= 28
    ensures good == IsTimestamp(s[..28])
  {
    assert forall i | 0 <= i < 28 :: s[..28][i] == s[i];
    if s[0] != '[' { return false; }
    if !IsDigit(s[1]) || !IsDigit(s[2]) || !IsDigit(s[3]) || !IsDigit(s[4]) { return false; }
    if s[5] != '-' { return false; }
    if !IsDigit(s[6]) || !IsDigit(s[7]) { return false; }
    if s[8] != '-' { return false; }
    if !IsDigit(s[9]) || !IsDigit(s[10]) { return false; }
    if s[11] != '_' { return false; }
    if !IsDigit(s[12]) || !IsDigit(s[13]) { return false; }
    if s[14] != ':' { return false; }
    if !IsDigit(s[15]) || !IsDigit(s[16]) { return false; }
    if s[17] != ':' { return false; }
    if !IsDigit(s[18]) || !IsDigit(s[19]) { return false; }
    if s[20] != '.' { return false; }
    var i := 21;
    while i <= 26
      invariant 21 <= i <= 27
      invariant forall k | 21 <= k < i :: IsDigit(s[k])
    {
      if !IsDigit(s[i]) { return false; }
      i := i + 1;
    }
    good := s[27] == ']';
  }

  /** One pass over the line; the result is exactly what the specification assigns to it. */
  method ParseLogLine(line: string) returns (p: Parsed)
    ensures p == ParseLine(line)
  {
    hide IsTimestamp, FieldsEnd, ParseModule;
    if |line| < MIN_LINE_LENGTH {
      return Refused(if line == "" then TooShort else if line[0] != '[' then MissingOpenBracket else TooShort);
    }
    if line[0] != '[' {
      return Refused(MissingOpenBracket);
    }
    var stamped := CheckTimestamp(line);
    if !stamped {
      return Refused(BadTimestamp);
    }
    var i, refused := ScanFields(line);
    if !refused.Ok? {
      return Refused(refused);
    }
    p := ScanModule(line, i);
  }

  /** The three numeric fields: where they end, or why they are refused. */
  method ScanFields(line: string) returns (i: nat, r: Reason)
    requires |line| > 28
    ensures r.Ok? <==> FieldsEnd(line, 28, 3).Some?
    ensures r.Ok? ==> line[28] == '[' && i == FieldsEnd(line, 28, 3).value
    ensures !r.Ok? ==> r == if line[28] != '[' then GarbagePayload else MissingCloseBracket
  {
    hide FieldEnd, FieldsEnd;
    i, r := 28, Ok;
    var field := 0;
    while field < 3
      invariant 0 <= field <= 3 && 28 <= i <= |line| && (field == 0 ==> i == 28)
      invariant field > 0 ==> line[28] == '['
      invariant FieldsEnd(line, 28, 3) == FieldsEnd(line, i, 3 - field)
    {
      FieldsNext(line, i, 3 - field);
      var closed, end := ScanField(line, i);
      if i >= |line| || line[i] != '[' {
        return i, if field == 0 then GarbagePayload else MissingCloseBracket;
      }
      if !closed {
        return end, MissingCloseBracket;
      }
      i := end;
      field := field + 1;
    }
    FieldsDone(line, i);
  }

  lemma FieldsNext(s: string, i: nat, n: nat)
    requires i <= |s| && n > 0
    ensures FieldsEnd(s, i, n) == if FieldEnd(s, i).None? then None else FieldsEnd(s, FieldEnd(s, i).value, n - 1)
    ensures i >= |s| || s[i] != '[' ==> FieldEnd(s, i).None?
  {
  }

  lemma FieldsDone(s: string, i: nat)
    requires i <= |s|
    ensures FieldsEnd(s, i, 0) == Some(i)
  {
  }

  /** One field; its digits are given up after twenty. */
  method ScanField(line: string, i: nat) returns (closed: bool, end: nat)
    requires i <= |line|
    ensures closed == FieldEnd(line, i).Some? && (closed ==> end == FieldEnd(line, i).value)
  {
    hide SpanDigits;
    if i >= |line| || line[i] != '[' { return false, i; }
    var j, digits := ScanDigits(line, i + 1);
    if digits > 20 || digits == 0 || j >= |line| || line[j] != ']' {
      return false, j;
    }
    return true, j + 1;
  }

  /** A run of digits, given up after twenty. */
  method ScanDigits(line: string, from: nat) returns (i: nat, digits: nat)
    requires from <= |line|
    ensures i == from + digits <= |line|
    ensures if digits > 20 then SpanDigits(line, from) - from > 20 else i == SpanDigits(line, from)
  {
    i, digits := from, 0;
    while i < |line| && IsDigit(line[i])
      invariant i == from + digits <= |line| && digits <= 20
      invariant SpanDigits(line, from) == SpanDigits(line, i)
    {
      i, digits := i + 1, digits + 1;
      if digits > 20 { return; }
    }
  }

  /** The tag, the module name and the payload, from position `from`. */
  method ScanModule(line: string, from: nat) returns (p: Parsed)
    requires from <= |line| && |line| >= 28 && IsTimestamp(line[..28])
    ensures p == ParseModule(line, from)
  {
    hide IsTimestamp, DateInRange, BucketOf, SpdOf, LookupModule;
    var i := from;
    if i + |TAG| > |line| || line[i..i+|TAG|] != TAG {
      return Refused(MissingBydaTag);
    }
    i := i + |TAG|;
    var begin := i;
    while i < |line| && IsIdent(line[i])
      invariant begin <= i <= |line|
      invariant SpanIdent(line, begin) == SpanIdent(line, i)
    {
      i := i + 1;
    }
    if i == begin || i + 1 >= |line| || line[i] != ':' || line[i+1] != ' ' {
      return Refused(BadModuleName);
    }
    var token := line[begin..i];
    i := i + 2;
    var mod := LookupModule(token);
    if mod.None? {
      return Parsed(UnknownModule, token, 0, 0, Spd(None, false));
    }
    if !DateInRange(line[..28]) {
      return Refused(BadTimestamp).(token := token);
    }
    var found, value, oor := FindSpd(line[i..]);
    p := Parsed(Ok, token, mod.value, BucketOf(line[..28]), Spd(if found then Some(value) else None, oor));
  }
}
