/**
  Folding lines into statistics.

  `Agg` is the value the statistics have after a sequence of lines, with the hour buckets as
  an association list in key order.  `Aggregator` keeps the buckets in a sorted vector with a
  cache of the bucket used last, and must arrive at the same value.
  */
module Aggregation {
  import opened LogLines
  import opened Lines

  const MODULE_COUNT: nat := 5
  const REASON_COUNT: nat := 9
  const MAX_BUCKETS: nat := 10000
  const MAX_REJECTED_MODULES: nat := 64
  const MAX_EXCERPT: nat := 160

  datatype Bucket = Bucket(counts: seq<nat>, total: nat)
  datatype Corrupt = Corrupt(count: nat, firstLine: nat, firstOffset: nat, excerpt: string)

  /** An entry of the hour table, and of the table of refused module names. */
  datatype Hour = Hour(key: nat, bucket: Bucket)
  datatype Name = Name(text: string, count: nat)

  type Hours = seq<Hour>
  type Names = seq<Name>

  function Zeros(n: nat): (s: seq<nat>)
    ensures |s| == n && forall i | 0 <= i < n :: s[i] == 0
  {
    if n == 0 then [] else Zeros(n - 1) + [0]
  }

  const NoCounts: seq<nat> := Zeros(MODULE_COUNT)
  const NoBucket := Bucket(NoCounts, 0)
  const NoCorrupt := Corrupt(0, 0, 0, "")

  predicate ShapedHours(hs: Hours) {
    forall i | 0 <= i < |hs| :: |hs[i].bucket.counts| == MODULE_COUNT
  }

  /** Least and greatest speed, and how many speeds there were with which sum. */
  datatype Range = Range(min: real, max: real)
  datatype Speeds = Speeds(n: nat, sum: real, range: Range)

  datatype Agg = Agg(
    total: nat, accepted: nat, oversize: nat, outOfRange: nat, modules: seq<nat>,
    speeds: Speeds, hours: Hours, corrupt: seq<Corrupt>, rejected: Names,
    firstTs: string, lastTs: string)
  {
    predicate Shaped() {
      && |modules| == MODULE_COUNT && |corrupt| == REASON_COUNT
      && ShapedHours(hours)
    }
  }

  function Blank(n: nat): (s: seq<Corrupt>)
    ensures |s| == n && forall i | 0 <= i < n :: s[i] == NoCorrupt
  {
    if n == 0 then [] else Blank(n - 1) + [NoCorrupt]
  }

  const EmptyAgg := Agg(0, 0, 0, 0, NoCounts, Speeds(0, 0.0, Range(0.0, 0.0)), [],
                        Blank(REASON_COUNT), [], "", "")

  function ReasonIndex(r: Reason): (i: nat)
    ensures i < REASON_COUNT
  {
    match r
    case Ok => 0
    case TooShort => 1
    case MissingOpenBracket => 2
    case BadTimestamp => 3
    case GarbagePayload => 4
    case MissingCloseBracket => 5
    case MissingBydaTag => 6
    case BadModuleName => 7
    case UnknownModule => 8
  }

  // ---------------------------------------------------------------- excerpts

  const HEX := "0123456789ABCDEF"

  /** Printable ASCII stays, anything else becomes \xNN. */
  function EscapeChar(c: char): string {
    if ' ' <= c < 0x7F as char then [c]
    else "\\x" + [HEX[c as int / 16 % 16], HEX[c as int % 16]]
  }

  function EscapeFrom(line: string, i: nat, out: string): string
    requires i <= |line|
    decreases |line| - i
  {
    if i < |line| && |out| < MAX_EXCERPT then EscapeFrom(line, i + 1, out + EscapeChar(line[i])) else out
  }

  function Excerpt(line: string): string {
    EscapeFrom(line, 0, "") + if |line| > MAX_EXCERPT then "..." else ""
  }

  predicate Printable(s: string) {
    forall i | 0 <= i < |s| :: ' ' <= s[i] < 0x7F as char
  }

  lemma {:induction false} EscapeIsPrintable(line: string, i: nat, out: string)
    requires i <= |line| && Printable(out) && |out| < MAX_EXCERPT + 4
    ensures Printable(EscapeFrom(line, i, out)) && |EscapeFrom(line, i, out)| < MAX_EXCERPT + 4
    decreases |line| - i
  {
    if i < |line| && |out| < MAX_EXCERPT {
      assert Printable(EscapeChar(line[i]));
      EscapeIsPrintable(line, i + 1, out + EscapeChar(line[i]));
    }
  }

  /** An excerpt cannot break the document it is quoted in, nor grow it without bound. */
  lemma ExcerptIsSafe(line: string)
    ensures Printable(Excerpt(line)) && |Excerpt(line)| <= MAX_EXCERPT + 6
  {
    EscapeIsPrintable(line, 0, "");
  }

  // ---------------------------------------------------------------- association lists

  function Inc(b: Bucket, m: nat): Bucket
    requires m < |b.counts|
  {
    Bucket(b.counts[m := b.counts[m] + 1], b.total + 1)
  }

  predicate HasHour(hs: Hours, key: nat) {
    exists i | 0 <= i < |hs| :: hs[i].key == key
  }

  predicate Sorted(hs: Hours) {
    forall i, j | 0 <= i < j < |hs| :: hs[i].key < hs[j].key
  }

  /** Counts one line of module `m` in the hour `key`. */
  function BumpHour(hs: Hours, key: nat, m: nat): (r: Hours)
    requires m < MODULE_COUNT && ShapedHours(hs)
    ensures ShapedHours(r)
  {
    if hs == [] || key < hs[0].key then [Hour(key, Inc(NoBucket, m))] + hs
    else if hs[0].key == key then [Hour(key, Inc(hs[0].bucket, m))] + hs[1..]
    else [hs[0]] + BumpHour(hs[1..], key, m)
  }

  /** Order of std::string. */
  predicate StringLess(a: string, b: string) {
    if b == "" then false
    else if a == "" then true
    else if a[0] != b[0] then a[0] < b[0]
    else StringLess(a[1..], b[1..])
  }

  predicate HasName(ns: Names, name: string) {
    exists i | 0 <= i < |ns| :: ns[i].text == name
  }

  function BumpName(ns: Names, name: string): Names {
    if ns == [] then [Name(name, 1)]
    else if ns[0].text == name then [Name(name, ns[0].count + 1)] + ns[1..]
    else if StringLess(name, ns[0].text) then [Name(name, 1)] + ns
    else [ns[0]] + BumpName(ns[1..], name)
  }

  // ---------------------------------------------------------------- one line

  function AddSample(s: Speeds, v: real, tracked: bool): Speeds {
    Speeds(s.n + 1, s.sum + v, if tracked then Widen(s.n == 0, s.range, v) else s.range)
  }

  function Widen(first: bool, r: Range, v: real): Range {
    if first then Range(v, v)
    else Range(if v < r.min then v else r.min, if v > r.max then v else r.max)
  }

  function AddReject(a: Agg, p: Parsed, line: string, offset: nat): Agg
    requires a.Shaped()
  {
    var i := ReasonIndex(p.reason);
    var c := a.corrupt[i];
    var c' := if c.count == 0 then Corrupt(1, a.total, offset, Excerpt(line)) else c.(count := c.count + 1);
    var counted := p.reason == UnknownModule && p.token != ""
                   && (|a.rejected| < MAX_REJECTED_MODULES || HasName(a.rejected, p.token));
    a.(corrupt := a.corrupt[i := c'],
       rejected := if counted then BumpName(a.rejected, p.token) else a.rejected)
  }

  /** Whether a line of this hour still gets a bucket. */
  predicate Tracked(hs: Hours, key: nat) {
    |hs| < MAX_BUCKETS || HasHour(hs, key)
  }

  function AddAccepted(a: Agg, p: Parsed, line: string): Agg
    requires a.Shaped() && p.mod < MODULE_COUNT && |line| >= 27
  {
    var tracked := Tracked(a.hours, p.bucket);
    a.(accepted := a.accepted + 1,
       firstTs := if a.firstTs == "" then line[1..27] else a.firstTs,
       lastTs := line[1..27],
       outOfRange := a.outOfRange + if p.spd.outOfRange then 1 else 0,
       modules := a.modules[p.mod := a.modules[p.mod] + 1],
       hours := if tracked then BumpHour(a.hours, p.bucket, p.mod) else a.hours,
       speeds := if p.spd.value.Some? then AddSample(a.speeds, p.spd.value.value, tracked) else a.speeds)
  }

  lemma AcceptedLine(line: string)
    requires ParseLine(line).reason == Ok
    ensures |line| >= MIN_LINE_LENGTH && ParseLine(line).mod < MODULE_COUNT
    ensures IsTimestamp(line[..28])
  {
    hide DateInRange, BucketOf, SpdOf, LookupModule;
  }

  function WithLine(a: Agg, line: string, offset: nat): (r: Agg)
    requires a.Shaped()
    ensures r.Shaped()
  {
    var p := ParseLine(line);
    var a1 := a.(total := a.total + 1);
    if p.reason != Ok then AddReject(a1, p, line, offset)
    else
      AcceptedLine(line);
      AddAccepted(a1, p, line)
  }

  /** What one line changes. */
  lemma AddLineParts(a: Agg, line: string, offset: nat)
    requires a.Shaped()
    ensures var p, b := ParseLine(line), WithLine(a, line, offset);
            && b.total == a.total + 1
            && if p.reason == Ok then
                 && p.mod < MODULE_COUNT
                 && b.accepted == a.accepted + 1 && b.corrupt == a.corrupt && b.rejected == a.rejected
                 && b.modules == a.modules[p.mod := a.modules[p.mod] + 1]
                 && b.hours == (if Tracked(a.hours, p.bucket) then BumpHour(a.hours, p.bucket, p.mod) else a.hours)
               else
                 var i := ReasonIndex(p.reason);
                 var c := a.corrupt[i];
                 && b.accepted == a.accepted && b.modules == a.modules && b.hours == a.hours
                 && b.corrupt == a.corrupt[i := if c.count == 0 then Corrupt(1, a.total + 1, offset, Excerpt(line))
                                                else c.(count := c.count + 1)]
  {
    hide ParseLine, BumpName, BumpHour, Tracked, HasName, Excerpt;
    if ParseLine(line).reason == Ok { AcceptedLine(line); }
  }

  // ---------------------------------------------------------------- all the lines of a stream

  /** How many octets of the stream lie in front of whatever follows these lines. */
  function RawTotal(es: seq<Emission>): nat {
    if es == [] then 0 else RawTotal(es[..|es|-1]) + es[|es|-1].raw
  }

  /** The statistics of a sequence of lines, each at its place in the stream. */
  function AggOf(es: seq<Emission>): (a: Agg)
    ensures a.Shaped()
  {
    if es == [] then EmptyAgg
    else
      var init := es[..|es|-1];
      WithLine(AggOf(init), es[|es|-1].line, RawTotal(init))
  }

  /** What was parsed from the lines that were accepted. */
  function AcceptedOf(es: seq<Emission>): (ps: seq<Parsed>)
    ensures |ps| <= |es|
    ensures forall i | 0 <= i < |ps| :: ps[i].mod < MODULE_COUNT
  {
    if es == [] then []
    else
      var p := ParseLine(es[|es|-1].line);
      if p.reason == Ok then
        AcceptedLine(es[|es|-1].line);
        AcceptedOf(es[..|es|-1]) + [p]
      else AcceptedOf(es[..|es|-1])
  }

  function HoursOf(ps: seq<Parsed>): (ks: seq<nat>)
    ensures |ks| == |ps|
  {
    if ps == [] then [] else HoursOf(ps[..|ps|-1]) + [ps[|ps|-1].bucket]
  }

  /** The names refused by the whitelist, in order of appearance. */
  function UnknownOf(es: seq<Emission>): seq<string> {
    if es == [] then []
    else
      var p := ParseLine(es[|es|-1].line);
      if p.reason == UnknownModule then UnknownOf(es[..|es|-1]) + [p.token]
      else UnknownOf(es[..|es|-1])
  }

  // ---------------------------------------------------------------- counting under a cap

  function Count<K(==)>(ks: seq<K>, k: K): nat {
    if ks == [] then 0 else Count(ks[..|ks|-1], k) + if ks[|ks|-1] == k then 1 else 0
  }

  /** The distinct keys in order of first appearance. */
  function Distinct<K(==)>(ks: seq<K>): seq<K> {
    if ks == [] then []
    else
      var d := Distinct(ks[..|ks|-1]);
      if ks[|ks|-1] in d then d else d + [ks[|ks|-1]]
  }

  function Admitted<K(==)>(ks: seq<K>, cap: nat): seq<K> {
    var d := Distinct(ks);
    if |d| <= cap then d else d[..cap]
  }

  lemma {:induction false} DistinctIffCounted<K>(ks: seq<K>, k: K)
    ensures k in Distinct(ks) <==> Count(ks, k) > 0
  {
    if ks != [] {
      DistinctIffCounted(ks[..|ks|-1], k);
    }
  }

  /** One more key is admitted unless it already is or the cap is reached. */
  lemma AdmittedNext<K>(ks: seq<K>, k: K, cap: nat)
    ensures var a := Admitted(ks, cap);
            Admitted(ks + [k], cap) == if k in a || |a| == cap then a else a + [k]
    ensures k !in Admitted(ks, cap) && |Admitted(ks, cap)| < cap ==> Count(ks, k) == 0
    ensures |Admitted(ks, cap)| <= cap
  {
    assert (ks + [k])[..|ks + [k]|-1] == ks;
    DistinctIffCounted(ks, k);
    var d := Distinct(ks);
    if |d| == cap {
      assert (d + [k])[..cap] == d;
    } else if |d| > cap {
      assert (d + [k])[..cap] == d[..cap];
    }
  }

  lemma CountNext<K>(ks: seq<K>, x: K, k: K)
    ensures Count(ks + [x], k) == Count(ks, k) + if x == k then 1 else 0
  {
    assert (ks + [x])[..|ks + [x]|-1] == ks;
  }

  // ---------------------------------------------------------------- hours are exact

  function HourAt(hs: Hours, key: nat): Option<Bucket> {
    if hs == [] then None
    else if hs[0].key == key then Some(hs[0].bucket)
    else HourAt(hs[1..], key)
  }

  lemma {:induction false} HourAtIff(hs: Hours, key: nat)
    ensures HourAt(hs, key).Some? <==> HasHour(hs, key)
  {
    if hs != [] {
      HourAtIff(hs[1..], key);
      if HasHour(hs[1..], key) {
        var i :| 0 <= i < |hs[1..]| && hs[1..][i].key == key;
        assert hs[i+1].key == key;
      }
      if HasHour(hs, key) && hs[0].key != key {
        var i :| 0 <= i < |hs| && hs[i].key == key;
        assert hs[1..][i-1].key == key;
      }
    }
  }

  function CountsAt(hs: Hours, key: nat): (b: Bucket)
    requires ShapedHours(hs)
    ensures |b.counts| == MODULE_COUNT
  {
    if hs == [] then NoBucket
    else if hs[0].key == key then hs[0].bucket
    else CountsAt(hs[1..], key)
  }

  lemma {:induction false} HourAtSmaller(hs: Hours, key: nat)
    requires Sorted(hs) && ShapedHours(hs) && (hs != [] ==> key < hs[0].key)
    ensures HourAt(hs, key) == None && CountsAt(hs, key) == NoBucket
  {
    if hs != [] {
      HourAtSmaller(hs[1..], key);
    }
  }

  lemma {:induction false} BumpHourEffect(hs: Hours, key: nat, m: nat)
    requires Sorted(hs) && m < MODULE_COUNT && ShapedHours(hs)
    ensures var r := BumpHour(hs, key, m);
            && Sorted(r)
            && r != [] && (r[0].key == key || (hs != [] && r[0].key == hs[0].key))
            && |r| == |hs| + (if HourAt(hs, key).Some? then 0 else 1)
            && HourAt(r, key) == Some(Inc(CountsAt(hs, key), m))
            && forall k | k != key :: HourAt(r, k) == HourAt(hs, k)
    ensures CountsAt(hs, key) == HourAt(hs, key).GetOr(NoBucket)
  {
    var r := BumpHour(hs, key, m);
    if hs == [] || key < hs[0].key {
      HourAtSmaller(hs, key);
      assert r[1..] == hs;
    } else if hs[0].key == key {
      assert r[1..] == hs[1..];
    } else {
      BumpHourEffect(hs[1..], key, m);
      assert r[1..] == BumpHour(hs[1..], key, m);
    }
  }

  /** How many of the accepted lines fall in hour `k` and name module `m`. */
  function Tally(ps: seq<Parsed>, k: nat, m: nat): nat {
    if ps == [] then 0
    else
      var p := ps[|ps|-1];
      Tally(ps[..|ps|-1], k, m) + if p.bucket == k && p.mod == m then 1 else 0
  }

  function TallyBucket(ps: seq<Parsed>, k: nat): (b: Bucket)
    ensures |b.counts| == MODULE_COUNT
  {
    Bucket([Tally(ps, k, 0), Tally(ps, k, 1), Tally(ps, k, 2), Tally(ps, k, 3), Tally(ps, k, 4)],
           Count(HoursOf(ps), k))
  }

  lemma TallyNext(ps: seq<Parsed>, p: Parsed, k: nat)
    requires p.mod < MODULE_COUNT
    ensures TallyBucket(ps + [p], k)
            == if p.bucket == k then Inc(TallyBucket(ps, k), p.mod) else TallyBucket(ps, k)
  {
    assert (ps + [p])[..|ps + [p]|-1] == ps;
    CountNext(HoursOf(ps), p.bucket, k);
  }

  lemma {:induction false} TallyNone(ps: seq<Parsed>, k: nat)
    requires Count(HoursOf(ps), k) == 0
    ensures TallyBucket(ps, k) == NoBucket
  {
    if ps != [] {
      var init := ps[..|ps|-1];
      assert HoursOf(ps)[..|ps|-1] == HoursOf(init);
      TallyNone(init, k);
    }
  }

  /** What the hour table must be: the first MAX_BUCKETS distinct hours, fully counted. */
  ghost predicate HoursAre(hs: Hours, ps: seq<Parsed>) {
    var ad := Admitted(HoursOf(ps), MAX_BUCKETS);
    && Sorted(hs) && |hs| == |ad|
    && forall k: nat :: HourAt(hs, k) == if k in ad then Some(TallyBucket(ps, k)) else None
  }

  lemma HoursStep(hs: Hours, ps: seq<Parsed>, p: Parsed)
    requires ShapedHours(hs) && HoursAre(hs, ps) && p.mod < MODULE_COUNT
    ensures HoursAre(if Tracked(hs, p.bucket) then BumpHour(hs, p.bucket, p.mod) else hs, ps + [p])
  {
    hide TallyBucket, Inc, BumpHour, Admitted, HourAt, HoursOf, ShapedHours, Sorted;
    var ks := HoursOf(ps);
    HoursOfNext(ps, p);
    AdmittedNext(ks, p.bucket, MAX_BUCKETS);
    HourAtIff(hs, p.bucket);
    BumpHourEffect(hs, p.bucket, p.mod);
    if HourAt(hs, p.bucket).None? && |hs| < MAX_BUCKETS {
      TallyNone(ps, p.bucket);
    }
    TallyAll(ps, p);
  }

  lemma HoursOfNext(ps: seq<Parsed>, p: Parsed)
    ensures HoursOf(ps + [p]) == HoursOf(ps) + [p.bucket]
  {
    assert (ps + [p])[..|ps + [p]|-1] == ps;
  }

  lemma TallyAll(ps: seq<Parsed>, p: Parsed)
    requires p.mod < MODULE_COUNT
    ensures forall k: nat :: TallyBucket(ps + [p], k)
                             == if p.bucket == k then Inc(TallyBucket(ps, k), p.mod) else TallyBucket(ps, k)
  {
    hide TallyBucket, Inc;
    forall k: nat ensures TallyBucket(ps + [p], k)
                          == if p.bucket == k then Inc(TallyBucket(ps, k), p.mod) else TallyBucket(ps, k)
    {
      TallyNext(ps, p, k);
    }
  }

  /**
    Whatever the stream: the hour table holds the first MAX_BUCKETS distinct hours in key
    order, and each holds exactly the accepted lines of its hour, also those after the cap
    was reached.
    */
  lemma {:induction false} HoursExact(es: seq<Emission>)
    ensures HoursAre(AggOf(es).hours, AcceptedOf(es))
  {
    if es == [] {
      assert forall k: nat :: HourAt([], k) == None;
    } else {
      hide HoursAre, ParseLine, WithLine, BumpHour, Tracked;
      var init := es[..|es|-1];
      HoursExact(init);
      var p := ParseLine(es[|es|-1].line);
      AddLineParts(AggOf(init), es[|es|-1].line, RawTotal(init));
      if p.reason == Ok {
        HoursStep(AggOf(init).hours, AcceptedOf(init), p);
      }
    }
  }

  // ---------------------------------------------------------------- refused names are exact

  lemma {:induction false} StringLessTotal(a: string, b: string)
    ensures a == b || StringLess(a, b) || StringLess(b, a)
    ensures !(StringLess(a, b) && StringLess(b, a)) && !StringLess(a, a)
  {
    if a != "" && b != "" {
      StringLessTotal(a[1..], b[1..]);
      assert a == [a[0]] + a[1..] && b == [b[0]] + b[1..];
    }
    if a != "" { StringLessIrreflexive(a); }
  }

  lemma {:induction false} StringLessIrreflexive(a: string)
    ensures !StringLess(a, a)
  {
    if a != "" { StringLessIrreflexive(a[1..]); }
  }

  lemma {:induction false} StringLessTransitive(a: string, b: string, c: string)
    requires StringLess(a, b) && StringLess(b, c)
    ensures StringLess(a, c)
  {
    if a != "" && a[0] == b[0] == c[0] {
      StringLessTransitive(a[1..], b[1..], c[1..]);
    }
  }

  predicate SortedNames(ns: Names) {
    forall i, j | 0 <= i < j < |ns| :: StringLess(ns[i].text, ns[j].text)
  }

  function NameAt(ns: Names, name: string): Option<nat> {
    if ns == [] then None
    else if ns[0].text == name then Some(ns[0].count)
    else NameAt(ns[1..], name)
  }

  lemma {:induction false} NameAtIff(ns: Names, name: string)
    ensures NameAt(ns, name).Some? <==> HasName(ns, name)
  {
    if ns != [] {
      NameAtIff(ns[1..], name);
      if HasName(ns[1..], name) {
        var i :| 0 <= i < |ns[1..]| && ns[1..][i].text == name;
        assert ns[i+1].text == name;
      }
      if HasName(ns, name) && ns[0].text != name {
        var i :| 0 <= i < |ns| && ns[i].text == name;
        assert ns[1..][i-1].text == name;
      }
    }
  }

  lemma {:induction false} NameAtSmaller(ns: Names, name: string)
    requires SortedNames(ns) && (ns != [] ==> StringLess(name, ns[0].text))
    ensures NameAt(ns, name) == None
  {
    if ns != [] {
      StringLessTotal(name, ns[0].text);
      if |ns| > 1 { StringLessTransitive(name, ns[0].text, ns[1].text); }
      NameAtSmaller(ns[1..], name);
    }
  }

  lemma {:induction false} BumpNameEffect(ns: Names, name: string)
    requires SortedNames(ns)
    ensures var r := BumpName(ns, name);
            && r != [] && (r[0].text == name || (ns != [] && r[0].text == ns[0].text))
            && |r| == |ns| + (if NameAt(ns, name).Some? then 0 else 1)
            && NameAt(r, name) == Some(NameAt(ns, name).GetOr(0) + 1)
            && forall n | n != name :: NameAt(r, n) == NameAt(ns, n)
  {
    var r := BumpName(ns, name);
    if ns == [] || (ns[0].text != name && StringLess(name, ns[0].text)) {
      NameAtSmaller(ns, name);
      assert r[1..] == ns;
    } else if ns[0].text == name {
      assert r[1..] == ns[1..];
    } else {
      BumpNameEffect(ns[1..], name);
      assert r[1..] == BumpName(ns[1..], name);
    }
  }

  lemma {:induction false} BumpNameSorted(ns: Names, name: string)
    requires SortedNames(ns)
    ensures SortedNames(BumpName(ns, name))
    ensures forall i | 0 <= i < |BumpName(ns, name)| ::
              BumpName(ns, name)[i].text == name || HasName(ns, BumpName(ns, name)[i].text)
  {
    var r := BumpName(ns, name);
    if ns == [] {
    } else if ns[0].text == name {
      assert forall i | 0 <= i < |r| :: r[i].text == ns[i].text;
    } else if StringLess(name, ns[0].text) {
      forall j | 0 < j < |r| ensures StringLess(name, r[j].text) {
        if j > 1 { StringLessTransitive(name, ns[0].text, ns[j-1].text); }
      }
      assert forall i | 0 < i < |r| :: r[i].text == ns[i-1].text;
    } else {
      BumpNameSorted(ns[1..], name);
      var t := BumpName(ns[1..], name);
      StringLessTotal(ns[0].text, name);
      forall i | 0 <= i < |t|
        ensures StringLess(ns[0].text, t[i].text) && (t[i].text == name || HasName(ns, t[i].text))
      {
        if t[i].text != name {
          var j :| 0 <= j < |ns[1..]| && ns[1..][j].text == t[i].text;
          assert ns[j+1].text == t[i].text;
        }
      }
      assert forall i | 0 < i < |r| :: r[i] == t[i-1];
      assert r[0].text == ns[0].text;
    }
  }

  ghost predicate NamesAre(ns: Names, us: seq<string>) {
    var ad := Admitted(us, MAX_REJECTED_MODULES);
    && SortedNames(ns) && |ns| == |ad|
    && forall n: string :: NameAt(ns, n) == if n in ad then Some(Count(us, n)) else None
  }

  lemma NamesStep(ns: Names, us: seq<string>, u: string)
    requires NamesAre(ns, us)
    ensures NamesAre(if |ns| < MAX_REJECTED_MODULES || HasName(ns, u) then BumpName(ns, u) else ns, us + [u])
  {
    hide BumpName, Admitted, NameAt, SortedNames, Count;
    AdmittedNext(us, u, MAX_REJECTED_MODULES);
    NameAtIff(ns, u);
    BumpNameEffect(ns, u);
    BumpNameSorted(ns, u);
    forall n: string ensures Count(us + [u], n) == Count(us, n) + if u == n then 1 else 0 {
      CountNext(us, u, n);
    }
  }

  lemma UnknownToken(line: string)
    requires ParseLine(line).reason == UnknownModule
    ensures ParseLine(line).token != "" && Ident(ParseLine(line).token)
  {
    var g := ShapeOfParse(line);
  }

  /**
    Whatever the stream: the rejected names listed are the first MAX_REJECTED_MODULES distinct
    ones, each with the number of times it occurs in the whole stream.
    */
  lemma {:induction false} NamesExact(es: seq<Emission>)
    ensures NamesAre(AggOf(es).rejected, UnknownOf(es))
  {
    if es == [] {
      assert forall n: string :: NameAt([], n) == None;
    } else {
      hide NamesAre, ParseLine, BumpName, BumpHour, Tracked, HasName, Excerpt;
      var init := es[..|es|-1];
      NamesExact(init);
      var line := es[|es|-1].line;
      var p := ParseLine(line);
      if p.reason == UnknownModule {
        UnknownToken(line);
        NamesStep(AggOf(init).rejected, UnknownOf(init), p.token);
      } else if p.reason == Ok {
        AcceptedLine(line);
      }
    }
  }

  // ---------------------------------------------------------------- refused lines are exact

  function CountReason(es: seq<Emission>, r: Reason): nat {
    if es == [] then 0
    else CountReason(es[..|es|-1], r) + if ParseLine(es[|es|-1].line).reason == r then 1 else 0
  }

  /** `c` counts the lines refused for `r` and describes the first of them. */
  ghost predicate CorruptIs(c: Corrupt, es: seq<Emission>, r: Reason) {
    && c.count == CountReason(es, r)
    && (c.count > 0 ==>
          && 1 <= c.firstLine <= |es|
          && ParseLine(es[c.firstLine-1].line).reason == r
          && CountReason(es[..c.firstLine-1], r) == 0
          && c.firstOffset == RawTotal(es[..c.firstLine-1])
          && c.excerpt == Excerpt(es[c.firstLine-1].line))
  }

  lemma {:induction false} ReasonsExact(es: seq<Emission>, r: Reason)
    requires r != Ok
    ensures CorruptIs(AggOf(es).corrupt[ReasonIndex(r)], es, r)
    ensures AggOf(es).total == |es|
    ensures AggOf(es).accepted == CountReason(es, Ok) == |AcceptedOf(es)|
  {
    hide WithLine, BumpHour, Tracked, Excerpt, ParseLine, RawTotal, ReasonIndex;
    if es == [] {
      NoReasonYet(ReasonIndex(r));
    } else {
      var init := es[..|es|-1];
      ReasonsExact(init, r);
      AddLineParts(AggOf(init), es[|es|-1].line, RawTotal(init));
      ReasonIndexInjective(r, ParseLine(es[|es|-1].line).reason);
      CorruptStep(AggOf(init).corrupt[ReasonIndex(r)], es, r);
    }
  }

  lemma NoReasonYet(i: nat)
    requires i < REASON_COUNT
    ensures EmptyAgg.corrupt[i] == NoCorrupt
  {
  }

  lemma CorruptStep(c: Corrupt, es: seq<Emission>, r: Reason)
    requires es != [] && CorruptIs(c, es[..|es|-1], r)
    ensures var e := es[|es|-1];
            CorruptIs(if ParseLine(e.line).reason != r then c
                      else if c.count == 0 then Corrupt(1, |es|, RawTotal(es[..|es|-1]), Excerpt(e.line))
                      else c.(count := c.count + 1), es, r)
  {
    hide ParseLine, Excerpt, RawTotal;
    var init := es[..|es|-1];
    if c.count > 0 {
      assert init[c.firstLine-1] == es[c.firstLine-1];
      assert init[..c.firstLine-1] == es[..c.firstLine-1];
    }
  }

  lemma ReasonIndexInjective(r: Reason, q: Reason)
    ensures ReasonIndex(r) == ReasonIndex(q) <==> r == q
  {
  }

  // ---------------------------------------------------------------- conservation

  function Sum(s: seq<nat>): nat {
    if s == [] then 0 else Sum(s[..|s|-1]) + s[|s|-1]
  }

  lemma {:induction false} SumUpdate(s: seq<nat>, i: nat)
    requires i < |s|
    ensures Sum(s[i := s[i] + 1]) == Sum(s) + 1
  {
    var t := s[i := s[i] + 1];
    if i == |s| - 1 {
      assert t[..|t|-1] == s[..|s|-1];
    } else {
      SumUpdate(s[..|s|-1], i);
      assert t[..|t|-1] == s[..|s|-1][i := s[i] + 1];
    }
  }

  function SumCorrupt(cs: seq<Corrupt>): nat {
    if cs == [] then 0 else SumCorrupt(cs[..|cs|-1]) + cs[|cs|-1].count
  }

  lemma {:induction false} SumCorruptUpdate(cs: seq<Corrupt>, i: nat, c: Corrupt)
    requires i < |cs| && c.count == cs[i].count + 1
    ensures SumCorrupt(cs[i := c]) == SumCorrupt(cs) + 1
  {
    var t := cs[i := c];
    if i == |cs| - 1 {
      assert t[..|t|-1] == cs[..|cs|-1];
    } else {
      SumCorruptUpdate(cs[..|cs|-1], i, c);
      assert t[..|t|-1] == cs[..|cs|-1][i := c];
    }
  }

  function SumHours(hs: Hours): nat {
    if hs == [] then 0 else hs[0].bucket.total + SumHours(hs[1..])
  }

  ghost predicate Balanced(hs: Hours) {
    forall i | 0 <= i < |hs| :: Sum(hs[i].bucket.counts) == hs[i].bucket.total
  }

  lemma IncBalanced(b: Bucket, m: nat)
    requires m < |b.counts| && Sum(b.counts) == b.total
    ensures Sum(Inc(b, m).counts) == Inc(b, m).total
  {
    SumUpdate(b.counts, m);
  }

  lemma {:induction false} SumZeros(n: nat)
    ensures Sum(Zeros(n)) == 0
  {
    if n > 0 {
      SumZeros(n - 1);
      assert Zeros(n)[..n-1] == Zeros(n - 1);
    }
  }

  lemma {:induction false} BumpBalanced(hs: Hours, key: nat, m: nat)
    requires m < MODULE_COUNT && ShapedHours(hs) && Balanced(hs)
    ensures Balanced(BumpHour(hs, key, m))
    ensures SumHours(BumpHour(hs, key, m)) == SumHours(hs) + 1
  {
    hide Sum, Inc;
    var r := BumpHour(hs, key, m);
    SumZeros(MODULE_COUNT);
    if hs == [] || key < hs[0].key {
      IncBalanced(NoBucket, m);
      assert Inc(NoBucket, m).total == 1 by { IncTotal(NoBucket, m); }
      assert r[1..] == hs;
    } else if hs[0].key == key {
      IncBalanced(hs[0].bucket, m);
      IncTotal(hs[0].bucket, m);
      assert r[1..] == hs[1..];
    } else {
      BumpBalanced(hs[1..], key, m);
      assert r[1..] == BumpHour(hs[1..], key, m);
    }
  }

  lemma IncTotal(b: Bucket, m: nat)
    requires m < |b.counts|
    ensures Inc(b, m).total == b.total + 1
  {
  }

  /** Accepted lines that came when the table was full and had no bucket of their hour. */
  function PastCap(es: seq<Emission>): nat {
    if es == [] then 0
    else
      var init := es[..|es|-1];
      var p := ParseLine(es[|es|-1].line);
      PastCap(init) + if p.reason == Ok && !Tracked(AggOf(init).hours, p.bucket) then 1 else 0
  }

  /**
    No line is lost or counted twice: every line is accepted or refused for one reason, every
    accepted line is in one module total, and in one bucket unless it came past the cap.
    */
  lemma {:induction false} Conservation(es: seq<Emission>)
    ensures var a := AggOf(es);
            && a.total == |es|
            && a.accepted + SumCorrupt(a.corrupt) == a.total
            && Sum(a.modules) == a.accepted
            && Balanced(a.hours)
            && SumHours(a.hours) + PastCap(es) == a.accepted
  {
    hide ParseLine, WithLine, BumpHour, Tracked, Excerpt, Sum, SumCorrupt, SumHours, Balanced, RawTotal, ReasonIndex;
    if es == [] {
      NothingYet();
    } else {
      var init := es[..|es|-1];
      Conservation(init);
      var a := AggOf(init);
      var p := ParseLine(es[|es|-1].line);
      AddLineParts(a, es[|es|-1].line, RawTotal(init));
      if p.reason == Ok {
        SumUpdate(a.modules, p.mod);
        BumpBalanced(a.hours, p.bucket, p.mod);
      } else {
        var i := ReasonIndex(p.reason);
        SumCorruptUpdate(a.corrupt, i, AggOf(es).corrupt[i]);
      }
    }
  }

  lemma NothingYet()
    ensures var a := EmptyAgg;
            SumCorrupt(a.corrupt) == 0 && Sum(a.modules) == 0 && Balanced(a.hours) && SumHours(a.hours) == 0
  {
    hide Sum, SumCorrupt;
    SumZeros(MODULE_COUNT);
    ZeroCorrupt(Blank(REASON_COUNT));
  }

  lemma {:induction false} ZeroCorrupt(cs: seq<Corrupt>)
    requires forall i | 0 <= i < |cs| :: cs[i].count == 0
    ensures SumCorrupt(cs) == 0
  {
    if cs != [] { ZeroCorrupt(cs[..|cs|-1]); }
  }

  // ---------------------------------------------------------------- speeds

  function SamplesOf(es: seq<Emission>): seq<real> {
    if es == [] then []
    else
      var p := ParseLine(es[|es|-1].line);
      SamplesOf(es[..|es|-1])
      + if p.reason == Ok && p.spd.value.Some? then [p.spd.value.value] else []
  }

  function SumReal(vs: seq<real>): real {
    if vs == [] then 0.0 else SumReal(vs[..|vs|-1]) + vs[|vs|-1]
  }

  ghost predicate Extremes(r: Range, vs: seq<real>) {
    if vs == [] then r == Range(0.0, 0.0)
    else r.min in vs && r.max in vs && forall i | 0 <= i < |vs| :: r.min <= vs[i] <= r.max
  }

  lemma {:induction false} SpeedTotals(es: seq<Emission>)
    ensures AggOf(es).speeds.n == |SamplesOf(es)|
    ensures AggOf(es).speeds.sum == SumReal(SamplesOf(es))
  {
    hide WithLine, ParseLine, Tracked, RawTotal;
    if es != [] {
      SpeedTotals(es[..|es|-1]);
      AddLineSpeeds(AggOf(es[..|es|-1]), es[|es|-1].line, RawTotal(es[..|es|-1]));
      SumRealNext(SamplesOf(es[..|es|-1]));
    }
  }

  lemma SumRealNext(vs: seq<real>)
    ensures forall v: real :: SumReal(vs + [v]) == SumReal(vs) + v
    ensures SumReal(vs + []) == SumReal(vs)
  {
    forall v: real ensures SumReal(vs + [v]) == SumReal(vs) + v {
      assert (vs + [v])[..|vs + [v]|-1] == vs;
    }
    assert vs + [] == vs;
  }

  lemma AddLineSpeeds(a: Agg, line: string, offset: nat)
    requires a.Shaped()
    ensures var p, b := ParseLine(line), WithLine(a, line, offset);
            b.speeds == if p.reason == Ok && p.spd.value.Some?
                        then AddSample(a.speeds, p.spd.value.value, Tracked(a.hours, p.bucket))
                        else a.speeds
  {
    hide ParseLine, BumpName, BumpHour, Tracked, HasName, Excerpt;
    if ParseLine(line).reason == Ok { AcceptedLine(line); }
  }

  /** While the distinct hours fit the table, every accepted line finds or gets a bucket. */
  lemma AlwaysTracked(es: seq<Emission>)
    requires es != [] && ParseLine(es[|es|-1].line).reason == Ok
    requires |Distinct(HoursOf(AcceptedOf(es)))| <= MAX_BUCKETS
    ensures Tracked(AggOf(es[..|es|-1]).hours, ParseLine(es[|es|-1].line).bucket)
  {
    var init := es[..|es|-1];
    var key := ParseLine(es[|es|-1].line).bucket;
    HoursExact(init);
    HourAtIff(AggOf(init).hours, key);
    var ks := HoursOf(AcceptedOf(init));
    assert AcceptedOf(es)[..|AcceptedOf(es)|-1] == AcceptedOf(init);
    assert (ks + [key])[..|ks|] == ks;
  }

  lemma DistinctGrows<K>(ks: seq<K>)
    requires ks != []
    ensures |Distinct(ks[..|ks|-1])| <= |Distinct(ks)|
  {
  }

  /**
    In a stream with at most MAX_BUCKETS distinct hours the extremes are the least and the
    greatest of all samples.
    */
  lemma {:induction false} SpeedExtremes(es: seq<Emission>)
    requires |Distinct(HoursOf(AcceptedOf(es)))| <= MAX_BUCKETS
    ensures Extremes(AggOf(es).speeds.range, SamplesOf(es))
  {
    hide WithLine, ParseLine, Tracked, RawTotal, Distinct, HoursOf, AcceptedOf, Extremes, Widen;
    if es == [] {
      NoExtremes();
    } else {
      var init := es[..|es|-1];
      var p := ParseLine(es[|es|-1].line);
      FewerHours(es);
      SpeedExtremes(init);
      SpeedTotals(init);
      AddLineSpeeds(AggOf(init), es[|es|-1].line, RawTotal(init));
      if p.reason == Ok && p.spd.value.Some? {
        AlwaysTracked(es);
        ExtremesStep(AggOf(init).speeds.range, SamplesOf(init), p.spd.value.value);
      } else {
        assert SamplesOf(es) == SamplesOf(init);
      }
    }
  }

  /**
    Past the cap the extremes are not moved any more: after a line of a new hour they are
    still right if and only if its sample lies within them.
    */
  lemma PastCapExtremes(es: seq<Emission>, e: Emission)
    requires Extremes(AggOf(es).speeds.range, SamplesOf(es))
    requires var p := ParseLine(e.line);
             p.reason == Ok && p.spd.value.Some? && !Tracked(AggOf(es).hours, p.bucket)
    ensures var r, v := AggOf(es).speeds.range, ParseLine(e.line).spd.value.value;
            Extremes(AggOf(es + [e]).speeds.range, SamplesOf(es + [e])) <==> r.min <= v <= r.max
  {
    hide WithLine, ParseLine, Tracked, RawTotal;
    var all := es + [e];
    assert all[..|all|-1] == es && all[|all|-1] == e;
    AddLineSpeeds(AggOf(es), e.line, RawTotal(es));
    SpeedTotals(es);
    var vs, v := SamplesOf(es), ParseLine(e.line).spd.value.value;
    assert SamplesOf(all) == vs + [v];
    assert (vs + [v])[|vs|] == v;
    assert forall i | 0 <= i < |vs| :: (vs + [v])[i] == vs[i];
  }

  lemma NoExtremes()
    ensures Extremes(EmptyAgg.speeds.range, [])
  {
  }

  lemma ExtremesStep(r: Range, vs: seq<real>, v: real)
    requires Extremes(r, vs)
    ensures Extremes(Widen(vs == [], r, v), vs + [v])
  {
    var t := Widen(vs == [], r, v);
    assert (vs + [v])[|vs|] == v;
    forall i | 0 <= i < |vs| + 1 ensures t.min <= (vs + [v])[i] <= t.max {
      if i < |vs| { assert (vs + [v])[i] == vs[i]; }
    }
  }

  lemma FewerHours(es: seq<Emission>)
    requires es != []
    ensures |Distinct(HoursOf(AcceptedOf(es[..|es|-1])))| <= |Distinct(HoursOf(AcceptedOf(es)))|
  {
    hide ParseLine;
    var init := es[..|es|-1];
    var ks := HoursOf(AcceptedOf(es));
    if ParseLine(es[|es|-1].line).reason == Ok {
      assert AcceptedOf(es)[..|AcceptedOf(es)|-1] == AcceptedOf(init);
      assert ks[..|ks|-1] == HoursOf(AcceptedOf(init));
      DistinctGrows(ks);
    }
  }

  // ---------------------------------------------------------------- the aggregator itself

  /** How many entries have a smaller key (std::lower_bound on the sorted vector). */
  function LowerBound(hs: Hours, key: nat): (i: nat)
    ensures i <= |hs|
    ensures forall j | 0 <= j < i :: hs[j].key < key
    ensures i < |hs| ==> key <= hs[i].key
  {
    if hs == [] || key <= hs[0].key then 0 else 1 + LowerBound(hs[1..], key)
  }

  /** Counting in place, at the position where the key is or belongs. */
  lemma {:induction false} BumpPresent(hs: Hours, key: nat, m: nat)
    requires Sorted(hs) && ShapedHours(hs) && m < MODULE_COUNT
    requires LowerBound(hs, key) < |hs| && hs[LowerBound(hs, key)].key == key
    ensures var i := LowerBound(hs, key);
            BumpHour(hs, key, m) == hs[i := Hour(key, Inc(hs[i].bucket, m))]
  {
    hide Inc, Sorted;
    var i := LowerBound(hs, key);
    if hs[0].key < key {
      FewerFits(hs);
      assert i == 1 + LowerBound(hs[1..], key) && hs[i] == hs[1..][i-1];
      BumpPresent(hs[1..], key, m);
      UpdateTail(hs, i - 1, Hour(key, Inc(hs[i].bucket, m)));
    } else {
      assert i == 0;
      assert hs[0 := Hour(key, Inc(hs[0].bucket, m))] == [Hour(key, Inc(hs[0].bucket, m))] + hs[1..];
    }
  }

  lemma FewerFits(hs: Hours)
    requires Sorted(hs) && ShapedHours(hs) && hs != []
    ensures Sorted(hs[1..]) && ShapedHours(hs[1..])
  {
  }

  lemma UpdateTail<T>(s: seq<T>, j: nat, e: T)
    requires j + 1 < |s|
    ensures [s[0]] + s[1..][j := e] == s[j+1 := e]
  {
  }

  lemma Insert<T>(s: seq<T>, j: nat, e: T)
    requires j < |s|
    ensures [s[0]] + (s[1..][..j] + [e] + s[1..][j..]) == s[..j+1] + [e] + s[j+1..]
  {
  }

  lemma {:induction false} BumpAbsent(hs: Hours, key: nat, m: nat)
    requires Sorted(hs) && ShapedHours(hs) && m < MODULE_COUNT
    requires var i := LowerBound(hs, key); i < |hs| ==> hs[i].key != key
    ensures var i := LowerBound(hs, key);
            BumpHour(hs, key, m) == hs[..i] + [Hour(key, Inc(NoBucket, m))] + hs[i..]
  {
    hide Inc;
    if hs != [] && hs[0].key < key {
      BumpAbsent(hs[1..], key, m);
      Insert(hs, LowerBound(hs[1..], key), Hour(key, Inc(NoBucket, m)));
    } else {
      assert hs[..0] == [] && hs[0..] == hs;
    }
  }

  lemma InsertHour(hs: Hours, key: nat, r: Hours)
    requires Sorted(hs) && ShapedHours(hs) && !HasHour(hs, key)
    requires var i := LowerBound(hs, key);
             r == hs[..i] + [Hour(key, NoBucket)] + hs[i..]
    ensures Sorted(r) && ShapedHours(r)
  {
    hide HasHour, LowerBound, Inc, BumpHour;
    var i := LowerBound(hs, key);
    HasHourAt(hs, key);
    assert forall j | 0 <= j < i :: r[j] == hs[j];
    assert r[i] == Hour(key, NoBucket);
    assert forall j | i < j < |r| :: r[j] == hs[j-1];
  }

  lemma LowerBoundIs(hs: Hours, key: nat, i: nat)
    requires Sorted(hs) && i < |hs| && hs[i].key == key
    ensures LowerBound(hs, key) == i
  {
  }

  lemma HasHourAt(hs: Hours, key: nat)
    requires Sorted(hs)
    ensures var i := LowerBound(hs, key);
            HasHour(hs, key) <==> i < |hs| && hs[i].key == key
  {
  }

  /** The running speed figures, with the compensation term of the sum. */
  datatype Running = Running(n: nat, total: Compensated, range: Range) {
    function Figures(): Speeds {
      Speeds(n, total.sum + total.comp, range)
    }
  }

  datatype Compensated = Compensated(sum: real, comp: real)

  /** The bucket used last. */
  datatype Cache = NoCache | Cached(key: nat, index: nat)

  lemma CountsShape(hs: Hours, i: nat)
    requires ShapedHours(hs) && i < |hs|
    ensures |hs[i].bucket.counts| == MODULE_COUNT
  {
  }

  lemma UpdateHour(hs: Hours, i: nat, b: Bucket)
    requires Sorted(hs) && ShapedHours(hs) && i < |hs| && |b.counts| == MODULE_COUNT
    ensures var r := hs[i := Hour(hs[i].key, b)]; Sorted(r) && ShapedHours(r)
    ensures forall j | 0 <= j < |hs| :: hs[i := Hour(hs[i].key, b)][j].key == hs[j].key
  {
  }

  class Aggregator {
    var total: nat
    var accepted: nat
    var oversize: nat
    var outOfRange: nat
    var modules: seq<nat>
    var spd: Running
    var buckets: Hours
    var last: Cache
    var corrupt: seq<Corrupt>
    var rejected: Names
    var firstTs: string
    var lastTs: string

    ghost predicate Valid()
      reads this
    {
      && Model().Shaped() && Sorted(buckets)
      && (last.Cached? ==> last.index < |buckets| && buckets[last.index].key == last.key)
    }

    function Model(): Agg
      reads this
    {
      Agg(total, accepted, oversize, outOfRange, modules, spd.Figures(), buckets, corrupt, rejected,
          firstTs, lastTs)
    }

    constructor ()
      ensures Valid() && Model() == EmptyAgg
    {
      total, accepted, oversize, outOfRange, modules := 0, 0, 0, 0, NoCounts;
      spd := Running(0, Compensated(0.0, 0.0), Range(0.0, 0.0));
      buckets, last := [], NoCache;
      corrupt, rejected, firstTs, lastTs := Blank(REASON_COUNT), [], "", "";
    }

    method Reset()
      modifies this
      ensures Valid() && Model() == EmptyAgg
    {
      total, accepted, oversize, outOfRange, modules := 0, 0, 0, 0, NoCounts;
      spd := Running(0, Compensated(0.0, 0.0), Range(0.0, 0.0));
      buckets, last := [], NoCache;
      corrupt, rejected, firstTs, lastTs := Blank(REASON_COUNT), [], "", "";
    }

    method AddOversize(n: nat)
      requires Valid()
      modifies this`oversize
      ensures Valid() && Model() == old(Model()).(oversize := old(Model()).oversize + n)
    {
      oversize := oversize + n;
    }

    /** Finds or inserts the bucket of an hour, asking the cache first. */
    method BucketFor(key: nat) returns (i: nat)
      requires Valid()
      modifies this`buckets, this`last
      ensures Valid() && i == LowerBound(old(buckets), key) < |buckets| && buckets[i].key == key
      ensures buckets == if HasHour(old(buckets), key) then old(buckets)
                         else old(buckets)[..i] + [Hour(key, NoBucket)] + old(buckets)[i..]
    {
      hide LowerBound, HasHour, BumpHour, Inc;
      if last.Cached? && last.key == key {
        LowerBoundIs(buckets, key, last.index);
        HasHourAt(buckets, key);
        return last.index;
      }
      HasHourAt(buckets, key);
      i := LowerBound(buckets, key);
      if i < |buckets| && buckets[i].key == key {
        last := Cached(key, i);
        return;
      }
      InsertHour(buckets, key, buckets[..i] + [Hour(key, NoBucket)] + buckets[i..]);
      buckets := buckets[..i] + [Hour(key, NoBucket)] + buckets[i..];
      last := Cached(key, i);
    }

    method RecordReject(p: Parsed, line: string, offset: nat)
      requires Valid() && p.reason != Ok
      modifies this`corrupt, this`rejected
      ensures Valid() && Model() == AddReject(old(Model()), p, line, offset)
    {
      var idx := ReasonIndex(p.reason);
      var c := corrupt[idx];
      if c.count == 0 {
        var excerpt := EscapeExcerpt(line);
        c := c.(firstLine := total, firstOffset := offset, excerpt := excerpt);
      }
      c := c.(count := c.count + 1);
      corrupt := corrupt[idx := c];
      if p.reason == UnknownModule && p.token != "" {
        if |rejected| < MAX_REJECTED_MODULES {
          rejected := BumpName(rejected, p.token);
        } else if HasName(rejected, p.token) {
          rejected := BumpName(rejected, p.token);
        }
      }
    }

    method CountSample(v: real, tracked: bool)
      modifies this`spd
      ensures spd.Figures() == AddSample(old(spd.Figures()), v, tracked)
    {
      spd := spd.(n := spd.n + 1);
      var total := NeumaierAdd(spd.total, v);
      spd := spd.(total := total);
      if !tracked { return; }
      if spd.n == 1 {
        spd := spd.(range := Range(v, v));
      } else {
        if v < spd.range.min { spd := spd.(range := spd.range.(min := v)); }
        if v > spd.range.max { spd := spd.(range := spd.range.(max := v)); }
      }
    }

    /** One more line of a module in a bucket. */
    method CountIn(i: nat, m: nat)
      requires Valid() && i < |buckets| && m < MODULE_COUNT
      modifies this`buckets
      ensures Valid()
      ensures buckets == old(buckets)[i := Hour(old(buckets)[i].key, Inc(old(buckets)[i].bucket, m))]
    {
      hide Sorted, ShapedHours;
      var b := buckets[i].bucket;
      CountsShape(buckets, i);
      UpdateHour(buckets, i, Bucket(b.counts[m := b.counts[m] + 1], b.total + 1));
      buckets := buckets[i := Hour(buckets[i].key, Bucket(b.counts[m := b.counts[m] + 1], b.total + 1))];
    }

    method CountHour(key: nat, m: nat)
      requires Valid() && m < MODULE_COUNT
      modifies this`buckets, this`last
      ensures Valid() && buckets == BumpHour(old(buckets), key, m)
    {
      hide HasHour, LowerBound, BumpHour, Inc, Valid;
      ShapeIs();
      HasHourAt(buckets, key);
      ghost var at := LowerBound(buckets, key);
      if at < |buckets| && buckets[at].key == key {
        BumpPresent(buckets, key, m);
      } else {
        BumpAbsent(buckets, key, m);
      }
      var i := BucketFor(key);
      CountIn(i, m);
    }

    lemma ShapeIs()
      requires Valid()
      ensures Sorted(buckets) && ShapedHours(buckets)
    {
    }

    /** The figures kept for every accepted line. */
    method CountAccepted(p: Parsed, line: string)
      requires Valid() && p.mod < MODULE_COUNT && |line| >= 27
      modifies this`accepted, this`firstTs, this`lastTs, this`outOfRange, this`modules
      ensures Valid()
      ensures Model() == old(Model()).(
                accepted := old(accepted) + 1,
                firstTs := if old(firstTs) == "" then line[1..27] else old(firstTs),
                lastTs := line[1..27],
                outOfRange := old(outOfRange) + if p.spd.outOfRange then 1 else 0,
                modules := old(modules)[p.mod := old(modules)[p.mod] + 1])
    {
      hide Sorted, ShapedHours;
      accepted := accepted + 1;
      if firstTs == "" {
        firstTs := line[1..27];
      }
      lastTs := line[1..27];
      if p.spd.outOfRange {
        outOfRange := outOfRange + 1;
      }
      modules := modules[p.mod := modules[p.mod] + 1];
    }

    /** The tables an accepted line goes into; past the cap only the global figures. */
    method AddToTables(p: Parsed, line: string)
      requires Valid() && p.mod < MODULE_COUNT && |line| >= 27
      modifies this
      ensures Valid() && Model() == AddAccepted(old(Model()), p, line)
    {
      hide HasHour, LowerBound, BumpHour, AddSample, Inc, Sorted, ShapedHours;
      CountAccepted(p, line);
      if |buckets| >= MAX_BUCKETS {
        HasHourAt(buckets, p.bucket);
        var found := LowerBound(buckets, p.bucket);
        if !(found < |buckets| && buckets[found].key == p.bucket) {
          if p.spd.value.Some? {
            CountSample(p.spd.value.value, false);
          }
          return;
        }
      }
      CountHour(p.bucket, p.mod);
      if p.spd.value.Some? {
        CountSample(p.spd.value.value, true);
      }
    }

    /** One line at its offset in the stream. */
    method AddLine(line: string, offset: nat)
      requires Valid()
      modifies this
      ensures Valid() && Model() == WithLine(old(Model()), line, offset)
    {
      hide ParseLine;
      total := total + 1;
      var p := ParseLogLine(line);
      if p.reason != Ok {
        RecordReject(p, line, offset);
        return;
      }
      AcceptedLine(line);
      AddToTables(p, line);
    }
  }

  function Abs(v: real): real {
    if v < 0.0 then -v else v
  }

  /** Compensated summation: sum and compensation together grow by exactly `v`. */
  method NeumaierAdd(c: Compensated, v: real) returns (r: Compensated)
    ensures r.sum + r.comp == c.sum + c.comp + v
  {
    var t := c.sum + v;
    var comp := c.comp + if Abs(c.sum) >= Abs(v) then (c.sum - t) + v else (v - t) + c.sum;
    r := Compensated(t, comp);
  }

  method EscapeExcerpt(line: string) returns (out: string)
    ensures out == Excerpt(line)
  {
    out := "";
    var i := 0;
    while i < |line| && |out| < MAX_EXCERPT
      invariant i <= |line|
      invariant EscapeFrom(line, 0, "") == EscapeFrom(line, i, out)
    {
      var c := line[i];
      if ' ' <= c < 0x7F as char {
        out := out + [c];
      } else {
        out := out + ("\\x" + [HEX[c as int / 16 % 16], HEX[c as int % 16]]);
      }
      i := i + 1;
    }
    if |line| > MAX_EXCERPT {
      out := out + "...";
    }
  }
}
