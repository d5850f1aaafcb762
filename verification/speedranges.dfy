/**
  The least and the greatest speed when the hour table is full.

  A sample of an hour without a place in the table is counted but not compared, also when it
  is the very first.  What the reported range then is, exactly when it is still the range of
  all samples, and a stream for which it is not.
  */
module SpeedRanges {
  import opened LogLines
  import opened Lines
  import opened Aggregation

  predicate Measured(p: Parsed) {
    p.reason == Ok && p.spd.value.Some?
  }

  /** Whether the hour of the last line is one of the first MAX_BUCKETS of the stream. */
  predicate InTable(es: seq<Emission>)
    requires es != []
  {
    ParseLine(es[|es|-1].line).bucket in Admitted(HoursOf(AcceptedOf(es)), MAX_BUCKETS)
  }

  /** The samples of hours with a place in the table, in order. */
  function Kept(es: seq<Emission>): seq<real> {
    if es == [] then []
    else
      var p := ParseLine(es[|es|-1].line);
      Kept(es[..|es|-1]) + if Measured(p) && InTable(es) then [p.spd.value.value] else []
  }

  /** The samples of hours that came too late for it. */
  function Late(es: seq<Emission>): seq<real> {
    if es == [] then []
    else
      var p := ParseLine(es[|es|-1].line);
      Late(es[..|es|-1]) + if Measured(p) && !InTable(es) then [p.spd.value.value] else []
  }

  /** Whether the first sample of all, if there is one, has its hour in the table. */
  predicate FirstKept(es: seq<Emission>) {
    es == []
    || (if Measured(ParseLine(es[|es|-1].line)) && SamplesOf(es[..|es|-1]) == [] then InTable(es)
        else FirstKept(es[..|es|-1]))
  }

  /** The values the range is made of: with a late first sample its initial zeros stay in. */
  function Compared(es: seq<Emission>): seq<real> {
    (if FirstKept(es) then [] else [0.0]) + Kept(es)
  }

  predicate Between(v: real, vs: seq<real>) {
    exists i, j | 0 <= i < |vs| && 0 <= j < |vs| :: vs[i] <= v <= vs[j]
  }

  ghost predicate Mixed(all: seq<real>, kept: seq<real>, late: seq<real>) {
    && (forall i | 0 <= i < |kept| :: kept[i] in all)
    && (forall i | 0 <= i < |late| :: late[i] in all)
    && forall i | 0 <= i < |all| :: all[i] in kept || all[i] in late
  }

  // ---------------------------------------------------------------- one line

  /** A line gets a bucket exactly when its hour is among the first MAX_BUCKETS. */
  lemma TrackedIff(es: seq<Emission>)
    requires es != [] && ParseLine(es[|es|-1].line).reason == Ok
    ensures Tracked(AggOf(es[..|es|-1]).hours, ParseLine(es[|es|-1].line).bucket) <==> InTable(es)
  {
    hide ParseLine, Admitted, HourAt, WithLine;
    var init, p := es[..|es|-1], ParseLine(es[|es|-1].line);
    HoursExact(init);
    HourAtIff(AggOf(init).hours, p.bucket);
    HoursOfNext(AcceptedOf(init), p);
    AdmittedNext(HoursOf(AcceptedOf(init)), p.bucket, MAX_BUCKETS);
  }

  /** What the last line adds to each list. */
  lemma LastSample(es: seq<Emission>)
    requires es != []
    ensures var init, p := es[..|es|-1], ParseLine(es[|es|-1].line);
            if Measured(p) then
              var v := p.spd.value.value;
              && SamplesOf(es) == SamplesOf(init) + [v]
              && (if InTable(es) then Kept(es) == Kept(init) + [v] && Late(es) == Late(init)
                  else Kept(es) == Kept(init) && Late(es) == Late(init) + [v])
            else SamplesOf(es) == SamplesOf(init) && Kept(es) == Kept(init) && Late(es) == Late(init)
                 && FirstKept(es) == FirstKept(init)
  {
    hide ParseLine, InTable;
    var init := es[..|es|-1];
    assert SamplesOf(init) + [] == SamplesOf(init) && Kept(init) + [] == Kept(init) && Late(init) + [] == Late(init);
  }

  lemma {:induction false} KeptOrLate(es: seq<Emission>)
    ensures Mixed(SamplesOf(es), Kept(es), Late(es))
    ensures SamplesOf(es) == [] ==> FirstKept(es)
    ensures SamplesOf(es) != [] && FirstKept(es) ==> Kept(es) != []
  {
    hide ParseLine, InTable, Mixed;
    if es == [] {
      NothingMixed();
    } else {
      var init, p := es[..|es|-1], ParseLine(es[|es|-1].line);
      KeptOrLate(init);
      LastSample(es);
      if Measured(p) {
        MixedMore(SamplesOf(init), Kept(init), Late(init), p.spd.value.value);
        if SamplesOf(init) == [] { NoneLeft(SamplesOf(init), Kept(init), Late(init)); }
      }
    }
  }

  lemma NothingMixed()
    ensures Mixed([], [], [])
  {
  }

  lemma MixedMore(all: seq<real>, kept: seq<real>, late: seq<real>, v: real)
    requires Mixed(all, kept, late)
    ensures Mixed(all + [v], kept + [v], late) && Mixed(all + [v], kept, late + [v])
  {
    assert (all + [v])[|all|] == v && (kept + [v])[|kept|] == v && (late + [v])[|late|] == v;
    forall i | 0 <= i < |kept| ensures kept[i] in all + [v] {}
    forall i | 0 <= i < |late| ensures late[i] in all + [v] {}
    forall i | 0 <= i < |all| ensures all[i] in kept || all[i] in late {}
  }

  lemma MeasuredSpeed(line: string)
    requires Measured(ParseLine(line))
    ensures ParseLine(line).spd.value.value >= 0.0
  {
    hide IsTimestamp, FieldsEnd, LookupModule, DateInRange, BucketOf, DecimalParts, DecimalValue, FirstAnchor,
         FirstClose;
  }

  lemma {:induction false} SamplesNotNegative(es: seq<Emission>)
    ensures forall i | 0 <= i < |SamplesOf(es)| :: SamplesOf(es)[i] >= 0.0
  {
    hide ParseLine, InTable;
    if es != [] {
      SamplesNotNegative(es[..|es|-1]);
      LastSample(es);
      if Measured(ParseLine(es[|es|-1].line)) { MeasuredSpeed(es[|es|-1].line); }
    }
  }

  // ---------------------------------------------------------------- every stream

  /** Whatever the stream, the reported range is that of the compared values. */
  lemma {:induction false} RangeOfCompared(es: seq<Emission>)
    ensures Extremes(AggOf(es).speeds.range, Compared(es))
  {
    hide ParseLine, InTable, WithLine, Tracked, Extremes, Widen, SamplesOf, Kept, FirstKept, RawTotal;
    if es == [] {
      NothingCompared();
    } else {
      var init, e := es[..|es|-1], es[|es|-1];
      var p := ParseLine(e.line);
      RangeOfCompared(init);
      LastSample(es);
      AddLineSpeeds(AggOf(init), e.line, RawTotal(init));
      if Measured(p) {
        SpeedTotals(init);
        TrackedIff(es);
        KeptOrLate(init);
        FirstSample(es);
        if InTable(es) {
          ComparedMore(es);
          ExtremesStep(AggOf(init).speeds.range, Compared(init), p.spd.value.value);
        } else if SamplesOf(init) == [] {
          ZeroCompared(AggOf(init).speeds.range, Compared(init));
          assert Compared(es) == [0.0];
        }
      }
    }
  }

  lemma NothingCompared()
    ensures Extremes(EmptyAgg.speeds.range, Compared([]))
  {
  }

  lemma FirstSample(es: seq<Emission>)
    requires es != [] && Measured(ParseLine(es[|es|-1].line))
    ensures FirstKept(es) == if SamplesOf(es[..|es|-1]) == [] then InTable(es) else FirstKept(es[..|es|-1])
    ensures SamplesOf(es[..|es|-1]) == [] ==> Kept(es[..|es|-1]) == [] && FirstKept(es[..|es|-1])
  {
    hide ParseLine, InTable;
    KeptOrLate(es[..|es|-1]);
    if Kept(es[..|es|-1]) != [] { assert Kept(es[..|es|-1])[0] in SamplesOf(es[..|es|-1]); }
  }

  lemma ComparedMore(es: seq<Emission>)
    requires es != [] && Measured(ParseLine(es[|es|-1].line)) && InTable(es)
    ensures Compared(es) == Compared(es[..|es|-1]) + [ParseLine(es[|es|-1].line).spd.value.value]
    ensures Compared(es[..|es|-1]) == [] <==> SamplesOf(es[..|es|-1]) == []
  {
    hide ParseLine, InTable;
    LastSample(es);
    FirstSample(es);
    KeptOrLate(es[..|es|-1]);
  }

  /** Before the first comparison the range is zero to zero. */
  lemma ZeroCompared(r: Range, vs: seq<real>)
    requires Extremes(r, vs) && vs == []
    ensures Extremes(r, [0.0])
  {
    assert [0.0][0] == 0.0;
  }

  /**
    The reported extremes are those of all samples if and only if every late sample lies
    between two compared values, and, if the first sample was late, zero is itself a sample.
    */
  lemma ExtremesIff(es: seq<Emission>)
    ensures Extremes(AggOf(es).speeds.range, SamplesOf(es)) <==>
            && (FirstKept(es) || 0.0 in SamplesOf(es))
            && forall i | 0 <= i < |Late(es)| :: Between(Late(es)[i], Compared(es))
  {
    hide AggOf, SamplesOf, Kept, Late, FirstKept;
    RangeOfCompared(es);
    KeptOrLate(es);
    SamplesNotNegative(es);
    RangesAgree(AggOf(es).speeds.range, SamplesOf(es), Kept(es), Late(es), FirstKept(es));
  }

  lemma RangesAgree(r: Range, all: seq<real>, kept: seq<real>, late: seq<real>, first: bool)
    requires var vs := (if first then [] else [0.0]) + kept; Extremes(r, vs)
    requires Mixed(all, kept, late)
    requires forall i | 0 <= i < |all| :: all[i] >= 0.0
    requires (all == [] ==> first) && (all != [] && first ==> kept != [])
    ensures var vs := (if first then [] else [0.0]) + kept;
            Extremes(r, all) <==> (first || 0.0 in all) && forall i | 0 <= i < |late| :: Between(late[i], vs)
  {
    hide Extremes, Between;
    var vs := (if first then [] else [0.0]) + kept;
    if all == [] {
      NoneLeft(all, kept, late);
      assert vs == [];
    } else {
      if Extremes(r, all) {
        WithinAll(r, all, vs, late);
        if !first { ZeroIsLeast(r, all, vs); }
      }
      if (first || 0.0 in all) && forall i | 0 <= i < |late| :: Between(late[i], vs) {
        AreExtremes(r, all, kept, late, first);
      }
    }
  }

  lemma NoneLeft(all: seq<real>, kept: seq<real>, late: seq<real>)
    requires Mixed(all, kept, late)
    ensures all == [] ==> kept == [] && late == []
  {
    if |kept| > 0 { assert kept[0] in all; }
    if |late| > 0 { assert late[0] in all; }
  }

  lemma WithinAll(r: Range, all: seq<real>, vs: seq<real>, late: seq<real>)
    requires Extremes(r, vs) && vs != [] && Extremes(r, all) && forall i | 0 <= i < |late| :: late[i] in all
    ensures forall i | 0 <= i < |late| :: Between(late[i], vs)
  {
    var a :| 0 <= a < |vs| && vs[a] == r.min;
    var b :| 0 <= b < |vs| && vs[b] == r.max;
    forall i | 0 <= i < |late| ensures Between(late[i], vs) {
      assert late[i] in all;
      assert vs[a] <= late[i] <= vs[b];
    }
  }

  lemma ZeroIsLeast(r: Range, all: seq<real>, vs: seq<real>)
    requires Extremes(r, all) && all != [] && (forall i | 0 <= i < |all| :: all[i] >= 0.0)
    requires Extremes(r, vs) && vs != [] && vs[0] == 0.0
    ensures 0.0 in all
  {
    assert r.min in all;
  }

  lemma AreExtremes(r: Range, all: seq<real>, kept: seq<real>, late: seq<real>, first: bool)
    requires var vs := (if first then [] else [0.0]) + kept;
             vs != [] && Extremes(r, vs) && forall i | 0 <= i < |late| :: Between(late[i], vs)
    requires Mixed(all, kept, late) && (first || 0.0 in all) && all != []
    ensures Extremes(r, all)
  {
    var vs := (if first then [] else [0.0]) + kept;
    assert forall v | v in vs :: v in kept || (!first && v == 0.0);
    forall i | 0 <= i < |all| ensures r.min <= all[i] <= r.max {
      if all[i] in kept {
        assert all[i] in vs;
      } else {
        assert all[i] in late;
        var k :| 0 <= k < |late| && late[k] == all[i];
        assert Between(late[k], vs);
      }
    }
  }

  // ---------------------------------------------------------------- when they are not

  function Digit(d: nat): (c: char)
    requires d < 10
    ensures IsDigit(c) && DigitOf(c) == d
  {
    '0' + d as char
  }

  function Year(y: nat): (s: string)
    requires y < 10000
    ensures |s| == 4 && Digits(s)
  {
    [Digit(y / 10 / 10 / 10), Digit(y / 10 / 10 % 10), Digit(y / 10 % 10), Digit(y % 10)]
  }

  function Stamp(y: nat, h: nat): string
    requires y < 10000 && h < 10
  {
    "[" + Year(y) + "-01-01_0" + [Digit(h)] + ":00:00.000000]"
  }

  /** A line of the h-th hour of the first day of year y. */
  function LineAt(y: nat, h: nat, payload: string): Shape
    requires y < 10000 && h < 10
  {
    Shape(Stamp(y, h), "1", "1", "1", MODULES[0], payload)
  }

  function KeyAt(y: nat, h: nat): nat {
    y * 1000000 + 10100 + h
  }

  lemma {:induction false} NumberSnoc(s: string, c: char)
    requires Digits(s) && IsDigit(c)
    ensures Digits(s + [c]) && Number(s + [c]) == Number(s) * 10 + DigitOf(c)
  {
    assert (s + [c])[..|s + [c]|-1] == s;
  }

  lemma YearNumber(y: nat)
    requires y < 10000
    ensures Number(Year(y)) == y
  {
    hide Number, Digits, Digit;
    var a, b, c, d := Digit(y / 10 / 10 / 10), Digit(y / 10 / 10 % 10), Digit(y / 10 % 10), Digit(y % 10);
    NoNumber();
    NumberSnoc("", a);
    NumberSnoc([a], b);
    NumberSnoc([a, b], c);
    NumberSnoc([a, b, c], d);
    assert "" + [a] == [a] && [a] + [b] == [a, b] && [a, b] + [c] == [a, b, c] && [a, b, c] + [d] == Year(y);
  }

  lemma NoNumber()
    ensures Digits("") && Number("") == 0
  {
  }

  lemma StampForm(y: nat, h: nat)
    requires y < 10000 && h < 10
    ensures IsTimestamp(Stamp(y, h))
  {
    var ts := Stamp(y, h);
    assert |ts| == 28;
    assert ts[1] == Year(y)[0] && ts[2] == Year(y)[1] && ts[3] == Year(y)[2] && ts[4] == Year(y)[3];
    assert ts[13] == Digit(h);
  }

  lemma StampKey(y: nat, h: nat)
    requires y < 10000 && h < 10
    ensures IsTimestamp(Stamp(y, h)) && DateInRange(Stamp(y, h)) && BucketOf(Stamp(y, h)) == KeyAt(y, h)
  {
    hide Number, Digits, Year, Digit, IsTimestamp;
    StampForm(y, h);
    var ts := Stamp(y, h);
    TimestampDigits(ts);
    assert ts[1..5] == Year(y) && ts[6..8] == "" + ['0'] + ['1'] && ts[9..11] == "" + ['0'] + ['1'];
    assert ts[12..14] == "" + ['0'] + [Digit(h)];
    YearNumber(y);
    NoNumber();
    NumberSnoc("", '0');
    NumberSnoc("" + ['0'], '1');
    NumberSnoc("" + ['0'], Digit(h));
  }

  lemma LineAtParses(y: nat, h: nat, payload: string)
    requires y < 10000 && h < 10
    ensures ParseLine(LineAt(y, h, payload).Line()) == Parsed(Ok, MODULES[0], 0, KeyAt(y, h), SpdOf(payload))
  {
    hide IsTimestamp, DateInRange, BucketOf, SpdOf, ParseLine, Stamp;
    StampKey(y, h);
    var g := LineAt(y, h, payload);
    assert FieldDigits("1") && Ident(MODULES[0]) && LookupModule(MODULES[0]) == Some(0);
    ParseOfShape(g);
  }

  /** One line in each of the first n years, none with a speed. */
  function Calendar(n: nat): (es: seq<Emission>)
    requires n <= MAX_BUCKETS
    ensures |es| == n
  {
    if n == 0 then [] else Calendar(n - 1) + [Emission(LineAt(n - 1, 0, "").Line(), 0)]
  }

  function CalendarKeys(n: nat): (ks: seq<nat>)
    ensures |ks| == n && forall i | 0 <= i < n :: ks[i] == KeyAt(i, 0)
  {
    if n == 0 then [] else CalendarKeys(n - 1) + [KeyAt(n - 1, 0)]
  }

  lemma {:induction false} CalendarDistinct(n: nat)
    ensures Distinct(CalendarKeys(n)) == CalendarKeys(n)
  {
    if n > 0 {
      CalendarDistinct(n - 1);
      var ks := CalendarKeys(n);
      assert ks[..|ks|-1] == CalendarKeys(n - 1);
    }
  }

  lemma NoSpeed()
    ensures SpdOf("") == Spd(None, false)
  {
  }

  lemma {:induction false} CalendarIs(n: nat)
    requires n <= MAX_BUCKETS
    ensures SamplesOf(Calendar(n)) == [] && HoursOf(AcceptedOf(Calendar(n))) == CalendarKeys(n)
  {
    hide ParseLine, SpdOf, Shape.Line;
    if n > 0 {
      CalendarIs(n - 1);
      LineAtParses(n - 1, 0, "");
      NoSpeed();
      var es := Calendar(n);
      assert es[..|es|-1] == Calendar(n - 1);
      HoursOfNext(AcceptedOf(Calendar(n - 1)), ParseLine(es[|es|-1].line));
    }
  }

  lemma SpeedOf(d: nat)
    requires d < 10
    ensures SpdOf("spd[" + [Digit(d)] + "]") == Spd(Some(d as real), false)
  {
    hide SpdOf, Number, Digit;
    var t := [Digit(d)];
    var p := "spd[" + t + "]";
    assert p == "" + ("spd[" + (t + ("]" + "")));
    SpdFound(p, "", t, "");
    DecimalText(Decimal("", t, false, ""));
    assert Decimal("", t, false, "").Text() == t;
    NoNumber();
    NumberSnoc("", Digit(d));
    assert "" + t == t;
  }

  /** One more line, with a speed, after a calendar that fills the table. */
  lemma AfterCalendar(es: seq<Emission>, y: nat, h: nat, d: nat) returns (all: seq<Emission>)
    requires y < 10000 && h < 10 && d < 10
    requires Admitted(HoursOf(AcceptedOf(es)), MAX_BUCKETS) == CalendarKeys(MAX_BUCKETS)
    ensures |all| == |es| + 1 && all[..|es|] == es
    ensures Admitted(HoursOf(AcceptedOf(all)), MAX_BUCKETS) == CalendarKeys(MAX_BUCKETS)
    ensures Measured(ParseLine(all[|es|].line)) && ParseLine(all[|es|].line).spd.value.value == d as real
    ensures InTable(all) <==> h == 0
  {
    hide ParseLine, SpdOf, Shape.Line, Admitted;
    var line := LineAt(y, h, "spd[" + [Digit(d)] + "]").Line();
    LineAtParses(y, h, "spd[" + [Digit(d)] + "]");
    SpeedOf(d);
    all := es + [Emission(line, 0)];
    assert all[..|es|] == es;
    HoursOfNext(AcceptedOf(es), ParseLine(line));
    AdmittedNext(HoursOf(AcceptedOf(es)), KeyAt(y, h), MAX_BUCKETS);
    var ks := CalendarKeys(MAX_BUCKETS);
    assert ks[y] == KeyAt(y, 0);
    assert h > 0 ==> forall i | 0 <= i < |ks| :: ks[i] != KeyAt(y, h);
  }

  /**
    Such a stream: after a line in each of MAX_BUCKETS years the table is full, the first
    sample is late, and from then on the reported minimum is a zero nobody measured, also for
    the samples of hours that are in the table.
    */
  lemma SpuriousMinimum() returns (es: seq<Emission>)
    ensures SamplesOf(es) == [5.0, 7.0] && Kept(es) == [7.0] && Late(es) == [5.0] && !FirstKept(es)
    ensures AggOf(es).speeds.range == Range(0.0, 7.0)
    ensures !Extremes(AggOf(es).speeds.range, SamplesOf(es))
  {
    hide ParseLine, AggOf, Admitted, CalendarKeys, Calendar, HoursOf, AcceptedOf, InTable, Kept, Late, SamplesOf,
         FirstKept;
    var before := Calendar(MAX_BUCKETS);
    CalendarIs(MAX_BUCKETS);
    CalendarFills();
    KeptOrLate(before);
    NoneLeft(SamplesOf(before), Kept(before), Late(before));
    var late := AfterCalendar(before, 0, 1, 5);
    LastSample(late);
    FirstSample(late);
    es := AfterCalendar(late, 0, 0, 7);
    LastSample(es);
    FirstSample(es);
    RangeOfCompared(es);
    assert Compared(es) == [0.0, 7.0];
    TwoCompared(AggOf(es).speeds.range);
  }

  lemma CalendarFills()
    ensures Admitted(CalendarKeys(MAX_BUCKETS), MAX_BUCKETS) == CalendarKeys(MAX_BUCKETS)
  {
    hide CalendarKeys;
    CalendarDistinct(MAX_BUCKETS);
  }

  lemma TwoCompared(r: Range)
    requires Extremes(r, [0.0, 7.0])
    ensures r == Range(0.0, 7.0) && !Extremes(r, [5.0, 7.0])
  {
    assert [0.0, 7.0][0] == 0.0 && [0.0, 7.0][1] == 7.0;
  }
}
