/**
  What the result document says.

  Section by section, row by row: which text stands beside which name after any sequence of
  lines, in terms of the lines themselves.
  */
module Showing {
  import opened LogLines
  import opened Lines
  import opened Aggregation
  import opened CsvDocuments
  import opened ResultCsv
  import opened Tallies
  import G = Grammar
  import S = SpeedRanges
  import C = CsvLines

  // ---------------------------------------------------------------- rows of a section

  lemma {:induction false} TextsAt(row: Row, i: nat)
    requires i < |row|
    ensures Texts(row)[i] == row[i].text
  {
    if i > 0 { TextsAt(row[1..], i - 1); }
  }

  lemma {:induction false} AllTextsAt(rows: seq<Row>, i: nat)
    ensures |AllTexts(rows)| == |rows|
    ensures i < |rows| ==> AllTexts(rows)[i] == Texts(rows[i])
  {
    if rows != [] {
      AllTextsAt(rows[..|rows|-1], i);
    }
  }

  lemma SectionsOfSix(ts: seq<Table>)
    requires |ts| == 6
    ensures var ss := Sections(ts);
            |ss| == 6 && forall i | 0 <= i < 6 :: ss[i] == ts[i].Content()
  {
    hide Table.Content;
    SectionsAt(ts, 0);
    forall i | 0 <= i < 6 ensures Sections(ts)[i] == ts[i].Content() { SectionsAt(ts, i); }
  }

  lemma {:induction false} SectionsAt(ts: seq<Table>, i: nat)
    ensures |Sections(ts)| == |ts|
    ensures i < |ts| ==> Sections(ts)[i] == ts[i].Content()
  {
    hide Table.Content;
    if ts != [] { SectionsAt(ts[..|ts|-1], i); }
  }

  /** Row `i` of the section shows these texts. */
  ghost predicate Row2(s: Section, i: nat, a: string, b: string) {
    i < |s.rows| && s.rows[i] == [a, b]
  }

  ghost predicate Row3(s: Section, i: nat, a: string, b: string, c: string) {
    i < |s.rows| && s.rows[i] == [a, b, c]
  }

  lemma Shown2(t: Table, i: nat, a: Cell, b: Cell)
    requires i < |t.rows| && t.rows[i] == [a, b]
    ensures Row2(t.Content(), i, a.text, b.text)
  {
    AllTextsAt(t.rows, i);
    TextsAt([a, b], 0);
    TextsAt([a, b], 1);
  }

  lemma Shown3(t: Table, i: nat, a: Cell, b: Cell, c: Cell)
    requires i < |t.rows| && t.rows[i] == [a, b, c]
    ensures Row3(t.Content(), i, a.text, b.text, c.text)
  {
    AllTextsAt(t.rows, i);
    TextsAt([a, b, c], 0);
    TextsAt([a, b, c], 1);
    TextsAt([a, b, c], 2);
  }

  // ---------------------------------------------------------------- the summary

  /** Which part of `whole`, in percent. */
  predicate Percent(v: real, part: nat, whole: nat) {
    if whole == 0 then v == 0.0 else v * whole as real == 100.0 * part as real
  }

  ghost predicate TimeRange(es: seq<Emission>, first: string, last: string) {
    var ok := Places(es, ByReason(Ok));
    && (ok == {} ==> first == last == "")
    && (forall i: nat | FirstOf(ok, i) :: TimeOf(es, i, first))
    && (forall i: nat | LastOf(ok, i) :: TimeOf(es, i, last))
  }

  ghost predicate CountsShown(s: Section, es: seq<Emission>, fmt: Printf) {
    var ok, refused := |Places(es, ByReason(Ok))|, |Places(es, Refused)|;
    && Row2(s, 0, "total_lines", U64s(|es|))
    && Row2(s, 1, "accepted_lines", U64s(ok))
    && Row2(s, 2, "rejected_lines", U64s(refused))
    && (exists v :: Row2(s, 3, "rejected_ratio_pct", fmt.fixed6(v)) && Percent(v, refused, |es|))
    && Row2(s, 4, "hour_buckets", U64s(|Admitted(HoursOf(AcceptedOf(es)), 10000)|))
  }

  ghost predicate TimesShown(s: Section, es: seq<Emission>) {
    exists first, last ::
      Row2(s, 5, "time_range_start", first) && Row2(s, 6, "time_range_end", last) && TimeRange(es, first, last)
  }

  /** The speeds: how many, their sum, their average and the range of those compared. */
  ghost predicate SpeedsShown(s: Section, es: seq<Emission>, fmt: Printf) {
    var n, sum := |Places(es, WithSpeed)|, SumReal(SamplesOf(es));
    && Row2(s, 7, "spd_samples", U64s(n))
    && Row2(s, 8, "spd_sum", fmt.fixed6(sum))
    && if n == 0 then
         Row2(s, 9, "\U{E2}\U{98}\U{85}spd_average", "") && Row2(s, 10, "spd_min", "") && Row2(s, 11, "spd_max", "")
       else
         && (exists v :: Row2(s, 9, "\U{E2}\U{98}\U{85}spd_average", fmt.fixed6(v)) && v * n as real == sum)
         && (exists r: Range ::
               && Row2(s, 10, "spd_min", fmt.fixed6(r.min)) && Row2(s, 11, "spd_max", fmt.fixed6(r.max))
               && Extremes(r, S.Compared(es)))
  }

  /** The run: its time, its throughput and the memory it took. */
  ghost predicate RunShown(s: Section, ctx: Context, fmt: Printf) {
    && Row2(s, 12, "processing_ms", U64s(ctx.elapsedMs))
    && (exists v :: Row2(s, 13, "throughput_mib_per_sec", fmt.fixed4(v))
                    && if ctx.elapsedMs == 0 then v == 0.0
                       else v * (1048576 * ctx.elapsedMs) as real == (1000 * ctx.sourceBytes) as real)
    && Row2(s, 14, "peak_rss_kb", U64s(ctx.rssKb))
  }

  lemma RatioIs(part: nat, whole: nat)
    ensures Percent(Ratio(part, whole), part, whole)
  {
  }

  lemma SummaryCounts(es: seq<Emission>, oversize: nat, ctx: Context, fmt: Printf)
    ensures var a := AggOf(es).(oversize := oversize);
            a.accepted <= a.total && CountsShown(SummaryTable(a, ctx, fmt).Content(), es, fmt)
  {
    hide AggOf, U64s, Places, HoursOf, AcceptedOf, Admitted, Ratio, Percent, SpeedRows, RunRows, TimeRange,
         Table.Content, Row2, FirstOf, LastOf;
    var a := AggOf(es).(oversize := oversize);
    AcceptedOrRefused(es);
    HoursExact(es);
    var t := SummaryTable(a, ctx, fmt);
    var refused := |Places(es, Refused)|;
    Shown2(t, 0, Raw("total_lines"), Num(a.total));
    Shown2(t, 1, Raw("accepted_lines"), Num(a.accepted));
    Shown2(t, 2, Raw("rejected_lines"), Num(refused));
    Shown2(t, 3, Raw("rejected_ratio_pct"), Raw(fmt.fixed6(Ratio(refused, a.total))));
    RatioIs(refused, a.total);
    Shown2(t, 4, Raw("hour_buckets"), Num(|a.hours|));
  }

  lemma SummaryTimes(es: seq<Emission>, oversize: nat, ctx: Context, fmt: Printf)
    ensures var a := AggOf(es).(oversize := oversize);
            a.accepted <= a.total && TimesShown(SummaryTable(a, ctx, fmt).Content(), es)
  {
    hide AggOf, U64s, Places, Ratio, SpeedRows, RunRows, TimeRange, Table.Content, Row2;
    var a := AggOf(es).(oversize := oversize);
    AcceptedOrRefused(es);
    var t := SummaryTable(a, ctx, fmt);
    Shown2(t, 5, Raw("time_range_start"), Auto(a.firstTs));
    Shown2(t, 6, Raw("time_range_end"), Auto(a.lastTs));
    TimesAre(es);
  }

  lemma TimesAre(es: seq<Emission>)
    ensures TimeRange(es, AggOf(es).firstTs, AggOf(es).lastTs)
  {
    hide AggOf, Places, FirstOf, LastOf, TimeOf;
    var a, ok := AggOf(es), Places(es, ByReason(Ok));
    TimesRead(es, 0);
    forall i: nat | FirstOf(ok, i) ensures TimeOf(es, i, a.firstTs) { TimesRead(es, i); }
    forall i: nat | LastOf(ok, i) ensures TimeOf(es, i, a.lastTs) { TimesRead(es, i); }
  }

  lemma SummarySpeeds(es: seq<Emission>, oversize: nat, ctx: Context, fmt: Printf)
    ensures var a := AggOf(es).(oversize := oversize);
            a.accepted <= a.total && SpeedsShown(SummaryTable(a, ctx, fmt).Content(), es, fmt)
  {
    hide AggOf, U64s, Places, Ratio, RunRows, Table.Content, Row2, Extremes, Average, SamplesOf, SumReal, S.Compared;
    var a := AggOf(es).(oversize := oversize);
    AcceptedOrRefused(es);
    var t := SummaryTable(a, ctx, fmt);
    var at := SamplesListed(es);
    SpeedTotals(es);
    S.RangeOfCompared(es);
    var s := a.speeds;
    Shown2(t, 7, Raw("spd_samples"), Num(s.n));
    Shown2(t, 8, Raw("spd_sum"), Raw(fmt.fixed6(s.sum)));
    if s.n > 0 {
      AverageIs(s);
      Shown2(t, 9, Raw("\U{E2}\U{98}\U{85}spd_average"), Raw(fmt.fixed6(Average(s))));
      Shown2(t, 10, Raw("spd_min"), Raw(fmt.fixed6(s.range.min)));
      Shown2(t, 11, Raw("spd_max"), Raw(fmt.fixed6(s.range.max)));
    } else {
      Shown2(t, 9, Raw("\U{E2}\U{98}\U{85}spd_average"), Raw(""));
      Shown2(t, 10, Raw("spd_min"), Raw(""));
      Shown2(t, 11, Raw("spd_max"), Raw(""));
    }
  }

  lemma AverageIs(s: Speeds)
    requires s.n > 0
    ensures Average(s) * s.n as real == s.sum
  {
  }

  lemma SummaryRun(a: Agg, ctx: Context, fmt: Printf)
    requires a.accepted <= a.total
    ensures RunShown(SummaryTable(a, ctx, fmt).Content(), ctx, fmt)
  {
    hide U64s, Ratio, CountRows, SpeedRows, Table.Content, Row2, Throughput;
    var t := SummaryTable(a, ctx, fmt);
    RowCounts(a, fmt);
    Shown2(t, 12, Raw("processing_ms"), Num(ctx.elapsedMs));
    ThroughputIs(ctx);
    Shown2(t, 13, Raw("throughput_mib_per_sec"), Raw(fmt.fixed4(Throughput(ctx))));
    Shown2(t, 14, Raw("peak_rss_kb"), Num(ctx.rssKb));
  }

  lemma RowCounts(a: Agg, fmt: Printf)
    requires a.accepted <= a.total
    ensures |CountRows(a, fmt)| == 9 && |SpeedRows(a, fmt)| == 3
  {
  }

  lemma ThroughputIs(ctx: Context)
    ensures var v := Throughput(ctx);
            if ctx.elapsedMs == 0 then v == 0.0
            else v * (1048576 * ctx.elapsedMs) as real == (1000 * ctx.sourceBytes) as real
  {
    if ctx.elapsedMs > 0 {
      var ms, b := ctx.elapsedMs as real, ctx.sourceBytes as real;
      var secs, mib := ms / 1000.0, b / 1048576.0;
      assert secs > 0.0;
      var v := mib / secs;
      assert v * secs == mib;
      assert (1048576 * ctx.elapsedMs) as real == 1048576.0 * (1000.0 * secs);
      assert v * (1048576.0 * (1000.0 * secs)) == 1048576.0 * 1000.0 * (v * secs);
    }
  }

  // ---------------------------------------------------------------- totals by module

  ghost predicate TotalShown(s: Section, es: seq<Emission>, fmt: Printf, m: nat)
    requires m < |G.NAMES|
  {
    exists v ::
      && Row3(s, m, G.NAMES[m], U64s(|Places(es, ByModule(m))|), fmt.fixed4(v))
      && Percent(v, |Places(es, ByModule(m))|, |Places(es, ByReason(Ok))|)
  }

  ghost predicate TotalsShown(s: Section, es: seq<Emission>, fmt: Printf) {
    |s.rows| == |G.NAMES| && forall m: nat | m < |G.NAMES| :: TotalShown(s, es, fmt, m)
  }

  lemma {:induction false} TotalRowAt(a: Agg, fmt: Printf, n: nat, m: nat)
    requires a.Shaped() && m < n <= MODULE_COUNT
    ensures var whole := if a.accepted > 0 then a.accepted as real else 1.0;
            |TotalRows(a, fmt, n)| == n
            && TotalRows(a, fmt, n)[m]
               == [Raw(MODULES[m]), Num(a.modules[m]), Raw(fmt.fixed4(100.0 * a.modules[m] as real / whole))]
  {
    hide U64s;
    if m < n - 1 { TotalRowAt(a, fmt, n - 1, m); }
    if n > 1 { TotalRowAt(a, fmt, n - 1, 0); }
  }

  lemma ShareIs(part: nat, whole: nat)
    requires part <= whole
    ensures Percent(100.0 * part as real / (if whole > 0 then whole as real else 1.0), part, whole)
  {
  }

  lemma {:induction false} FewerOfModule(es: seq<Emission>, m: nat)
    ensures |Places(es, ByModule(m))| <= |Places(es, ByReason(Ok))|
  {
    hide ParseLine, Places;
    if es == [] {
      NoPlaces(ByModule(m));
    } else {
      FewerOfModule(es[..|es|-1], m);
      PlacesNext(es, ByModule(m));
      PlacesNext(es, ByReason(Ok));
    }
  }

  lemma TotalsAre(es: seq<Emission>, oversize: nat, fmt: Printf)
    ensures TotalsShown(TotalsTable(AggOf(es).(oversize := oversize), fmt).Content(), es, fmt)
  {
    hide AggOf, U64s, Places, Percent, Table.Content, Row3, TotalRows;
    var a := AggOf(es).(oversize := oversize);
    var t := TotalsTable(a, fmt);
    assert G.NAMES == MODULES;
    TotalRowAt(a, fmt, MODULE_COUNT, 0);
    AllTextsAt(t.rows, 0);
    RowsOf(t);
    AcceptedOrRefused(es);
    forall m: nat | m < |G.NAMES| ensures TotalShown(t.Content(), es, fmt, m) {
      TotalRowAt(a, fmt, MODULE_COUNT, m);
      ModulesCounted(es, m);
      FewerOfModule(es, m);
      var c, whole := a.modules[m], if a.accepted > 0 then a.accepted as real else 1.0;
      ShareIs(c, a.accepted);
      Shown3(t, m, Raw(MODULES[m]), Num(c), Raw(fmt.fixed4(100.0 * c as real / whole)));
    }
  }

  lemma RowsOf(t: Table)
    ensures |t.Content().rows| == |t.rows|
    ensures t.Content().name == t.name
    ensures forall i | 0 <= i < |t.rows| :: t.Content().rows[i] == Texts(t.rows[i])
  {
    AllTextsAt(t.rows, 0);
    forall i | 0 <= i < |t.rows| ensures t.Content().rows[i] == Texts(t.rows[i]) { AllTextsAt(t.rows, i); }
  }

  // ---------------------------------------------------------------- the hours

  /** A row of the hour table: the hour as its lines show it, then how many lines it has. */
  ghost predicate HourShown(row: seq<string>, es: seq<Emission>, k: nat) {
    && |row| == 7
    && Places(es, ByHour(k)) != {}
    && (forall i | i in Places(es, ByHour(k)) ::
          |es[i].line| >= 28 && row[0] == es[i].line[1..11] + " " + es[i].line[12..14] + ":00")
    && (forall m: nat | m < 5 :: row[1 + m] == U64s(|Places(es, ByHourAndModule(k, m))|))
    && row[6] == U64s(|Places(es, ByHour(k))|)
  }

  ghost predicate HoursRows(s: Section, es: seq<Emission>, ks: seq<nat>) {
    |s.rows| == |ks| && forall j | 0 <= j < |ks| :: HourShown(s.rows[j], es, ks[j])
  }

  /** The first 10000 distinct hours, in the order of the hours. */
  ghost predicate HoursKept(es: seq<Emission>, ks: seq<nat>) {
    && (forall i, j | 0 <= i < j < |ks| :: ks[i] < ks[j])
    && forall k: nat :: k in ks <==> k in Admitted(HoursOf(AcceptedOf(es)), 10000)
  }

  ghost predicate HoursShown(s: Section, es: seq<Emission>) {
    exists ks: seq<nat> :: HoursKept(es, ks) && HoursRows(s, es, ks)
  }

  lemma {:induction false} HourRowAt(hs: Hours, j: nat)
    requires ShapedHours(hs)
    ensures |HourRows(hs)| == |hs|
    ensures j < |hs| ==> HourRows(hs)[j] == HourRow(hs[j])
  {
    hide HourRow;
    if hs != [] {
      assert ShapedHours(hs[..|hs|-1]);
      HourRowAt(hs[..|hs|-1], j);
    }
  }

  function Keys(hs: Hours): (ks: seq<nat>)
    ensures |ks| == |hs| && forall j | 0 <= j < |hs| :: ks[j] == hs[j].key
  {
    if hs == [] then [] else Keys(hs[..|hs|-1]) + [hs[|hs|-1].key]
  }

  lemma KeysAre(hs: Hours, k: nat)
    ensures k in Keys(hs) <==> HasHour(hs, k)
  {
    hide Keys;
    if HasHour(hs, k) {
      var j :| 0 <= j < |hs| && hs[j].key == k;
      assert Keys(hs)[j] == k;
    }
  }

  lemma {:induction false} HourAtPlace(hs: Hours, j: nat)
    requires Sorted(hs) && j < |hs|
    ensures HourAt(hs, hs[j].key) == Some(hs[j].bucket)
  {
    if j > 0 { HourAtPlace(hs[1..], j - 1); }
  }

  lemma HourTexts(h: Hour)
    requires |h.bucket.counts| == MODULE_COUNT
    ensures var row := Texts(HourRow(h));
            && |row| == 7 && row[0] == FormatBucket(h.key) && row[6] == U64s(h.bucket.total)
            && forall m: nat | m < 5 :: row[1 + m] == U64s(h.bucket.counts[m])
  {
    hide U64s, FormatBucket, Texts;
    var r := HourRow(h);
    forall i | 0 <= i < 7 ensures Texts(r)[i] == r[i].text { TextsAt(r, i); }
    assert forall m: nat | m < 5 :: r[1 + m] == Num(h.bucket.counts[m]);
  }

  lemma LabelShows(es: seq<Emission>, i: nat)
    requires i < |es| && ParseLine(es[i].line).reason == Ok
    ensures |es[i].line| >= 28
    ensures FormatBucket(ParseLine(es[i].line).bucket) == es[i].line[1..11] + " " + es[i].line[12..14] + ":00"
  {
    hide IsTimestamp, FormatBucket, ParseLine;
    var line := es[i].line;
    AcceptedLine(line);
    BucketRead(line);
    LabelReproducesLine(line[..28]);
    StampIs28(line[..28]);
    assert line[..28][1..11] == line[1..11] && line[..28][12..14] == line[12..14];
  }

  lemma StampIs28(ts: string)
    requires IsTimestamp(ts)
    ensures |ts| == 28
  {
  }

  lemma BucketRead(line: string)
    requires ParseLine(line).reason == Ok
    ensures |line| >= 28 && IsTimestamp(line[..28]) && ParseLine(line).bucket == BucketOf(line[..28])
  {
    hide DateInRange, BucketOf, SpdOf, LookupModule, IsTimestamp, LogLines.FieldsEnd;
  }

  /** The row of an hour that has been seen. */
  lemma HourIs(es: seq<Emission>, h: Hour)
    requires h.bucket == TallyBucket(AcceptedOf(es), h.key)
    requires h.key in Distinct(HoursOf(AcceptedOf(es)))
    ensures HourShown(Texts(HourRow(h)), es, h.key)
  {
    hide ParseLine, U64s, FormatBucket, HourRow, Places, Texts, AcceptedOf, HoursOf, Distinct, Tally;
    HourTexts(h);
    HourCounted(es, h.key);
    DistinctIffCounted(HoursOf(AcceptedOf(es)), h.key);
    var ps := AcceptedOf(es);
    forall m: nat | m < 5 ensures h.bucket.counts[m] == |Places(es, ByHourAndModule(h.key, m))| {
      HourAndModuleCounted(es, h.key, m);
      assert h.bucket.counts[m] == Tally(ps, h.key, m);
    }
    var row := Texts(HourRow(h));
    forall i | i in Places(es, ByHour(h.key))
      ensures i < |es| && |es[i].line| >= 28 && row[0] == es[i].line[1..11] + " " + es[i].line[12..14] + ":00"
    {
      PlaceIs(es, ByHour(h.key), i);
      LabelShows(es, i);
    }
  }

  lemma HourKeys(es: seq<Emission>)
    ensures HoursKept(es, Keys(AggOf(es).hours))
  {
    hide AggOf, TallyBucket, HourAt, AcceptedOf, HoursOf, Distinct, HasHour, Keys;
    var hs := AggOf(es).hours;
    HoursExact(es);
    forall k: nat ensures k in Keys(hs) <==> k in Admitted(HoursOf(AcceptedOf(es)), 10000) {
      HourAtIff(hs, k);
      KeysAre(hs, k);
    }
  }

  lemma HourPlaced(es: seq<Emission>, j: nat)
    requires j < |AggOf(es).hours|
    ensures HourShown(Texts(HourRow(AggOf(es).hours[j])), es, AggOf(es).hours[j].key)
  {
    hide AggOf, TallyBucket, HourAt, AcceptedOf, HoursOf, Distinct, HasHour, HourShown, HourRow, Texts, Keys;
    var hs := AggOf(es).hours;
    HoursExact(es);
    HourAtPlace(hs, j);
    assert hs[j].key in Admitted(HoursOf(AcceptedOf(es)), MAX_BUCKETS);
    HourIs(es, hs[j]);
  }

  lemma HoursAreShown(es: seq<Emission>, oversize: nat)
    ensures HoursShown(HourTable(AggOf(es).(oversize := oversize)).Content(), es)
  {
    hide AggOf, HourShown, HourRow, Table.Content, Texts, HoursKept, HourRows, Keys;
    var a := AggOf(es).(oversize := oversize);
    var hs, t := a.hours, HourTable(a);
    HourRowAt(hs, 0);
    RowsOf(t);
    HourKeys(es);
    var ks := Keys(hs);
    forall j | 0 <= j < |hs| ensures HourShown(t.Content().rows[j], es, ks[j]) {
      HourRowAt(hs, j);
      HourPlaced(es, j);
    }
    assert HoursRows(t.Content(), es, ks);
  }

  // ---------------------------------------------------------------- what became of the lines

  /** The reasons for refusing a line, with the name and the description of each. */
  const REFUSALS: seq<(Reason, string, string)> := [
    (TooShort, "rejected_too_short", "Line shorter than the minimum valid header"),
    (MissingOpenBracket, "rejected_missing_open_bracket", "Line does not start with '['"),
    (BadTimestamp, "rejected_bad_timestamp", "Timestamp block does not match" + " the fixed layout"),
    (GarbagePayload, "rejected_garbage_payload", "Timestamp present but no" + " PID/TID/SEQ structure"),
    (MissingCloseBracket, "rejected_missing_close_bracket", "PID/TID/SEQ field not terminated by ']'"),
    (MissingBydaTag, "rejected_missing_byda_tag", "Missing the ' BYDA::' tag"),
    (BadModuleName, "rejected_bad_module_name", "Module name malformed" + " or not followed by ': '"),
    (UnknownModule, "rejected_unknown_module", "Header valid but module is not" + " in the whitelist")
  ]

  function RefusedAs(es: seq<Emission>, n: nat): set<nat>
    requires n < |REFUSALS|
  {
    Places(es, ByReason(REFUSALS[n].0))
  }

  lemma RefusalIs(n: nat)
    requires n < 8
    ensures |REFUSALS| == 8
    ensures REFUSALS[n].0 != Ok && ReasonIndex(REFUSALS[n].0) == n + 1
    ensures ReasonKey(n + 1) == REFUSALS[n].1 && ReasonText(n + 1) == REFUSALS[n].2
  {
  }

  /** Every line once, by what became of it, and the lines that were too long. */
  ghost predicate DispositionShown(s: Section, es: seq<Emission>, oversize: nat) {
    && |s.rows| == 11
    && Row3(s, 0, "accepted", U64s(|Places(es, ByReason(Ok))|), "Header valid and module in whitelist")
    && (forall n: nat | n < |REFUSALS| ::
          Row3(s, 1 + n, REFUSALS[n].1, U64s(|RefusedAs(es, n)|), REFUSALS[n].2))
    && Row3(s, 9, "rejected_oversize_line", U64s(oversize), OVERSIZE_NOTE)
    && Row3(s, 10, "TOTAL", U64s(|es| + oversize), "Must equal total_lines (" + U64s(|es|) + ")")
  }

  lemma {:induction false} ReasonRowAt(cs: seq<Corrupt>, n: nat, i: nat)
    requires 1 <= i < n <= |cs|
    ensures |ReasonRows(cs, n)| == n - 1
    ensures ReasonRows(cs, n)[i-1] == [Raw(ReasonKey(i)), Num(cs[i].count), Auto(ReasonText(i))]
  {
    hide ReasonKey, ReasonText, U64s;
    if n > 2 { ReasonRowAt(cs, n - 1, if i < n - 1 then i else 1); }
  }

  lemma RefusalRow(es: seq<Emission>, oversize: nat, n: nat)
    requires n < |REFUSALS|
    ensures Row3(DispositionTable(AggOf(es).(oversize := oversize)).Content(), 1 + n, REFUSALS[n].1,
                 U64s(|RefusedAs(es, n)|), REFUSALS[n].2)
  {
    hide AggOf, U64s, Places, Table.Content, Row3, ReasonRows, ReasonKey, ReasonText, CheckTotal, ReasonIndex, REFUSALS;
    var a := AggOf(es).(oversize := oversize);
    var t := DispositionTable(a);
    RefusalIs(0);
    RefusalIs(n);
    ReasonRowAt(a.corrupt, REASON_COUNT, n + 1);
    ReasonsExact(es, REFUSALS[n].0);
    ReasonsCounted(es, REFUSALS[n].0);
    Shown3(t, 1 + n, Raw(ReasonKey(n + 1)), Num(a.corrupt[n + 1].count), Auto(ReasonText(n + 1)));
  }

  lemma DispositionIs(es: seq<Emission>, oversize: nat)
    ensures DispositionShown(DispositionTable(AggOf(es).(oversize := oversize)).Content(), es, oversize)
  {
    hide AggOf, U64s, Places, Table.Content, Row3, ReasonRows, ReasonKey, ReasonText, CheckTotal, REFUSALS, RefusedAs;
    var a := AggOf(es).(oversize := oversize);
    var t := DispositionTable(a);
    RefusalIs(0);
    RowsOf(t);
    ReasonRowAt(a.corrupt, REASON_COUNT, 1);
    AcceptedOrRefused(es);
    CheckRow(es, oversize);
    AcceptedText();
    Shown3(t, 0, Raw(ReasonKey(0)), Num(a.accepted), Auto(ReasonText(0)));
    forall n: nat | n < |REFUSALS|
      ensures Row3(t.Content(), 1 + n, REFUSALS[n].1, U64s(|RefusedAs(es, n)|), REFUSALS[n].2)
    {
      RefusalRow(es, oversize, n);
    }
    Shown3(t, 9, Raw("rejected_oversize_line"), Num(oversize), Forced(OVERSIZE_NOTE));
    Shown3(t, 10, Raw("TOTAL"), Num(CheckTotal(a)), Forced("Must equal total_lines (" + U64s(a.total) + ")"));
  }

  lemma AcceptedText()
    ensures ReasonKey(0) == "accepted" && ReasonText(0) == "Header valid and module in whitelist"
  {
  }

  // ---------------------------------------------------------------- the first case of each reason

  /** How many of the first `n` reasons some line was refused for. */
  function Seen(es: seq<Emission>, n: nat): nat
    requires n <= |REFUSALS|
  {
    if n == 0 then 0 else Seen(es, n - 1) + if RefusedAs(es, n - 1) == {} then 0 else 1
  }

  ghost predicate SampleShown(row: seq<string>, es: seq<Emission>, n: nat)
    requires n < |REFUSALS|
  {
    exists i: nat ::
      && FirstOf(RefusedAs(es, n), i) && i < |es|
      && row == [REFUSALS[n].1, U64s(|RefusedAs(es, n)|), U64s(i + 1), U64s(RawTotal(es[..i])), Excerpt(es[i].line)]
  }

  /** A row for each reason that occurs, in their order, then the guard's if it was needed. */
  ghost predicate DiagnosticsShown(s: Section, es: seq<Emission>) {
    var guarded := |Places(es, OutOfRange)|;
    && |s.rows| == Seen(es, |REFUSALS|) + (if guarded > 0 then 1 else 0)
    && (forall n: nat | n < |REFUSALS| && RefusedAs(es, n) != {} ::
          Seen(es, n) < |s.rows| && SampleShown(s.rows[Seen(es, n)], es, n))
    && (guarded > 0 ==>
          s.rows[|s.rows|-1] == ["spd_out_of_range_guard", U64s(guarded), "", "", GUARD_NOTE])
  }

  lemma Texts5(a: Cell, b: Cell, c: Cell, d: Cell, e: Cell)
    ensures Texts([a, b, c, d, e]) == [a.text, b.text, c.text, d.text, e.text]
  {
    var r := [a, b, c, d, e];
    TextsAt(r, 0);
    TextsAt(r, 1);
    TextsAt(r, 2);
    TextsAt(r, 3);
    TextsAt(r, 4);
  }

  lemma SampleIs(es: seq<Emission>, n: nat)
    requires n < |REFUSALS|
    ensures var c := AggOf(es).corrupt[n+1];
            && (c.count == 0 <==> RefusedAs(es, n) == {})
            && (c.count > 0 ==>
                  SampleShown(Texts([Raw(ReasonKey(n + 1)), Num(c.count), Num(c.firstLine), Num(c.firstOffset),
                                     Auto(c.excerpt)]), es, n))
  {
    hide AggOf, U64s, Places, Texts, ReasonKey, ReasonText, FirstOf, Excerpt, RawTotal, ReasonIndex;
    RefusalIs(n);
    var r := REFUSALS[n].0;
    var c := AggOf(es).corrupt[n+1];
    ReasonsExact(es, r);
    ReasonsCounted(es, r);
    if c.count > 0 {
      var i := FirstExists(es, r);
      FirstRefused(es, r, i);
      Texts5(Raw(ReasonKey(n + 1)), Num(c.count), Num(c.firstLine), Num(c.firstOffset), Auto(c.excerpt));
    }
  }

  lemma SeenNext(es: seq<Emission>, n: nat)
    requires 0 < n <= |REFUSALS|
    ensures Seen(es, n) == Seen(es, n - 1) + if RefusedAs(es, n - 1) == {} then 0 else 1
  {
    hide RefusedAs;
  }

  lemma NothingSeen(es: seq<Emission>)
    ensures Seen(es, 0) == 0 && SampleRows(AggOf(es).corrupt, 1) == []
  {
    hide AggOf;
  }

  lemma SampleRowsNext(cs: seq<Corrupt>, n: nat)
    requires 0 < n < |cs|
    ensures SampleRows(cs, n + 1)
            == SampleRows(cs, n)
               + if cs[n].count == 0 then []
                 else [[Raw(ReasonKey(n)), Num(cs[n].count), Num(cs[n].firstLine), Num(cs[n].firstOffset),
                        Auto(cs[n].excerpt)]]
  {
    hide ReasonKey, Num;
  }

  /** Of the sample rows: how many, and where that of the n-th reason is. */
  lemma {:induction false} SampleRowAt(es: seq<Emission>, upto: nat, n: nat)
    requires upto <= |REFUSALS|
    ensures var rows := SampleRows(AggOf(es).corrupt, upto + 1);
            && |rows| == Seen(es, upto)
            && (n < upto && RefusedAs(es, n) != {} ==>
                  Seen(es, n) < |rows| && SampleShown(Texts(rows[Seen(es, n)]), es, n))
  {
    hide AggOf, Texts, ReasonKey, SampleShown, REFUSALS, RefusedAs, Num, SampleRows, Seen;
    RefusalIs(0);
    NothingSeen(es);
    if upto > 0 {
      SampleRowAt(es, upto - 1, n);
      SampleIs(es, upto - 1);
      SeenNext(es, upto);
      SampleRowsNext(AggOf(es).corrupt, upto);
    }
  }

  lemma DiagnosticsAre(es: seq<Emission>, oversize: nat)
    ensures DiagnosticsShown(DiagnosticsTable(AggOf(es).(oversize := oversize)).Content(), es)
  {
    hide AggOf, U64s, Places, Table.Content, SampleRows, SampleShown, Texts, Seen, REFUSALS;
    var a := AggOf(es).(oversize := oversize);
    var t := DiagnosticsTable(a);
    RefusalIs(0);
    RowsOf(t);
    OutOfRangeCounted(es);
    SampleRowAt(es, |REFUSALS|, 0);
    forall n: nat | n < |REFUSALS| && RefusedAs(es, n) != {}
      ensures Seen(es, n) < |t.rows| && SampleShown(t.Content().rows[Seen(es, n)], es, n)
    {
      SampleRowAt(es, |REFUSALS|, n);
    }
    Texts5(Raw("spd_out_of_range_guard"), Num(a.outOfRange), Raw(""), Raw(""), Forced(GUARD_NOTE));
  }

  // ---------------------------------------------------------------- refused names

  /** The rows show these names and how often each occurs. */
  ghost predicate NamesRows(s: Section, es: seq<Emission>, ns: seq<string>) {
    && |s.rows| == |ns|
    && forall j: nat | j < |ns| :: Row3(s, j, ns[j], U64s(|Places(es, ByName(ns[j]))|), NAME_NOTE)
  }

  /** The first 64 distinct names that are not listed, in the names' order. */
  ghost predicate NamesKept(es: seq<Emission>, ns: seq<string>) {
    && (forall i, j | 0 <= i < j < |ns| :: StringLess(ns[i], ns[j]))
    && forall n :: n in ns <==> n in Admitted(UnknownOf(es), 64)
  }

  ghost predicate NamesShown(s: Section, es: seq<Emission>) {
    exists ns: seq<string> :: NamesKept(es, ns) && NamesRows(s, es, ns)
  }

  lemma {:induction false} NameRowAt(ns: Names, j: nat)
    ensures |NameRows(ns)| == |ns|
    ensures j < |ns| ==> NameRows(ns)[j] == [Auto(ns[j].text), Num(ns[j].count), Forced(NAME_NOTE)]
  {
    hide U64s;
    if ns != [] { NameRowAt(ns[..|ns|-1], j); }
  }

  function NamesIn(ns: Names): (ts: seq<string>)
    ensures |ts| == |ns| && forall j | 0 <= j < |ns| :: ts[j] == ns[j].text
  {
    if ns == [] then [] else NamesIn(ns[..|ns|-1]) + [ns[|ns|-1].text]
  }

  lemma NamesInAre(ns: Names, n: string)
    ensures n in NamesIn(ns) <==> HasName(ns, n)
  {
    hide NamesIn;
    if HasName(ns, n) {
      var j :| 0 <= j < |ns| && ns[j].text == n;
      assert NamesIn(ns)[j] == n;
    }
  }

  lemma {:induction false} NameAtPlace(ns: Names, j: nat)
    requires SortedNames(ns) && j < |ns|
    ensures NameAt(ns, ns[j].text) == Some(ns[j].count)
  {
    if j > 0 {
      StringLessTotal(ns[0].text, ns[j].text);
      NameAtPlace(ns[1..], j - 1);
    }
  }

  lemma NamesListed(es: seq<Emission>)
    ensures NamesKept(es, NamesIn(AggOf(es).rejected))
  {
    hide AggOf, NameAt, UnknownOf, Distinct, StringLess, HasName, NamesIn, Count;
    var ns := AggOf(es).rejected;
    NamesExact(es);
    forall n ensures n in NamesIn(ns) <==> n in Admitted(UnknownOf(es), 64) {
      NameAtIff(ns, n);
      NamesInAre(ns, n);
    }
  }

  lemma NamePlaced(es: seq<Emission>, j: nat)
    requires j < |AggOf(es).rejected|
    ensures AggOf(es).rejected[j].count == |Places(es, ByName(AggOf(es).rejected[j].text))|
  {
    hide AggOf, NameAt, UnknownOf, Distinct, StringLess, Places, Count;
    var ns := AggOf(es).rejected;
    NamesExact(es);
    NameAtPlace(ns, j);
    NameCounted(es, ns[j].text);
  }

  lemma NameRowShown(es: seq<Emission>, oversize: nat, j: nat)
    requires j < |AggOf(es).rejected|
    ensures var a := AggOf(es).(oversize := oversize);
            var name := a.rejected[j].text;
            Row3(NamesTable(a).Content(), j, name, U64s(|Places(es, ByName(name))|), NAME_NOTE)
  {
    hide AggOf, U64s, Table.Content, Row3, NameRows, Places, NAME_NOTE;
    var a := AggOf(es).(oversize := oversize);
    var n := a.rejected[j];
    NameRowAt(a.rejected, j);
    NamePlaced(es, j);
    Shown3(NamesTable(a), j, Auto(n.text), Num(n.count), Forced(NAME_NOTE));
  }

  lemma NamesAreShown(es: seq<Emission>, oversize: nat)
    ensures NamesShown(NamesTable(AggOf(es).(oversize := oversize)).Content(), es)
  {
    hide AggOf, U64s, Table.Content, Row3, NamesKept, NameRows, Places, NamesIn, NAME_NOTE;
    var a := AggOf(es).(oversize := oversize);
    var ns, t := a.rejected, NamesTable(a);
    NameRowAt(ns, 0);
    RowsOf(t);
    NamesListed(es);
    var ts := NamesIn(ns);
    forall j: nat | j < |ts| ensures Row3(t.Content(), j, ts[j], U64s(|Places(es, ByName(ts[j]))|), NAME_NOTE) {
      NameRowShown(es, oversize, j);
    }
    assert NamesRows(t.Content(), es, ts);
  }

  // ---------------------------------------------------------------- the whole document

  /** The six sections with their columns, in the order in which they are printed. */
  ghost predicate Columns(ss: seq<Section>) {
    && |ss| == 6
    && ss[0].name == "\U{E2}\U{98}\U{85}HOURLY_MODULE_COUNTS"
    && ss[0].header == ["bucket_start"] + G.NAMES + ["bucket_total"]
    && ss[1].name == "SUMMARY" && ss[1].header == ["metric", "value"]
    && ss[2].name == "MODULE_TOTALS" && ss[2].header == ["module", "count", "percent_of_accepted"]
    && ss[3].name == "LINE_DISPOSITION" && ss[3].header == ["disposition", "count", "description"]
    && ss[4].name == "CORRUPT_DIAGNOSTICS"
    && ss[4].header == ["reason", "count", "first_line_no", "first_byte_offset", "excerpt"]
    && ss[5].name == "REJECTED_MODULE_NAMES" && ss[5].header == ["module_name", "occurrences", "note"]
  }

  /** What the sections say of the lines `es`, beside which `oversize` lines were given up. */
  ghost predicate Says(ss: seq<Section>, es: seq<Emission>, oversize: nat, ctx: Context, fmt: Printf) {
    && Columns(ss)
    && HoursShown(ss[0], es)
    && CountsShown(ss[1], es, fmt) && TimesShown(ss[1], es) && SpeedsShown(ss[1], es, fmt) && RunShown(ss[1], ctx, fmt)
    && |ss[1].rows| == 15
    && TotalsShown(ss[2], es, fmt)
    && DispositionShown(ss[3], es, oversize)
    && DiagnosticsShown(ss[4], es)
    && NamesShown(ss[5], es)
  }

  lemma Texts3(a: Cell, b: Cell, c: Cell)
    ensures Texts([a, b, c]) == [a.text, b.text, c.text] && Texts([a, b]) == [a.text, b.text]
  {
    TextsAt([a, b, c], 0);
    TextsAt([a, b, c], 1);
    TextsAt([a, b, c], 2);
    TextsAt([a, b], 0);
    TextsAt([a, b], 1);
  }

  lemma HourColumns(a: Agg)
    requires a.Shaped()
    ensures Texts(HourTable(a).header) == ["bucket_start"] + G.NAMES + ["bucket_total"]
  {
    hide Texts;
    var h := HourTable(a).header;
    assert |h| == 7;
    forall i | 0 <= i < 7 ensures Texts(h)[i] == h[i].text { TextsAt(h, i); }
    assert G.NAMES == MODULES;
  }

  lemma ColumnsAre(a: Agg, ctx: Context, fmt: Printf)
    requires a.Shaped() && a.accepted <= a.total
    ensures Columns(Sections(Tables(a, ctx, fmt)))
  {
    hide Texts, U64s, HourRows, CountRows, SpeedRows, RunRows, TotalRows, ReasonRows, SampleRows, GuardRows, NameRows,
         AllTexts, Sections, ReasonKey, ReasonText, CheckTotal;
    SectionsOfSix(Tables(a, ctx, fmt));
    HourColumns(a);
    Texts3(Raw("metric"), Raw("value"), Raw(""));
    Texts3(Raw("module"), Raw("count"), Raw("percent_of_accepted"));
    Texts3(Raw("disposition"), Raw("count"), Raw("description"));
    Texts5(Raw("reason"), Raw("count"), Raw("first_line_no"), Raw("first_byte_offset"), Raw("excerpt"));
    Texts3(Raw("module_name"), Raw("occurrences"), Raw("note"));
  }

  /**
    Whatever lines were analysed, the document the client reads says this of them (unless the
    name of the source file opens a section of its own).
    */
  lemma DocumentSays(es: seq<Emission>, oversize: nat, ctx: Context, fmt: Printf)
    requires fmt.Plain() && Flat(ctx.utc) && !Contains(ctx.sourceFile, BREAK)
    ensures var a := AggOf(es).(oversize := oversize);
            Showable(a) && Says(ReadDocument(Document(a, ctx, fmt)), es, oversize, ctx, fmt)
  {
    hide AggOf, Printf.Plain, Contains, Document, ReadDocument, Columns, HoursShown, CountsShown, TimesShown,
         SpeedsShown, RunShown, TotalsShown, DispositionShown, DiagnosticsShown, NamesShown, Flat, FlatExcerpts,
         IdentNames, HourTable, SummaryTable, TotalsTable, DispositionTable, DiagnosticsTable, NamesTable,
         Table.Content, Sections;
    var a := AggOf(es).(oversize := oversize);
    ReachableIsShowable(es);
    DocumentRoundTrip(a, ctx, fmt);
    SectionsOfSix(Tables(a, ctx, fmt));
    ColumnsAre(a, ctx, fmt);
    HoursAreShown(es, oversize);
    SummaryCounts(es, oversize, ctx, fmt);
    SummaryTimes(es, oversize, ctx, fmt);
    SummarySpeeds(es, oversize, ctx, fmt);
    SummaryRun(a, ctx, fmt);
    SummaryRows(a, ctx, fmt);
    TotalsAre(es, oversize, fmt);
    DispositionIs(es, oversize);
    DiagnosticsAre(es, oversize);
    NamesAreShown(es, oversize);
  }

  lemma SummaryRows(a: Agg, ctx: Context, fmt: Printf)
    requires a.accepted <= a.total
    ensures |SummaryTable(a, ctx, fmt).Content().rows| == 15
  {
    hide CountRows, SpeedRows;
    RowCounts(a, fmt);
    RowsOf(SummaryTable(a, ctx, fmt));
  }

  // ---------------------------------------------------------------- excerpts

  /** Every character as an excerpt shows it. */
  function Escapes(s: string): string {
    if s == "" then "" else Escapes(s[..|s|-1]) + EscapeChar(s[|s|-1])
  }

  /** Printable characters show themselves, any other octet its two hexadecimal digits. */
  lemma EscapeIs(c: char)
    requires c as int < 256
    ensures if ' ' <= c <= '~' then EscapeChar(c) == [c]
            else exists hi: nat, lo: nat | hi < 16 && lo < 16 ::
                   16 * hi + lo == c as int
                   && EscapeChar(c) == "\\x" + ["0123456789ABCDEF"[hi], "0123456789ABCDEF"[lo]]
  {
    var hi, lo := c as int / 16, c as int % 16;
    assert 16 * hi + lo == c as int && hi < 16;
    if !(' ' <= c <= '~') { assert EscapeChar(c) == "\\x" + ["0123456789ABCDEF"[hi], "0123456789ABCDEF"[lo]]; }
  }

  lemma {:induction false} EscapedFrom(line: string, i: nat) returns (k: nat)
    requires i <= |line|
    requires i > 0 ==> |Escapes(line[..i-1])| < 160
    ensures i <= k <= |line| && EscapeFrom(line, i, Escapes(line[..i])) == Escapes(line[..k])
    ensures k < |line| ==> |Escapes(line[..k])| >= 160
    ensures k > 0 ==> |Escapes(line[..k-1])| < 160
    decreases |line| - i
  {
    hide EscapeChar;
    k := i;
    if i < |line| && |Escapes(line[..i])| < 160 {
      assert line[..i+1][..i] == line[..i];
      k := EscapedFrom(line, i + 1);
    }
  }

  /** An excerpt shows the line until 160 characters are reached, and that a longer line goes on. */
  lemma ExcerptIs(line: string) returns (k: nat)
    ensures k <= |line| && Excerpt(line) == Escapes(line[..k]) + (if |line| > 160 then "..." else "")
    ensures k < |line| ==> |Escapes(line[..k])| >= 160
    ensures k > 0 ==> |Escapes(line[..k-1])| < 160
  {
    hide EscapeChar;
    assert line[..0] == "";
    k := EscapedFrom(line, 0);
  }
}
