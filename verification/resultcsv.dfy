/**
  The result document: the statistics as tables, the program that prints them, and the proof
  that the client reads the same tables back.
  */
module ResultCsv {
  import opened LogLines
  import opened Aggregation
  import opened CsvLines
  import opened CsvDocuments
  import L = Lines

  // ---------------------------------------------------------------- numbers

  function DigitChar(d: nat): char
    requires d < 10
  {
    ('0' as int + d) as char
  }

  /** %llu */
  function U64s(n: nat): (s: string)
    ensures s != "" && Digits(s)
  {
    if n < 10 then [DigitChar(n)] else U64s(n / 10) + [DigitChar(n % 10)]
  }

  /** The last `w` digits of `n`. */
  function Fixed(n: nat, w: nat): (s: string)
    ensures |s| == w && Digits(s)
  {
    if w == 0 then "" else Fixed(n / 10, w - 1) + [DigitChar(n % 10)]
  }

  function Ten(w: nat): (r: nat)
    ensures r > 0
  {
    if w == 0 then 1 else 10 * Ten(w - 1)
  }

  /** %0<w>u */
  function Padded(n: nat, w: nat): (s: string)
    requires w > 0
    ensures s != "" && Digits(s)
  {
    if n < Ten(w) then Fixed(n, w) else U64s(n)
  }

  function FormatBucket(key: nat): string {
    Padded(key / 1000000, 4) + "-" + Padded(key / 10000 % 100, 2) + "-" + Padded(key / 100 % 100, 2)
    + " " + Padded(key % 100, 2) + ":00"
  }

  lemma {:induction false} FixedOfNumber(s: string)
    requires Digits(s)
    ensures Number(s) < Ten(|s|) && Fixed(Number(s), |s|) == s
  {
    if s != "" {
      FixedOfNumber(s[..|s|-1]);
      assert s == s[..|s|-1] + [s[|s|-1]];
    }
  }

  /** The label of a line's hour shows the line's own date and hour, character for character. */
  lemma LabelReproducesLine(ts: string)
    requires IsTimestamp(ts)
    ensures FormatBucket(BucketOf(ts)) == ts[1..11] + " " + ts[12..14] + ":00"
  {
    hide IsTimestamp, Number, Fixed, Digits;
    TimestampDigits(ts);
    var y, m, d, h := ts[1..5], ts[6..8], ts[9..11], ts[12..14];
    FixedOfNumber(y);
    FixedOfNumber(m);
    FixedOfNumber(d);
    FixedOfNumber(h);
    assert Ten(2) == 100 && Ten(4) == 10000;
    KeyParts(Number(y), Number(m), Number(d), Number(h));
    Dashes(ts);
  }

  lemma KeyParts(y: nat, m: nat, d: nat, h: nat)
    requires m < 100 && d < 100 && h < 100
    ensures var key := y * 1000000 + m * 10000 + d * 100 + h;
            && key / 1000000 == y && key / 10000 % 100 == m && key / 100 % 100 == d && key % 100 == h
  {
    var key := y * 1000000 + m * 10000 + d * 100 + h;
    var q2 := y * 100 + m;
    var q1 := q2 * 100 + d;
    Split100(q1, h);
    Split100(q2, d);
    Split100(y, m);
    assert key == q2 * 10000 + (d * 100 + h) && key / 10000 == q2;
    assert key == y * 1000000 + (m * 10000 + d * 100 + h) && key / 1000000 == y;
  }

  lemma Split100(q: nat, r: nat)
    requires r < 100
    ensures (q * 100 + r) / 100 == q && (q * 100 + r) % 100 == r
  {
  }

  lemma Dashes(ts: string)
    requires IsTimestamp(ts)
    ensures ts[1..11] == ts[1..5] + "-" + ts[6..8] + "-" + ts[9..11]
  {
    assert TimestampSlot(5) == '-' && TimestampSlot(8) == '-';
  }

  /** snprintf for numbers with a fraction; only that it prints no separator is used. */
  datatype Printf = Printf(fixed6: real -> string, fixed4: real -> string) {
    ghost predicate Plain() {
      forall v: real :: !NeedsQuotes(fixed6(v)) && !NeedsQuotes(fixed4(v))
    }
  }

  datatype Context = Context(utc: string, sourceFile: string, sourceBytes: nat, elapsedMs: nat, rssKb: nat)

  // ---------------------------------------------------------------- the tables

  const OVERSIZE_NOTE := "Line exceeded the maximum length" + " without a newline"

  const GUARD_NOTE := "Speed value outside" + " the accepted range" + " was excluded" + " from the average"

  const NAME_NOTE := "Not in the module whitelist" + " - excluded from all statistics"

  function Num(n: nat): Cell { Raw(U64s(n)) }

  function ModuleCells(counts: seq<nat>): (r: Row)
    requires |counts| == MODULE_COUNT
  {
    [Num(counts[0]), Num(counts[1]), Num(counts[2]), Num(counts[3]), Num(counts[4])]
  }

  function ModuleNames(): Row {
    [Raw(MODULES[0]), Raw(MODULES[1]), Raw(MODULES[2]), Raw(MODULES[3]), Raw(MODULES[4])]
  }

  function HourRow(h: Hour): Row
    requires |h.bucket.counts| == MODULE_COUNT
  {
    [Raw(FormatBucket(h.key))] + ModuleCells(h.bucket.counts) + [Num(h.bucket.total)]
  }

  function HourRows(hs: Hours): seq<Row>
    requires ShapedHours(hs)
  {
    if hs == [] then []
    else
      assert ShapedHours(hs[..|hs|-1]);
      HourRows(hs[..|hs|-1]) + [HourRow(hs[|hs|-1])]
  }

  function HourTable(a: Agg): Table
    requires a.Shaped()
  {
    Table("\U{E2}\U{98}\U{85}HOURLY_MODULE_COUNTS",
          [Raw("bucket_start")] + ModuleNames() + [Raw("bucket_total")], HourRows(a.hours))
  }

  function Ratio(part: nat, whole: nat): real {
    if whole > 0 then 100.0 * part as real / whole as real else 0.0
  }

  function Average(s: Speeds): real {
    if s.n > 0 then s.sum / s.n as real else 0.0
  }

  function Throughput(ctx: Context): real {
    var secs := ctx.elapsedMs as real / 1000.0;
    if secs > 0.0 then ctx.sourceBytes as real / (1024.0 * 1024.0) / secs else 0.0
  }

  function SpeedRows(a: Agg, fmt: Printf): seq<Row> {
    var s := a.speeds;
    if s.n > 0 then
      [[Raw("\U{E2}\U{98}\U{85}spd_average"), Raw(fmt.fixed6(Average(s)))],
       [Raw("spd_min"), Raw(fmt.fixed6(s.range.min))],
       [Raw("spd_max"), Raw(fmt.fixed6(s.range.max))]]
    else
      [[Raw("\U{E2}\U{98}\U{85}spd_average"), Raw("")], [Raw("spd_min"), Raw("")], [Raw("spd_max"), Raw("")]]
  }

  function CountRows(a: Agg, fmt: Printf): seq<Row>
    requires a.accepted <= a.total
  {
    [[Raw("total_lines"), Num(a.total)],
     [Raw("accepted_lines"), Num(a.accepted)],
     [Raw("rejected_lines"), Num(a.total - a.accepted)],
     [Raw("rejected_ratio_pct"), Raw(fmt.fixed6(Ratio(a.total - a.accepted, a.total)))],
     [Raw("hour_buckets"), Num(|a.hours|)],
     [Raw("time_range_start"), Auto(a.firstTs)],
     [Raw("time_range_end"), Auto(a.lastTs)],
     [Raw("spd_samples"), Num(a.speeds.n)],
     [Raw("spd_sum"), Raw(fmt.fixed6(a.speeds.sum))]]
  }

  function RunRows(ctx: Context, fmt: Printf): seq<Row> {
    [[Raw("processing_ms"), Num(ctx.elapsedMs)],
     [Raw("throughput_mib_per_sec"), Raw(fmt.fixed4(Throughput(ctx)))],
     [Raw("peak_rss_kb"), Num(ctx.rssKb)]]
  }

  function SummaryTable(a: Agg, ctx: Context, fmt: Printf): Table
    requires a.accepted <= a.total
  {
    Table("SUMMARY", [Raw("metric"), Raw("value")],
          CountRows(a, fmt) + SpeedRows(a, fmt) + RunRows(ctx, fmt))
  }

  function TotalRows(a: Agg, fmt: Printf, n: nat): seq<Row>
    requires a.Shaped() && n <= MODULE_COUNT
  {
    if n == 0 then []
    else
      var c := a.modules[n-1];
      var whole := if a.accepted > 0 then a.accepted as real else 1.0;
      TotalRows(a, fmt, n - 1) + [[Raw(MODULES[n-1]), Num(c), Raw(fmt.fixed4(100.0 * c as real / whole))]]
  }

  function TotalsTable(a: Agg, fmt: Printf): Table
    requires a.Shaped()
  {
    Table("MODULE_TOTALS", [Raw("module"), Raw("count"), Raw("percent_of_accepted")],
          TotalRows(a, fmt, MODULE_COUNT))
  }

  function ReasonKey(i: nat): string {
    match i
    case 0 => "accepted"
    case 1 => "rejected_too_short"
    case 2 => "rejected_missing_open_bracket"
    case 3 => "rejected_bad_timestamp"
    case 4 => "rejected_garbage_payload"
    case 5 => "rejected_missing_close_bracket"
    case 6 => "rejected_missing_byda_tag"
    case 7 => "rejected_bad_module_name"
    case 8 => "rejected_unknown_module"
    case _ => "rejected_unknown"
  }

  function ReasonText(i: nat): string {
    match i
    case 0 => "Header valid and module in whitelist"
    case 1 => "Line shorter than the minimum valid header"
    case 2 => "Line does not start with '['"
    case 3 => "Timestamp block does not match" + " the fixed layout"
    case 4 => "Timestamp present but no" + " PID/TID/SEQ structure"
    case 5 => "PID/TID/SEQ field not terminated by ']'"
    case 6 => "Missing the ' BYDA::' tag"
    case 7 => "Module name malformed" + " or not followed by ': '"
    case 8 => "Header valid but module is not" + " in the whitelist"
    case _ => "Unknown"
  }

  /** The rows of the first `n` refusal reasons. */
  function ReasonRows(cs: seq<Corrupt>, n: nat): seq<Row>
    requires n <= |cs|
  {
    if n <= 1 then []
    else ReasonRows(cs, n - 1) + [[Raw(ReasonKey(n - 1)), Num(cs[n-1].count), Auto(ReasonText(n - 1))]]
  }

  function SumReasons(cs: seq<Corrupt>, n: nat): nat
    requires n <= |cs|
  {
    if n <= 1 then 0 else SumReasons(cs, n - 1) + cs[n-1].count
  }

  function CheckTotal(a: Agg): nat
    requires a.Shaped()
  {
    a.accepted + SumReasons(a.corrupt, REASON_COUNT) + a.oversize
  }

  function DispositionTable(a: Agg): Table
    requires a.Shaped()
  {
    Table("LINE_DISPOSITION", [Raw("disposition"), Raw("count"), Raw("description")],
          [[Raw(ReasonKey(0)), Num(a.accepted), Auto(ReasonText(0))]]
          + ReasonRows(a.corrupt, REASON_COUNT)
          + [[Raw("rejected_oversize_line"), Num(a.oversize),
              Forced(OVERSIZE_NOTE)],
             [Raw("TOTAL"), Num(CheckTotal(a)), Forced("Must equal total_lines (" + U64s(a.total) + ")")]])
  }

  function SampleRows(cs: seq<Corrupt>, n: nat): seq<Row>
    requires n <= |cs|
  {
    if n <= 1 then []
    else
      var c := cs[n-1];
      SampleRows(cs, n - 1)
      + if c.count == 0 then []
        else [[Raw(ReasonKey(n - 1)), Num(c.count), Num(c.firstLine), Num(c.firstOffset), Auto(c.excerpt)]]
  }

  function GuardRows(outOfRange: nat): seq<Row> {
    if outOfRange == 0 then []
    else [[Raw("spd_out_of_range_guard"), Num(outOfRange), Raw(""), Raw(""),
           Forced(GUARD_NOTE)]]
  }

  function DiagnosticsTable(a: Agg): Table
    requires a.Shaped()
  {
    Table("CORRUPT_DIAGNOSTICS",
          [Raw("reason"), Raw("count"), Raw("first_line_no"), Raw("first_byte_offset"), Raw("excerpt")],
          SampleRows(a.corrupt, REASON_COUNT) + GuardRows(a.outOfRange))
  }

  function NameRows(ns: Names): seq<Row> {
    if ns == [] then []
    else
      var n := ns[|ns|-1];
      NameRows(ns[..|ns|-1])
      + [[Auto(n.text), Num(n.count), Forced(NAME_NOTE)]]
  }

  function NamesTable(a: Agg): Table {
    Table("REJECTED_MODULE_NAMES", [Raw("module_name"), Raw("occurrences"), Raw("note")], NameRows(a.rejected))
  }

  function Tables(a: Agg, ctx: Context, fmt: Printf): seq<Table>
    requires a.Shaped() && a.accepted <= a.total
  {
    [HourTable(a), SummaryTable(a, ctx, fmt), TotalsTable(a, fmt), DispositionTable(a), DiagnosticsTable(a),
     NamesTable(a)]
  }

  // ---------------------------------------------------------------- the tables can be read back

  /** What the document needs of the free text in the statistics. */
  ghost predicate Showable(a: Agg) {
    && a.Shaped() && a.accepted <= a.total && Flat(a.firstTs) && Flat(a.lastTs)
    && FlatExcerpts(a.corrupt) && IdentNames(a.rejected)
  }

  predicate FlatExcerpts(cs: seq<Corrupt>) {
    forall i | 0 <= i < |cs| :: Flat(cs[i].excerpt)
  }

  predicate IdentNames(ns: Names) {
    forall i | 0 <= i < |ns| :: ns[i].text != "" && Ident(ns[i].text)
  }

  predicate Word(s: string) {
    s != "" && !NeedsQuotes(s) && s[0] != '#' && s[0] != '['
  }

  lemma RawFits(s: string)
    requires !NeedsQuotes(s)
    ensures Raw(s).Fits() && Auto(s).Fits()
  {
    forall i | 0 <= i < |s| ensures !Special(s[i]) {}
  }

  lemma DigitsFit(s: string)
    requires Digits(s) && s != ""
    ensures Word(s)
  {
  }

  lemma NumFits(n: nat)
    ensures Num(n).Fits() && Word(U64s(n))
  {
    hide U64s;
    DigitsFit(U64s(n));
    RawFits(U64s(n));
  }

  lemma LabelFits(key: nat)
    ensures Word(FormatBucket(key)) && Raw(FormatBucket(key)).Fits()
  {
    hide Padded;
    var y := Padded(key / 1000000, 4);
    var m := Padded(key / 10000 % 100, 2);
    var d := Padded(key / 100 % 100, 2);
    var h := Padded(key % 100, 2);
    forall x | x in {y, m, d, h} ensures Word(x) { DigitsFit(x); }
    PlainConcat(y, "-");
    PlainConcat(y + "-", m);
    PlainConcat(y + "-" + m, "-");
    PlainConcat(y + "-" + m + "-", d);
    PlainConcat(y + "-" + m + "-" + d, " ");
    PlainConcat(y + "-" + m + "-" + d + " ", h);
    PlainConcat(y + "-" + m + "-" + d + " " + h, ":00");
    RawFits(FormatBucket(key));
  }

  lemma PlainConcat(a: string, b: string)
    requires !NeedsQuotes(a) && !NeedsQuotes(b)
    ensures !NeedsQuotes(a + b)
  {
    forall i | 0 <= i < |a + b| ensures !Special((a + b)[i]) {
      assert if i < |a| then !Special(a[i]) else !Special(b[i-|a|]);
    }
  }

  lemma ModuleWords()
    ensures forall i | 0 <= i < |MODULES| :: Word(MODULES[i])
  {
    assert Word("RadarTrackNodeState") && Word("AntennaProfileSpec");
    assert Word("SectorSchedulerRTS") && Word("DetectionTaskRunner") && Word("BeamSteerCtrlUnitImpl");
  }

  lemma NumRowFits(r: Row)
    requires r != [] && forall i | 0 <= i < |r| :: r[i].Raw? && !NeedsQuotes(r[i].text)
    requires Word(r[0].text)
    ensures FitsRow(r)
  {
    hide Cell.Fits, NeedsQuotes;
    forall i | 0 <= i < |r| ensures r[i].Fits() { RawFits(r[i].text); }
    WordStarts(r[0].text);
  }

  lemma WordStarts(s: string)
    requires Word(s)
    ensures s != "" && s[0] != '#' && s[0] != '['
  {
  }

  lemma HourRowFits(h: Hour)
    requires |h.bucket.counts| == MODULE_COUNT
    ensures FitsRow(HourRow(h))
  {
    hide U64s, FormatBucket, NeedsQuotes, Word;
    LabelFits(h.key);
    WordPlain(FormatBucket(h.key));
    forall n: nat ensures !NeedsQuotes(U64s(n)) { NumFits(n); WordPlain(U64s(n)); }
    NumRowFits(HourRow(h));
  }

  lemma WordPlain(s: string)
    requires Word(s)
    ensures !NeedsQuotes(s)
  {
  }

  lemma {:induction false} HourRowsFit(hs: Hours)
    requires ShapedHours(hs)
    ensures forall i | 0 <= i < |HourRows(hs)| :: FitsRow(HourRows(hs)[i])
  {
    if hs != [] {
      hide HourRow, FitsRow;
      assert ShapedHours(hs[..|hs|-1]);
      HourRowsFit(hs[..|hs|-1]);
      HourRowFits(hs[|hs|-1]);
    }
  }

  lemma HourTableFits(a: Agg)
    requires a.Shaped()
    ensures HourTable(a).Fits()
  {
    hide HourRows, NeedsQuotes, Word;
    HourRowsFit(a.hours);
    ModuleWords();
    forall i | 0 <= i < |MODULES| ensures !NeedsQuotes(MODULES[i]) { WordPlain(MODULES[i]); }
    assert Word("bucket_start") && Word("bucket_total") by { HeaderWords(); }
    WordPlain("bucket_start");
    WordPlain("bucket_total");
    NumRowFits(HourTable(a).header);
    HourName();
  }

  lemma HourName()
    ensures Flat("\U{E2}\U{98}\U{85}HOURLY_MODULE_COUNTS")
    ensures TrimStart(TrimEnd("\U{E2}\U{98}\U{85}HOURLY_MODULE_COUNTS")) == "\U{E2}\U{98}\U{85}HOURLY_MODULE_COUNTS"
  {
    TrimNothing("\U{E2}\U{98}\U{85}HOURLY_MODULE_COUNTS");
  }

  lemma TrimNothing(s: string)
    requires s != "" && !IsWhite(s[0]) && !IsWhite(s[|s|-1])
    ensures TrimStart(TrimEnd(s)) == s
  {
  }

  lemma HeaderWords()
    ensures Word("bucket_start") && Word("bucket_total")
  {
  }

  ghost predicate FitRows(rows: seq<Row>) {
    forall i | 0 <= i < |rows| :: FitsRow(rows[i])
  }

  lemma FitRowsConcat(a: seq<Row>, b: seq<Row>)
    requires FitRows(a) && FitRows(b)
    ensures FitRows(a + b)
  {
  }

  lemma PairFits(name: string, c: Cell)
    requires Word(name) && c.Fits()
    ensures FitsRow([Raw(name), c])
  {
    hide Cell.Fits, NeedsQuotes;
    WordPlain(name);
    RawFits(name);
    WordStarts(name);
  }

  lemma CountWords()
    ensures Word("total_lines") && Word("accepted_lines") && Word("rejected_lines")
    ensures Word("rejected_ratio_pct") && Word("hour_buckets") && Word("time_range_start")
  {
  }

  lemma SpeedWords()
    ensures Word("time_range_end") && Word("spd_samples") && Word("spd_sum")
    ensures Word("\U{E2}\U{98}\U{85}spd_average") && Word("spd_min") && Word("spd_max")
  {
  }

  lemma RunWords()
    ensures Word("processing_ms") && Word("throughput_mib_per_sec") && Word("peak_rss_kb")
    ensures Word("metric") && Word("value")
  {
  }

  lemma AutoFits(s: string)
    requires Flat(s)
    ensures Auto(s).Fits()
  {
  }

  lemma PlainFits(fmt: Printf, v: real)
    requires fmt.Plain()
    ensures Raw(fmt.fixed6(v)).Fits() && Raw(fmt.fixed4(v)).Fits()
  {
    RawFits(fmt.fixed6(v));
    RawFits(fmt.fixed4(v));
  }

  lemma CountRowsFit(a: Agg, fmt: Printf)
    requires Showable(a) && fmt.Plain()
    ensures FitRows(CountRows(a, fmt))
  {
    hide Word, Cell.Fits, NeedsQuotes, Num, FitsRow, Ratio;
    CountWords();
    SpeedWords();
    NumFits(a.total);
    NumFits(a.accepted);
    NumFits(a.total - a.accepted);
    NumFits(|a.hours|);
    NumFits(a.speeds.n);
    PlainFits(fmt, Ratio(a.total - a.accepted, a.total));
    PlainFits(fmt, a.speeds.sum);
    AutoFits(a.firstTs);
    AutoFits(a.lastTs);
    PairFits("total_lines", Num(a.total));
    PairFits("accepted_lines", Num(a.accepted));
    PairFits("rejected_lines", Num(a.total - a.accepted));
    PairFits("rejected_ratio_pct", Raw(fmt.fixed6(Ratio(a.total - a.accepted, a.total))));
    PairFits("hour_buckets", Num(|a.hours|));
    PairFits("time_range_start", Auto(a.firstTs));
    PairFits("time_range_end", Auto(a.lastTs));
    PairFits("spd_samples", Num(a.speeds.n));
    PairFits("spd_sum", Raw(fmt.fixed6(a.speeds.sum)));
  }

  lemma SpeedRowsFit(a: Agg, fmt: Printf)
    requires fmt.Plain()
    ensures FitRows(SpeedRows(a, fmt))
  {
    hide Word, Cell.Fits, NeedsQuotes, FitsRow, Average;
    SpeedWords();
    RawFitsEmpty();
    PlainFits(fmt, Average(a.speeds));
    PlainFits(fmt, a.speeds.range.min);
    PlainFits(fmt, a.speeds.range.max);
    var rows := SpeedRows(a, fmt);
    PairFits("\U{E2}\U{98}\U{85}spd_average", rows[0][1]);
    PairFits("spd_min", rows[1][1]);
    PairFits("spd_max", rows[2][1]);
  }

  lemma RawFitsEmpty()
    ensures Raw("").Fits()
  {
  }

  lemma SummaryTableFits(a: Agg, ctx: Context, fmt: Printf)
    requires Showable(a) && fmt.Plain()
    ensures SummaryTable(a, ctx, fmt).Fits()
  {
    hide Word, Cell.Fits, NeedsQuotes, Num, FitsRow, CountRows, SpeedRows, Throughput;
    CountRowsFit(a, fmt);
    SpeedRowsFit(a, fmt);
    RunWords();
    NumFits(ctx.elapsedMs);
    NumFits(ctx.rssKb);
    PlainFits(fmt, Throughput(ctx));
    PairFits("processing_ms", Num(ctx.elapsedMs));
    PairFits("throughput_mib_per_sec", Raw(fmt.fixed4(Throughput(ctx))));
    PairFits("peak_rss_kb", Num(ctx.rssKb));
    FitRowsConcat(CountRows(a, fmt), SpeedRows(a, fmt));
    FitRowsConcat(CountRows(a, fmt) + SpeedRows(a, fmt), RunRows(ctx, fmt));
    WordPlain("value");
    RawFits("value");
    PairFits("metric", Raw("value"));
    SummaryName();
  }

  lemma SummaryName()
    ensures Flat("SUMMARY") && TrimStart(TrimEnd("SUMMARY")) == "SUMMARY"
    ensures Flat("MODULE_TOTALS") && TrimStart(TrimEnd("MODULE_TOTALS")) == "MODULE_TOTALS"
    ensures Flat("LINE_DISPOSITION") && TrimStart(TrimEnd("LINE_DISPOSITION")) == "LINE_DISPOSITION"
  {
    TrimNothing("SUMMARY");
    TrimNothing("MODULE_TOTALS");
    TrimNothing("LINE_DISPOSITION");
  }

  lemma OtherNames()
    ensures Flat("CORRUPT_DIAGNOSTICS") && TrimStart(TrimEnd("CORRUPT_DIAGNOSTICS")) == "CORRUPT_DIAGNOSTICS"
    ensures Flat("REJECTED_MODULE_NAMES") && TrimStart(TrimEnd("REJECTED_MODULE_NAMES")) == "REJECTED_MODULE_NAMES"
  {
    TrimNothing("CORRUPT_DIAGNOSTICS");
    TrimNothing("REJECTED_MODULE_NAMES");
  }

  lemma TripleFits(name: string, c: Cell, d: Cell)
    requires Word(name) && c.Fits() && d.Fits()
    ensures FitsRow([Raw(name), c, d])
  {
    hide Cell.Fits, NeedsQuotes;
    WordPlain(name);
    RawFits(name);
    WordStarts(name);
  }

  lemma {:induction false} TotalRowsFit(a: Agg, fmt: Printf, n: nat)
    requires a.Shaped() && fmt.Plain() && n <= MODULE_COUNT
    ensures FitRows(TotalRows(a, fmt, n))
  {
    if n > 0 {
      hide Word, Cell.Fits, NeedsQuotes, Num, FitsRow;
      TotalRowsFit(a, fmt, n - 1);
      var c := a.modules[n-1];
      var whole := if a.accepted > 0 then a.accepted as real else 1.0;
      ModuleWords();
      NumFits(c);
      PlainFits(fmt, 100.0 * c as real / whole);
      TripleFits(MODULES[n-1], Num(c), Raw(fmt.fixed4(100.0 * c as real / whole)));
    }
  }

  lemma TotalsWords()
    ensures Word("module") && Word("count") && Word("percent_of_accepted")
    ensures Word("disposition") && Word("description") && Word("reason") && Word("excerpt")
  {
  }

  lemma TotalsTableFits(a: Agg, fmt: Printf)
    requires a.Shaped() && fmt.Plain()
    ensures TotalsTable(a, fmt).Fits()
  {
    hide Word, Cell.Fits, NeedsQuotes, Num, FitsRow, TotalRows;
    TotalRowsFit(a, fmt, MODULE_COUNT);
    TotalsWords();
    WordFits("count");
    WordFits("percent_of_accepted");
    TripleFits("module", Raw("count"), Raw("percent_of_accepted"));
    SummaryName();
  }

  lemma WordFits(s: string)
    requires Word(s)
    ensures Raw(s).Fits() && Auto(s).Fits()
  {
    WordPlain(s);
    RawFits(s);
  }

  lemma ReasonFits0()
    ensures Word("accepted") && Flat("Header valid and module in whitelist")
  {
  }

  lemma ReasonFits1()
    ensures Word("rejected_too_short") && Flat("Line shorter than the minimum valid header")
  {
  }

  lemma ReasonFits2()
    ensures Word("rejected_missing_open_bracket") && Flat("Line does not start with '['")
  {
  }

  lemma ReasonFits3()
    ensures Word("rejected_bad_timestamp") && Flat("Timestamp block does not match" + " the fixed layout")
  {
    assert Flat("Timestamp block does not match") && Flat(" the fixed layout");
  }

  lemma ReasonFits4()
    ensures Word("rejected_garbage_payload") && Flat("Timestamp present but no" + " PID/TID/SEQ structure")
  {
    assert Flat("Timestamp present but no") && Flat(" PID/TID/SEQ structure");
  }

  lemma ReasonFits5()
    ensures Word("rejected_missing_close_bracket") && Flat("PID/TID/SEQ field not terminated by ']'")
  {
  }

  lemma ReasonFits6()
    ensures Word("rejected_missing_byda_tag") && Flat("Missing the ' BYDA::' tag")
  {
  }

  lemma ReasonFits7()
    ensures Word("rejected_bad_module_name") && Flat("Module name malformed" + " or not followed by ': '")
  {
    assert Flat("Module name malformed") && Flat(" or not followed by ': '");
  }

  lemma ReasonFits8()
    ensures Word("rejected_unknown_module") && Flat("Header valid but module is not" + " in the whitelist")
  {
    assert Flat("Header valid but module is not") && Flat(" in the whitelist");
  }

  lemma ReasonFits(i: nat)
    requires i < REASON_COUNT
    ensures Word(ReasonKey(i)) && Auto(ReasonText(i)).Fits()
  {
    hide Word, Flat;
    match i {
      case 0 => ReasonFits0();
      case 1 => ReasonFits1();
      case 2 => ReasonFits2();
      case 3 => ReasonFits3();
      case 4 => ReasonFits4();
      case 5 => ReasonFits5();
      case 6 => ReasonFits6();
      case 7 => ReasonFits7();
      case 8 => ReasonFits8();
      case _ =>
    }
    assert Flat(ReasonText(i));
    AutoFits(ReasonText(i));
  }

  lemma ReasonRowFits(i: nat, count: nat)
    requires i < REASON_COUNT
    ensures FitsRow([Raw(ReasonKey(i)), Num(count), Auto(ReasonText(i))])
  {
    hide Word, Cell.Fits, NeedsQuotes, Num, FitsRow, ReasonKey, ReasonText;
    ReasonFits(i);
    NumFits(count);
    TripleFits(ReasonKey(i), Num(count), Auto(ReasonText(i)));
  }

  lemma {:induction false} ReasonRowsFit(cs: seq<Corrupt>, n: nat)
    requires n <= |cs| == REASON_COUNT
    ensures FitRows(ReasonRows(cs, n))
  {
    if n > 1 {
      hide Word, Cell.Fits, NeedsQuotes, Num, FitsRow, ReasonKey, ReasonText;
      ReasonRowsFit(cs, n - 1);
      ReasonRowFits(n - 1, cs[n-1].count);
    }
  }

  lemma OversizeText()
    ensures Word("rejected_oversize_line") && Word("TOTAL")
    ensures Forced(OVERSIZE_NOTE).Fits()
  {
    assert !NeedsQuotes("Line exceeded the maximum length") && !NeedsQuotes(" without a newline");
    PlainConcat("Line exceeded the maximum length", " without a newline");
    ForcedFits(OVERSIZE_NOTE);
  }

  lemma CheckTextFits(n: nat)
    ensures Forced("Must equal total_lines (" + U64s(n) + ")").Fits()
  {
    hide U64s;
    NumFits(n);
    assert !NeedsQuotes("Must equal total_lines (") && !NeedsQuotes(")");
    PlainConcat("Must equal total_lines (", U64s(n));
    PlainConcat("Must equal total_lines (" + U64s(n), ")");
    ForcedFits("Must equal total_lines (" + U64s(n) + ")");
  }

  lemma ForcedFits(s: string)
    requires !NeedsQuotes(s)
    ensures Forced(s).Fits()
  {
    forall i | 0 <= i < |s| ensures !Special(s[i]) {}
  }

  lemma DispositionTableFits(a: Agg)
    requires a.Shaped()
    ensures DispositionTable(a).Fits()
  {
    hide Word, Cell.Fits, NeedsQuotes, Num, FitsRow, ReasonRows, ReasonKey, ReasonText, CheckTotal;
    var first := [[Raw(ReasonKey(0)), Num(a.accepted), Auto(ReasonText(0))]];
    var reasons := ReasonRows(a.corrupt, REASON_COUNT);
    ReasonFits(0);
    NumFits(a.accepted);
    TripleFits(ReasonKey(0), Num(a.accepted), Auto(ReasonText(0)));
    ReasonRowsFit(a.corrupt, REASON_COUNT);
    OversizeText();
    CheckTextFits(a.total);
    NumFits(a.oversize);
    NumFits(CheckTotal(a));
    TripleFits("rejected_oversize_line", Num(a.oversize), Forced(OVERSIZE_NOTE));
    TripleFits("TOTAL", Num(CheckTotal(a)), Forced("Must equal total_lines (" + U64s(a.total) + ")"));
    FitRowsConcat(first, reasons);
    TotalsWords();
    WordFits("count");
    WordFits("description");
    TripleFits("disposition", Raw("count"), Raw("description"));
    SummaryName();
  }

  lemma FiveFits(name: string, b: Cell, c: Cell, d: Cell, e: Cell)
    requires Word(name) && b.Fits() && c.Fits() && d.Fits() && e.Fits()
    ensures FitsRow([Raw(name), b, c, d, e])
  {
    hide Cell.Fits, NeedsQuotes;
    WordPlain(name);
    RawFits(name);
    WordStarts(name);
  }

  lemma {:induction false} SampleRowsFit(cs: seq<Corrupt>, n: nat)
    requires n <= |cs| == REASON_COUNT && FlatExcerpts(cs)
    ensures FitRows(SampleRows(cs, n))
  {
    if n > 1 {
      hide Word, Cell.Fits, NeedsQuotes, Num, FitsRow, ReasonKey;
      SampleRowsFit(cs, n - 1);
      var c := cs[n-1];
      ReasonFits(n - 1);
      NumFits(c.count);
      NumFits(c.firstLine);
      NumFits(c.firstOffset);
      AutoFits(c.excerpt);
      FiveFits(ReasonKey(n - 1), Num(c.count), Num(c.firstLine), Num(c.firstOffset), Auto(c.excerpt));
    }
  }

  lemma GuardWord()
    ensures Word("spd_out_of_range_guard")
  {
  }

  lemma GuardWords()
    ensures !NeedsQuotes("Speed value outside") && !NeedsQuotes(" the accepted range")
    ensures !NeedsQuotes(" was excluded") && !NeedsQuotes(" from the average")
  {
  }

  lemma GuardText()
    ensures Forced(GUARD_NOTE).Fits()
  {
    GuardWords();
    var a, b, c, d := "Speed value outside", " the accepted range", " was excluded", " from the average";
    PlainConcat(a, b);
    PlainConcat(a + b, c);
    PlainConcat(a + b + c, d);
    ForcedFits(GUARD_NOTE);
  }

  lemma DiagnosticsWords()
    ensures Word("first_line_no") && Word("first_byte_offset")
  {
  }

  lemma DiagnosticsTableFits(a: Agg)
    requires Showable(a)
    ensures DiagnosticsTable(a).Fits()
  {
    hide Word, Cell.Fits, NeedsQuotes, Num, FitsRow, SampleRows;
    SampleRowsFit(a.corrupt, REASON_COUNT);
    GuardWord();
    GuardText();
    RawFitsEmpty();
    NumFits(a.outOfRange);
    FiveFits("spd_out_of_range_guard", Num(a.outOfRange), Raw(""), Raw(""),
             Forced(GUARD_NOTE));
    FitRowsConcat(SampleRows(a.corrupt, REASON_COUNT), GuardRows(a.outOfRange));
    TotalsWords();
    DiagnosticsWords();
    WordFits("count");
    WordFits("first_line_no");
    WordFits("first_byte_offset");
    WordFits("excerpt");
    FiveFits("reason", Raw("count"), Raw("first_line_no"), Raw("first_byte_offset"), Raw("excerpt"));
    OtherNames();
  }

  lemma NoteText()
    ensures Forced(NAME_NOTE).Fits()
    ensures Word("module_name") && Word("occurrences") && Word("note")
  {
    assert !NeedsQuotes("Not in the module whitelist") && !NeedsQuotes(" - excluded from all statistics");
    PlainConcat("Not in the module whitelist", " - excluded from all statistics");
    ForcedFits(NAME_NOTE);
  }

  lemma IdentFits(s: string)
    requires Ident(s) && s != ""
    ensures Word(s)
  {
  }

  lemma NameRowFits(s: string, c: Cell, d: Cell)
    requires Word(s) && c.Fits() && d.Fits()
    ensures FitsRow([Auto(s), c, d])
  {
    hide Cell.Fits, NeedsQuotes;
    WordPlain(s);
    RawFits(s);
    WordStarts(s);
  }

  lemma {:induction false} NameRowsFit(ns: Names)
    requires IdentNames(ns)
    ensures FitRows(NameRows(ns))
  {
    if ns != [] {
      hide Word, Cell.Fits, NeedsQuotes, Num, FitsRow, Ident;
      NameRowsFit(ns[..|ns|-1]);
      var n := ns[|ns|-1];
      NoteText();
      NumFits(n.count);
      IdentFits(n.text);
      NameRowFits(n.text, Num(n.count), Forced(NAME_NOTE));
    }
  }

  lemma NamesTableFits(a: Agg)
    requires Showable(a)
    ensures NamesTable(a).Fits()
  {
    hide Word, Cell.Fits, NeedsQuotes, Num, FitsRow, NameRows;
    NameRowsFit(a.rejected);
    NoteText();
    WordFits("occurrences");
    WordFits("note");
    TripleFits("module_name", Raw("occurrences"), Raw("note"));
    OtherNames();
  }

  lemma TablesFit(a: Agg, ctx: Context, fmt: Printf)
    requires Showable(a) && fmt.Plain()
    ensures FitTables(Tables(a, ctx, fmt))
  {
    hide Table.Fits, HourTable, SummaryTable, TotalsTable, DispositionTable, DiagnosticsTable, NamesTable;
    HourTableFits(a);
    SummaryTableFits(a, ctx, fmt);
    TotalsTableFits(a, fmt);
    DispositionTableFits(a);
    DiagnosticsTableFits(a);
    NamesTableFits(a);
  }

  // ---------------------------------------------------------------- the document

  function Front(utc: string): string {
    "\U{EF}\U{BB}\U{BF}# Zhenyu_LoggerAnalyzer result" + "\n# schema_version,1" + "\n# generated_utc," + utc
    + "\n# source_file,"
  }

  function Whitelist(n: nat): string
    requires n <= MODULE_COUNT
  {
    if n == 0 then "" else Whitelist(n - 1) + (if n > 1 then ";" else "") + MODULES[n-1]
  }

  function Back(ctx: Context, fmt: Printf): string {
    "\n# source_bytes," + U64s(ctx.sourceBytes) + "\n# bucket_unit,hour"
    + "\n# module_whitelist,\"" + Whitelist(MODULE_COUNT) + "\""
    + "\n# spd_range_gate,\"[" + fmt.fixed6(SPD_MIN) + ", " + fmt.fixed6(SPD_MAX) + "]\""
  }

  function Prelude(ctx: Context, fmt: Printf): string {
    Front(ctx.utc) + Quoted(ctx.sourceFile) + Back(ctx, fmt) + "\n" + "\n"
  }

  function Document(a: Agg, ctx: Context, fmt: Printf): string
    requires Showable(a) && fmt.Plain()
  {
    TablesFit(a, ctx, fmt);
    Prelude(ctx, fmt) + L.Unlines(TableLines(Tables(a, ctx, fmt)))
  }

  lemma FrontGuarded(utc: string)
    requires Flat(utc)
    ensures Guarded(Front(utc))
  {
    var a := "\U{EF}\U{BB}\U{BF}# Zhenyu_LoggerAnalyzer result";
    assert Flat(a);
    assert Guarded("\n# schema_version,1") && Guarded("\n# generated_utc,") && Guarded("\n# source_file,");
    GuardedConcat(a, "\n# schema_version,1");
    GuardedConcat(a + "\n# schema_version,1", "\n# generated_utc,");
    GuardedConcat(a + "\n# schema_version,1" + "\n# generated_utc,", utc);
    GuardedConcat(a + "\n# schema_version,1" + "\n# generated_utc," + utc, "\n# source_file,");
  }

  lemma {:induction false} WhitelistFlat(n: nat)
    requires n <= MODULE_COUNT
    ensures Flat(Whitelist(n))
  {
    hide Word;
    if n > 0 {
      WhitelistFlat(n - 1);
      ModuleWords();
      WordFits(MODULES[n-1]);
      FlatParts(Whitelist(n - 1), if n > 1 then ";" else "", MODULES[n-1]);
    }
  }

  lemma FlatParts(a: string, b: string, c: string)
    requires Flat(a) && Flat(b) && Flat(c)
    ensures Flat(a + b + c)
  {
  }

  lemma BackGuarded(ctx: Context, fmt: Printf)
    requires fmt.Plain()
    ensures Guarded(Back(ctx, fmt))
  {
    hide U64s, Guarded, Flat, Whitelist;
    var a, b, c := "\n# source_bytes,", U64s(ctx.sourceBytes), "\n# bucket_unit,hour";
    var d, e, f := "\n# module_whitelist,\"", Whitelist(MODULE_COUNT), "\"";
    var g, h, i := "\n# spd_range_gate,\"[", fmt.fixed6(SPD_MIN), ", ";
    var j, k := fmt.fixed6(SPD_MAX), "]\"";
    BackPieces();
    NumFits(ctx.sourceBytes);
    WhitelistFlat(MODULE_COUNT);
    PlainFits(fmt, SPD_MIN);
    PlainFits(fmt, SPD_MAX);
    GuardedFlat(b);
    GuardedFlat(e);
    GuardedFlat(h);
    GuardedFlat(j);
    GuardedConcat(a, b);
    GuardedConcat(a + b, c);
    GuardedConcat(a + b + c, d);
    GuardedConcat(a + b + c + d, e);
    GuardedConcat(a + b + c + d + e, f);
    GuardedConcat(a + b + c + d + e + f, g);
    GuardedConcat(a + b + c + d + e + f + g, h);
    GuardedConcat(a + b + c + d + e + f + g + h, i);
    GuardedConcat(a + b + c + d + e + f + g + h + i, j);
    GuardedConcat(a + b + c + d + e + f + g + h + i + j, k);
  }

  lemma BackPieces()
    ensures Guarded("\n# source_bytes,") && Guarded("\n# bucket_unit,hour") && Guarded("\n# module_whitelist,\"")
    ensures Guarded("\n# spd_range_gate,\"[") && Guarded("\"") && Guarded(", ") && Guarded("]\"")
  {
  }

  /** The lines in front of the tables open a section exactly when the file name does. */
  lemma PreludeHeadings(ctx: Context, fmt: Printf)
    requires fmt.Plain() && Flat(ctx.utc)
    ensures var p := ReplaceCrLf(Prelude(ctx, fmt));
            && L.Tail(p) == "" && Prelude(ctx, fmt) != "" && Prelude(ctx, fmt)[|Prelude(ctx, fmt)|-1] == '\n'
            && (Headings(L.Terminated(p)) > 0 <==> Contains(ctx.sourceFile, BREAK))
  {
    hide Front, Back, Contains, Headings, L.Terminated, Guarded, Flat, Quoted, ReplaceCrLf, StartsWith;
    var x := Front(ctx.utc) + Quoted(ctx.sourceFile) + Back(ctx, fmt) + "\n";
    var p := ReplaceCrLf(x + "\n");
    ReplaceConcat(x, "\n");
    NoCr("\n");
    assert p == ReplaceCrLf(x) + "\n";
    HeadingsFound(p);
    HeadingsConcat(L.Terminated(p), [""]);
    HeadingOne("");
    assert !StartsWith("", HEADING) by { ShortStart(""); }
    BreakInReplaced(x + "\n");
    var y := Back(ctx, fmt) + "\n\n";
    assert x + "\n" == Front(ctx.utc) + (Quoted(ctx.sourceFile) + y);
    FrontGuarded(ctx.utc);
    GuardedSkip(Front(ctx.utc), Quoted(ctx.sourceFile) + y);
    BreakInQuoted(ctx.sourceFile, y);
    BackGuarded(ctx, fmt);
    GuardedSkip(Back(ctx, fmt), "\n\n");
    BlankLines();
    FrontStart(ctx.utc, Quoted(ctx.sourceFile) + y);
  }

  lemma ShortStart(s: string)
    requires |s| < |HEADING|
    ensures !StartsWith(s, HEADING)
  {
  }

  lemma BlankLines()
    ensures !Contains("\n\n", BREAK)
  {
    assert |BREAK| == 11;
    assert !Contains("", BREAK);
    assert "\n"[1..] == "" && !Contains("\n", BREAK);
    assert "\n\n"[1..] == "\n";
  }

  lemma FrontStart(utc: string, y: string)
    ensures !StartsWith(Front(utc) + y, HEADING)
  {
    var s := Front(utc) + y;
    assert s[0] == '\U{EF}' && HEADING[0] == '[';
    if |HEADING| <= |s| { assert s[..|HEADING|][0] == s[0]; }
  }

  /**
    The client reads back exactly the six tables, with their names, headers and rows, if and
    only if the source file's name does not itself contain a line break followed by a section
    heading.
    */
  lemma DocumentRoundTrip(a: Agg, ctx: Context, fmt: Printf)
    requires Showable(a) && fmt.Plain() && Flat(ctx.utc)
    ensures ReadDocument(Document(a, ctx, fmt)) == Sections(Tables(a, ctx, fmt))
            <==> !Contains(ctx.sourceFile, BREAK)
  {
    hide Prelude, Tables, Contains, Headings, TableLines, Sections, ReplaceCrLf, Printf.Plain, L.Terminated,
         L.Tail, L.Unlines, ReadLines, ReadLine;
    TablesFit(a, ctx, fmt);
    var ts := Tables(a, ctx, fmt);
    var p := Prelude(ctx, fmt);
    var body := TableLines(ts);
    PreludeHeadings(ctx, fmt);
    var front := L.Terminated(ReplaceCrLf(p));
    DocumentLines(p, ts);
    var lines := front + (body + [""]);
    HeadingsAreSections(NothingRead, front);
    HeadingsAreSections(NothingRead, body);
    HeadingsAreSections(NothingRead, lines);
    HeadingsConcat(front, body + [""]);
    HeadingsConcat(body, [""]);
    HeadingOne("");
    ReadLinesConcat(NothingRead, front, body + [""]);
    ReadLinesConcat(NothingRead, body, [""]);
    ReadTables(NothingRead, ts);
    var r := ReadLines(NothingRead, body);
    ReadOne(r, "");
    ReadBlank(r);
    assert [] + Sections(ts) == Sections(ts);
  }

  lemma DocumentLines(p: string, ts: seq<Table>)
    requires FitTables(ts) && p != "" && p[|p|-1] != '\r' && L.Tail(ReplaceCrLf(p)) == ""
    ensures var s := ReplaceCrLf(p + L.Unlines(TableLines(ts)));
            L.Terminated(s) + [L.Tail(s)]
            == L.Terminated(ReplaceCrLf(p)) + (TableLines(ts) + [""])
  {
    hide L.Terminated, L.Tail, L.Unlines, ReplaceCrLf, TableLines;
    var body := TableLines(ts);
    var text := L.Unlines(body);
    FlatTables(ts);
    FlatLines(body);
    ReplaceConcat(p, text);
    NoCr(text);
    L.SplitConcat(ReplaceCrLf(p), text);
    assert "" + text == text;
    assert L.Terminated(text) == body && L.Tail(text) == "";
    L.Regroup(L.Terminated(ReplaceCrLf(p)), body, [""]);
  }

  // ---------------------------------------------------------------- reachable statistics

  lemma StampFlat(line: string)
    requires |line| >= 28 && IsTimestamp(line[..28])
    ensures Flat(line[1..27])
  {
    forall i | 0 <= i < 26 ensures line[1..27][i] != '\n' && line[1..27][i] != '\r' {
      assert line[1..27][i] == line[..28][i+1];
      assert TimestampSlot(i + 1) != '\n';
    }
  }

  lemma LineShowable(a: Agg, line: string, offset: nat)
    requires Showable(a) && SortedNames(a.rejected)
    ensures var b := WithLine(a, line, offset);
            Flat(b.firstTs) && Flat(b.lastTs) && FlatExcerpts(b.corrupt) && IdentNames(b.rejected)
  {
    hide ParseLine, BumpHour, Tracked, HasName, BumpName, Flat, Ident, IsTimestamp, Excerpt;
    var p := ParseLine(line);
    if p.reason == Ok {
      AcceptedLine(line);
      StampFlat(line);
    } else {
      ExcerptIsSafe(line);
      PrintableFlat(Excerpt(line));
      if p.reason == UnknownModule {
        UnknownToken(line);
        BumpNameIdent(a.rejected, p.token);
      }
    }
  }

  lemma PrintableFlat(s: string)
    requires Printable(s)
    ensures Flat(s)
  {
  }

  lemma BumpNameIdent(ns: Names, name: string)
    requires SortedNames(ns) && IdentNames(ns) && name != "" && Ident(name)
    ensures IdentNames(BumpName(ns, name))
  {
    hide Ident, BumpName;
    BumpNameSorted(ns, name);
  }

  /** Whatever lines were folded, the free text kept of them cannot break the document. */
  lemma {:induction false} ReachableIsShowable(es: seq<L.Emission>)
    ensures Showable(AggOf(es))
  {
    hide WithLine, Flat, FlatExcerpts, IdentNames, RawTotal;
    Conservation(es);
    if es == [] {
      EmptyShowable();
    } else {
      var init := es[..|es|-1];
      ReachableIsShowable(init);
      NamesExact(init);
      LineShowable(AggOf(init), es[|es|-1].line, RawTotal(init));
    }
  }

  lemma EmptyShowable()
    ensures Showable(EmptyAgg)
  {
  }

  /**
    The row that sums the disposition table shows total_lines plus the oversize lines, so it
    equals total_lines, as its note demands, exactly when no line was oversize.
    */
  lemma CheckRow(es: seq<L.Emission>, oversize: nat)
    ensures var a := AggOf(es).(oversize := oversize);
            CheckTotal(a) == a.total + oversize && (CheckTotal(a) == a.total <==> oversize == 0)
  {
    var a := AggOf(es);
    Conservation(es);
    OkNeverRefused(es);
    SumReasonsAll(a.corrupt);
  }

  lemma {:induction false} OkNeverRefused(es: seq<L.Emission>)
    ensures AggOf(es).corrupt[0].count == 0
  {
    hide WithLine, RawTotal;
    if es == [] {
      assert EmptyAgg.corrupt[0] == NoCorrupt;
    } else {
      OkNeverRefused(es[..|es|-1]);
      AddLineParts(AggOf(es[..|es|-1]), es[|es|-1].line, RawTotal(es[..|es|-1]));
    }
  }

  lemma {:induction false} SumReasonsPrefix(cs: seq<Corrupt>, n: nat)
    requires 1 <= n <= |cs|
    ensures cs[0].count + SumReasons(cs, n) == SumCorrupt(cs[..n])
  {
    if n == 1 {
      assert cs[..1][..0] == [];
    } else {
      SumReasonsPrefix(cs, n - 1);
      assert cs[..n][..n-1] == cs[..n-1];
    }
  }

  lemma SumReasonsAll(cs: seq<Corrupt>)
    requires |cs| == REASON_COUNT
    ensures cs[0].count + SumReasons(cs, REASON_COUNT) == SumCorrupt(cs)
  {
    SumReasonsPrefix(cs, REASON_COUNT);
    assert cs[..REASON_COUNT] == cs;
  }

  // ---------------------------------------------------------------- the program

  lemma {:induction false} WrittenSnoc(row: Row, c: Cell)
    requires row != []
    ensures WrittenRow(row + [c]) == WrittenRow(row) + "," + c.Written()
  {
    hide Cell.Written;
    if |row| == 1 {
      assert (row + [c])[1..] == [c];
    } else {
      WrittenSnoc(row[1..], c);
      assert (row + [c])[1..] == row[1..] + [c];
    }
  }

  /** One row: the cells in their written form, separated by commas. */
  method AppendRow(o: string, row: Row) returns (o': string)
    requires row != []
    ensures o' == o + WrittenRow(row) + "\n"
  {
    hide WrittenRow, Cell.Written;
    var first := WriteCell(row[0]);
    var text := first;
    WrittenOne(row[0]);
    assert row[..1] == [row[0]];
    var i := 1;
    while i < |row|
      invariant 1 <= i <= |row|
      invariant text == WrittenRow(row[..i])
    {
      WrittenSnoc(row[..i], row[i]);
      assert row[..i] + [row[i]] == row[..i+1];
      var cell := WriteCell(row[i]);
      text := text + "," + cell;
      i := i + 1;
    }
    assert row[..i] == row;
    o' := o + text + "\n";
  }

  lemma WrittenOne(c: Cell)
    ensures WrittenRow([c]) == c.Written()
  {
  }

  method WriteCell(c: Cell) returns (s: string)
    ensures s == c.Written()
  {
    match c
    case Raw(t) => s := t;
    case Auto(t) => s := CsvQuote(t);
    case Forced(t) => s := "\"" + t + "\"";
  }

  lemma {:induction false} UnlinesConcat(a: seq<string>, b: seq<string>)
    ensures L.Unlines(a + b) == L.Unlines(a) + L.Unlines(b)
  {
    if b == [] {
      assert a + b == a;
    } else {
      hide L.Unlines;
      var init, last := b[..|b|-1], b[|b|-1];
      UnlinesConcat(a, init);
      L.UnlinesSnoc(a + init, last);
      L.UnlinesSnoc(init, last);
      assert a + b == (a + init) + [last] && b == init + [last];
      L.Regroup(L.Unlines(a), L.Unlines(init), last);
      L.Regroup(L.Unlines(a), L.Unlines(init) + last, "\n");
    }
  }

  lemma RowLinesSnoc(rows: seq<Row>, row: Row)
    requires FitRows(rows) && FitsRow(row)
    ensures FitRows(rows + [row])
    ensures L.Unlines(RowLines(rows + [row])) == L.Unlines(RowLines(rows)) + WrittenRow(row) + "\n"
  {
    hide WrittenRow, FitsRow;
    RowNotEmpty(row);
    assert (rows + [row])[..|rows + [row]|-1] == rows;
    assert RowLines(rows + [row]) == RowLines(rows) + [WrittenRow(row)];
    L.UnlinesSnoc(RowLines(rows), WrittenRow(row));
  }

  /** A run of rows appended one by one. */
  method AppendRows(o: string, rows: seq<Row>) returns (o': string)
    requires FitRows(rows)
    ensures o' == o + L.Unlines(RowLines(rows))
  {
    hide WrittenRow, FitsRow, L.Unlines, RowLines;
    o' := o;
    EmptyRows();
    var i := 0;
    while i < |rows|
      invariant i <= |rows| && FitRows(rows[..i])
      invariant o' == o + L.Unlines(RowLines(rows[..i]))
    {
      RowLinesSnoc(rows[..i], rows[i]);
      assert rows[..i] + [rows[i]] == rows[..i+1];
      RowNotEmpty(rows[i]);
      o' := AppendRow(o', rows[i]);
      i := i + 1;
    }
    assert rows[..i] == rows;
  }

  lemma EmptyRows()
    ensures L.Unlines(RowLines([])) == ""
  {
  }

  lemma RowNotEmpty(row: Row)
    requires FitsRow(row)
    ensures row != []
  {
  }

  /** The heading and the header of a section. */
  method OpenSection(o: string, name: string, header: Row) returns (o': string)
    requires header != []
    ensures o' == o + L.Unlines([HEADING + name, WrittenRow(header)])
  {
    hide WrittenRow, L.Unlines;
    L.UnlinesSnoc([], HEADING + name);
    L.UnlinesSnoc([HEADING + name], WrittenRow(header));
    assert [] + [HEADING + name] == [HEADING + name];
    assert [HEADING + name] + [WrittenRow(header)] == [HEADING + name, WrittenRow(header)];
    NoLines();
    o' := o + HEADING + name + "\n";
    o' := AppendRow(o', header);
  }

  lemma NoLines()
    ensures L.Unlines([]) == ""
  {
  }

  lemma TableText(t: Table)
    requires t.Fits()
    ensures L.Unlines(t.Lines())
            == L.Unlines([HEADING + t.name, WrittenRow(t.header)]) + L.Unlines(RowLines(t.rows)) + "\n"
  {
    hide WrittenRow, L.Unlines, RowLines;
    var a := [HEADING + t.name, WrittenRow(t.header)];
    UnlinesConcat(a, RowLines(t.rows));
    L.UnlinesSnoc(a + RowLines(t.rows), "");
  }

  method HourlyRows(hours: Hours) returns (rows: seq<Row>)
    requires ShapedHours(hours)
    ensures rows == HourRows(hours)
  {
    hide HourRow;
    rows := [];
    var i := 0;
    while i < |hours|
      invariant i <= |hours| && ShapedHours(hours[..i]) && rows == HourRows(hours[..i])
    {
      assert hours[..i+1][..i] == hours[..i];
      var row := HourlyRow(hours[i]);
      rows := rows + [row];
      i := i + 1;
    }
    assert hours[..i] == hours;
  }

  method HourlyRow(h: Hour) returns (row: Row)
    requires |h.bucket.counts| == MODULE_COUNT
    ensures row == HourRow(h)
  {
    hide FormatBucket, Num;
    row := [Raw(FormatBucket(h.key))];
    var m := 0;
    while m < MODULE_COUNT
      invariant m <= MODULE_COUNT
      invariant row == [Raw(FormatBucket(h.key))] + ModuleCells(h.bucket.counts)[..m]
    {
      row := row + [Num(h.bucket.counts[m])];
      m := m + 1;
    }
    assert ModuleCells(h.bucket.counts)[..m] == ModuleCells(h.bucket.counts);
    row := row + [Num(h.bucket.total)];
  }

  /** The disposition rows, with the running check total that the last of them shows. */
  method DispositionRows(a: Agg) returns (rows: seq<Row>)
    requires a.Shaped()
    ensures rows == DispositionTable(a).rows
  {
    hide U64s, ReasonKey, ReasonText;
    rows := [[Raw(ReasonKey(0)), Num(a.accepted), Auto(ReasonText(0))]];
    var check := a.accepted;
    var i := 1;
    while i < REASON_COUNT
      invariant 1 <= i <= REASON_COUNT
      invariant check == a.accepted + SumReasons(a.corrupt, i)
      invariant rows == [[Raw(ReasonKey(0)), Num(a.accepted), Auto(ReasonText(0))]] + ReasonRows(a.corrupt, i)
    {
      var c := a.corrupt[i].count;
      check := check + c;
      rows := rows + [[Raw(ReasonKey(i)), Num(c), Auto(ReasonText(i))]];
      i := i + 1;
    }
    check := check + a.oversize;
    rows := rows + [[Raw("rejected_oversize_line"), Num(a.oversize), Forced(OVERSIZE_NOTE)]];
    rows := rows + [[Raw("TOTAL"), Num(check), Forced("Must equal total_lines (" + U64s(a.total) + ")")]];
  }

  method DiagnosticRows(a: Agg) returns (rows: seq<Row>)
    requires a.Shaped()
    ensures rows == DiagnosticsTable(a).rows
  {
    hide U64s, ReasonKey;
    rows := [];
    var i := 1;
    while i < REASON_COUNT
      invariant 1 <= i <= REASON_COUNT
      invariant rows == SampleRows(a.corrupt, i)
    {
      var c := a.corrupt[i];
      if c.count != 0 {
        rows := rows + [[Raw(ReasonKey(i)), Num(c.count), Num(c.firstLine), Num(c.firstOffset), Auto(c.excerpt)]];
      }
      i := i + 1;
    }
    rows := rows + GuardRows(a.outOfRange);
  }

  method RejectedRows(ns: Names) returns (rows: seq<Row>)
    ensures rows == NameRows(ns)
  {
    rows := [];
    var i := 0;
    while i < |ns|
      invariant i <= |ns| && rows == NameRows(ns[..i])
    {
      assert ns[..i+1][..i] == ns[..i];
      rows := rows + [[Auto(ns[i].text), Num(ns[i].count), Forced(NAME_NOTE)]];
      i := i + 1;
    }
    assert ns[..i] == ns;
  }

  method AppendTable(o: string, t: Table) returns (o': string)
    requires t.Fits()
    ensures o' == o + L.Unlines(t.Lines())
  {
    hide WrittenRow, FitsRow, L.Unlines, RowLines;
    TableText(t);
    RowNotEmpty(t.header);
    o' := OpenSection(o, t.name, t.header);
    o' := AppendRows(o', t.rows);
    o' := o' + "\n";
  }

  method BuildPrelude(ctx: Context, fmt: Printf) returns (o: string)
    ensures o == Prelude(ctx, fmt)
  {
    var name := CsvQuote(ctx.sourceFile);
    o := Front(ctx.utc) + name + Back(ctx, fmt) + "\n" + "\n";
  }

  /** Prints the whole document by appending to one string. */
  method BuildResultCsv(a: Agg, ctx: Context, fmt: Printf) returns (o: string)
    requires Showable(a) && fmt.Plain()
    ensures o == Document(a, ctx, fmt)
  {
    hide HourTable, SummaryTable, TotalsTable, DispositionTable, DiagnosticsTable, NamesTable, Table.Lines, Table.Fits,
         L.Unlines, Prelude, Printf.Plain, FitsRow, TableLines;
    TablesFit(a, ctx, fmt);
    ghost var ts := Tables(a, ctx, fmt);
    SixTables(ts);
    o := BuildPrelude(ctx, fmt);
    var hourly := BuildHourTable(a);
    o := AppendTable(o, hourly);
    o := AppendTable(o, SummaryTable(a, ctx, fmt));
    o := AppendTable(o, TotalsTable(a, fmt));
    var disposition := BuildDispositionTable(a);
    o := AppendTable(o, disposition);
    var diagnostics := BuildDiagnosticsTable(a);
    o := AppendTable(o, diagnostics);
    var names := BuildNamesTable(a);
    o := AppendTable(o, names);
    Join6(Prelude(ctx, fmt), L.Unlines(ts[0].Lines()), L.Unlines(ts[1].Lines()), L.Unlines(ts[2].Lines()),
          L.Unlines(ts[3].Lines()), L.Unlines(ts[4].Lines()), L.Unlines(ts[5].Lines()));
  }

  lemma Join6(p: string, a: string, b: string, c: string, d: string, e: string, f: string)
    ensures p + a + b + c + d + e + f == p + (a + b + c + d + e + f)
  {
  }

  method BuildHourTable(a: Agg) returns (t: Table)
    requires a.Shaped()
    ensures t == HourTable(a)
  {
    var rows := HourlyRows(a.hours);
    t := Table("\U{E2}\U{98}\U{85}HOURLY_MODULE_COUNTS",
               [Raw("bucket_start")] + ModuleNames() + [Raw("bucket_total")], rows);
  }

  method BuildDispositionTable(a: Agg) returns (t: Table)
    requires a.Shaped()
    ensures t == DispositionTable(a)
  {
    var rows := DispositionRows(a);
    t := Table("LINE_DISPOSITION", [Raw("disposition"), Raw("count"), Raw("description")], rows);
  }

  method BuildDiagnosticsTable(a: Agg) returns (t: Table)
    requires a.Shaped()
    ensures t == DiagnosticsTable(a)
  {
    var rows := DiagnosticRows(a);
    t := Table("CORRUPT_DIAGNOSTICS",
               [Raw("reason"), Raw("count"), Raw("first_line_no"), Raw("first_byte_offset"), Raw("excerpt")], rows);
  }

  method BuildNamesTable(a: Agg) returns (t: Table)
    ensures t == NamesTable(a)
  {
    var rows := RejectedRows(a.rejected);
    t := Table("REJECTED_MODULE_NAMES", [Raw("module_name"), Raw("occurrences"), Raw("note")], rows);
  }

  lemma TableLinesNext(ts: seq<Table>, n: nat)
    requires FitTables(ts) && n < |ts|
    ensures FitTables(ts[..n]) && FitTables(ts[..n+1]) && ts[n].Fits()
    ensures L.Unlines(TableLines(ts[..n+1])) == L.Unlines(TableLines(ts[..n])) + L.Unlines(ts[n].Lines())
  {
    hide Table.Lines, Table.Fits, L.Unlines;
    assert ts[..n+1][..n] == ts[..n];
    UnlinesConcat(TableLines(ts[..n]), ts[n].Lines());
  }

  lemma SixTables(ts: seq<Table>)
    requires FitTables(ts) && |ts| == 6
    ensures ts[0].Fits() && ts[1].Fits() && ts[2].Fits() && ts[3].Fits() && ts[4].Fits() && ts[5].Fits()
    ensures L.Unlines(TableLines(ts))
            == L.Unlines(ts[0].Lines()) + L.Unlines(ts[1].Lines()) + L.Unlines(ts[2].Lines())
               + L.Unlines(ts[3].Lines()) + L.Unlines(ts[4].Lines()) + L.Unlines(ts[5].Lines())
  {
    hide Table.Lines, Table.Fits, L.Unlines, TableLines;
    TableLinesNext(ts, 0);
    TableLinesNext(ts, 1);
    TableLinesNext(ts, 2);
    TableLinesNext(ts, 3);
    TableLinesNext(ts, 4);
    TableLinesNext(ts, 5);
    NoTables(ts[..0]);
    assert ts[..6] == ts;
  }

  lemma NoTables(ts: seq<Table>)
    requires ts == []
    ensures L.Unlines(TableLines(ts)) == ""
  {
  }
}
