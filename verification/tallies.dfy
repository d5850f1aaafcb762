/**
  The figures of the statistics as numbers of lines.

  Every count is the number of places in the stream at which a line of a certain kind stands,
  the samples are the speeds of those lines in their order, and the time range is read off the
  first and the last accepted line.
  */
module Tallies {
  import opened LogLines
  import opened Lines
  import opened Aggregation

  /** What is asked of a line. */
  datatype Kind =
    | ByReason(reason: Reason) | ByModule(mod: nat) | ByHour(hour: nat) | ByHourAndModule(hour: nat, mod: nat)
    | ByName(name: string) | WithSpeed | OutOfRange | Refused
  {
    predicate Fits(p: Parsed) {
      match this
      case ByReason(r) => p.reason == r
      case ByModule(m) => p.reason == Ok && p.mod == m
      case ByHour(k) => p.reason == Ok && p.bucket == k
      case ByHourAndModule(k, m) => p.reason == Ok && p.bucket == k && p.mod == m
      case ByName(name) => p.reason == UnknownModule && p.token == name
      case WithSpeed => p.reason == Ok && p.spd.value.Some?
      case OutOfRange => p.reason == Ok && p.spd.outOfRange
      case Refused => p.reason != Ok
    }
  }

  /** Where the lines of a kind stand. */
  function Places(es: seq<Emission>, kind: Kind): set<nat> {
    set i: nat | i < |es| && kind.Fits(ParseLine(es[i].line))
  }

  lemma PlacesNext(es: seq<Emission>, kind: Kind)
    requires es != []
    ensures var n := |es| - 1;
            var fits := kind.Fits(ParseLine(es[n].line));
            && Places(es, kind) == Places(es[..n], kind) + (if fits then {n} else {})
            && n !in Places(es[..n], kind)
            && |Places(es, kind)| == |Places(es[..n], kind)| + if fits then 1 else 0
  {
    hide Kind.Fits;
    var n := |es| - 1;
    var before, all := Places(es[..n], kind), Places(es, kind);
    var last := if kind.Fits(ParseLine(es[n].line)) then {n} else {};
    hide ParseLine;
    forall i: nat ensures i in all <==> i in before || i in last {
      if i < n { assert es[..n][i] == es[i]; }
    }
    assert all == before + last;
  }

  // ---------------------------------------------------------------- counts

  lemma {:induction false} ReasonsCounted(es: seq<Emission>, r: Reason)
    ensures CountReason(es, r) == |Places(es, ByReason(r))|
  {
    hide ParseLine, Places;
    if es == [] {
      NoPlaces(ByReason(r));
    } else {
      ReasonsCounted(es[..|es|-1], r);
      PlacesNext(es, ByReason(r));
    }
  }

  lemma NoPlaces(kind: Kind)
    ensures Places([], kind) == {}
  {
  }

  /** Every line is accepted or refused. */
  lemma {:induction false} AcceptedOrRefused(es: seq<Emission>)
    ensures AggOf(es).total == |es| && AggOf(es).accepted == |Places(es, ByReason(Ok))|
    ensures |Places(es, ByReason(Ok))| + |Places(es, Refused)| == |es|
  {
    hide ParseLine, Places, WithLine, RawTotal;
    if es == [] {
      NoPlaces(ByReason(Ok));
      NoPlaces(Refused);
    } else {
      AcceptedOrRefused(es[..|es|-1]);
      PlacesNext(es, ByReason(Ok));
      PlacesNext(es, Refused);
      AddLineParts(AggOf(es[..|es|-1]), es[|es|-1].line, RawTotal(es[..|es|-1]));
    }
  }

  lemma {:induction false} ModulesCounted(es: seq<Emission>, m: nat)
    requires m < MODULE_COUNT
    ensures AggOf(es).modules[m] == |Places(es, ByModule(m))|
  {
    hide ParseLine, Places, WithLine, RawTotal;
    if es == [] {
      NoPlaces(ByModule(m));
    } else {
      ModulesCounted(es[..|es|-1], m);
      PlacesNext(es, ByModule(m));
      AddLineParts(AggOf(es[..|es|-1]), es[|es|-1].line, RawTotal(es[..|es|-1]));
    }
  }

  lemma {:induction false} HourCounted(es: seq<Emission>, k: nat)
    ensures Count(HoursOf(AcceptedOf(es)), k) == |Places(es, ByHour(k))|
  {
    hide ParseLine, Places;
    if es == [] {
      NoPlaces(ByHour(k));
    } else {
      var init, p := es[..|es|-1], ParseLine(es[|es|-1].line);
      HourCounted(init, k);
      PlacesNext(es, ByHour(k));
      if p.reason == Ok {
        HoursOfNext(AcceptedOf(init), p);
        CountNext(HoursOf(AcceptedOf(init)), p.bucket, k);
      }
    }
  }

  lemma {:induction false} HourAndModuleCounted(es: seq<Emission>, k: nat, m: nat)
    ensures Tally(AcceptedOf(es), k, m) == |Places(es, ByHourAndModule(k, m))|
  {
    hide ParseLine, Places;
    if es == [] {
      NoPlaces(ByHourAndModule(k, m));
    } else {
      HourAndModuleCounted(es[..|es|-1], k, m);
      PlacesNext(es, ByHourAndModule(k, m));
      assert AcceptedOf(es[..|es|-1]) + [] == AcceptedOf(es[..|es|-1]);
    }
  }

  lemma {:induction false} NameCounted(es: seq<Emission>, name: string)
    ensures Count(UnknownOf(es), name) == |Places(es, ByName(name))|
  {
    hide ParseLine, Places;
    if es == [] {
      NoPlaces(ByName(name));
    } else {
      var init, p := es[..|es|-1], ParseLine(es[|es|-1].line);
      NameCounted(init, name);
      PlacesNext(es, ByName(name));
      if p.reason == UnknownModule { CountNext(UnknownOf(init), p.token, name); }
    }
  }

  /** What one line adds to the figures kept for accepted lines. */
  lemma AddLineTimes(a: Agg, line: string, offset: nat)
    requires a.Shaped()
    ensures var p, b := ParseLine(line), WithLine(a, line, offset);
            if p.reason == Ok then
              && |line| >= 27
              && b.outOfRange == a.outOfRange + (if p.spd.outOfRange then 1 else 0)
              && b.firstTs == (if a.firstTs == "" then line[1..27] else a.firstTs) && b.lastTs == line[1..27]
            else b.outOfRange == a.outOfRange && b.firstTs == a.firstTs && b.lastTs == a.lastTs
  {
    hide ParseLine, BumpName, BumpHour, Tracked, HasName, Excerpt;
    if ParseLine(line).reason == Ok { AcceptedLine(line); }
  }

  /** The guard counts the accepted lines whose speed is out of range. */
  lemma {:induction false} OutOfRangeCounted(es: seq<Emission>)
    ensures AggOf(es).outOfRange == |Places(es, OutOfRange)|
  {
    hide ParseLine, Places, WithLine, RawTotal;
    if es == [] {
      NoPlaces(OutOfRange);
    } else {
      OutOfRangeCounted(es[..|es|-1]);
      PlacesNext(es, OutOfRange);
      AddLineTimes(AggOf(es[..|es|-1]), es[|es|-1].line, RawTotal(es[..|es|-1]));
    }
  }

  // ---------------------------------------------------------------- samples and times

  /** `at` lists the elements of `s` in increasing order. */
  ghost predicate Lists(at: seq<nat>, s: set<nat>) {
    && (forall i, j | 0 <= i < j < |at| :: at[i] < at[j])
    && (forall i | 0 <= i < |at| :: at[i] in s)
    && |at| == |s|
  }

  /** The samples are the speeds of the accepted lines that have one, line by line. */
  lemma {:induction false} SamplesListed(es: seq<Emission>) returns (at: seq<nat>)
    ensures Lists(at, Places(es, WithSpeed)) && |SamplesOf(es)| == |at|
    ensures SpeedsAt(es, at, SamplesOf(es))
  {
    hide ParseLine, Places, Lists, SpeedsAt;
    at := [];
    if es == [] {
      NoPlaces(WithSpeed);
      NothingListed(es);
    } else {
      var n := |es| - 1;
      var init := es[..n];
      at := SamplesListed(init);
      PlacesNext(es, WithSpeed);
      PlacesWithin(init, WithSpeed);
      var p := ParseLine(es[n].line);
      SpeedsLater(es, at, SamplesOf(init));
      if WithSpeed.Fits(p) {
        OneMoreListed(at, Places(init, WithSpeed), n);
        OneMoreSpeed(es, at, SamplesOf(init));
        at := at + [n];
      } else {
        assert SamplesOf(init) + [] == SamplesOf(init);
        assert Places(init, WithSpeed) + {} == Places(init, WithSpeed);
      }
    }
  }

  /** `vs` are the speeds of the lines at these places. */
  ghost predicate SpeedsAt(es: seq<Emission>, at: seq<nat>, vs: seq<real>) {
    && |vs| == |at|
    && forall j | 0 <= j < |at| :: at[j] < |es| && ParseLine(es[at[j]].line).spd.value == Some(vs[j])
  }

  lemma NothingListed(es: seq<Emission>)
    ensures Lists([], {}) && SpeedsAt(es, [], [])
  {
  }

  lemma OneMoreListed(at: seq<nat>, s: set<nat>, n: nat)
    requires Lists(at, s) && forall i | i in s :: i < n
    ensures Lists(at + [n], s + {n})
  {
    assert n !in s;
  }

  lemma SpeedsLater(es: seq<Emission>, at: seq<nat>, vs: seq<real>)
    requires es != [] && SpeedsAt(es[..|es|-1], at, vs)
    ensures SpeedsAt(es, at, vs)
  {
    hide ParseLine;
    forall j | 0 <= j < |at| ensures at[j] < |es| && ParseLine(es[at[j]].line).spd.value == Some(vs[j]) {
      assert es[..|es|-1][at[j]] == es[at[j]];
    }
  }

  lemma OneMoreSpeed(es: seq<Emission>, at: seq<nat>, vs: seq<real>)
    requires es != [] && SpeedsAt(es, at, vs) && ParseLine(es[|es|-1].line).spd.value.Some?
    ensures SpeedsAt(es, at + [|es| - 1], vs + [ParseLine(es[|es|-1].line).spd.value.value])
  {
    hide ParseLine;
  }

  ghost predicate FirstOf(s: set<nat>, i: nat) {
    i in s && forall j | j in s :: i <= j
  }

  ghost predicate LastOf(s: set<nat>, i: nat) {
    i in s && forall j | j in s :: j <= i
  }

  lemma OneBehind(s: set<nat>, n: nat, i: nat)
    requires forall j | j in s :: j < n
    ensures FirstOf(s + {n}, i) <==> FirstOf(s, i) || (s == {} && i == n)
    ensures LastOf(s + {n}, i) <==> i == n
  {
    if s != {} && i == n {
      var j :| j in s;
      assert j in s + {n};
    }
    if FirstOf(s + {n}, i) && i != n { assert forall j | j in s :: j in s + {n}; }
    if FirstOf(s, i) || LastOf(s + {n}, i) { assert n in s + {n}; }
  }

  /** `ts` is what stands in the brackets of line `i`. */
  predicate TimeOf(es: seq<Emission>, i: nat, ts: string) {
    i < |es| && |es[i].line| >= 27 && ts == es[i].line[1..27]
  }

  /** The time range begins with the first accepted line and ends with the last. */
  lemma {:induction false} TimesRead(es: seq<Emission>, i: nat)
    ensures var a, ok := AggOf(es), Places(es, ByReason(Ok));
            && (ok == {} ==> a.firstTs == "" && a.lastTs == "")
            && (ok != {} ==> a.firstTs != "")
            && (FirstOf(ok, i) ==> TimeOf(es, i, a.firstTs))
            && (LastOf(ok, i) ==> TimeOf(es, i, a.lastTs))
  {
    hide ParseLine, WithLine, RawTotal, Places, FirstOf, LastOf;
    if es == [] {
      NoPlaces(ByReason(Ok));
      NoneOf(i);
    } else {
      var n := |es| - 1;
      var init := es[..n];
      var before := Places(init, ByReason(Ok));
      TimesRead(init, i);
      PlacesNext(es, ByReason(Ok));
      PlacesWithin(init, ByReason(Ok));
      AddLineTimes(AggOf(init), es[n].line, RawTotal(init));
      OneBehind(before, n, i);
      assert i < n ==> init[i] == es[i];
      if ParseLine(es[n].line).reason != Ok { assert before + {} == before; }
    }
  }

  lemma NoneOf(i: nat)
    ensures !FirstOf({}, i) && !LastOf({}, i)
  {
  }

  lemma PlacesWithin(es: seq<Emission>, kind: Kind)
    ensures forall i | i in Places(es, kind) :: i < |es|
  {
    hide ParseLine, Kind.Fits;
  }

  /** The first line refused for a reason is the one its diagnostics describe. */
  lemma FirstRefused(es: seq<Emission>, r: Reason, i: nat)
    requires r != Ok && FirstOf(Places(es, ByReason(r)), i)
    ensures i < |es| && AggOf(es).corrupt[ReasonIndex(r)]
                        == Corrupt(|Places(es, ByReason(r))|, i + 1, RawTotal(es[..i]), Excerpt(es[i].line))
  {
    hide ParseLine, AggOf, RawTotal, Excerpt, ReasonIndex, Places;
    var at := Places(es, ByReason(r));
    var c := AggOf(es).corrupt[ReasonIndex(r)];
    ReasonsExact(es, r);
    ReasonsCounted(es, r);
    PlacesWithin(es, ByReason(r));
    assert at != {};
    var j := c.firstLine - 1;
    PlaceIs(es, ByReason(r), j);
    ReasonsCounted(es[..j], r);
    if i < j { PlaceBefore(es, ByReason(r), i, j); }
  }

  lemma PlaceIs(es: seq<Emission>, kind: Kind, i: nat)
    ensures i in Places(es, kind) <==> i < |es| && kind.Fits(ParseLine(es[i].line))
  {
    hide ParseLine, Kind.Fits;
  }

  lemma PlaceBefore(es: seq<Emission>, kind: Kind, i: nat, j: nat)
    requires i < j <= |es| && i in Places(es, kind)
    ensures |Places(es[..j], kind)| > 0
  {
    hide ParseLine, Kind.Fits;
    assert es[..j][i] == es[i];
    assert i in Places(es[..j], kind);
  }

  /** A reason some line was refused for has a first such line. */
  lemma FirstExists(es: seq<Emission>, r: Reason) returns (i: nat)
    requires r != Ok && Places(es, ByReason(r)) != {}
    ensures FirstOf(Places(es, ByReason(r)), i)
  {
    hide ParseLine, AggOf, RawTotal, Excerpt, ReasonIndex, Places;
    ReasonsExact(es, r);
    ReasonsCounted(es, r);
    i := AggOf(es).corrupt[ReasonIndex(r)].firstLine - 1;
    PlaceIs(es, ByReason(r), i);
    ReasonsCounted(es[..i], r);
    PlacesWithin(es, ByReason(r));
    forall j | j in Places(es, ByReason(r)) ensures i <= j {
      if j < i { PlaceBefore(es, ByReason(r), j, i); }
    }
  }

  /** The distinct keys: each once, none missing, in the order in which they first appear. */
  lemma {:induction false} DistinctIs<K>(ks: seq<K>, n: nat)
    requires n <= |ks|
    ensures var d := Distinct(ks);
            && (forall i, j | 0 <= i < j < |d| :: d[i] != d[j])
            && (forall k :: k in d <==> k in ks)
            && Distinct(ks[..n]) <= d
    decreases |ks|
  {
    if ks == [] {
    } else if n == |ks| {
      DistinctIs(ks[..n-1], 0);
      assert ks[..n] == ks;
      assert ks == ks[..n-1] + [ks[n-1]];
    } else {
      DistinctIs(ks[..|ks|-1], n);
      assert ks[..|ks|-1][..n] == ks[..n];
      assert ks == ks[..|ks|-1] + [ks[|ks|-1]];
    }
  }
}
