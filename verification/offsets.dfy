/**
  The offsets handed on with the lines of a stream.

  The offset of a line is the raw size of all lines reported before it.  A line that is thrown
  away does not move it on: which lines those are, which offsets are still the positions of
  their lines in the stream, and when the offset ends at the stream's length.
  */
module Offsets {
  import opened Aggregation
  import L = Lines

  // ---------------------------------------------------------------- lines at their true offsets

  lemma {:induction false} ReportAt(ls: seq<string>, i: nat)
    requires i < |ls|
    ensures L.Report(ls)[i] == L.Emission(L.Chomp(ls[i]), |ls[i]| + 1)
  {
    if i > 0 { ReportAt(ls[1..], i - 1); }
  }

  lemma {:induction false} RawOfReport(ls: seq<string>, i: nat)
    requires i <= |ls|
    ensures RawTotal(L.Report(ls)[..i]) == |L.Unlines(ls[..i])|
  {
    if i > 0 {
      RawOfReport(ls, i - 1);
      ReportAt(ls, i - 1);
      assert L.Report(ls)[..i][..i-1] == L.Report(ls)[..i-1];
      assert ls[..i][..i-1] == ls[..i-1];
    }
  }

  lemma {:induction false} UnlinesParts(ls: seq<string>, i: nat)
    requires i <= |ls|
    ensures L.Unlines(ls) == L.Unlines(ls[..i]) + L.Unlines(ls[i..])
    decreases |ls|
  {
    if i == |ls| {
      assert ls[..i] == ls && ls[i..] == [];
    } else {
      var init := ls[..|ls|-1];
      UnlinesParts(init, i);
      assert init[..i] == ls[..i] && ls[i..][..|ls[i..]|-1] == init[i..];
    }
  }

  lemma {:induction false} UnlinesEnd(ls: seq<string>)
    ensures ls != [] ==> L.Unlines(ls) != "" && L.Unlines(ls)[|L.Unlines(ls)|-1] == '\n'
  {
  }

  /** The offset recorded for the i-th line of a file is where that line begins. */
  lemma OffsetsAreTrue(file: string, i: nat)
    requires i < |L.WholeFile(file)|
    ensures var es, ls := L.WholeFile(file), L.Terminated(file);
            var at := RawTotal(es[..i]);
            && at + es[i].raw <= |file|
            && (at == 0 || file[at-1] == '\n')
            && if i < |ls| then
                 file[at..at+es[i].raw] == ls[i] + "\n" && es[i].line == L.Chomp(ls[i]) && L.NoLf(ls[i])
               else
                 file[at..at+es[i].raw] == file[at..] == L.Tail(file) && es[i].line == L.Chomp(file[at..])
  {
    hide L.Terminated, L.Tail, L.Report, L.Unlines, RawTotal, L.Chomp;
    var es, ls := L.WholeFile(file), L.Terminated(file);
    L.SplitIsFaithful(file);
    assert es[..i] == L.Report(ls)[..i];
    RawOfReport(ls, i);
    UnlinesParts(ls, i);
    UnlinesEnd(ls[..i]);
    var at := |L.Unlines(ls[..i])|;
    assert file[..at] == L.Unlines(ls[..i]);
    if i < |ls| {
      ReportAt(ls, i);
      UnlinesParts(ls[i..], 1);
      assert ls[i..][..1] == [ls[i]];
      UnlinesOne(ls[i]);
      assert file[at..] == (ls[i] + "\n") + (L.Unlines(ls[i..][1..]) + L.Tail(file));
    } else {
      assert ls[i..] == [] && ls[..i] == ls;
      assert file[at..] == L.Tail(file);
    }
  }

  lemma UnlinesOne(l: string)
    ensures L.Unlines([l]) == l + "\n"
  {
    assert [l][..0] == [];
    assert L.Unlines([]) + l + "\n" == l + "\n";
  }

  lemma RawSnocs(es: seq<L.Emission>, last: string)
    ensures RawTotal(es + L.ReportLast(last)) == RawTotal(es) + |last|
  {
    if last == "" {
      assert es + L.ReportLast(last) == es;
    } else {
      assert (es + L.ReportLast(last))[..|es|] == es;
    }
  }

  lemma NothingRaw()
    ensures RawTotal([]) == 0 && L.Unlines([]) == ""
  {
  }

  // ---------------------------------------------------------------- the lines thrown away

  /** Some fragment begins behind position `lo` and not behind `hi`; the first begins at `base`. */
  predicate CutWithin(lo: nat, hi: nat, base: nat, frags: seq<string>)
    decreases |frags|
  {
    frags != [] && (lo < base <= hi || CutWithin(lo, hi, base + |frags[0]|, frags[1..]))
  }

  /** Where line `i` begins. */
  function Start(ls: seq<string>, i: nat): nat
    requires i <= |ls|
  {
    |L.Unlines(ls[..i])|
  }

  /** A finished line is lost if it is above the limit and a fragment begins inside it. */
  predicate LineLost(max: nat, ls: seq<string>, frags: seq<string>, i: nat)
    requires i < |ls|
  {
    |ls[i]| > max && CutWithin(Start(ls, i), Start(ls, i) + |ls[i]|, 0, frags)
  }

  /** The lines that are not lost when the first begins at `lo` and the first fragment at `base`. */
  function Survivors(max: nat, ls: seq<string>, lo: nat, base: nat, frags: seq<string>): seq<string> {
    if ls == [] then []
    else
      var init, last := ls[..|ls|-1], ls[|ls|-1];
      var at := lo + |L.Unlines(init)|;
      Survivors(max, init, lo, base, frags)
      + if |last| > max && CutWithin(at, at + |last|, base, frags) then [] else [last]
  }

  lemma {:induction false} CutLater(lo: nat, hi: nat, base: nat, frags: seq<string>)
    requires base > hi
    ensures !CutWithin(lo, hi, base, frags)
    decreases |frags|
  {
    if frags != [] { CutLater(lo, hi, base + |frags[0]|, frags[1..]); }
  }

  lemma {:induction false} CutShifted(lo: nat, hi: nat, base: nat, c: nat, frags: seq<string>)
    ensures CutWithin(lo + c, hi + c, base + c, frags) == CutWithin(lo, hi, base, frags)
    decreases |frags|
  {
    if frags != [] {
      CutShifted(lo, hi, base + |frags[0]|, c, frags[1..]);
      assert base + c + |frags[0]| == base + |frags[0]| + c;
    }
  }

  lemma {:induction false} SurvivorsConcat(max: nat, a: seq<string>, b: seq<string>, lo: nat, base: nat,
                                           frags: seq<string>)
    ensures Survivors(max, a + b, lo, base, frags)
            == Survivors(max, a, lo, base, frags) + Survivors(max, b, lo + |L.Unlines(a)|, base, frags)
  {
    hide L.Unlines, Survivors, CutWithin;
    if b == [] {
      assert a + b == a;
      NoSurvivors(max, lo + |L.Unlines(a)|, base, frags);
    } else {
      var init, last := b[..|b|-1], b[|b|-1];
      SurvivorsConcat(max, a, init, lo, base, frags);
      assert a + b == (a + init) + [last] && b == init + [last];
      SurvivorsSnoc(max, a + init, last, lo, base, frags);
      SurvivorsSnoc(max, init, last, lo + |L.Unlines(a)|, base, frags);
      UnlinesParts(a + init, |a|);
      assert (a + init)[..|a|] == a && (a + init)[|a|..] == init;
      var at := lo + |L.Unlines(a)| + |L.Unlines(init)|;
      L.Regroup(Survivors(max, a, lo, base, frags), Survivors(max, init, lo + |L.Unlines(a)|, base, frags),
                if |last| > max && CutWithin(at, at + |last|, base, frags) then [] else [last]);
    }
  }

  lemma SurvivorsSnoc(max: nat, init: seq<string>, last: string, lo: nat, base: nat, frags: seq<string>)
    ensures var at := lo + |L.Unlines(init)|;
            Survivors(max, init + [last], lo, base, frags)
            == Survivors(max, init, lo, base, frags)
               + if |last| > max && CutWithin(at, at + |last|, base, frags) then [] else [last]
  {
    hide L.Unlines, CutWithin;
    assert (init + [last])[..|init + [last]|-1] == init;
  }

  /** A line begun by `tail` is at least as long as that. */
  lemma FirstLineLong(tail: string, data: string)
    requires L.NoLf(tail) && L.Terminated(tail + data) != []
    ensures |L.Terminated(tail + data)[0]| >= |tail|
  {
    hide L.Terminated, L.Tail;
    L.FirstLine(tail, data, 0);
    assert data[0..] == data;
  }

  lemma StartsGrow(ls: seq<string>, i: nat)
    requires 0 < i <= |ls|
    ensures Start(ls, i) >= |ls[0]| + 1
  {
    hide L.Unlines;
    UnlinesParts(ls[..i], 1);
    assert ls[..i][..1] == [ls[0]];
    UnlinesOne(ls[0]);
  }

  /** Of the lines one fragment finishes only the one begun before it can be lost. */
  lemma {:induction false} SurvivorsNow(max: nat, tail: string, frags: seq<string>, i: nat)
    requires frags != [] && L.NoLf(tail)
    requires i <= |L.Terminated(tail + frags[0])|
    ensures var now := L.Terminated(tail + frags[0]);
            Survivors(max, now[..i], 0, |tail|, frags)
            == if i > 0 && L.Lost(max, tail, now) then now[1..i] else now[..i]
  {
    hide L.Terminated, L.Unlines;
    var now := L.Terminated(tail + frags[0]);
    if i > 0 {
      SurvivorsNow(max, tail, frags, i - 1);
      assert now[..i][..i-1] == now[..i-1];
      FirstLineLong(tail, frags[0]);
      InFragment(tail, frags[0], i - 1);
      var at, last := Start(now, i - 1), now[i-1];
      CutLater(at, at + |last|, |tail| + |frags[0]|, frags[1..]);
      if i == 1 {
        assert now[..0] == [];
        NothingRaw();
      } else {
        StartsGrow(now, i - 1);
      }
    }
  }

  /** A line that is finished ends before what it was split from. */
  lemma InFragment(tail: string, data: string, i: nat)
    requires i < |L.Terminated(tail + data)|
    ensures var now := L.Terminated(tail + data); Start(now, i) + |now[i]| < |tail| + |data|
  {
    hide L.Terminated, L.Tail, L.Unlines;
    var s := tail + data;
    var now := L.Terminated(s);
    L.SplitIsFaithful(s);
    UnlinesParts(now, i + 1);
    assert now[..i+1][..i] == now[..i];
    UnlinesParts(now[..i+1], i);
    assert now[..i+1][i..] == [now[i]];
    UnlinesOne(now[i]);
  }

  /** The lines finished later are lost or not as if the stream began with the unfinished line. */
  lemma {:induction false} SurvivorsLater(max: nat, tail: string, frags: seq<string>, i: nat)
    requires frags != [] && L.NoLf(tail)
    requires i <= |L.Terminated(L.Tail(tail + frags[0]) + L.Flatten(frags[1..]))|
    ensures var now, next := L.Terminated(tail + frags[0]), L.Tail(tail + frags[0]);
            var later := L.Terminated(next + L.Flatten(frags[1..]));
            Survivors(max, later[..i], |L.Unlines(now)|, |tail|, frags)
            == Survivors(max, later[..i], 0, |next|, frags[1..])
  {
    hide L.Terminated, L.Tail, L.Unlines;
    if i > 0 {
      var now, next := L.Terminated(tail + frags[0]), L.Tail(tail + frags[0]);
      var later := L.Terminated(next + L.Flatten(frags[1..]));
      SurvivorsLater(max, tail, frags, i - 1);
      assert later[..i][..i-1] == later[..i-1];
      SameCuts(tail, frags, i - 1);
    }
  }

  lemma SameCuts(tail: string, frags: seq<string>, i: nat)
    requires frags != [] && L.NoLf(tail)
    requires i < |L.Terminated(L.Tail(tail + frags[0]) + L.Flatten(frags[1..]))|
    ensures var now, next := L.Terminated(tail + frags[0]), L.Tail(tail + frags[0]);
            var later := L.Terminated(next + L.Flatten(frags[1..]));
            var at, c := Start(later, i), |L.Unlines(now)|;
            CutWithin(c + at, c + at + |later[i]|, |tail|, frags) == CutWithin(at, at + |later[i]|, |next|, frags[1..])
  {
    hide L.Terminated, L.Tail, L.Unlines, CutWithin;
    var s := tail + frags[0];
    var now, next := L.Terminated(s), L.Tail(s);
    var later := L.Terminated(next + L.Flatten(frags[1..]));
    var at, c := Start(later, i), |L.Unlines(now)|;
    var hi := at + |later[i]|;
    L.SplitIsFaithful(s);
    CutFirst(c + at, c + hi, |tail|, frags);
    assert |next| + c == |tail| + |frags[0]|;
    CutShifted(at, hi, |next|, c, frags[1..]);
    if c + at < |tail| { BegunBefore(tail, frags, i); }
  }

  lemma CutFirst(lo: nat, hi: nat, base: nat, frags: seq<string>)
    requires frags != []
    ensures CutWithin(lo, hi, base, frags) == (lo < base <= hi || CutWithin(lo, hi, base + |frags[0]|, frags[1..]))
  {
  }

  lemma FinishedIsLonger(tail: string, data: string)
    requires L.NoLf(tail)
    ensures var now := L.Terminated(tail + data); now != [] ==> |L.Unlines(now)| > |tail|
  {
    hide L.Terminated, L.Unlines;
    var now := L.Terminated(tail + data);
    if now != [] {
      FirstLineLong(tail, data);
      StartsGrow(now, |now|);
      assert now[..|now|] == now;
    }
  }

  /** A line that began before a fragment and is finished after it goes on with the next one. */
  lemma BegunBefore(tail: string, frags: seq<string>, i: nat)
    requires frags != [] && L.NoLf(tail)
    requires i < |L.Terminated(L.Tail(tail + frags[0]) + L.Flatten(frags[1..]))|
    requires var now, next := L.Terminated(tail + frags[0]), L.Tail(tail + frags[0]);
             |L.Unlines(now)| + Start(L.Terminated(next + L.Flatten(frags[1..])), i) < |tail|
    ensures var next := L.Tail(tail + frags[0]);
            var later := L.Terminated(next + L.Flatten(frags[1..]));
            CutWithin(Start(later, i), Start(later, i) + |later[i]|, |next|, frags[1..])
  {
    hide L.Terminated, L.Tail, L.Unlines, CutWithin;
    var s := tail + frags[0];
    var now, next := L.Terminated(s), L.Tail(s);
    var later := L.Terminated(next + L.Flatten(frags[1..]));
    L.SplitIsFaithful(s);
    FinishedIsLonger(tail, frags[0]);
    NothingRaw();
    FirstLineLong(next, L.Flatten(frags[1..]));
    if i > 0 { StartsGrow(later, i); }
    assert later[..0] == [];
    assert frags[1..] != [] by {
      assert next + L.Flatten([]) == next;
      L.NoLfSplit(next);
    }
    CutFirst(Start(later, i), Start(later, i) + |later[i]|, |next|, frags[1..]);
  }

  /** However a stream is cut, what is reported are the lines that are not lost. */
  lemma {:induction false} FeedSurvivors(max: nat, st: L.Split, frags: seq<string>)
    requires L.NoLf(st.tail)
    ensures L.FeedAll(max, st, frags).1
            == L.Report(Survivors(max, L.Terminated(st.tail + L.Flatten(frags)), 0, |st.tail|, frags))
    decreases |frags|
  {
    hide L.Terminated, L.Tail, L.Report, L.Unlines, Survivors;
    if frags == [] {
      assert st.tail + L.Flatten(frags) == st.tail;
      L.NoLfSplit(st.tail);
      NoSurvivors(max, 0, |st.tail|, frags);
    } else {
      var (st1, e1) := L.Absorb(max, st, frags[0]);
      var now := L.Terminated(st.tail + frags[0]);
      L.TailNoLf(st.tail + frags[0]);
      FeedSurvivors(max, st1, frags[1..]);
      L.SplitConcat(st.tail + frags[0], L.Flatten(frags[1..]));
      assert st.tail + L.Flatten(frags) == (st.tail + frags[0]) + L.Flatten(frags[1..]);
      var later := L.Terminated(st1.tail + L.Flatten(frags[1..]));
      SurvivorsNow(max, st.tail, frags, |now|);
      assert now[..|now|] == now && later[..|later|] == later;
      SurvivorsLater(max, st.tail, frags, |later|);
      SurvivorsConcat(max, now, later, 0, |st.tail|, frags);
      L.ReportConcat(L.Kept(max, st.tail, now), Survivors(max, later, 0, |st1.tail|, frags[1..]));
    }
  }

  lemma NoSurvivors(max: nat, lo: nat, base: nat, frags: seq<string>)
    ensures Survivors(max, [], lo, base, frags) == [] && L.Report([]) == []
  {
  }

  // ---------------------------------------------------------------- which offsets are true

  ghost predicate NoneLost(max: nat, ls: seq<string>, frags: seq<string>, n: nat)
    requires n <= |ls|
  {
    forall i | 0 <= i < n :: !LineLost(max, ls, frags, i)
  }

  /** The raw size of the survivors falls short of the lines' as soon as one of them is lost. */
  lemma {:induction false} SurvivorsRaw(max: nat, ls: seq<string>, frags: seq<string>, n: nat)
    requires n <= |ls|
    ensures var raw := RawTotal(L.Report(Survivors(max, ls[..n], 0, 0, frags)));
            raw <= Start(ls, n) && (raw == Start(ls, n) <==> NoneLost(max, ls, frags, n))
  {
    hide L.Report, L.Unlines, RawTotal, CutWithin, L.Chomp;
    if n == 0 {
      assert ls[..0] == [];
      NothingRaw();
      NoSurvivors(max, 0, 0, frags);
    } else {
      SurvivorsRaw(max, ls, frags, n - 1);
      var init, last := ls[..n-1], ls[n-1];
      assert ls[..n][..n-1] == init && ls[..n][n-1] == last;
      UnlinesParts(ls[..n], n - 1);
      assert ls[..n][n-1..] == [last];
      UnlinesOne(last);
      var kept := Survivors(max, init, 0, 0, frags);
      if LineLost(max, ls, frags, n - 1) {
        assert kept + [] == kept;
      } else {
        ReportSnoc(kept, last);
        RawSnoc(L.Report(kept), L.Emission(L.Chomp(last), |last| + 1));
      }
    }
  }

  lemma ReportSnoc(ls: seq<string>, l: string)
    ensures L.Report(ls + [l]) == L.Report(ls) + [L.Emission(L.Chomp(l), |l| + 1)]
  {
    hide L.Chomp;
    L.ReportConcat(ls, [l]);
    L.ReportCons(l, []);
    assert [l] + [] == [l] && L.Report([]) == [];
  }

  lemma RawSnoc(es: seq<L.Emission>, e: L.Emission)
    ensures RawTotal(es + [e]) == RawTotal(es) + e.raw
  {
    assert (es + [e])[..|es|] == es;
  }

  /** The stream's lines as they are reported. */
  lemma ReportedLines(max: nat, frags: seq<string>)
    ensures var ls := L.Terminated(L.Flatten(frags));
            L.FeedAll(max, L.Fresh, frags).1 == L.Report(Survivors(max, ls, 0, 0, frags))
  {
    hide L.Terminated, L.Report;
    FeedSurvivors(max, L.Fresh, frags);
    assert L.Fresh.tail + L.Flatten(frags) == L.Flatten(frags);
  }

  lemma SurvivorsPrefix(max: nat, ls: seq<string>, frags: seq<string>, i: nat)
    requires i < |ls|
    ensures Survivors(max, ls[..i], 0, 0, frags) <= Survivors(max, ls, 0, 0, frags)
    ensures !LineLost(max, ls, frags, i) ==>
              Survivors(max, ls[..i], 0, 0, frags) + [ls[i]] <= Survivors(max, ls, 0, 0, frags)
  {
    hide L.Unlines, CutWithin;
    SurvivorsConcat(max, ls[..i+1], ls[i+1..], 0, 0, frags);
    assert ls[..i+1] + ls[i+1..] == ls;
    assert ls[..i+1][..i] == ls[..i] && ls[..i+1][i] == ls[i];
  }

  /**
    A line is reported exactly if it is not lost, and the offset handed on with it is the
    position at which it begins if and only if no line before it was lost; otherwise the offset
    falls short.
    */
  lemma OffsetOfLine(max: nat, frags: seq<string>, i: nat)
    requires i < |L.Terminated(L.Flatten(frags))|
    ensures var ls, es := L.Terminated(L.Flatten(frags)), L.FeedAll(max, L.Fresh, frags).1;
            var j := |Survivors(max, ls[..i], 0, 0, frags)|;
            && j <= |es| && RawTotal(es[..j]) <= Start(ls, i)
            && (RawTotal(es[..j]) == Start(ls, i) <==> NoneLost(max, ls, frags, i))
            && (!LineLost(max, ls, frags, i) ==> j < |es| && es[j] == L.Emission(L.Chomp(ls[i]), |ls[i]| + 1))
  {
    hide L.Terminated, L.FeedAll, L.Report, L.Unlines, RawTotal, CutWithin, Survivors, L.Chomp;
    var ls := L.Terminated(L.Flatten(frags));
    ReportedLines(max, frags);
    SurvivorsPrefix(max, ls, frags, i);
    SurvivorsRaw(max, ls, frags, i);
    var before, all := Survivors(max, ls[..i], 0, 0, frags), Survivors(max, ls, 0, 0, frags);
    ReportPrefix(before, all);
    if !LineLost(max, ls, frags, i) { ReportAt(all, |before|); }
  }

  lemma ReportPrefix(a: seq<string>, b: seq<string>)
    requires a <= b
    ensures L.Report(b)[..|a|] == L.Report(a)
  {
    hide L.Report;
    L.ReportConcat(a, b[|a|..]);
    assert b == a + b[|a|..];
  }

  /**
    So after a stream the offset is the stream's length if and only if no fragment begins
    inside a line above the limit and the unfinished last line is not above it either;
    otherwise it falls short.
    */
  lemma OffsetsExactIff(max: nat, frags: seq<string>)
    ensures var s, es := L.Flatten(frags), L.Stream(max, frags).1;
            var ls := L.Terminated(s);
            && RawTotal(es) <= |s|
            && (RawTotal(es) == |s| <==> NoneLost(max, ls, frags, |ls|) && |L.Tail(s)| <= max)
  {
    hide L.FeedAll, L.Terminated, L.Tail, L.Unlines, L.Report, RawTotal, L.ReportLast, NoneLost, Survivors;
    var s := L.Flatten(frags);
    var ls := L.Terminated(s);
    var (mid, es) := L.FeedAll(max, L.Fresh, frags);
    L.SplitIsFaithful(s);
    MidTail(max, frags);
    ReportedLines(max, frags);
    SurvivorsRaw(max, ls, frags, |ls|);
    assert ls[..|ls|] == ls;
    RawSnocs(es, L.Tail(s));
    assert es + [] == es;
  }

  lemma MidTail(max: nat, frags: seq<string>)
    ensures L.FeedAll(max, L.Fresh, frags).0.tail == L.Tail(L.Flatten(frags))
  {
    hide L.Accounts, L.Terminated, L.Tail;
    assert L.Fresh.tail + L.Flatten(frags) == L.Flatten(frags);
    L.FeedAllAccounts(max, L.Fresh, frags);
  }

  /** The unfinished last line of a stream is handed on at its position under the same condition. */
  lemma OffsetOfTail(max: nat, frags: seq<string>)
    requires 0 < |L.Tail(L.Flatten(frags))| <= max
    ensures var s, es := L.Flatten(frags), L.Stream(max, frags).1;
            var ls := L.Terminated(s);
            && es != [] && es[|es|-1] == L.Emission(L.Chomp(L.Tail(s)), |L.Tail(s)|)
            && (RawTotal(es[..|es|-1]) == |s| - |L.Tail(s)| <==> NoneLost(max, ls, frags, |ls|))
  {
    hide L.FeedAll, L.Terminated, L.Tail, L.Unlines, L.Report, RawTotal, NoneLost, Survivors, L.Chomp;
    var s := L.Flatten(frags);
    var ls := L.Terminated(s);
    var es := L.FeedAll(max, L.Fresh, frags).1;
    L.SplitIsFaithful(s);
    MidTail(max, frags);
    ReportedLines(max, frags);
    SurvivorsRaw(max, ls, frags, |ls|);
    assert ls[..|ls|] == ls;
    var all := L.Stream(max, frags).1;
    assert all[..|all|-1] == es;
  }
  // ---------------------------------------------------------------- the lines as text

  predicate EndsInCr(s: string) {
    s != "" && s[|s|-1] == '\r'
  }

  /**
    `e` is the line that begins at position `at` of the text `s`: its raw size reaches past the
    line feed, or to the end of the text, and nothing is cut from it but that line feed and one
    carriage return before it.
    */
  ghost predicate StandsAt(s: string, at: nat, e: L.Emission) {
    && at + e.raw <= |s| && e.raw > 0
    && (at == 0 || s[at-1] == '\n')
    && L.NoLf(e.line)
    && var piece := s[at..at+e.raw];
    if piece[e.raw-1] == '\n' then
      piece == e.line + "\r\n" || (piece == e.line + "\n" && !EndsInCr(e.line))
    else
      && at + e.raw == |s|
      && (piece == e.line + "\r" || (piece == e.line && !EndsInCr(e.line)))
  }

  lemma ChompedLine(l: string)
    requires L.NoLf(l)
    ensures var line := L.Chomp(l);
            L.NoLf(line) && (l == line + "\r" || (l == line && !EndsInCr(line)))
  {
  }

  lemma FinishedStands(s: string, at: nat, l: string)
    requires L.NoLf(l) && at + |l| + 1 <= |s| && s[at..at+|l|+1] == l + "\n"
    requires at == 0 || s[at-1] == '\n'
    ensures StandsAt(s, at, L.Emission(L.Chomp(l), |l| + 1))
  {
    hide L.Chomp;
    ChompedLine(l);
    var line := L.Chomp(l);
    if l == line + "\r" { assert l + "\n" == line + "\r\n"; }
  }

  lemma UnfinishedStands(s: string, at: nat, l: string)
    requires L.NoLf(l) && l != "" && at <= |s| && s[at..] == l
    requires at == 0 || s[at-1] == '\n'
    ensures StandsAt(s, at, L.Emission(L.Chomp(l), |l|))
  {
    hide L.Chomp;
    ChompedLine(l);
    assert s[at..at+|l|] == s[at..];
  }

  /** Line `i` of a text begins at `Start` of it, and its tail at the end of the last line. */
  lemma LineInText(s: string, i: nat)
    requires i <= |L.Terminated(s)|
    ensures var ls := L.Terminated(s);
            var at := Start(ls, i);
            && at <= |s| && (at == 0 || s[at-1] == '\n')
            && (i < |ls| ==> Start(ls, i + 1) == at + |ls[i]| + 1 <= |s| && s[at..at+|ls[i]|+1] == ls[i] + "\n")
            && (i == |ls| ==> s[at..] == L.Tail(s))
  {
    hide L.Terminated, L.Tail, L.Unlines;
    var ls := L.Terminated(s);
    L.SplitIsFaithful(s);
    UnlinesParts(ls, i);
    UnlinesEnd(ls[..i]);
    NothingRaw();
    var at := Start(ls, i);
    assert s[..at] == L.Unlines(ls[..i]);
    if i < |ls| {
      UnlinesParts(ls[i..], 1);
      assert ls[i..][..1] == [ls[i]];
      UnlinesOne(ls[i]);
      assert s[at..] == (ls[i] + "\n") + (L.Unlines(ls[i..][1..]) + L.Tail(s));
      UnlinesParts(ls[..i+1], i);
      assert ls[..i+1][..i] == ls[..i] && ls[..i+1][i..] == [ls[i]];
    } else {
      assert ls[i..] == [] && ls[..i] == ls;
    }
  }

  /** Where the first `n` lines begin that are not lost. */
  function Places(max: nat, ls: seq<string>, frags: seq<string>, n: nat): seq<nat>
    requires n <= |ls|
  {
    if n == 0 then []
    else Places(max, ls, frags, n - 1) + if LineLost(max, ls, frags, n - 1) then [] else [Start(ls, n - 1)]
  }

  /** The lines `es` stand in `s` at the places `ats`, one behind the other and before `end`. */
  ghost predicate StandInOrder(s: string, ats: seq<nat>, es: seq<L.Emission>, end: nat) {
    && |ats| == |es|
    && (forall k | 0 <= k < |es| :: StandsAt(s, ats[k], es[k]))
    && (forall k | 0 <= k < |es| - 1 :: ats[k] + es[k].raw <= ats[k+1])
    && (es != [] ==> ats[|es|-1] + es[|es|-1].raw <= end)
  }

  lemma OneMoreStands(s: string, ats: seq<nat>, es: seq<L.Emission>, at: nat, e: L.Emission)
    requires StandInOrder(s, ats, es, at) && StandsAt(s, at, e)
    ensures StandInOrder(s, ats + [at], es + [e], at + e.raw)
  {
    hide StandsAt;
    var as', es' := ats + [at], es + [e];
    forall k | 0 <= k < |es'| ensures StandsAt(s, as'[k], es'[k]) {
      if k < |es| { assert as'[k] == ats[k] && es'[k] == es[k]; }
    }
  }

  lemma NothingStands(s: string, end: nat)
    ensures StandInOrder(s, [], [], end)
  {
  }

  lemma StandsLater(s: string, ats: seq<nat>, es: seq<L.Emission>, end: nat, later: nat)
    requires StandInOrder(s, ats, es, end) && end <= later
    ensures StandInOrder(s, ats, es, later)
  {
    hide StandsAt;
  }

  lemma {:induction false} SurvivorsStand(max: nat, frags: seq<string>, n: nat)
    requires n <= |L.Terminated(L.Flatten(frags))|
    ensures var s, ls := L.Flatten(frags), L.Terminated(L.Flatten(frags));
            StandInOrder(s, Places(max, ls, frags, n), L.Report(Survivors(max, ls[..n], 0, 0, frags)), Start(ls, n))
  {
    hide L.Terminated, L.Tail, L.Report, L.Unlines, CutWithin, L.Chomp, StandInOrder, StandsAt, Survivors;
    var s, ls := L.Flatten(frags), L.Terminated(L.Flatten(frags));
    if n == 0 {
      assert ls[..0] == [];
      NothingStands(s, Start(ls, 0));
      NoSurvivors(max, 0, 0, frags);
    } else {
      SurvivorsStand(max, frags, n - 1);
      LineInText(s, n - 1);
      L.SplitIsFaithful(s);
      var init, last := ls[..n-1], ls[n-1];
      assert ls[..n] == init + [last];
      SurvivorsSnoc(max, init, last, 0, 0, frags);
      var ats, kept := Places(max, ls, frags, n - 1), Survivors(max, init, 0, 0, frags);
      if LineLost(max, ls, frags, n - 1) {
        assert kept + [] == kept && ats + [] == ats;
        StandsLater(s, ats, L.Report(kept), Start(ls, n - 1), Start(ls, n));
      } else {
        ReportSnoc(kept, last);
        FinishedStands(s, Start(ls, n - 1), last);
        OneMoreStands(s, ats, L.Report(kept), Start(ls, n - 1), L.Emission(L.Chomp(last), |last| + 1));
      }
    }
  }

  /**
    However a stream is cut, what is reported are its own lines, whole and where they stand: one
    for every finished line that is not lost, and the unfinished last line within the limit.
    */
  lemma ReportedStand(max: nat, frags: seq<string>)
    ensures var s, es := L.Flatten(frags), L.Stream(max, frags).1;
            var ls := L.Terminated(s);
            var last := if 0 < |L.Tail(s)| <= max then [Start(ls, |ls|)] else [];
            StandInOrder(s, Places(max, ls, frags, |ls|) + last, es, |s|)
  {
    hide L.FeedAll, L.Terminated, L.Tail, L.Unlines, L.Report, Survivors, L.Chomp, StandsAt, Places, StandInOrder;
    var s := L.Flatten(frags);
    var ls := L.Terminated(s);
    var es, ats := L.FeedAll(max, L.Fresh, frags).1, Places(max, ls, frags, |ls|);
    L.SplitIsFaithful(s);
    MidTail(max, frags);
    ReportedLines(max, frags);
    SurvivorsStand(max, frags, |ls|);
    assert ls[..|ls|] == ls;
    LineInText(s, |ls|);
    var t := L.Tail(s);
    if 0 < |t| <= max {
      UnfinishedStands(s, Start(ls, |ls|), t);
      OneMoreStands(s, ats, es, Start(ls, |ls|), L.Emission(L.Chomp(t), |t|));
    } else {
      assert es + [] == es && ats + [] == ats;
      StandsLater(s, ats, es, Start(ls, |ls|), |s|);
    }
  }

  /** Line by line a file is covered from end to end, each line standing where the one before ends. */
  lemma LinesStand(file: string, i: nat)
    requires i < |L.WholeFile(file)|
    ensures var es := L.WholeFile(file);
            StandsAt(file, RawTotal(es[..i]), es[i]) && RawTotal(es) == |file|
  {
    hide L.Terminated, L.Tail, L.Report, L.Unlines, RawTotal, L.Chomp, StandsAt, L.ReportLast;
    var es, ls, t := L.WholeFile(file), L.Terminated(file), L.Tail(file);
    L.SplitIsFaithful(file);
    var n := if i < |ls| then i else |ls|;
    LineInText(file, n);
    assert es[..n] == L.Report(ls)[..n] && L.Report(ls)[..|ls|] == L.Report(ls);
    RawOfReport(ls, n);
    RawOfReport(ls, |ls|);
    assert ls[..|ls|] == ls;
    RawSnocs(L.Report(ls), t);
    if i < |ls| {
      ReportAt(ls, i);
      FinishedStands(file, Start(ls, i), ls[i]);
    } else {
      LastReported(ls, t, i);
      UnfinishedStands(file, Start(ls, |ls|), t);
    }
  }

  lemma LastReported(ls: seq<string>, t: string, i: nat)
    requires |ls| <= i < |L.Report(ls) + L.ReportLast(t)|
    ensures i == |ls| && t != "" && (L.Report(ls) + L.ReportLast(t))[i] == L.Emission(L.Chomp(t), |t|)
  {
  }
}
