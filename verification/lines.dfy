/**
  Fragments to lines.

  A fragment that arrives from the network bears no relation to line boundaries.  The
  reference semantics below keeps the whole unfinished line and splits it with the next
  fragment at every line feed; `LineSplitter` computes the same thing while holding at most
  `max` characters, and scans the lines that lie inside one fragment without copying them.
  */
module Lines {

  /** The line limit a session uses. */
  const DEFAULT_MAX_LINE: nat := 8192

  /** One call of the line callback: the line without its terminator, and its raw size. */
  datatype Emission = Emission(line: string, raw: nat)

  // ---------------------------------------------------------------- whole-file splitting

  ghost predicate NoLf(s: string) {
    forall i | 0 <= i < |s| :: s[i] != '\n'
  }

  /** The lines of `s` that end in a line feed, in order and without it. */
  function Terminated(s: string): seq<string> {
    if s == "" then []
    else
      var init := s[..|s|-1];
      if s[|s|-1] == '\n' then Terminated(init) + [Tail(init)] else Terminated(init)
  }

  /** What follows the last line feed of `s`. */
  function Tail(s: string): string {
    if s == "" || s[|s|-1] == '\n' then "" else Tail(s[..|s|-1]) + [s[|s|-1]]
  }

  function Unlines(ls: seq<string>): string {
    if ls == [] then "" else Unlines(ls[..|ls|-1]) + ls[|ls|-1] + "\n"
  }

  /** `Terminated` and `Tail` lose nothing, and neither contains a line feed. */
  lemma {:induction false} SplitIsFaithful(s: string)
    ensures Unlines(Terminated(s)) + Tail(s) == s
    ensures NoLf(Tail(s))
    ensures forall i | 0 <= i < |Terminated(s)| :: NoLf(Terminated(s)[i])
  {
    hide Unlines;
    if s == "" {
      UnlinesNone();
    } else {
      var init := s[..|s|-1];
      SplitIsFaithful(init);
      assert s == init + [s[|s|-1]];
      if s[|s|-1] == '\n' {
        UnlinesSnoc(Terminated(init), Tail(init));
        assert Unlines(Terminated(s)) + "" == Unlines(Terminated(s));
      } else {
        Regroup(Unlines(Terminated(init)), Tail(init), [s[|s|-1]]);
      }
    }
  }

  lemma UnlinesNone()
    ensures Unlines([]) == ""
  {
  }

  lemma UnlinesSnoc(ls: seq<string>, l: string)
    ensures Unlines(ls + [l]) == Unlines(ls) + l + "\n"
  {
    assert (ls + [l])[..|ls + [l]|-1] == ls;
  }

  lemma {:induction false} NoLfSplit(t: string)
    requires NoLf(t)
    ensures Terminated(t) == [] && Tail(t) == t
  {
    if t != "" {
      NoLfSplit(t[..|t|-1]);
    }
  }

  lemma {:induction false} TailNoLf(s: string)
    ensures NoLf(Tail(s))
  {
    if s != "" {
      TailNoLf(s[..|s|-1]);
    }
  }

  /** Splitting `a + b` is splitting `a`, then its unfinished line together with `b`. */
  lemma {:induction false} SplitConcat(a: string, b: string)
    ensures Terminated(a + b) == Terminated(a) + Terminated(Tail(a) + b)
    ensures Tail(a + b) == Tail(Tail(a) + b)
  {
    if b == "" {
      assert a + b == a && Tail(a) + b == Tail(a);
      TailNoLf(a);
      NoLfSplit(Tail(a));
    } else {
      var init := b[..|b|-1];
      SplitConcat(a, init);
      assert (a + b)[..|a + b|-1] == a + init;
      assert (Tail(a) + b)[..|Tail(a) + b|-1] == Tail(a) + init;
    }
  }

  /** Where the first line feed at or after `from` is, or the length without one (memchr). */
  function FirstLf(s: string, from: nat): (k: nat)
    requires from <= |s|
    ensures from <= k <= |s|
    ensures forall i | from <= i < k :: s[i] != '\n'
    ensures k < |s| ==> s[k] == '\n'
    decreases |s| - from
  {
    if from == |s| || s[from] == '\n' then from else FirstLf(s, from + 1)
  }

  lemma LineOf(head: string)
    requires NoLf(head)
    ensures Terminated(head + "\n") == [head] && Tail(head + "\n") == ""
  {
    var line := head + "\n";
    assert line[..|line|-1] == head;
    NoLfSplit(head);
  }

  /** The first line feed of a fragment finishes the line begun earlier. */
  lemma FirstLine(tail: string, data: string, pos: nat)
    requires NoLf(tail) && pos <= |data|
    ensures var k := FirstLf(data, pos);
            if k == |data| then
              && Terminated(tail + data[pos..]) == []
              && Tail(tail + data[pos..]) == tail + data[pos..]
            else
              && Terminated(tail + data[pos..]) == [tail + data[pos..k]] + Terminated(data[k+1..])
              && Tail(tail + data[pos..]) == Tail(data[k+1..])
  {
    hide Terminated, Tail;
    var k := FirstLf(data, pos);
    var head := tail + data[pos..k];
    NoLfSplit(head);
    if k == |data| {
      assert data[pos..k] == data[pos..];
    } else {
      var line := head + "\n";
      LineOf(head);
      assert tail + data[pos..] == line + data[k+1..];
      SplitConcat(line, data[k+1..]);
      assert "" + data[k+1..] == data[k+1..];
    }
  }

  // ---------------------------------------------------------------- what a splitter reports

  /** A trailing carriage return is not part of the line. */
  function Chomp(l: string): string {
    if l != "" && l[|l|-1] == '\r' then l[..|l|-1] else l
  }

  function Report(ls: seq<string>): (es: seq<Emission>)
    ensures |es| == |ls|
  {
    if ls == [] then [] else [Emission(Chomp(ls[0]), |ls[0]| + 1)] + Report(ls[1..])
  }

  lemma {:induction false} ReportConcat(a: seq<string>, b: seq<string>)
    ensures Report(a + b) == Report(a) + Report(b)
  {
    if a == [] {
      assert a + b == b;
    } else {
      hide Chomp;
      ReportConcat(a[1..], b);
      assert (a + b)[1..] == a[1..] + b && (a + b)[0] == a[0];
      Regroup([Emission(Chomp(a[0]), |a[0]| + 1)], Report(a[1..]), Report(b));
    }
  }

  lemma Regroup<T>(a: seq<T>, b: seq<T>, c: seq<T>)
    ensures a + (b + c) == (a + b) + c
  {
  }

  /** What is reported for an unfinished last line, which has no terminator to count. */
  function ReportLast(t: string): seq<Emission> {
    if t == "" then [] else [Emission(Chomp(t), |t|)]
  }

  /** The callbacks of a whole file: every line once, in order. */
  function WholeFile(s: string): seq<Emission> {
    Report(Terminated(s)) + ReportLast(Tail(s))
  }

  function LineCount(s: string): nat {
    |Terminated(s)| + if Tail(s) == "" then 0 else 1
  }

  // ---------------------------------------------------------------- fragmentwise semantics

  /** The unfinished line, the lines reported and the finished lines thrown away. */
  datatype Split = Split(tail: string, lines: nat, dropped: nat) {
    /** Lines given up so far: an unfinished line counts as soon as it is too long. */
    function Oversize(max: nat): nat {
      dropped + if |tail| > max then 1 else 0
    }
  }

  const Fresh := Split("", 0, 0)

  /** A finished line is thrown away only if a cut fell inside it and it is too long. */
  predicate Lost(max: nat, tail: string, ls: seq<string>) {
    ls != [] && tail != "" && |ls[0]| > max
  }

  function Kept(max: nat, tail: string, ls: seq<string>): seq<string> {
    if Lost(max, tail, ls) then ls[1..] else ls
  }

  function Absorb(max: nat, st: Split, data: string): (Split, seq<Emission>) {
    var ls := Terminated(st.tail + data);
    var kept := Kept(max, st.tail, ls);
    (Split(Tail(st.tail + data), st.lines + |kept|, st.dropped + |ls| - |kept|), Report(kept))
  }

  function FeedAll(max: nat, st: Split, frags: seq<string>): (Split, seq<Emission>)
    decreases |frags|
  {
    if frags == [] then (st, [])
    else
      var (st1, e1) := Absorb(max, st, frags[0]);
      var (st2, e2) := FeedAll(max, st1, frags[1..]);
      (st2, e1 + e2)
  }

  /** One more fragment. */
  lemma {:induction false} FeedAllSnoc(max: nat, st: Split, frags: seq<string>, x: string)
    ensures var (s1, e1) := FeedAll(max, st, frags);
            var (s2, e2) := Absorb(max, s1, x);
            FeedAll(max, st, frags + [x]) == (s2, e1 + e2)
    decreases |frags|
  {
    hide Absorb;
    if frags == [] {
      FeedOne(max, st, x);
      assert frags + [x] == [x];
      assert FeedAll(max, st, frags).1 + Absorb(max, st, x).1 == Absorb(max, st, x).1;
    } else {
      var st1 := Absorb(max, st, frags[0]).0;
      FeedAllSnoc(max, st1, frags[1..], x);
      assert (frags + [x])[1..] == frags[1..] + [x];
      var a, b, c := Absorb(max, st, frags[0]).1, FeedAll(max, st1, frags[1..]).1,
                     Absorb(max, FeedAll(max, st1, frags[1..]).0, x).1;
      assert a + (b + c) == a + b + c;
    }
  }

  function Conclude(max: nat, st: Split): (Split, seq<Emission>) {
    if |st.tail| > max then (Split("", st.lines, st.dropped + 1), [])
    else
      var es := ReportLast(st.tail);
      (Split("", st.lines + |es|, st.dropped), es)
  }

  /** A whole stream: the fragments in order, then the end of the stream. */
  function Stream(max: nat, frags: seq<string>): (Split, seq<Emission>) {
    var (st, es) := FeedAll(max, Fresh, frags);
    var (st', last) := Conclude(max, st);
    (st', es + last)
  }

  function Flatten(frags: seq<string>): string {
    if frags == [] then "" else frags[0] + Flatten(frags[1..])
  }

  lemma {:induction false} FlattenSnoc(frags: seq<string>, x: string)
    ensures Flatten(frags + [x]) == Flatten(frags) + x
  {
    if frags == [] {
      assert frags + [x] == [x];
    } else {
      FlattenSnoc(frags[1..], x);
      assert (frags + [x])[1..] == frags[1..] + [x];
    }
  }

  // ---------------------------------------------------------------- accounting

  /**
    `es` reports the lines `ls` in order, each once, except that `lost` of the lines longer
    than `max` are missing.
    */
  ghost predicate Accounts(max: nat, ls: seq<string>, es: seq<Emission>, lost: nat) {
    if ls == [] then es == [] && lost == 0
    else
      || (es != [] && es[0] == Report(ls[..1])[0] && Accounts(max, ls[1..], es[1..], lost))
      || (|ls[0]| > max && lost > 0 && Accounts(max, ls[1..], es, lost - 1))
  }

  lemma {:induction false} AccountsAll(max: nat, ls: seq<string>)
    ensures Accounts(max, ls, Report(ls), 0)
  {
    if ls != [] {
      AccountsAll(max, ls[1..]);
      assert ls[..1][0] == ls[0];
      assert Report(ls)[1..] == Report(ls[1..]);
    }
  }

  lemma {:induction false} AccountsConcat(max: nat, a: seq<string>, ea: seq<Emission>, la: nat,
                                          b: seq<string>, eb: seq<Emission>, lb: nat)
    requires Accounts(max, a, ea, la) && Accounts(max, b, eb, lb)
    ensures Accounts(max, a + b, ea + eb, la + lb)
  {
    if a == [] {
      assert a + b == b && ea + eb == eb;
    } else {
      assert (a + b)[1..] == a[1..] + b && (a + b)[..1] == a[..1];
      if ea != [] && ea[0] == Report(a[..1])[0] && Accounts(max, a[1..], ea[1..], la) {
        AccountsConcat(max, a[1..], ea[1..], la, b, eb, lb);
        assert (ea + eb)[1..] == ea[1..] + eb;
      } else {
        AccountsConcat(max, a[1..], ea, la - 1, b, eb, lb);
      }
    }
  }

  lemma {:induction false} FeedAccounts(max: nat, st: Split, data: string)
    ensures var ls := Terminated(st.tail + data);
            var r := Absorb(max, st, data);
            && Accounts(max, ls, r.1, r.0.dropped - st.dropped)
            && r.0.lines - st.lines + r.0.dropped - st.dropped == |ls|
  {
    var ls := Terminated(st.tail + data);
    if Lost(max, st.tail, ls) {
      AccountsAll(max, ls[1..]);
    } else {
      AccountsAll(max, ls);
    }
  }

  lemma {:induction false} FeedAllAccounts(max: nat, st: Split, frags: seq<string>)
    requires NoLf(st.tail)
    ensures var ls := Terminated(st.tail + Flatten(frags));
            var r := FeedAll(max, st, frags);
            && r.0.tail == Tail(st.tail + Flatten(frags))
            && r.0.dropped >= st.dropped
            && Accounts(max, ls, r.1, r.0.dropped - st.dropped)
            && r.0.lines - st.lines + r.0.dropped - st.dropped == |ls|
    decreases |frags|
  {
    hide Terminated, Tail, Report;
    if frags == [] {
      assert st.tail + Flatten(frags) == st.tail;
      NoLfSplit(st.tail);
    } else {
      var (st1, e1) := Absorb(max, st, frags[0]);
      FeedAccounts(max, st, frags[0]);
      TailNoLf(st.tail + frags[0]);
      FeedAllAccounts(max, st1, frags[1..]);
      SplitConcat(st.tail + frags[0], Flatten(frags[1..]));
      assert st.tail + Flatten(frags) == (st.tail + frags[0]) + Flatten(frags[1..]);
      var (st2, e2) := FeedAll(max, st1, frags[1..]);
      AccountsConcat(max, Terminated(st.tail + frags[0]), e1, st1.dropped - st.dropped,
                     Terminated(st1.tail + Flatten(frags[1..])), e2, st2.dropped - st1.dropped);
    }
  }

  /**
    For every stream, every way to cut it and every limit: the finished lines are reported
    once and in order except for `dropped` of those above the limit, an unfinished last line
    is reported exactly when it is within the limit, and no line goes unaccounted for.
    */
  lemma StreamAccounts(max: nat, frags: seq<string>)
    ensures var s := Flatten(frags);
            var (mid, es) := FeedAll(max, Fresh, frags);
            var (end, all) := Stream(max, frags);
            && Accounts(max, Terminated(s), es, mid.dropped)
            && all == es + (if |Tail(s)| > max then [] else ReportLast(Tail(s)))
            && end.lines == |all|
            && end.lines + end.dropped == LineCount(s)
  {
    hide Terminated, Tail, Accounts, FeedAll, Chomp;
    FeedAllAccounts(max, Fresh, frags);
    assert Fresh.tail + Flatten(frags) == Flatten(frags);
    FeedAllCounts(max, Fresh, frags);
  }

  lemma {:induction false} FeedAllCounts(max: nat, st: Split, frags: seq<string>)
    ensures var r := FeedAll(max, st, frags); r.0.lines == st.lines + |r.1|
    decreases |frags|
  {
    if frags != [] {
      FeedAllCounts(max, Absorb(max, st, frags[0]).0, frags[1..]);
    }
  }

  // ---------------------------------------------------------------- cutting changes nothing

  ghost predicate Short(max: nat, ls: seq<string>) {
    forall i | 0 <= i < |ls| :: |ls[i]| <= max
  }

  /** While no finished line is above the limit, cuts do not matter. */
  lemma {:induction false} ShortLinesAnyCut(max: nat, st: Split, frags: seq<string>)
    requires NoLf(st.tail)
    requires Short(max, Terminated(st.tail + Flatten(frags)))
    ensures FeedAll(max, st, frags) == Absorb(max, st, Flatten(frags))
    decreases |frags|
  {
    hide Terminated, Tail, Report;
    if frags == [] {
      assert st.tail + Flatten(frags) == st.tail;
      NoLfSplit(st.tail);
    } else {
      var rest := Flatten(frags[1..]);
      var now := Terminated(st.tail + frags[0]);
      assert st.tail + Flatten(frags) == (st.tail + frags[0]) + rest;
      SplitConcat(st.tail + frags[0], rest);
      var all := Terminated(st.tail + Flatten(frags));
      var later := Terminated(Tail(st.tail + frags[0]) + rest);
      assert all == now + later;
      assert Short(max, now) by { forall i | 0 <= i < |now| ensures |now[i]| <= max { assert all[i] == now[i]; } }
      assert Short(max, later) by {
        forall i | 0 <= i < |later| ensures |later[i]| <= max { assert all[|now| + i] == later[i]; }
      }
      TailNoLf(st.tail + frags[0]);
      ShortLinesAnyCut(max, Absorb(max, st, frags[0]).0, frags[1..]);
      ReportConcat(now, later);
    }
  }

  /** A cut just before the line feed of line `i` falls inside that line. */
  lemma {:induction false} CutBeforeLf(s: string, i: nat) returns (a: string, b: string)
    requires i < |Terminated(s)|
    ensures s == a + "\n" + b
    ensures Tail(a) == Terminated(s)[i]
  {
    var init := s[..|s|-1];
    if s[|s|-1] == '\n' && i == |Terminated(init)| {
      a, b := init, "";
    } else {
      a, b := CutBeforeLf(init, i);
      b := b + [s[|s|-1]];
    }
  }

  /**
    A stream is reported the same however it is cut, if and only if none of its finished
    lines is above the limit.  (One that is passes when it lies inside a single fragment.)
    */
  lemma CutInvariance(max: nat, s: string)
    ensures (forall frags | Flatten(frags) == s :: Stream(max, frags) == Stream(max, [s]))
            <==> Short(max, Terminated(s))
  {
    hide Terminated, Tail, Absorb, Report;
    FlattenOne(s);
    if Short(max, Terminated(s)) {
      assert Fresh.tail + s == s;
      ShortLinesAnyCut(max, Fresh, [s]);
      forall frags | Flatten(frags) == s ensures Stream(max, frags) == Stream(max, [s]) {
        ShortLinesAnyCut(max, Fresh, frags);
      }
    } else {
      var i :| 0 <= i < |Terminated(s)| && |Terminated(s)[i]| > max;
      var a, b := CutBeforeLf(s, i);
      LongLineCut(max, a, b);
      assert a + ("\n" + b) == s;
    }
  }

  lemma FlattenOne(s: string)
    ensures Flatten([s]) == s
  {
    assert Flatten([s]) == s + Flatten([]);
  }

  lemma FeedOne(max: nat, st: Split, s: string)
    ensures FeedAll(max, st, [s]) == Absorb(max, st, s)
  {
    hide Absorb;
    var (st1, e1) := Absorb(max, st, s);
    assert FeedAll(max, st1, [s][1..]) == (st1, []);
    assert e1 + [] == e1;
  }

  /** Cutting a long line just before its line feed loses it; not cutting at all does not. */
  lemma LongLineCut(max: nat, a: string, b: string)
    requires |Tail(a)| > max
    ensures Flatten([a, "\n" + b]) == a + ("\n" + b)
    ensures Stream(max, [a, "\n" + b]).0.lines < Stream(max, [a + ("\n" + b)]).0.lines
  {
    var c := "\n" + b;
    assert [a, c][1..] == [c];
    FlattenOne(c);
    assert Fresh.tail + a == a && Fresh.tail + (a + c) == a + c;
    var st := Absorb(max, Fresh, a).0;
    TailNoLf(a);
    SplitConcat(a, c);
    FirstLine(st.tail, c, 0);
    assert c[0..] == c && c[0..0] == "" && c[1..] == b && FirstLf(c, 0) == 0;
    var ls := Terminated(st.tail + c);
    assert ls[0] == st.tail;
    assert Lost(max, st.tail, ls);
    FeedOne(max, Fresh, a + c);
    FeedOne(max, st, c);
  }

  /** With every line within the limit a cut stream reports exactly the lines of the file. */
  lemma ShortStream(max: nat, frags: seq<string>)
    requires Short(max, Terminated(Flatten(frags))) && |Tail(Flatten(frags))| <= max
    ensures Stream(max, frags) == (Split("", LineCount(Flatten(frags)), 0), WholeFile(Flatten(frags)))
  {
    hide Terminated, Tail, Report;
    var s := Flatten(frags);
    assert Fresh.tail + s == s;
    ShortLinesAnyCut(max, Fresh, frags);
  }

  // ---------------------------------------------------------------- the splitter itself

  lemma NextLine(data: string, pos: nat)
    requires pos <= |data|
    ensures var k := FirstLf(data, pos);
            if k == |data| then Terminated(data[pos..]) == [] && Tail(data[pos..]) == data[pos..]
            else
              && Terminated(data[pos..]) == [data[pos..k]] + Terminated(data[k+1..])
              && Tail(data[pos..]) == Tail(data[k+1..])
              && Report(Terminated(data[pos..]))
                 == [Emission(Chomp(data[pos..k]), k - pos + 1)] + Report(Terminated(data[k+1..]))
  {
    hide Terminated, Tail, Chomp, Report;
    FirstLine("", data, pos);
    var k := FirstLf(data, pos);
    assert "" + data[pos..] == data[pos..];
    assert "" + data[pos..k] == data[pos..k];
    if k < |data| { ReportCons(data[pos..k], Terminated(data[k+1..])); }
  }

  lemma ReportCons(l: string, ls: seq<string>)
    ensures Report([l] + ls) == [Emission(Chomp(l), |l| + 1)] + Report(ls)
  {
    hide Chomp;
    assert ([l] + ls)[1..] == ls;
  }

  lemma KeptOf(max: nat, tail: string, first: string, ls: seq<string>)
    ensures var kept := Kept(max, tail, [first] + ls);
            if tail != "" && |first| > max then kept == ls
            else && |kept| == 1 + |ls|
                 && Report(kept) == [Emission(Chomp(first), |first| + 1)] + Report(ls)
  {
    assert ([first] + ls)[1..] == ls;
  }

  /** A fragment that starts on a line boundary. */
  lemma AbsorbAtBoundary(max: nat, st: Split, data: string)
    requires st.tail == ""
    ensures var (st', es) := Absorb(max, st, data);
            es == Report(Terminated(data)) && st' == Split(Tail(data), st.lines + |es|, st.dropped)
  {
    hide Terminated, Tail, Report;
    assert st.tail + data == data;
  }

  /** A fragment without a line feed extends the unfinished line. */
  lemma AbsorbNone(max: nat, st: Split, data: string)
    requires NoLf(st.tail) && FirstLf(data, 0) == |data|
    ensures Absorb(max, st, data) == (Split(st.tail + data, st.lines, st.dropped), [])
  {
    hide Terminated, Tail;
    FirstLine(st.tail, data, 0);
    assert data[0..] == data;
  }

  /** A fragment with a line feed ends the unfinished line, which is lost if too long. */
  lemma AbsorbLine(max: nat, st: Split, data: string, k: nat)
    requires NoLf(st.tail) && st.tail != "" && k == FirstLf(data, 0) < |data|
    ensures var (st', es) := Absorb(max, st, data);
            var line := st.tail + data[0..k];
            var later := Report(Terminated(data[k+1..]));
            && es == (if |line| > max then later else [Emission(Chomp(line), |line| + 1)] + later)
            && st' == Split(Tail(data[k+1..]), st.lines + |es|,
                            st.dropped + if |line| > max then 1 else 0)
  {
    hide Terminated, Tail, Chomp, Report, Kept;
    FirstLine(st.tail, data, 0);
    assert data[0..] == data;
    KeptOf(max, st.tail, st.tail + data[0..k], Terminated(data[k+1..]));
  }

  class LineSplitter {
    const max: nat
    var carry: string
    var discarding: bool
    var lines: nat
    var oversize: nat
    ghost var tail: string   // the whole unfinished line
    ghost var dropped: nat

    ghost predicate Valid()
      reads this
    {
      && NoLf(tail)
      && carry == (if |tail| <= max then tail else "")
      && discarding == (|tail| > max)
      && oversize == Model().Oversize(max)
    }

    ghost function Model(): Split
      reads this
    {
      Split(tail, lines, dropped)
    }

    constructor (max: nat)
      ensures Valid() && Model() == Fresh && this.max == max
    {
      this.max := max;
      carry, discarding, lines, oversize := "", false, 0, 0;
      tail, dropped := "", 0;
    }

    /** The memory held between fragments is bounded whatever the stream does. */
    lemma CarryIsBounded()
      requires Valid()
      ensures |carry| <= max && NoLf(carry) && (discarding ==> carry == "")
    {
    }

    method Reset()
      modifies this
      ensures Valid() && Model() == Fresh
    {
      carry, discarding, lines, oversize := "", false, 0, 0;
      tail, dropped := "", 0;
    }

    method Emit(line: string, raw: nat) returns (e: Emission)
      modifies this`lines
      ensures e == Emission(Chomp(line), raw) && lines == old(lines) + 1
    {
      var view := line;
      if |view| > 0 && view[|view|-1] == '\r' {
        view := view[..|view|-1];
      }
      lines := lines + 1;
      e := Emission(view, raw);
    }

    /** The part of a fragment that starts on a line boundary: no line in it is copied. */
    method Scan(data: string, from: nat) returns (es: seq<Emission>)
      requires from <= |data| && carry == "" && !discarding && oversize == dropped
      modifies this
      ensures Valid()
      ensures es == Report(Terminated(data[from..]))
      ensures Model() == Split(Tail(data[from..]), old(lines) + |es|, old(dropped))
    {
      hide Terminated, Tail, Chomp, Report, FirstLf;
      es := [];
      var pos := from;
      while pos < |data|
        invariant pos <= |data|
        invariant carry == "" && !discarding
        invariant Report(Terminated(data[from..])) == es + Report(Terminated(data[pos..]))
        invariant lines == old(lines) + |es|
        invariant Tail(data[from..]) == Tail(data[pos..])
        invariant dropped == old(dropped) && oversize == dropped
      {
        NextLine(data, pos);
        var upto := FirstLf(data, pos) - pos;
        if pos + upto == |data| { break; }
        var e := Emit(data[pos..pos+upto], upto + 1);
        Regroup(es, [e], Report(Terminated(data[pos+upto+1..])));
        es := es + [e];
        pos := pos + upto + 1;
      }
      NextLine(data, pos);
      tail := data[pos..];
      if pos < |data| {
        if |data| - pos > max {
          oversize := oversize + 1;
          discarding := true;
        } else {
          carry := data[pos..];
        }
      }
    }

    /**
      Takes one fragment.  The callbacks it makes are returned in order; the raw size of
      each counts the line feed and a carriage return.
      */
    method Feed(data: string) returns (es: seq<Emission>)
      requires Valid()
      modifies this
      ensures Valid()
      ensures (Model(), es) == Absorb(max, old(Model()), data)
    {
      hide Terminated, Tail, Chomp, Report, Absorb;
      es := [];
      var pos := 0;
      ghost var nl := FirstLf(data, 0);
      if tail == "" {
        AbsorbAtBoundary(max, Model(), data);
        assert data[0..] == data;
      } else if nl == |data| {
        AbsorbNone(max, Model(), data);
      } else {
        AbsorbLine(max, Model(), data, nl);
      }
      if discarding {
        var nl := FirstLf(data, 0);
        if nl == |data| {
          tail := tail + data;
          return;
        }
        pos := nl + 1;
        discarding := false;
        dropped := dropped + 1;
      }
      if carry != "" {
        var upto := FirstLf(data, pos) - pos;
        if pos + upto == |data| {
          tail := tail + data;
          if |carry| + (|data| - pos) > max {
            oversize := oversize + 1;
            carry := "";
            discarding := true;
          } else {
            carry := carry + data[pos..];
          }
          return;
        }
        if |carry| + upto > max {
          oversize := oversize + 1;
          carry := "";
          dropped := dropped + 1;
        } else {
          var raw := |carry| + upto + 1;
          carry := carry + data[pos..pos+upto];
          var e := Emit(carry, raw);
          es := es + [e];
          carry := "";
        }
        pos := pos + upto + 1;
      }
      var rest := Scan(data, pos);
      es := es + rest;
      assert es == Absorb(max, old(Model()), data).1;
    }

    /** The end of the stream: an unfinished last line is still in `carry`. */
    method Finish() returns (es: seq<Emission>)
      requires Valid()
      modifies this
      ensures Valid()
      ensures (Model(), es) == Conclude(max, old(Model())) && oversize == Model().dropped
    {
      es := [];
      if carry != "" {
        var e := Emit(carry, |carry|);
        es := [e];
        carry := "";
      }
      if discarding {
        dropped := dropped + 1;
      }
      discarding := false;
      tail := "";
    }
  }
}
