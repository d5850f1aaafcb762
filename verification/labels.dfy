/**
  The hour keys as numbers and as the labels printed for them: sorting by one is sorting by
  the other.
  */
module Labels {
  import opened LogLines
  import opened Aggregation
  import R = ResultCsv

  lemma {:induction false} LessConcat(a: string, x: string, b: string, y: string)
    requires |a| == |b|
    ensures StringLess(a + x, b + y) <==> StringLess(a, b) || (a == b && StringLess(x, y))
  {
    if a == "" {
      assert a + x == x && b + y == y;
    } else {
      LessConcat(a[1..], x, b[1..], y);
      assert (a + x)[1..] == a[1..] + x && (b + y)[1..] == b[1..] + y;
      assert a[0] == b[0] && a[1..] == b[1..] ==> a == b;
    }
  }

  /** Numbers of the same width compare as their digits do. */
  lemma {:induction false} DigitsOrder(a: string, b: string)
    requires |a| == |b| && Digits(a) && Digits(b)
    ensures StringLess(a, b) <==> Number(a) < Number(b)
    ensures a == b <==> Number(a) == Number(b)
  {
    if a != "" {
      var n := |a| - 1;
      DigitsOrder(a[..n], b[..n]);
      LessConcat(a[..n], [a[n]], b[..n], [b[n]]);
      assert a == a[..n] + [a[n]] && b == b[..n] + [b[n]];
      assert StringLess([a[n]], [b[n]]) <==> a[n] < b[n];
    }
  }

  /** What precedes in both is decided first; an equal separator decides nothing. */
  lemma LessParts(a: string, b: string, sep: string, x: string, y: string)
    requires |a| == |b| && Digits(a) && Digits(b)
    ensures StringLess(a + (sep + x), b + (sep + y))
            <==> Number(a) < Number(b) || (Number(a) == Number(b) && StringLess(x, y))
  {
    LessConcat(a, sep + x, b, sep + y);
    LessConcat(sep, x, sep, y);
    StringLessIrreflexive(sep);
    DigitsOrder(a, b);
  }

  function Label(y: string, m: string, d: string, h: string): string {
    y + ("-" + (m + ("-" + (d + (" " + (h + (":00" + "")))))))
  }

  lemma LabelParts(ts: string)
    requires IsTimestamp(ts)
    ensures |ts| == 28 && R.FormatBucket(BucketOf(ts)) == Label(ts[1..5], ts[6..8], ts[9..11], ts[12..14])
  {
    hide IsTimestamp, R.FormatBucket, BucketOf;
    TimestampDigits(ts);
    R.LabelReproducesLine(ts);
    R.Dashes(ts);
    var y, m, d := ts[1..5], ts[6..8], ts[9..11];
    assert ts[1..11] == y + "-" + m + "-" + d;
  }

  lemma LexOrder(y: nat, m: nat, d: nat, h: nat, y': nat, m': nat, d': nat, h': nat)
    requires m < 100 && d < 100 && h < 100 && m' < 100 && d' < 100 && h' < 100
    ensures y * 1000000 + m * 10000 + d * 100 + h < y' * 1000000 + m' * 10000 + d' * 100 + h'
            <==> y < y' || (y == y' && (m < m' || (m == m' && (d < d' || (d == d' && h < h')))))
  {
  }

  lemma TwoDigits(s: string)
    requires |s| == 2 && Digits(s)
    ensures Number(s) < 100
  {
    R.FixedOfNumber(s);
    assert R.Ten(2) == 100;
  }

  /** Of two lines the earlier hour has the smaller key, and the label that sorts first. */
  lemma KeyOrderIsLabelOrder(s: string, t: string)
    requires IsTimestamp(s) && IsTimestamp(t)
    ensures BucketOf(s) < BucketOf(t)
            <==> StringLess(R.FormatBucket(BucketOf(s)), R.FormatBucket(BucketOf(t)))
  {
    hide IsTimestamp, R.FormatBucket, Number, StringLess, Digits;
    LabelParts(s);
    LabelParts(t);
    TimestampDigits(s);
    TimestampDigits(t);
    var (y, m, d, h) := (s[1..5], s[6..8], s[9..11], s[12..14]);
    var (y', m', d', h') := (t[1..5], t[6..8], t[9..11], t[12..14]);
    TwoDigits(m);
    TwoDigits(d);
    TwoDigits(h);
    TwoDigits(m');
    TwoDigits(d');
    TwoDigits(h');
    var (h1, h2) := (h + (":00" + ""), h' + (":00" + ""));
    var (d1, d2) := (d + (" " + h1), d' + (" " + h2));
    LessParts(h, h', ":00", "", "");
    LessParts(d, d', " ", h1, h2);
    LessParts(m, m', "-", d1, d2);
    LessParts(y, y', "-", m + ("-" + d1), m' + ("-" + d2));
    StringLessIrreflexive("");
    LexOrder(Number(y), Number(m), Number(d), Number(h), Number(y'), Number(m'), Number(d'), Number(h'));
  }
}
