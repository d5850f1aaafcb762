/**
  One line of comma-separated values: quoting on the server, splitting on the client
  (section 2 of RFC 4180).
  */
module CsvLines {

  predicate Special(c: char) {
    c == ',' || c == '"' || c == '\n' || c == '\r'
  }

  predicate NeedsQuotes(s: string) {
    exists i | 0 <= i < |s| :: Special(s[i])
  }

  /** Every quote twice. */
  function Doubled(s: string): string {
    if s == "" then ""
    else Doubled(s[..|s|-1]) + if s[|s|-1] == '"' then "\"\"" else [s[|s|-1]]
  }

  function Quoted(s: string): string {
    if NeedsQuotes(s) then "\"" + Doubled(s) + "\"" else s
  }

  function Joined(cells: seq<string>): string
    requires cells != []
  {
    if |cells| == 1 then cells[0] else cells[0] + "," + Joined(cells[1..])
  }

  function QuotedAll(fields: seq<string>): (cells: seq<string>)
    ensures |cells| == |fields|
  {
    if fields == [] then [] else [Quoted(fields[0])] + QuotedAll(fields[1..])
  }

  /** The fields of a line, given the field under way and whether it is inside quotes. */
  function Fields(rest: string, field: string, inQuotes: bool): (fs: seq<string>)
    ensures fs != []
    decreases |rest|
  {
    if rest == "" then [field]
    else if inQuotes then
      if rest[0] != '"' then Fields(rest[1..], field + [rest[0]], true)
      else if |rest| > 1 && rest[1] == '"' then Fields(rest[2..], field + "\"", true)
      else Fields(rest[1..], field, false)
    else if rest[0] == '"' then Fields(rest[1..], field, true)
    else if rest[0] == ',' then [field] + Fields(rest[1..], "", false)
    else Fields(rest[1..], field + [rest[0]], false)
  }

  // ---------------------------------------------------------------- round trip

  /** Text without comma or quote is taken as it is. */
  lemma {:induction false} PlainText(s: string, rest: string, field: string)
    requires forall i | 0 <= i < |s| :: s[i] != ',' && s[i] != '"'
    ensures Fields(s + rest, field, false) == Fields(rest, field + s, false)
    decreases |s|
  {
    if s == "" {
      assert s + rest == rest && field + s == field;
    } else {
      PlainText(s[1..], rest, field + [s[0]]);
      assert (s + rest)[1..] == s[1..] + rest;
      assert field + [s[0]] + s[1..] == field + s;
    }
  }

  lemma {:induction false} DoubledFront(s: string)
    requires s != ""
    ensures Doubled(s) == (if s[0] == '"' then "\"\"" else [s[0]]) + Doubled(s[1..])
  {
    if |s| > 1 {
      DoubledFront(s[..|s|-1]);
      assert s[..|s|-1][1..] == s[1..][..|s|-2];
    } else {
      assert s[..0] == "" && s[1..] == "";
    }
  }

  /** Doubled text inside quotes is undoubled, up to a closing quote that is not doubled. */
  lemma {:induction false} DoubledText(s: string, rest: string, field: string)
    requires rest != "" ==> rest[0] != '"'
    ensures Fields(Doubled(s) + "\"" + rest, field, true) == Fields(rest, field + s, false)
    decreases |s|
  {
    var t := Doubled(s) + "\"" + rest;
    if s == "" {
      assert t == "\"" + rest && field + s == field;
      assert t[1..] == rest;
    } else {
      DoubledFront(s);
      DoubledText(s[1..], rest, field + [s[0]]);
      var u := Doubled(s[1..]) + "\"" + rest;
      assert field + [s[0]] + s[1..] == field + s;
      if s[0] == '"' {
        assert t == "\"\"" + u;
        assert t[2..] == u;
      } else {
        assert t == [s[0]] + u;
        assert t[1..] == u;
      }
    }
  }

  lemma QuotedField(s: string, rest: string)
    requires rest != "" ==> rest[0] == ','
    ensures Fields(Quoted(s) + rest, "", false) == Fields(rest, s, false)
  {
    hide Doubled;
    assert "" + s == s;
    if NeedsQuotes(s) {
      var t := Quoted(s) + rest;
      assert t == "\"" + (Doubled(s) + "\"" + rest);
      assert t[1..] == Doubled(s) + "\"" + rest;
      DoubledText(s, rest, "");
    } else {
      assert forall i | 0 <= i < |s| :: !Special(s[i]);
      PlainText(s, rest, "");
    }
  }

  /** What is printed is read back, for every non-empty list of arbitrary fields. */
  lemma {:induction false} QuotingRoundTrip(fields: seq<string>)
    requires fields != []
    ensures Fields(Joined(QuotedAll(fields)), "", false) == fields
  {
    var s := Quoted(fields[0]);
    if |fields| == 1 {
      QuotedField(fields[0], "");
      assert s + "" == s;
    } else {
      var later := Joined(QuotedAll(fields[1..]));
      QuotingRoundTrip(fields[1..]);
      QuotedField(fields[0], "," + later);
      assert QuotedAll(fields)[1..] == QuotedAll(fields[1..]);
      assert Joined(QuotedAll(fields)) == s + ("," + later);
      assert ("," + later)[1..] == later;
    }
  }

  /** A line without quotes is split at its commas, and nothing else is taken from it. */
  lemma {:induction false} SplitAtCommas(rest: string, field: string)
    requires '"' !in rest && ',' !in field
    ensures var fs := Fields(rest, field, false);
            Joined(fs) == field + rest && forall i | 0 <= i < |fs| :: ',' !in fs[i]
    decreases |rest|
  {
    if rest == "" {
      assert field + rest == field;
    } else if rest[0] == ',' {
      SplitAtCommas(rest[1..], "");
      var fs, later := Fields(rest, field, false), Fields(rest[1..], "", false);
      assert fs[1..] == later && "" + rest[1..] == rest[1..];
      assert field + rest == field + "," + rest[1..];
    } else {
      SplitAtCommas(rest[1..], field + [rest[0]]);
      assert field + [rest[0]] + rest[1..] == field + rest;
    }
  }

  /** A field is put in quotes when it holds a comma, a quote or a line break, its quotes doubled. */
  lemma {:induction false} QuotedIs(s: string)
    ensures if ',' in s || '"' in s || '\n' in s || '\r' in s then Quoted(s) == "\"" + Doubled(s) + "\""
            else Quoted(s) == s
    ensures '"' !in s ==> Doubled(s) == s
  {
    if s != "" {
      QuotedIs(s[..|s|-1]);
      assert s == s[..|s|-1] + [s[|s|-1]];
    }
    if ',' in s || '"' in s || '\n' in s || '\r' in s {
      var i :| 0 <= i < |s| && s[i] in [',', '"', '\n', '\r'];
      assert Special(s[i]);
    }
  }

  // ---------------------------------------------------------------- the two programs

  method CsvQuote(s: string) returns (out: string)
    ensures out == Quoted(s)
  {
    var need := false;
    var i := 0;
    while i < |s|
      invariant i <= |s|
      invariant need == exists k | 0 <= k < i :: Special(s[k])
    {
      if Special(s[i]) {
        need := true;
        break;
      }
      i := i + 1;
    }
    if !need {
      return s;
    }
    out := "\"";
    var j := 0;
    while j < |s|
      invariant j <= |s|
      invariant out == "\"" + Doubled(s[..j])
    {
      assert s[..j+1][..j] == s[..j];
      if s[j] == '"' {
        out := out + "\"";
      }
      out := out + [s[j]];
      j := j + 1;
    }
    assert s[..j] == s;
    out := out + "\"";
  }

  method SplitLine(line: string) returns (fields: seq<string>)
    ensures fields == Fields(line, "", false)
  {
    fields := [];
    var sb := "";
    var inQuotes := false;
    var i := 0;
    while i < |line|
      invariant i <= |line|
      invariant Fields(line, "", false) == fields + Fields(line[i..], sb, inQuotes)
    {
      ghost var rest := line[i..];
      var c := line[i];
      if inQuotes {
        if c == '"' {
          if i + 1 < |line| && line[i+1] == '"' {
            assert rest[2..] == line[i+2..];
            sb := sb + "\"";
            i := i + 1;
          } else {
            inQuotes := false;
          }
        } else {
          sb := sb + [c];
        }
      } else if c == '"' {
        inQuotes := true;
      } else if c == ',' {
        fields := fields + [sb];
        sb := "";
      } else {
        sb := sb + [c];
      }
      assert rest[1..] == line[|line|-|rest|+1..];
      i := i + 1;
    }
    assert line[i..] == "";
    fields := fields + [sb];
  }
}
