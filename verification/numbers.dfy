/**
  Numbers as text: what the digits of a line are worth, and what is printed for a number.

  Reading is settled by the ten digits and by how the value of two runs of digits put together
  follows from theirs; printing is settled by reading back what was printed.
  */
module Numbers {
  import opened LogLines
  import R = ResultCsv

  const DIGITS := "0123456789"

  /** The digits are those of the alphabet, and each is worth its place in it. */
  lemma DigitIs(c: char)
    ensures IsDigit(c) <==> c in DIGITS
    ensures forall k: nat | k < 10 :: IsDigit(DIGITS[k]) && DigitOf(DIGITS[k]) == k && R.DigitChar(k) == DIGITS[k]
  {
    assert DIGITS[0] == '0' && DIGITS[1] == '1' && DIGITS[2] == '2' && DIGITS[3] == '3' && DIGITS[4] == '4';
    assert DIGITS[5] == '5' && DIGITS[6] == '6' && DIGITS[7] == '7' && DIGITS[8] == '8' && DIGITS[9] == '9';
    if IsDigit(c) { assert DIGITS[DigitOf(c)] == c; }
  }

  lemma DigitsConcat(a: string, b: string)
    ensures Digits(a + b) <==> Digits(a) && Digits(b)
  {
    if Digits(a + b) {
      assert forall i | 0 <= i < |a| :: a[i] == (a + b)[i];
      assert forall i | 0 <= i < |b| :: b[i] == (a + b)[|a| + i];
    }
  }

  /** Two runs of digits read as one number. */
  lemma {:induction false} NumberConcat(a: string, b: string)
    requires Digits(a) && Digits(b)
    ensures Digits(a + b) && Number(a + b) == Number(a) * R.Ten(|b|) + Number(b)
  {
    DigitsConcat(a, b);
    if b == "" {
      assert a + b == a;
    } else {
      var init := b[..|b|-1];
      NumberConcat(a, init);
      assert (a + b)[..|a + b|-1] == a + init;
      Scale(Number(a), R.Ten(|init|), Number(init), DigitOf(b[|b|-1]));
    }
  }

  lemma Scale(x: nat, t: nat, y: nat, d: nat)
    ensures (x * t + y) * 10 + d == x * (10 * t) + (y * 10 + d)
  {
  }

  /** A single digit is worth its place, and no digits are worth nothing. */
  lemma NumberOne(k: nat)
    requires k < 10
    ensures Number("") == 0 && Digits([DIGITS[k]]) && Number([DIGITS[k]]) == k
  {
    DigitIs(DIGITS[k]);
    assert [DIGITS[k]][..0] == "";
  }

  // ---------------------------------------------------------------- printing

  lemma NumberSnoc(s: string, k: nat)
    requires Digits(s) && k < 10
    ensures Digits(s + [R.DigitChar(k)]) && Number(s + [R.DigitChar(k)]) == Number(s) * 10 + k
  {
    assert (s + [R.DigitChar(k)])[..|s|] == s;
  }

  /** %llu prints the digits of the number and no leading zero. */
  lemma {:induction false} U64sIs(n: nat)
    ensures Number(R.U64s(n)) == n
    ensures R.U64s(n)[0] == '0' ==> R.U64s(n) == "0"
  {
    if n < 10 {
      DigitIs('0');
      NumberOne(n);
    } else {
      U64sIs(n / 10);
      NumberSnoc(R.U64s(n / 10), n % 10);
    }
  }

  lemma {:induction false} NumberOfFixed(n: nat, w: nat)
    requires n < R.Ten(w)
    ensures Number(R.Fixed(n, w)) == n
  {
    if w > 0 {
      NumberOfFixed(n / 10, w - 1);
      NumberSnoc(R.Fixed(n / 10, w - 1), n % 10);
    }
  }

  /** %0<w>u prints the digits of the number, and leading zeros only to fill the width. */
  lemma PaddedIs(n: nat, w: nat)
    requires w > 0
    ensures var s := R.Padded(n, w);
            Number(s) == n && |s| >= w && (|s| > w ==> s[0] != '0')
  {
    if n < R.Ten(w) {
      NumberOfFixed(n, w);
    } else {
      U64sIs(n);
      R.FixedOfNumber(R.U64s(n));
      if |R.U64s(n)| <= w { TenGrows(|R.U64s(n)|, w); }
    }
  }

  lemma {:induction false} TenGrows(v: nat, w: nat)
    requires v <= w
    ensures R.Ten(v) <= R.Ten(w)
  {
    if v < w { TenGrows(v, w - 1); }
  }

  // ---------------------------------------------------------------- decimals

  lemma {:induction false} TensIs(n: nat)
    ensures Tens(n) == R.Ten(n) as real
  {
    if n > 0 { TensIs(n - 1); }
  }

  /**
    A decimal is worth the number that its digits make with the point taken out, over ten for
    every digit behind it, and below zero with a minus sign.
    */
  lemma DecimalWorth(d: Decimal)
    requires d.Valid()
    ensures DecimalParts(d.Text()).Some? && Digits(d.whole + d.fraction)
    ensures var n := Number(d.whole + d.fraction) as real;
            DecimalValue(d.Text()) * R.Ten(|d.fraction|) as real == if d.sign == "-" then -n else n
  {
    hide Number, Digits, DecimalParts;
    DecimalText(d);
    NumberConcat(d.whole, d.fraction);
    TensIs(|d.fraction|);
    SignIs(d);
    Worth(Number(d.whole), Number(d.fraction), R.Ten(|d.fraction|));
  }

  lemma SignIs(d: Decimal)
    requires d.Valid()
    ensures d.Text() != "" && (d.Text()[0] == '-' <==> d.sign == "-")
  {
    var rest := d.whole + (if d.point then "." + d.fraction else "");
    assert rest[0] == if d.whole == "" then '.' else d.whole[0];
  }

  lemma Worth(w: nat, f: nat, t: nat)
    requires t > 0
    ensures (w as real + f as real / t as real) * t as real == (w * t + f) as real
  {
    var r := f as real / t as real;
    assert r * t as real == f as real;
    assert (w * t) as real == w as real * t as real;
  }
}
