/** Money amounts as integer cents: reading the amount text of a line item
    (commas removed, then read as a number) and rendering a total with `:.2f`. */
module Money {
  import opened Chars

  /** The text `[\d,]+\.\d{2}` captures: digits and commas, a point, two digits. */
  predicate AmountShape(s: string) {
    |s| >= 4 && AllIn(s, 0, |s| - 3, AmountChar)
    && s[|s| - 3] == '.' && IsDigit(s[|s| - 2]) && IsDigit(s[|s| - 1])
  }

  type AmountText = s: string | AmountShape(s) witness "0.00"

  /** A decimal `\d*\.\d\d`, what is left of an amount once its commas are gone. */
  predicate DecimalShape(t: string) {
    |t| >= 3 && AllIn(t, 0, |t| - 3, Digit)
    && t[|t| - 3] == '.' && IsDigit(t[|t| - 2]) && IsDigit(t[|t| - 1])
  }

  function DigitValue(c: char): nat
    requires IsDigit(c)
  {
    c as int - '0' as int
  }

  function DigitChar(n: nat): (c: char)
    requires n < 10
    ensures IsDigit(c) && DigitValue(c) == n
  {
    ('0' as int + n) as char
  }

  /** The value of a string of decimal digits; the empty string reads as 0,
      as the integer part of `float(".00")` does. */
  function DigitsValue(s: string): nat
    requires AllIn(s, 0, |s|, Digit)
    decreases |s|
  {
    if s == [] then 0
    else
      var init := s[..|s| - 1];
      assert AllIn(init, 0, |init|, Digit) by {
        forall t | 0 <= t < |init| ensures IsDigit(init[t]) {
          assert init[t] == s[t];
        }
      }
      DigitsValue(init) * 10 + DigitValue(s[|s| - 1])
  }

  /** The decimal digits of n, most significant first, without leading zeros. */
  function NatToDigits(n: nat): (r: string)
    ensures |r| > 0 && AllIn(r, 0, |r|, Digit)
    ensures r[0] == '0' ==> n == 0
    ensures n < 10 ==> |r| == 1
    decreases n
  {
    if n < 10 then [DigitChar(n)]
    else
      var r := NatToDigits(n / 10) + [DigitChar(n % 10)];
      assert r[0] == NatToDigits(n / 10)[0];
      r
  }

  /** s with every comma removed. */
  function StripCommas(s: string): (r: string)
    ensures forall i | 0 <= i < |r| :: r[i] != ','
    ensures (forall i | 0 <= i < |s| :: s[i] != ',') ==> r == s
  {
    if s == [] then []
    else (if s[0] == ',' then [] else [s[0]]) + StripCommas(s[1..])
  }

  /** `float(t)` for a decimal `\d*\.\d\d`, in cents. */
  function DecimalCents(t: string): nat
    requires DecimalShape(t)
  {
    var whole := t[..|t| - 3];
    assert AllIn(whole, 0, |whole|, Digit) by {
      forall i | 0 <= i < |whole| ensures IsDigit(whole[i]) {
        assert whole[i] == t[i];
      }
    }
    DigitsValue(whole) * 100 + DigitValue(t[|t| - 2]) * 10 + DigitValue(t[|t| - 1])
  }

  /** The value of an amount, with its commas removed, in cents. */
  function ParseAmount(s: AmountText): nat {
    StripCommasOfAmount(s);
    DecimalCents(StripCommas(s))
  }

  /** Fixed-point rendering with two decimals of c / 100: the whole part without grouping or leading
      zeros, a point, and exactly two fractional digits. */
  function FormatCents(c: nat): (r: AmountText)
    ensures forall i | 0 <= i < |r| :: r[i] != ','
    ensures r[0] == '0' <==> c < 100
    ensures c < 100 ==> |r| == 4
  {
    var r := NatToDigits(c / 100) + "." + [DigitChar(c / 10 % 10), DigitChar(c % 10)];
    assert AllIn(r, 0, |r| - 3, AmountChar) by {
      var w := NatToDigits(c / 100);
      forall i | 0 <= i < |r| - 3 ensures InClass(r[i], AmountChar) {
        assert r[i] == w[i];
      }
    }
    r
  }

  lemma StripCommasAppend(a: string, b: string)
    ensures StripCommas(a + b) == StripCommas(a) + StripCommas(b)
  {
    if a == [] {
      assert a + b == b;
    } else {
      assert (a + b)[0] == a[0];
      assert (a + b)[1..] == a[1..] + b;
      StripCommasAppend(a[1..], b);
      var head := if a[0] == ',' then [] else [a[0]];
      calc {
        StripCommas(a + b);
        head + StripCommas(a[1..] + b);
        head + (StripCommas(a[1..]) + StripCommas(b));
        (head + StripCommas(a[1..])) + StripCommas(b);
      }
    }
  }

  /** Removing the commas of `[\d,]+` leaves digits only. */
  lemma {:induction false} StripCommasOfDigitsAndCommas(s: string)
    requires AllIn(s, 0, |s|, AmountChar)
    ensures AllIn(StripCommas(s), 0, |StripCommas(s)|, Digit)
  {
    if s != [] {
      assert AllIn(s[1..], 0, |s| - 1, AmountChar) by {
        forall i | 0 <= i < |s| - 1 ensures InClass(s[1..][i], AmountChar) {
          assert s[1..][i] == s[i + 1];
        }
      }
      StripCommasOfDigitsAndCommas(s[1..]);
      var r := StripCommas(s);
      var head := if s[0] == ',' then [] else [s[0]];
      assert r == head + StripCommas(s[1..]);
      forall i | 0 <= i < |r| ensures IsDigit(r[i]) {
        if i < |head| {
          assert r[i] == s[0];
        } else {
          assert r[i] == StripCommas(s[1..])[i - |head|];
        }
      }
    }
  }

  /** The last three characters of an amount hold no comma. */
  lemma StripCommasOfCents(tail: string)
    requires |tail| == 3 && tail[0] == '.' && IsDigit(tail[1]) && IsDigit(tail[2])
    ensures StripCommas(tail) == tail
  {
    forall i | 0 <= i < 3 ensures tail[i] != ',' {
    }
  }

  /** Digits followed by a point and two digits form a decimal. */
  lemma DecimalOfDigitsAndCents(w: string, tail: string)
    requires AllIn(w, 0, |w|, Digit)
    requires |tail| == 3 && tail[0] == '.' && IsDigit(tail[1]) && IsDigit(tail[2])
    ensures DecimalShape(w + tail)
  {
    var t := w + tail;
    forall i | 0 <= i < |t| - 3 ensures IsDigit(t[i]) {
      assert t[i] == w[i];
    }
  }

  /** The integer part of an amount is made of digits and commas. */
  lemma WholeOfAmount(s: AmountText)
    ensures AllIn(s[..|s| - 3], 0, |s| - 3, AmountChar)
  {
    var whole := s[..|s| - 3];
    forall i | 0 <= i < |whole| ensures InClass(whole[i], AmountChar) {
      assert whole[i] == s[i];
    }
  }

  /** With its commas removed an amount is a decimal `\d*\.\d\d`, made of the
      digits of its integer part followed by its last three characters. */
  lemma StripCommasOfAmount(s: AmountText)
    ensures StripCommas(s) == StripCommas(s[..|s| - 3]) + s[|s| - 3..]
    ensures DecimalShape(StripCommas(s))
  {
    var whole := s[..|s| - 3];
    var tail := s[|s| - 3..];
    assert s == whole + tail;
    StripCommasAppend(whole, tail);
    StripCommasOfCents(tail);
    WholeOfAmount(s);
    StripCommasOfDigitsAndCommas(whole);
    DecimalOfDigitsAndCents(StripCommas(whole), tail);
  }

  /** The decimal digits of n read back as n. */
  lemma {:induction false} DigitsRoundTrip(n: nat)
    ensures DigitsValue(NatToDigits(n)) == n
    decreases n
  {
    if n >= 10 {
      DigitsRoundTrip(n / 10);
      var r := NatToDigits(n);
      assert r[..|r| - 1] == NatToDigits(n / 10);
    }
  }

  /** The parts of a rendered total: the digits of the whole part, then the
      tens and units of the cents. */
  lemma FormatCentsParts(c: nat)
    ensures var r := FormatCents(c);
      r[..|r| - 3] == NatToDigits(c / 100)
      && DigitValue(r[|r| - 2]) == c / 10 % 10 && DigitValue(r[|r| - 1]) == c % 10
  {
    var r := FormatCents(c);
    var w := NatToDigits(c / 100);
    assert r == w + ("." + [DigitChar(c / 10 % 10), DigitChar(c % 10)]);
    assert r[..|r| - 3] == w;
  }

  /** Whole units, tens of cents and cents put back together. */
  lemma CentsSplit(c: nat)
    ensures c / 100 * 100 + c / 10 % 10 * 10 + c % 10 == c
  {
    assert c / 10 == c / 100 * 10 + c / 10 % 10;
  }

  /** Reading back a rendered total gives the total: `:.2f` loses nothing on
      whole cents, and the rendering has the shape of a line-item amount. */
  lemma FormatParseRoundTrip(c: nat)
    ensures ParseAmount(FormatCents(c)) == c
  {
    var r := FormatCents(c);
    FormatCentsParts(c);
    ParseAmountParts(r);
    var w := r[..|r| - 3];
    assert StripCommas(w) == w by {
      forall i | 0 <= i < |w| ensures w[i] != ',' {
        assert w[i] == r[i];
      }
    }
    DigitsRoundTrip(c / 100);
    CentsSplit(c);
  }

  /** The digits of s, in order (a reference reading of an amount). */
  function DigitsOf(s: string): (r: string)
    ensures AllIn(r, 0, |r|, Digit)
  {
    if s == [] then []
    else
      var r := (if IsDigit(s[0]) then [s[0]] else []) + DigitsOf(s[1..]);
      assert forall i | 0 <= i < |r| :: IsDigit(r[i]) by {
        forall i | 0 <= i < |r| ensures IsDigit(r[i]) {
          if !IsDigit(s[0]) || i > 0 {
            assert r[i] == DigitsOf(s[1..])[if IsDigit(s[0]) then i - 1 else i];
          }
        }
      }
      r
  }

  /** On `[\d,]*` removing commas and keeping digits agree. */
  lemma {:induction false} StripCommasIsDigitsOf(s: string)
    requires AllIn(s, 0, |s|, AmountChar)
    ensures StripCommas(s) == DigitsOf(s)
  {
    if s != [] {
      assert AllIn(s[1..], 0, |s| - 1, AmountChar) by {
        forall i | 0 <= i < |s| - 1 ensures InClass(s[1..][i], AmountChar) {
          assert s[1..][i] == s[i + 1];
        }
      }
      StripCommasIsDigitsOf(s[1..]);
    }
  }

  lemma DigitsValueSnoc(w: string, c: char)
    requires AllIn(w, 0, |w|, Digit) && IsDigit(c)
    ensures AllIn(w + [c], 0, |w| + 1, Digit)
    ensures DigitsValue(w + [c]) == DigitsValue(w) * 10 + DigitValue(c)
  {
    var s := w + [c];
    assert AllIn(s, 0, |s|, Digit) by {
      forall i | 0 <= i < |s| ensures IsDigit(s[i]) {
        if i < |w| { assert s[i] == w[i]; }
      }
    }
    assert s[..|s| - 1] == w;
  }

  lemma DigitsOfAppend(a: string, b: string)
    ensures DigitsOf(a + b) == DigitsOf(a) + DigitsOf(b)
  {
    if a == [] {
      assert a + b == b;
    } else {
      assert (a + b)[0] == a[0];
      assert (a + b)[1..] == a[1..] + b;
      DigitsOfAppend(a[1..], b);
      var head := if IsDigit(a[0]) then [a[0]] else [];
      calc {
        DigitsOf(a + b);
        head + DigitsOf(a[1..] + b);
        head + (DigitsOf(a[1..]) + DigitsOf(b));
        (head + DigitsOf(a[1..])) + DigitsOf(b);
      }
    }
  }

  /** The digits of a point and two digits are those two digits. */
  lemma DigitsOfCents(tail: string)
    requires |tail| == 3 && tail[0] == '.' && IsDigit(tail[1]) && IsDigit(tail[2])
    ensures DigitsOf(tail) == tail[1..]
  {
    var two := tail[1..];
    var one := two[1..];
    assert one[1..] == [];
    assert DigitsOf(one) == [one[0]];
    assert DigitsOf(two) == [two[0]] + DigitsOf(one);
    assert DigitsOf(tail) == DigitsOf(two);
  }

  /** The integer part of an amount without its commas is made of digits. */
  lemma WholeDigits(s: AmountText)
    ensures AllIn(StripCommas(s[..|s| - 3]), 0, |StripCommas(s[..|s| - 3])|, Digit)
    ensures StripCommas(s[..|s| - 3]) == DigitsOf(s[..|s| - 3])
  {
    var whole := s[..|s| - 3];
    assert AllIn(whole, 0, |whole|, AmountChar) by {
      forall i | 0 <= i < |whole| ensures InClass(whole[i], AmountChar) {
        assert whole[i] == s[i];
      }
    }
    StripCommasOfDigitsAndCommas(whole);
    StripCommasIsDigitsOf(whole);
  }

  /** The cents of an amount from its integer part and its two decimals. */
  lemma ParseAmountParts(s: AmountText)
    ensures AllIn(StripCommas(s[..|s| - 3]), 0, |StripCommas(s[..|s| - 3])|, Digit)
    ensures ParseAmount(s) == DigitsValue(StripCommas(s[..|s| - 3])) * 100
      + DigitValue(s[|s| - 2]) * 10 + DigitValue(s[|s| - 1])
  {
    WholeDigits(s);
    StripCommasOfAmount(s);
    var w := StripCommas(s[..|s| - 3]);
    var t := StripCommas(s);
    assert t[..|t| - 3] == w;
    assert t[|t| - 2] == s[|s| - 2] && t[|t| - 1] == s[|s| - 1];
  }

  /** The digits of an amount: those of its integer part, then its two decimals. */
  lemma DigitsOfAmount(s: AmountText)
    ensures DigitsOf(s) == DigitsOf(s[..|s| - 3]) + [s[|s| - 2], s[|s| - 1]]
  {
    var whole := s[..|s| - 3];
    var tail := s[|s| - 3..];
    assert s == whole + tail;
    DigitsOfAppend(whole, tail);
    DigitsOfCents(tail);
    assert tail[1..] == [s[|s| - 2], s[|s| - 1]];
  }

  /** Two more digits multiply the value by a hundred and add them. */
  lemma DigitsValueSnoc2(w: string, a: char, b: char)
    requires AllIn(w, 0, |w|, Digit) && IsDigit(a) && IsDigit(b)
    ensures AllIn(w + [a, b], 0, |w| + 2, Digit)
    ensures DigitsValue(w + [a, b]) == DigitsValue(w) * 100 + DigitValue(a) * 10 + DigitValue(b)
  {
    DigitsValueSnoc(w, a);
    DigitsValueSnoc(w + [a], b);
    assert w + [a] + [b] == w + [a, b];
  }

  /** An amount, in cents, is the number its digits spell: the point only
      marks the last two digits as cents and the commas are ignored. */
  lemma ParseAmountIsItsDigits(s: AmountText)
    ensures ParseAmount(s) == DigitsValue(DigitsOf(s))
  {
    ParseAmountParts(s);
    WholeDigits(s);
    DigitsOfAmount(s);
    DigitsValueSnoc2(DigitsOf(s[..|s| - 3]), s[|s| - 2], s[|s| - 1]);
  }

  /** A run of digits is its own digit string. */
  lemma DigitsOfDigits(w: string)
    requires AllIn(w, 0, |w|, Digit)
    ensures DigitsOf(w) == w
  {
    assert AllIn(w, 0, |w|, AmountChar);
    StripCommasIsDigitsOf(w);
  }

  /** The value of the first three of six digits, place by place. */
  lemma ValueOfFirstThree(w: string)
    requires |w| == 6 && AllIn(w, 0, 6, Digit)
    ensures AllIn(w[..3], 0, 3, Digit)
    ensures DigitsValue(w[..3]) == DigitValue(w[0]) * 100 + DigitValue(w[1]) * 10 + DigitValue(w[2])
  {
    assert w[..0] == [];
    assert w[..1] == w[..0] + [w[0]];
    DigitsValueSnoc(w[..0], w[0]);
    assert w[..2] == w[..1] + [w[1]];
    DigitsValueSnoc(w[..1], w[1]);
    assert w[..3] == w[..2] + [w[2]];
    DigitsValueSnoc(w[..2], w[2]);
  }

  /** The value of six digits, place by place. */
  lemma ValueOfSix(w: string)
    requires |w| == 6 && AllIn(w, 0, 6, Digit)
    ensures DigitsValue(w) == DigitValue(w[0]) * 100000 + DigitValue(w[1]) * 10000
      + DigitValue(w[2]) * 1000 + DigitValue(w[3]) * 100 + DigitValue(w[4]) * 10 + DigitValue(w[5])
  {
    ValueOfFirstThree(w);
    assert w[..4] == w[..3] + [w[3]];
    DigitsValueSnoc(w[..3], w[3]);
    assert w[..5] == w[..4] + [w[4]];
    DigitsValueSnoc(w[..4], w[4]);
    assert w == w[..5] + [w[5]];
    DigitsValueSnoc(w[..5], w[5]);
  }

  lemma DigitsOfDigitComma(u: string)
    requires |u| == 2 && IsDigit(u[0]) && u[1] == ','
    ensures DigitsOf(u) == [u[0]]
  {
    var c := u[1..];
    assert c[1..] == [] && !IsDigit(c[0]);
    assert DigitsOf(c) == [] + DigitsOf([]);
    assert DigitsOf(u) == [u[0]] + DigitsOf(c);
  }

  /** The integer part `d,ddd` of an amount has the four digits it shows. */
  lemma GroupedWholeDigits(whole: string)
    requires |whole| == 5 && whole[1] == ','
    requires IsDigit(whole[0]) && IsDigit(whole[2]) && IsDigit(whole[3]) && IsDigit(whole[4])
    ensures DigitsOf(whole) == [whole[0]] + whole[2..]
  {
    var u, v := whole[..2], whole[2..];
    assert whole == u + v;
    DigitsOfAppend(u, v);
    DigitsOfDigitComma(u);
    assert AllIn(v, 0, |v|, Digit);
    DigitsOfDigits(v);
  }

  /** An amount `d,ddd.dd` has the six digits it shows, in order. */
  lemma GroupedDigits(a: AmountText)
    requires |a| == 8 && a[1] == ','
    requires IsDigit(a[0]) && IsDigit(a[2]) && IsDigit(a[3]) && IsDigit(a[4])
    ensures DigitsOf(a) == [a[0], a[2], a[3], a[4], a[6], a[7]]
  {
    DigitsOfAmount(a);
    GroupedWholeDigits(a[..5]);
  }

  /** The grouped amount of a typical line: `1,234.56` is 123456 cents. */
  lemma ParseGroupedAmount(a: AmountText)
    requires |a| == 8 && forall i | 0 <= i < 8 :: a[i] == "1,234.56"[i]
    ensures ParseAmount(a) == 123456
  {
    ParseAmountIsItsDigits(a);
    GroupedDigits(a);
    ValueOfSix(DigitsOf(a));
  }

  /** `[\d,]+` accepts a run of commas alone: `,.00` is an amount, worth
      nothing. */
  lemma ParseCommasOnly(a: string)
    requires |a| == 4 && a[0] == ',' && a[1] == '.' && a[2] == '0' && a[3] == '0'
    ensures AmountShape(a) && ParseAmount(a) == 0
  {
    ParseAmountParts(a);
    assert a[..1][1..] == [];
    assert StripCommas(a[..1]) == [];
  }
}
