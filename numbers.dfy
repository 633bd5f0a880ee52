/** Decimal numerals: the digit strings `int(...)`/`pd.to_numeric` read and
    the `[sign] digits [. digits]` numerals that `float(...)` reads. */
module Numbers {
  import opened Results
  import opened Seqs
  import opened Text

  predicate IsDigit(c: char) { '0' <= c <= '9' }

  /** A character that may appear in a numeral `float` accepts here. */
  predicate NumeralChar(c: char) {
    IsDigit(c) || c == '.' || c == '+' || c == '-'
  }

  predicate AllDigits(s: string) {
    forall i :: 0 <= i < |s| ==> IsDigit(s[i])
  }

  /** The value of a string of decimal digits, most significant first. */
  function DigitsValue(s: string): nat
    requires AllDigits(s)
    decreases |s|
  {
    if |s| == 0 then 0
    else 10 * DigitsValue(s[..|s| - 1]) + (s[|s| - 1] as int - '0' as int)
  }

  function Pow10(n: nat): (p: nat)
    ensures p >= 1
  {
    if n == 0 then 1 else 10 * Pow10(n - 1)
  }

  /** The decimal form of `n`, without leading zeros (`str(n)`). */
  function ShowNat(n: nat): (s: string)
    ensures |s| > 0 && AllDigits(s)
    ensures |s| > 1 ==> s[0] != '0'
  {
    if n < 10 then [('0' as int + n) as char]
    else ShowNat(n / 10) + [('0' as int + n % 10) as char]
  }

  /** Reading back what ShowNat wrote gives the same number. */
  lemma {:induction false} ShowNatValue(n: nat)
    ensures DigitsValue(ShowNat(n)) == n
  {
    if n >= 10 {
      ShowNatValue(n / 10);
      var s := ShowNat(n);
      assert s[..|s| - 1] == ShowNat(n / 10);
    }
  }

  /** A non-negative integer written in decimal digits only; anything else
      (including the empty string) is rejected. */
  function ParseNat(s: string): (r: Option<nat>)
    ensures r.Some? <==> |s| > 0 && AllDigits(s)
  {
    if |s| > 0 && AllDigits(s) then Some(DigitsValue(s)) else None
  }

  lemma ParseNatShow(n: nat)
    ensures ParseNat(ShowNat(n)) == Some(n)
  {
    ShowNatValue(n);
  }

  /** The value of `whole.frac`, either part possibly empty. */
  function PointValue(whole: string, frac: string): real
    requires AllDigits(whole) && AllDigits(frac)
  {
    DigitsValue(whole) as real + DigitsValue(frac) as real / Pow10(|frac|) as real
  }

  /** An unsigned numeral: digits, or digits with one decimal point and at
      least one digit on some side of it. */
  function ParseUnsigned(s: string): (r: Option<real>)
    ensures r.Some? ==> r.value >= 0.0
    ensures r.Some? ==> exists i :: 0 <= i < |s| && IsDigit(s[i])
    ensures r.Some? ==> forall i :: 0 <= i < |s| ==> IsDigit(s[i]) || s[i] == '.'
  {
    if '.' in s then
      var i := FirstIndex(s, '.');
      var whole, frac := s[..i], s[i + 1..];
      if AllDigits(whole) && AllDigits(frac) && |whole| + |frac| > 0 then
        assert |whole| > 0 ==> IsDigit(s[0]);
        assert |whole| == 0 ==> IsDigit(s[i + 1]);
        assert forall k :: 0 <= k < |s| && k != i ==> IsDigit(s[k]) by {
          forall k | 0 <= k < |s| && k != i ensures IsDigit(s[k]) {
            if k < i { assert s[k] == whole[k]; } else { assert s[k] == frac[k - i - 1]; }
          }
        }
        Some(PointValue(whole, frac))
      else None
    else if |s| > 0 && AllDigits(s) then
      assert IsDigit(s[0]);
      Some(DigitsValue(s) as real)
    else None
  }

  /** The numerals `float(...)` accepts once surrounding blanks are gone: an
      optional sign, then an unsigned numeral. */
  function ParseDecimal(s: string): (r: Option<real>)
    ensures r.Some? ==> exists i :: 0 <= i < |s| && IsDigit(s[i])
    ensures r.Some? ==> forall i :: 0 <= i < |s| ==> NumeralChar(s[i])
    ensures r.Some? && (|s| == 0 || s[0] != '-') ==> r.value >= 0.0
  {
    if |s| > 0 && (s[0] == '-' || s[0] == '+') then
      match ParseUnsigned(s[1..])
      case None => None
      case Some(v) =>
        assert exists i :: 0 <= i < |s| && IsDigit(s[i]) by {
          var i :| 0 <= i < |s[1..]| && IsDigit(s[1..][i]);
          assert IsDigit(s[i + 1]);
        }
        assert forall i :: 1 <= i < |s| ==> s[i] == s[1..][i - 1];
        Some(if s[0] == '-' then -v else v)
    else ParseUnsigned(s)
  }

  /** `float(s)`: surrounding whitespace is ignored, so a text it reads
      holds a digit and nothing but numeral characters and blanks, and a
      text without blanks at its ends is read as a plain numeral. */
  function ParseFloat(s: string): (r: Option<real>)
    ensures r.Some? ==> exists i :: 0 <= i < |s| && IsDigit(s[i])
    ensures r.Some? ==> forall i :: 0 <= i < |s| ==> NumeralChar(s[i]) || IsSpace(s[i])
    ensures |s| == 0 || (!IsSpace(s[0]) && !IsSpace(s[|s| - 1])) ==> r == ParseDecimal(s)
  {
    var x := Strip(s);
    var r := ParseDecimal(x);
    StripChars(s);
    assert r.Some? ==> exists i :: 0 <= i < |s| && IsDigit(s[i]) by {
      if r.Some? {
        var k :| 0 <= k < |x| && IsDigit(x[k]);
        assert x[k] in s;
      }
    }
    assert |s| == 0 || (!IsSpace(s[0]) && !IsSpace(s[|s| - 1])) ==> x == s by {
      if |s| == 0 || (!IsSpace(s[0]) && !IsSpace(s[|s| - 1])) {
        StripUnchanged(s);
      }
    }
    r
  }

  /** `float` skips the blanks around a numeral: `float("  19 ")` is 19. */
  lemma ParseFloatBlanks(a: string, x: string, b: string)
    requires forall i :: 0 <= i < |a| ==> IsSpace(a[i])
    requires forall i :: 0 <= i < |b| ==> IsSpace(b[i])
    requires |x| > 0 && !IsSpace(x[0]) && !IsSpace(x[|x| - 1])
    ensures ParseFloat(a + x + b) == ParseDecimal(x)
  {
    StripAround(a, x, b);
  }

  /** Every decimal integer reads back as its value. */
  lemma ParseDecimalNat(n: nat)
    ensures ParseDecimal(ShowNat(n)) == Some(n as real)
  {
    ShowNatValue(n);
    var s := ShowNat(n);
    assert s[0] != '-' && s[0] != '+' && '.' !in s by {
      assert IsDigit(s[0]);
      assert forall i :: 0 <= i < |s| ==> s[i] != '.';
    }
  }

  /** `w.f` reads back as w + f / 10^|f|. */
  lemma ParseDecimalPoint(w: nat, f: string)
    requires AllDigits(f)
    ensures ParseDecimal(ShowNat(w) + "." + f) == Some(PointValue(ShowNat(w), f))
  {
    var sw := ShowNat(w);
    var s := sw + "." + f;
    assert IsDigit(s[0]);
    assert forall k :: 0 <= k < |sw| ==> s[k] == sw[k] && s[k] != '.';
    assert s[|sw|] == '.';
    assert FirstIndex(s, '.') == |sw|;
    assert s[..|sw|] == sw && s[|sw| + 1..] == f;
  }

  /** A leading minus sign negates the value. */
  lemma ParseDecimalNegative(x: string)
    requires |x| == 0 || (x[0] != '-' && x[0] != '+')
    ensures ParseDecimal("-" + x) == match ParseDecimal(x)
      case None => None
      case Some(v) => Some(-v)
  {
    assert ("-" + x)[1..] == x;
  }

  /** Python's `f"{n:,}"`: digits grouped in threes from the right,
      separated by commas. */
  function GroupThousands(ds: string): (r: string)
    ensures |ds| > 0 ==> |r| > 0
    decreases |ds|
  {
    if |ds| <= 3 then ds else GroupThousands(ds[..|ds| - 3]) + "," + ds[|ds| - 3..]
  }

  /** Deleting the group separators from a grouped digit string gives the
      digits back. */
  lemma {:induction false} UngroupThousands(ds: string)
    requires ',' !in ds
    ensures DeleteAll(GroupThousands(ds), ',') == ds
    decreases |ds|
  {
    if |ds| <= 3 {
      DeleteAllAbsent(ds, ',');
    } else {
      var hi, lo := ds[..|ds| - 3], ds[|ds| - 3..];
      assert ds == hi + lo;
      assert ',' !in hi && ',' !in lo;
      UngroupThousands(hi);
      DeleteAllConcat(GroupThousands(hi) + ",", lo, ',');
      DeleteAllConcat(GroupThousands(hi), ",", ',');
      DeleteAllAbsent(lo, ',');
      assert DeleteAll(",", ',') == "" by {
        assert multiset(",")[','] == 1;
      }
    }
  }
}
