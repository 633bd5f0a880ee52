/** The per-column normalisers of the cleaning script: `convert_size` for
    the Size column and the character stripping applied to Installs and
    Price before they are read as numbers. */
module Normalise {
  import opened Results
  import opened Seqs
  import opened Text
  import opened Numbers

  /** The Size text the store uses for apps whose size is not fixed. */
  function SizeSentinel(): string { "Varies with device" }

  /** 1024 kilobytes to the megabyte. */
  function KilobytesToMegabytes(kb: real): (mb: real)
    ensures mb * 1024.0 == kb
  {
    kb / 1024.0
  }

  /** `convert_size`: after trimming and upper-casing, a text holding an `M`
      anywhere is read as megabytes once every `M` is deleted; otherwise one
      holding a `K` is read as kilobytes (divided by 1024) once every `K` is
      deleted; a text with neither is `None`. When `float` refuses what is
      left, the script stops with an error carrying that text. */
  function ConvertSize(raw: string): (r: Result<Option<real>, string>)
    ensures var s := Upper(Strip(raw));
      r == Ok(None) <==> 'M' !in s && 'K' !in s
    ensures r.Err? ==> ParseFloat(r.error).None?
    ensures var s := Upper(Strip(raw));
      'M' in s && ParseFloat(DeleteAll(s, 'M')).None? ==> r == Err(DeleteAll(s, 'M'))
    ensures var s := Upper(Strip(raw));
      'M' !in s && 'K' in s && ParseFloat(DeleteAll(s, 'K')).None? ==> r == Err(DeleteAll(s, 'K'))
  {
    var s := Upper(Strip(raw));
    if 'M' in s then
      var rest := DeleteAll(s, 'M');
      match ParseFloat(rest)
      case Some(v) => Ok(Some(v))
      case None => Err(rest)
    else if 'K' in s then
      var rest := DeleteAll(s, 'K');
      match ParseFloat(rest)
      case Some(v) => Ok(Some(KilobytesToMegabytes(v)))
      case None => Err(rest)
    else Ok(None)
  }

  /** `float` refuses any text holding a character outside numerals. */
  lemma ParseFloatRejects(s: string, c: char)
    requires c in s && !NumeralChar(c) && !IsSpace(c)
    ensures ParseFloat(s).None?
  {
    StripChars(s);
  }

  /** A text that `float` reads has no blank at either end, no lower-case
      letter and no unit letter. */
  lemma NumeralPlain(x: string)
    requires ParseDecimal(x).Some?
    ensures |x| > 0 && !IsSpace(x[0]) && !IsSpace(x[|x| - 1])
    ensures forall i :: 0 <= i < |x| ==> !('a' <= x[i] <= 'z')
    ensures 'M' !in x && 'K' !in x
  {
    assert NumeralChar(x[0]) && NumeralChar(x[|x| - 1]);
  }

  /** Upper-casing and stripping a numeral with one unit letter attached at
      either end leaves the numeral with the upper-case letter. */
  lemma UnitAttached(x: string, unit: char)
    requires |x| > 0 && !IsSpace(x[0]) && !IsSpace(x[|x| - 1])
    requires forall i :: 0 <= i < |x| ==> !('a' <= x[i] <= 'z')
    requires !IsSpace(unit)
    ensures Upper(Strip(x + [unit])) == x + [UpperChar(unit)]
    ensures Upper(Strip([unit] + x)) == [UpperChar(unit)] + x
  {
    var s, t := x + [unit], [unit] + x;
    assert s[0] == x[0] && t[|t| - 1] == x[|x| - 1];
    StripUnchanged(s);
    StripUnchanged(t);
    UpperUnchanged(x);
    UpperConcat(x, [unit]);
    UpperConcat([unit], x);
  }

  /** Blanks only. */
  predicate Blank(s: string) {
    forall i :: 0 <= i < |s| ==> IsSpace(s[i])
  }

  /** Once normalised, a text whose `M`s delete to a numeral, with blanks
      around it or not, is read as that numeral. */
  lemma MegabytesRead(raw: string, a: string, x: string, b: string)
    requires ParseDecimal(x).Some? && Blank(a) && Blank(b)
    requires var s := Upper(Strip(raw)); 'M' in s && DeleteAll(s, 'M') == a + x + b
    ensures ConvertSize(raw) == Ok(Some(ParseDecimal(x).value))
  {
    NumeralPlain(x);
    ParseFloatBlanks(a, x, b);
  }

  /** Once normalised, a text without `M` whose `K`s delete to a numeral,
      with blanks around it or not, is read as that numeral divided by
      1024. */
  lemma KilobytesRead(raw: string, a: string, x: string, b: string)
    requires ParseDecimal(x).Some? && Blank(a) && Blank(b)
    requires var s := Upper(Strip(raw)); 'M' !in s && 'K' in s && DeleteAll(s, 'K') == a + x + b
    ensures ConvertSize(raw) == Ok(Some(KilobytesToMegabytes(ParseDecimal(x).value)))
  {
    NumeralPlain(x);
    ParseFloatBlanks(a, x, b);
  }

  /** A blank between the numeral and the unit is skipped: `19 M` is 19
      megabytes, because `float` trims what the `M` leaves. */
  lemma ConvertSizeSpacedUnit(x: string)
    requires ParseDecimal(x).Some?
    ensures ConvertSize(x + " M") == Ok(Some(ParseDecimal(x).value))
  {
    SpacedUnitNormal(x);
    var e: string := [];
    assert Blank(e) && Blank(" ") && e + x + " " == x + " ";
    MegabytesRead(x + " M", e, x, " ");
  }

  lemma SpacedUnitNormal(x: string)
    requires ParseDecimal(x).Some?
    ensures Upper(Strip(x + " M")) == x + " M"
    ensures DeleteAll(x + " M", 'M') == x + " "
    ensures 'M' in x + " M"
  {
    NumeralPlain(x);
    SpacedUnitUpper(x);
    SpacedUnitDelete(x);
    assert (x + " M")[|x| + 1] == 'M';
  }

  lemma SpacedUnitUpper(x: string)
    requires |x| > 0 && !IsSpace(x[0])
    requires forall i :: 0 <= i < |x| ==> !('a' <= x[i] <= 'z')
    ensures Upper(Strip(x + " M")) == x + " M"
  {
    var s := x + " M";
    assert forall i :: 0 <= i < |s| ==> !('a' <= s[i] <= 'z') by {
      forall i | 0 <= i < |s| ensures !('a' <= s[i] <= 'z') {
        if i < |x| { assert s[i] == x[i]; }
      }
    }
    assert s[0] == x[0] && s[|s| - 1] == 'M';
    StripUnchanged(s);
    UpperUnchanged(s);
  }

  lemma SpacedUnitDelete(x: string)
    requires 'M' !in x
    ensures DeleteAll(x + " M", 'M') == x + " "
  {
    var y := x + " ";
    assert 'M' !in y by {
      forall i | 0 <= i < |y| ensures y[i] != 'M' {
        if i < |x| { assert y[i] == x[i]; }
      }
    }
    DeleteAllEnds(y, 'M');
    assert y + ['M'] == x + " M";
  }

  /** A numeral with `M` (either case) attached at either end is that many
      megabytes: the letter is found anywhere in the text, not only at its
      end. */
  lemma ConvertSizeMegabytes(x: string, unit: char)
    requires unit == 'M' || unit == 'm'
    requires ParseDecimal(x).Some?
    ensures ConvertSize(x + [unit]) == Ok(Some(ParseDecimal(x).value))
    ensures ConvertSize([unit] + x) == Ok(Some(ParseDecimal(x).value))
  {
    NumeralPlain(x);
    UnitAttached(x, unit);
    DeleteAllEnds(x, 'M');
    assert 'M' in x + ['M'] && 'M' in ['M'] + x;
    StripUnchanged(x);
  }

  /** A numeral with `K` (either case) attached at either end is that many
      kilobytes, reported in megabytes. */
  lemma ConvertSizeKilobytes(x: string, unit: char)
    requires unit == 'K' || unit == 'k'
    requires ParseDecimal(x).Some?
    ensures ConvertSize(x + [unit]) == Ok(Some(KilobytesToMegabytes(ParseDecimal(x).value)))
    ensures ConvertSize([unit] + x) == Ok(Some(KilobytesToMegabytes(ParseDecimal(x).value)))
  {
    NumeralPlain(x);
    UnitAttached(x, unit);
    DeleteAllEnds(x, 'K');
    assert 'K' in x + ['K'] && 'K' in ['K'] + x;
    assert 'M' !in x + ['K'] && 'M' !in ['K'] + x;
    StripUnchanged(x);
  }

  /** `M` is tested before `K`: a text holding both letters keeps its `K`
      after the `M`s are deleted, so `float` refuses it. */
  lemma ConvertSizeBothUnits(raw: string)
    requires var s := Upper(Strip(raw)); 'M' in s && 'K' in s
    ensures ConvertSize(raw).Err?
  {
    var s := Upper(Strip(raw));
    DeleteAllKeeps(s, 'M');
    ParseFloatRejects(DeleteAll(s, 'M'), 'K');
  }

  /** A text without any of the letters `M`, `m`, `K`, `k` has no size:
      sizes in other units, and the sentinel, are `None`, not errors. */
  lemma ConvertSizeNoUnit(raw: string)
    requires forall i :: 0 <= i < |raw| ==> raw[i] !in "MmKk"
    ensures ConvertSize(raw) == Ok(None)
  {
    var t := Strip(raw);
    UpperHas(t, 'M');
    UpperHas(t, 'K');
    StripChars(raw);
  }

  /** The store's sentinel carries no unit letter, so `convert_size` maps it
      to `None` (the line-14 filter and the later dropna both remove it). */
  lemma ConvertSizeSentinel()
    ensures ConvertSize(SizeSentinel()) == Ok(None)
  {
    ConvertSizeNoUnit(SizeSentinel());
  }

  /** Installs text: every `+` and every `,` removed, every other character
      kept in order. */
  function NormaliseInstalls(s: string): (r: string)
    ensures '+' !in r && ',' !in r
    ensures |r| == |s| - multiset(s)['+'] - multiset(s)[',']
  {
    var noPlus := DeleteAll(s, '+');
    var r := DeleteAll(noPlus, ',');
    DeleteAllKeeps(noPlus, ',');
    DeleteAllCount(s, '+', ',');
    r
  }

  /** Every character other than `+` and `,` survives, in order. */
  lemma NormaliseInstallsKeeps(s: string)
    ensures forall c :: c != '+' && c != ',' ==> (c in NormaliseInstalls(s) <==> c in s)
    ensures Subsequence(NormaliseInstalls(s), s)
  {
    var noPlus := DeleteAll(s, '+');
    DeleteAllKeeps(s, '+');
    DeleteAllKeeps(noPlus, ',');
    DeleteAllSubsequence(s, '+');
    DeleteAllSubsequence(noPlus, ',');
    SubsequenceTrans(NormaliseInstalls(s), noPlus, s);
  }

  /** `pd.to_numeric` on the normalised Installs text: a text read as a
      count holds a digit and nothing but digits, `+` and `,`. */
  function ParseInstalls(s: string): (r: Option<nat>)
    ensures r.Some? ==> exists i :: 0 <= i < |s| && IsDigit(s[i])
    ensures r.Some? ==> forall i :: 0 <= i < |s| ==> IsDigit(s[i]) || s[i] == '+' || s[i] == ','
  {
    var x := NormaliseInstalls(s);
    NormaliseInstallsKeeps(s);
    assert ParseNat(x).Some? ==> exists i :: 0 <= i < |s| && IsDigit(s[i]) by {
      if ParseNat(x).Some? {
        assert IsDigit(x[0]) && x[0] in s;
      }
    }
    assert ParseNat(x).Some? ==> forall i :: 0 <= i < |s| ==> IsDigit(s[i]) || s[i] == '+' || s[i] == ',' by {
      if ParseNat(x).Some? {
        forall i | 0 <= i < |s| && s[i] != '+' && s[i] != ',' ensures IsDigit(s[i]) {
          assert s[i] in s;
          assert s[i] in x;
          var k :| 0 <= k < |x| && x[k] == s[i];
        }
      }
    }
    ParseNat(x)
  }

  /** The store's display form of an install count: grouped digits and a
      trailing `+` (`10,000+`). */
  function FormatInstalls(n: nat): string {
    GroupThousands(ShowNat(n)) + "+"
  }

  lemma {:induction false} GroupThousandsChars(ds: string)
    ensures forall c :: c in GroupThousands(ds) ==> c in ds || c == ','
    decreases |ds|
  {
    if |ds| > 3 {
      var hi, lo := ds[..|ds| - 3], ds[|ds| - 3..];
      GroupThousandsChars(hi);
      assert ds == hi + lo;
    }
  }

  /** Normalising and reading a displayed install count gives the count back. */
  lemma InstallsRoundTrip(n: nat)
    ensures ParseInstalls(FormatInstalls(n)) == Some(n)
  {
    var ds := ShowNat(n);
    var g := GroupThousands(ds);
    GroupThousandsChars(ds);
    assert forall i :: 0 <= i < |ds| ==> IsDigit(ds[i]);
    assert '+' !in ds && ',' !in ds;
    DeleteAllConcat(g, "+", '+');
    DeleteAllAbsent(g, '+');
    assert multiset("+")['+'] == 1;
    assert DeleteAll(g + "+", '+') == g;
    UngroupThousands(ds);
    ParseNatShow(n);
  }

  lemma NormaliseInstallsPlain(s: string)
    requires '+' !in s && ',' !in s
    ensures NormaliseInstalls(s) == s
  {
    DeleteAllAbsent(s, '+');
    DeleteAllAbsent(s, ',');
  }

  /** Price text: every `$` removed, every other character kept in order. */
  function NormalisePrice(s: string): (r: string)
    ensures '$' !in r
    ensures |r| == |s| - multiset(s)['$']
  {
    DeleteAll(s, '$')
  }

  /** Only the `$` signs go: every other character keeps its count, and the
      characters kept stay in order. */
  lemma NormalisePriceKeeps(s: string)
    ensures forall c :: c != '$' ==> multiset(NormalisePrice(s))[c] == multiset(s)[c]
    ensures Subsequence(NormalisePrice(s), s)
  {
    forall c | c != '$' ensures multiset(NormalisePrice(s))[c] == multiset(s)[c] {
      DeleteAllCount(s, '$', c);
    }
    DeleteAllSubsequence(s, '$');
  }

  /** `pd.to_numeric` on the normalised Price text: a text read as a price
      holds a digit and nothing but numeral characters and `$`, and without
      a `-` the price is not negative. */
  function ParsePrice(s: string): (r: Option<real>)
    ensures r.Some? ==> exists i :: 0 <= i < |s| && IsDigit(s[i])
    ensures r.Some? ==> forall i :: 0 <= i < |s| ==> NumeralChar(s[i]) || s[i] == '$'
    ensures r.Some? && '-' !in s ==> r.value >= 0.0
  {
    var x := NormalisePrice(s);
    NormalisePriceKeeps(s);
    assert forall c :: c != '$' ==> (c in x <==> c in s) by {
      forall c | c != '$' ensures c in x <==> c in s {
        assert multiset(x)[c] == multiset(s)[c];
      }
    }
    assert ParseDecimal(x).Some? ==> exists i :: 0 <= i < |s| && IsDigit(s[i]) by {
      if ParseDecimal(x).Some? {
        var k :| 0 <= k < |x| && IsDigit(x[k]);
        assert x[k] in s;
      }
    }
    assert ParseDecimal(x).Some? ==> forall i :: 0 <= i < |s| ==> NumeralChar(s[i]) || s[i] == '$' by {
      if ParseDecimal(x).Some? {
        forall i | 0 <= i < |s| && s[i] != '$' ensures NumeralChar(s[i]) {
          assert s[i] in s;
          assert s[i] in x;
          var k :| 0 <= k < |x| && x[k] == s[i];
        }
      }
    }
    assert ParseDecimal(x).Some? && '-' !in s ==> ParseDecimal(x).value >= 0.0 by {
      if ParseDecimal(x).Some? && '-' !in s && |x| > 0 {
        assert x[0] in x;
      }
    }
    ParseDecimal(x)
  }

  /** A leading dollar sign does not change the price read. */
  lemma PriceDollar(x: string)
    requires '$' !in x
    ensures ParsePrice("$" + x) == ParseDecimal(x)
    ensures ParsePrice(x) == ParseDecimal(x)
  {
    DeleteAllEnds(x, '$');
    DeleteAllAbsent(x, '$');
    assert "$" + x == ['$'] + x;
  }
}
