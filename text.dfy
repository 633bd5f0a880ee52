/** The Python string operations the cleaning code relies on:
    `str.strip()`, `str.upper()`, `str.replace(c, '')`, substring tests and
    `str.split(sep)` / `sep.join(...)`. */
module Text {
  import opened Seqs

  /** The characters `str.isspace()` accepts (and `str.strip()` removes). */
  predicate IsSpace(c: char) {
    ('\t' <= c <= '\r') || ('\U{1C}' <= c <= ' ') || c == '\U{85}' || c == '\U{A0}'
    || c == '\U{1680}' || ('\U{2000}' <= c <= '\U{200A}') || c == '\U{2028}' || c == '\U{2029}'
    || c == '\U{202F}' || c == '\U{205F}' || c == '\U{3000}'
  }

  function LeadingSpaces(s: string): (n: nat)
    ensures n <= |s|
    ensures forall k :: 0 <= k < n ==> IsSpace(s[k])
    ensures n == |s| || !IsSpace(s[n])
  {
    if |s| > 0 && IsSpace(s[0]) then 1 + LeadingSpaces(s[1..]) else 0
  }

  function TrailingSpaces(s: string): (n: nat)
    ensures n <= |s|
    ensures forall k :: |s| - n <= k < |s| ==> IsSpace(s[k])
    ensures n == |s| || !IsSpace(s[|s| - n - 1])
    decreases |s|
  {
    if |s| > 0 && IsSpace(s[|s| - 1]) then 1 + TrailingSpaces(s[..|s| - 1]) else 0
  }

  /** `str.strip()`: removes the whitespace at both ends and nothing else. */
  function Strip(s: string): (r: string)
    ensures |r| <= |s|
    ensures |r| > 0 ==> !IsSpace(r[0]) && !IsSpace(r[|r| - 1])
  {
    var i := LeadingSpaces(s);
    s[i..|s| - TrailingSpaces(s[i..])]
  }

  /** What `str.strip()` removes is whitespace, and only at the two ends:
      the result is a slice of the input with whitespace on either side. */
  lemma StripSlice(s: string) returns (i: nat, j: nat)
    ensures i <= j <= |s| && Strip(s) == s[i..j]
    ensures forall k :: 0 <= k < i ==> IsSpace(s[k])
    ensures forall k :: j <= k < |s| ==> IsSpace(s[k])
  {
    i := LeadingSpaces(s);
    j := |s| - TrailingSpaces(s[i..]);
    assert forall k :: j <= k < |s| ==> s[k] == s[i..][k - i];
  }

  /** Stripping keeps every non-blank character and adds none. */
  lemma StripChars(s: string)
    ensures forall k :: 0 <= k < |s| && !IsSpace(s[k]) ==> s[k] in Strip(s)
    ensures forall c :: c in Strip(s) ==> c in s
  {
    var i, j := StripSlice(s);
    assert forall k :: i <= k < j ==> s[k] == Strip(s)[k - i];
    assert forall k :: 0 <= k < |Strip(s)| ==> Strip(s)[k] == s[i + k];
  }

  /** Stripping a text that has no blank at either end, once blanks are
      put around it, gives the text back. */
  lemma StripAround(a: string, x: string, b: string)
    requires forall i :: 0 <= i < |a| ==> IsSpace(a[i])
    requires forall i :: 0 <= i < |b| ==> IsSpace(b[i])
    requires |x| > 0 && !IsSpace(x[0]) && !IsSpace(x[|x| - 1])
    ensures Strip(a + x + b) == x
  {
    var s := a + x + b;
    var i := LeadingSpaces(s);
    assert s[|a|] == x[0];
    assert forall k :: 0 <= k < |a| ==> s[k] == a[k];
    assert i == |a|;
    var rest := s[i..];
    assert rest == x + b;
    var n := TrailingSpaces(rest);
    assert rest[|x| - 1] == x[|x| - 1];
    assert forall k :: |x| <= k < |rest| ==> rest[k] == b[k - |x|];
    assert n == |b|;
    assert s[i..|s| - n] == x;
  }

  /** A string without whitespace at either end is left as it is. */
  lemma StripUnchanged(s: string)
    requires |s| == 0 || (!IsSpace(s[0]) && !IsSpace(s[|s| - 1]))
    ensures Strip(s) == s
  {
    assert LeadingSpaces(s) == 0;
    assert TrailingSpaces(s) == 0;
  }

  function UpperChar(c: char): char {
    if 'a' <= c <= 'z' then (c as int - 32) as char else c
  }

  /** `str.upper()` on the ASCII letters. */
  function Upper(s: string): (r: string)
    ensures |r| == |s|
    ensures forall i :: 0 <= i < |s| ==> r[i] == UpperChar(s[i])
  {
    Map(UpperChar, s)
  }

  /** After upper-casing, an upper-case letter occurs exactly where the
      original held that letter in either case. */
  lemma UpperHas(s: string, c: char)
    requires 'A' <= c <= 'Z'
    ensures c in Upper(s) <==> c in s || (c as int + 32) as char in s
  {
    var u := Upper(s);
    if c in u {
      var i :| 0 <= i < |u| && u[i] == c;
      assert s[i] == c || s[i] == (c as int + 32) as char;
    }
    if c in s {
      var i :| 0 <= i < |s| && s[i] == c;
      assert u[i] == c;
    }
    if (c as int + 32) as char in s {
      var i :| 0 <= i < |s| && s[i] == (c as int + 32) as char;
      assert u[i] == c;
    }
  }

  /** Upper-casing works character by character. */
  lemma UpperConcat(a: string, b: string)
    ensures Upper(a + b) == Upper(a) + Upper(b)
  {
    MapConcat(UpperChar, a, b);
  }

  /** A string without lower-case ASCII letters is its own upper-case form. */
  lemma UpperUnchanged(s: string)
    requires forall i :: 0 <= i < |s| ==> !('a' <= s[i] <= 'z')
    ensures Upper(s) == s
  {
  }

  /** `s.replace(c, '')`: every `c` removed, every other character kept, in
      order. */
  function DeleteAll(s: string, c: char): (r: string)
    ensures c !in r
    ensures |r| == |s| - multiset(s)[c]
  {
    var r := Filter((d: char) => d != c, s);
    FilterLength((d: char) => d != c, s, c);
    r
  }

  lemma {:induction false} FilterLength(p: char -> bool, s: string, c: char)
    requires forall d :: p(d) <==> d != c
    ensures |Filter(p, s)| == |s| - multiset(s)[c]
    decreases |s|
  {
    if |s| > 0 {
      var init := s[..|s| - 1];
      assert s == init + [s[|s| - 1]];
      FilterLength(p, init, c);
    }
  }

  /** The characters kept stay in their original order. */
  lemma DeleteAllSubsequence(s: string, c: char)
    ensures Subsequence(DeleteAll(s, c), s)
  {
    FilterSubsequence((d: char) => d != c, s);
  }

  /** Every character other than `c` survives DeleteAll. */
  lemma DeleteAllKeeps(s: string, c: char)
    ensures forall d :: d != c ==> (d in DeleteAll(s, c) <==> d in s)
  {
    FilterIn((d: char) => d != c, s);
  }

  /** The number of characters DeleteAll takes out is the number of
      occurrences, and any other character's count is unchanged. */
  lemma DeleteAllCount(s: string, c: char, d: char)
    ensures multiset(DeleteAll(s, c))[d] == if d == c then 0 else multiset(s)[d]
  {
    FilterCount((x: char) => x != c, s, d);
  }

  lemma DeleteAllConcat(a: string, b: string, c: char)
    ensures DeleteAll(a + b, c) == DeleteAll(a, c) + DeleteAll(b, c)
  {
    FilterConcat((d: char) => d != c, a, b);
  }

  /** Deleting `c` from a string holding only `c`s leaves nothing. */
  lemma DeleteAllOnly(c: char)
    ensures DeleteAll([c], c) == []
  {
    assert multiset([c])[c] == 1;
  }

  /** A string without `c` is unchanged by DeleteAll. */
  lemma DeleteAllAbsent(s: string, c: char)
    requires c !in s
    ensures DeleteAll(s, c) == s
  {
    assert multiset(s)[c] == 0;
    var r := DeleteAll(s, c);
    DeleteAllSubsequence(s, c);
    SubsequenceEqualLength(r, s);
  }

  /** A letter added at either end is the only one deleted. */
  lemma DeleteAllEnds(x: string, c: char)
    requires c !in x
    ensures DeleteAll(x + [c], c) == x
    ensures DeleteAll([c] + x, c) == x
  {
    DeleteAllConcat(x, [c], c);
    DeleteAllConcat([c], x, c);
    DeleteAllAbsent(x, c);
    DeleteAllOnly(c);
    assert x + [] == x && [] + x == x;
  }

  lemma {:induction false} SubsequenceEqualLength<T>(a: seq<T>, b: seq<T>)
    requires Subsequence(a, b) && |a| == |b|
    ensures a == b
    decreases |b|
  {
    if |a| > 0 {
      var a', b' := a[..|a| - 1], b[..|b| - 1];
      if a[|a| - 1] == b[|b| - 1] && Subsequence(a', b') {
        SubsequenceEqualLength(a', b');
        assert a == a' + [a[|a| - 1]] && b == b' + [b[|b| - 1]];
      } else {
        SubsequenceLength(a, b');
        assert false;
      }
    }
  }

  /** `sub` occurs in `s` starting at position `i`. */
  ghost predicate OccursAt(s: string, sub: string, i: nat) {
    i + |sub| <= |s| && s[i..i + |sub|] == sub
  }

  /** An occurrence one place on in `s` is an occurrence in its tail. */
  lemma OccursShift(s: string, sub: string, i: nat)
    requires |s| > 0
    ensures OccursAt(s, sub, i + 1) <==> OccursAt(s[1..], sub, i)
  {
    if i + 1 + |sub| <= |s| {
      var a, b := s[i + 1..i + 1 + |sub|], s[1..][i..i + |sub|];
      assert |a| == |b|;
      assert forall k :: 0 <= k < |a| ==> a[k] == s[i + 1 + k] == b[k];
      assert a == b;
    }
  }

  /** `sub in s` for strings: `sub` occurs contiguously somewhere in `s`. */
  function HasSubstring(s: string, sub: string): (b: bool)
    ensures b <==> exists i: nat :: OccursAt(s, sub, i)
    decreases |s|
  {
    if |s| < |sub| then false
    else if s[..|sub|] == sub then
      assert OccursAt(s, sub, 0);
      true
    else
      var b := HasSubstring(s[1..], sub);
      assert forall i: nat :: OccursAt(s, sub, i + 1) <==> OccursAt(s[1..], sub, i) by {
        forall i: nat ensures OccursAt(s, sub, i + 1) <==> OccursAt(s[1..], sub, i) {
          OccursShift(s, sub, i);
        }
      }
      assert !OccursAt(s, sub, 0);
      assert (exists i: nat :: OccursAt(s, sub, i)) ==> b by {
        if exists i: nat :: OccursAt(s, sub, i) {
          var i: nat :| OccursAt(s, sub, i);
          assert i > 0;
          assert OccursAt(s[1..], sub, i - 1);
        }
      }
      b
  }

  /** `s.split(sep)`: the pieces between separators; there is always one
      more piece than there are separators, and no piece holds one. */
  function Split(s: string, sep: char): (r: seq<string>)
    ensures |r| > 0
    ensures forall i :: 0 <= i < |r| ==> sep !in r[i]
    decreases |s|
  {
    if |s| == 0 then [""]
    else
      var init, c := s[..|s| - 1], s[|s| - 1];
      assert s == init + [c];
      var r := Split(init, sep);
      if c == sep then r + [""] else r[..|r| - 1] + [r[|r| - 1] + [c]]
  }

  /** There is always one more piece than there are separators. */
  lemma {:induction false} SplitLength(s: string, sep: char)
    ensures |Split(s, sep)| == multiset(s)[sep] + 1
    decreases |s|
  {
    if |s| > 0 {
      var init := s[..|s| - 1];
      assert s == init + [s[|s| - 1]];
      SplitLength(init, sep);
    }
  }

  /** `sep.join(pieces)`. */
  function Join(pieces: seq<string>, sep: char): string
    decreases |pieces|
  {
    if |pieces| == 0 then ""
    else if |pieces| == 1 then pieces[0]
    else Join(pieces[..|pieces| - 1], sep) + [sep] + pieces[|pieces| - 1]
  }

  /** Joining the pieces with the separator gives back the string. */
  lemma {:induction false} JoinSplit(s: string, sep: char)
    ensures Join(Split(s, sep), sep) == s
    decreases |s|
  {
    if |s| > 0 {
      var init, c := s[..|s| - 1], s[|s| - 1];
      assert s == init + [c];
      JoinSplit(init, sep);
      var r := Split(init, sep);
      var k := |r| - 1;
      if c != sep {
        var r' := r[..k] + [r[k] + [c]];
        assert Split(s, sep) == r';
        if k > 0 {
          assert r'[..k] == r[..k];
          assert Join(r, sep) == Join(r[..k], sep) + [sep] + r[k];
        }
      }
    }
  }

  lemma SplitSnoc(s: string, c: char, sep: char)
    ensures Split(s + [c], sep) ==
      var r := Split(s, sep);
      if c == sep then r + [""] else r[..|r| - 1] + [r[|r| - 1] + [c]]
  {
    assert (s + [c])[..|s|] == s;
  }

  /** Splitting at a separator splits the two sides independently. */
  lemma {:induction false} SplitConcat(a: string, b: string, sep: char)
    ensures Split(a + [sep] + b, sep) == Split(a, sep) + Split(b, sep)
    decreases |b|
  {
    if |b| == 0 {
      SplitSnoc(a, sep, sep);
      assert a + [sep] + b == a + [sep];
    } else {
      var b', c := b[..|b| - 1], b[|b| - 1];
      SplitConcat(a, b', sep);
      SplitConcatStep(a, b', c, sep);
      assert b == b' + [c];
      assert a + [sep] + b == a + [sep] + b' + [c];
    }
  }

  lemma SplitConcatStep(a: string, b: string, c: char, sep: char)
    requires Split(a + [sep] + b, sep) == Split(a, sep) + Split(b, sep)
    ensures Split(a + [sep] + b + [c], sep) == Split(a, sep) + Split(b + [c], sep)
  {
    var x := a + [sep] + b;
    var ra, rb := Split(a, sep), Split(b, sep);
    SplitSnoc(x, c, sep);
    SplitSnoc(b, c, sep);
    if c != sep {
      ExtendLast(ra, rb, c);
    } else {
      assert (ra + rb) + [""] == ra + (rb + [""]);
    }
  }

  /** Extending the last piece of a concatenation extends the last piece of
      its second part. */
  lemma ExtendLast(ra: seq<string>, rb: seq<string>, c: char)
    requires |rb| > 0
    ensures var r := ra + rb;
      r[..|r| - 1] + [r[|r| - 1] + [c]] == ra + (rb[..|rb| - 1] + [rb[|rb| - 1] + [c]])
  {
    var r := ra + rb;
    assert r[..|r| - 1] == ra + rb[..|rb| - 1];
  }

  /** A string without the separator is a single piece. */
  lemma {:induction false} SplitNoSeparator(s: string, sep: char)
    requires sep !in s
    ensures Split(s, sep) == [s]
    decreases |s|
  {
    if |s| > 0 {
      var init := s[..|s| - 1];
      assert s == init + [s[|s| - 1]];
      SplitNoSeparator(init, sep);
    }
  }

  /** Pieces without the separator survive a join followed by a split. */
  lemma {:induction false} SplitJoin(pieces: seq<string>, sep: char)
    requires |pieces| > 0
    requires forall i :: 0 <= i < |pieces| ==> sep !in pieces[i]
    ensures Split(Join(pieces, sep), sep) == pieces
    decreases |pieces|
  {
    var n := |pieces| - 1;
    if n == 0 {
      SplitNoSeparator(pieces[0], sep);
    } else {
      var init := pieces[..n];
      SplitJoin(init, sep);
      SplitConcat(Join(init, sep), pieces[n], sep);
      SplitNoSeparator(pieces[n], sep);
      assert pieces == init + [pieces[n]];
    }
  }

  /** A one-character substring occurs exactly when the character does. */
  lemma HasSubstringChar(s: string, c: char)
    ensures HasSubstring(s, [c]) <==> c in s
  {
    if c in s {
      var i :| 0 <= i < |s| && s[i] == c;
      assert OccursAt(s, [c], i);
    }
    if HasSubstring(s, [c]) {
      var i: nat :| OccursAt(s, [c], i);
      assert s[i] == s[i..i + 1][0];
    }
  }
}
