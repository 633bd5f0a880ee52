/** The tables the script derives from the cleaned listing (lines 42 to 354):
    sorted views, value counts, per-category groupings, the genre split and
    the row selections each chart is drawn from. The charts themselves and
    the printing are not part of this model. */
module Analysis {
  import opened Seqs
  import opened Groups
  import opened Text
  import opened Table

  // Lines 42-59: sorted views of the table before the price cap.

  function RatingOf(r: Record): real { r.app.rating }
  function SizeOf(r: Record): real { r.sizeMB }
  function ReviewsOf(r: Record): real { r.app.reviews as real }
  function PriceOf(r: Record): real { r.price }

  /** Lines 42-44: the five rows with the highest Rating. */
  function HighestRated(t: seq<Record>): (r: seq<Record>)
    ensures |r| == if 5 < |t| then 5 else |t|
    ensures SortedDesc(r, RatingOf) && multiset(r) <= multiset(t)
    ensures forall x, y :: x in multiset(t) - multiset(r) && y in r ==> x.app.rating <= y.app.rating
  {
    TopBy(t, RatingOf, 5)
  }

  /** Lines 47-49: the five rows with the largest Size_MB. */
  function LargestApps(t: seq<Record>): (r: seq<Record>)
    ensures |r| == if 5 < |t| then 5 else |t|
    ensures SortedDesc(r, SizeOf) && multiset(r) <= multiset(t)
    ensures forall x, y :: x in multiset(t) - multiset(r) && y in r ==> x.sizeMB <= y.sizeMB
  {
    TopBy(t, SizeOf, 5)
  }

  /** Lines 52-54: the five rows with the most Reviews. */
  function MostReviewed(t: seq<Record>): (r: seq<Record>)
    ensures |r| == if 5 < |t| then 5 else |t|
    ensures SortedDesc(r, ReviewsOf) && multiset(r) <= multiset(t)
    ensures forall x, y :: x in multiset(t) - multiset(r) && y in r ==> x.app.reviews <= y.app.reviews
  {
    TopBy(t, ReviewsOf, 5)
  }

  /** Lines 57-59: the twenty rows with the highest Price. */
  function MostExpensive(t: seq<Record>): (r: seq<Record>)
    ensures |r| == if 20 < |t| then 20 else |t|
    ensures SortedDesc(r, PriceOf) && multiset(r) <= multiset(t)
    ensures forall x, y :: x in multiset(t) - multiset(r) && y in r ==> x.price <= y.price
  {
    TopBy(t, PriceOf, 20)
  }

  // Lines 66-71 and 347: paid apps and their revenue.

  predicate IsPaid(e: Earning) {
    e.AppType() == "Paid"
  }

  function RevenueOf(e: Earning): real { e.revenue }

  /** Lines 66 and 347: `clean_df[clean_df['Type'] == 'Paid']`. */
  function PaidApps(t: seq<Earning>): (r: seq<Earning>)
    ensures forall i :: 0 <= i < |r| ==> r[i].AppType() == "Paid"
  {
    Filter(IsPaid, t)
  }

  /** The paid rows are exactly the rows of type Paid, in their order. */
  lemma PaidAppsRows(t: seq<Earning>)
    ensures forall e :: e in PaidApps(t) <==> e in t && e.AppType() == "Paid"
    ensures Subsequence(PaidApps(t), t)
  {
    FilterIn(IsPaid, t);
    FilterSubsequence(IsPaid, t);
  }

  /** Line 66: the paid rows by decreasing Revenue_Estimate. */
  function TopRevenue(t: seq<Earning>): (r: seq<Earning>)
    ensures SortedDesc(r, RevenueOf)
    ensures multiset(r) == multiset(PaidApps(t))
  {
    SortDesc(PaidApps(t), RevenueOf)
  }

  /** The revenue ranking holds every paid row, and nothing else. */
  lemma TopRevenueRows(t: seq<Earning>)
    ensures forall e :: e in TopRevenue(t) <==> e in t && e.AppType() == "Paid"
    ensures |TopRevenue(t)| == |PaidApps(t)|
  {
    var r := TopRevenue(t);
    PaidAppsRows(t);
    forall e ensures e in r <==> e in PaidApps(t) {
      assert e in r <==> e in multiset(r);
    }
    assert |multiset(r)| == |multiset(PaidApps(t))|;
  }

  predicate IsGame(e: Earning) {
    HasSubstring(e.Category(), "GAME")
  }

  /** Line 71: how many of the ten best-earning paid rows have a Category
      containing `GAME`; never more than ten, and never more than the paid
      game rows of the whole table. */
  function GamesInTopTen(t: seq<Earning>): (n: nat)
    ensures n <= 10
    ensures n <= |Filter(IsGame, PaidApps(t))|
  {
    var top := Head(TopRevenue(t), 10);
    HeadFrom(TopRevenue(t), 10);
    FilterFewer(IsGame, top, PaidApps(t));
    |Filter(IsGame, top)|
  }

  /** A paid game row earning more than `v`. */
  function GameAbove(v: real): Earning -> bool {
    (e: Earning) => IsGame(e) && e.revenue > v
  }

  /** A paid game row earning `v` or more. */
  function GameFrom(v: real): Earning -> bool {
    (e: Earning) => IsGame(e) && e.revenue >= v
  }

  /** What line 71 counts, whatever the order of equal revenues: with ten
      paid rows or fewer, every paid game row; otherwise, with `v` the tenth
      best revenue, at least the paid game rows earning more than `v` and at
      most those earning `v` or more. */
  lemma GamesInTopTenRange(t: seq<Earning>)
    ensures |TopRevenue(t)| <= 10 ==> GamesInTopTen(t) == |Filter(IsGame, PaidApps(t))|
    ensures |TopRevenue(t)| > 10 ==> var v := TopRevenue(t)[9].revenue;
      |Filter(GameAbove(v), PaidApps(t))| <= GamesInTopTen(t) <= |Filter(GameFrom(v), PaidApps(t))|
  {
    var ranked, paid := TopRevenue(t), PaidApps(t);
    var top := Head(ranked, 10);
    assert GamesInTopTen(t) == |Filter(IsGame, top)|;
    if |ranked| <= 10 {
      assert top == ranked;
      FilterPermutation(IsGame, ranked, paid);
    } else {
      var v := ranked[9].revenue;
      var rest := ranked[10..];
      assert ranked == top + rest;
      assert forall i :: 0 <= i < |top| ==> top[i].revenue >= v by {
        forall i | 0 <= i < |top| ensures top[i].revenue >= v {
          assert top[i] == ranked[i];
          if i < 9 { assert RevenueOf(ranked[i]) >= RevenueOf(ranked[9]); }
        }
      }
      assert forall i :: 0 <= i < |rest| ==> rest[i].revenue <= v by {
        forall i | 0 <= i < |rest| ensures rest[i].revenue <= v {
          assert rest[i] == ranked[10 + i];
          assert RevenueOf(ranked[9]) >= RevenueOf(ranked[10 + i]);
        }
      }
      // Lower bound: every game earning more than v is in the top ten.
      FilterPermutation(GameAbove(v), ranked, paid);
      FilterConcat(GameAbove(v), top, rest);
      FilterNone(GameAbove(v), rest);
      FilterWeaker(GameAbove(v), IsGame, top);
      // Upper bound: every game in the top ten earns v or more.
      FilterPermutation(GameFrom(v), ranked, paid);
      FilterConcat(GameFrom(v), top, rest);
      FilterWeaker(IsGame, GameFrom(v), top);
    }
  }

  // Lines 77 and 92: value counts.

  function ContentRatingOf(e: Earning): string { e.ContentRating() }
  function CategoryOf(e: Earning): string { e.Category() }

  /** Line 77: one row per content rating present, with the number of apps
      rated so; the counts add up to the number of apps. */
  function ContentRatingCounts(t: seq<Earning>): (r: seq<(string, nat)>)
    ensures Distinct(Keys(r))
    ensures forall c :: c in Keys(r) <==> c in Map(ContentRatingOf, t)
    ensures forall i :: 0 <= i < |r| ==> r[i].1 == multiset(Map(ContentRatingOf, t))[r[i].0]
    ensures Total(r) == |t|
  {
    var r := ValueCounts(Map(ContentRatingOf, t));
    ValueCountsTotal(Map(ContentRatingOf, t));
    r
  }

  /** Line 92: one row per category present, with its number of apps; the
      counts add up to the number of apps. */
  function CategoryCounts(t: seq<Earning>): (r: seq<(string, nat)>)
    ensures Distinct(Keys(r))
    ensures forall c :: c in Keys(r) <==> c in Map(CategoryOf, t)
    ensures forall i :: 0 <= i < |r| ==> r[i].1 == multiset(Map(CategoryOf, t))[r[i].0]
    ensures Total(r) == |t|
  {
    var r := ValueCounts(Map(CategoryOf, t));
    ValueCountsTotal(Map(CategoryOf, t));
    r
  }

  // Lines 143 and 166-169: installs per category.

  function InstallRow(e: Earning): (string, nat) { (e.Category(), e.Installs()) }

  /** The Installs column keyed by Category. */
  function InstallRows(t: seq<Earning>): (rows: seq<(string, nat)>)
    ensures Keys(rows) == Map(CategoryOf, t)
    ensures forall i :: 0 <= i < |t| ==> rows[i].1 == t[i].Installs()
  {
    Map(InstallRow, t)
  }

  /** Line 143: `groupby('Category')['Installs'].sum()`: one row per category
      present, with the installs of its apps added up; no install is lost or
      counted twice. */
  function CategoryInstalls(t: seq<Earning>): (r: seq<(string, nat)>)
    ensures Distinct(Keys(r))
    ensures forall c :: c in Keys(r) <==> c in Map(CategoryOf, t)
    ensures forall i :: 0 <= i < |r| ==> r[i].1 == KeyTotal(InstallRows(t), r[i].0)
    ensures Total(r) == Total(InstallRows(t))
  {
    GroupTotalsSum(InstallRows(t));
    GroupTotals(InstallRows(t))
  }

  /** A row of the category concentration table. */
  datatype CategoryStats = CategoryStats(category: string, apps: nat, installs: nat)

  function StatsCategory(s: CategoryStats): string { s.category }

  /** Lines 166-169: per category, the number of apps and their total
      installs, both taken over the same rows. */
  function Concentration(t: seq<Earning>): (r: seq<CategoryStats>)
    ensures Distinct(Map(StatsCategory, r))
    ensures forall c :: c in Map(StatsCategory, r) <==> c in Map(CategoryOf, t)
    ensures forall i :: 0 <= i < |r| ==>
      r[i].apps == multiset(Map(CategoryOf, t))[r[i].category]
      && r[i].installs == KeyTotal(InstallRows(t), r[i].category)
  {
    var cats := Map(CategoryOf, t);
    var ks := Dedup(cats);
    var counts := Tabulate(ks, Ones(cats));
    var sums := Tabulate(ks, InstallRows(t));
    var r := seq(|ks|, i requires 0 <= i < |ks| => CategoryStats(ks[i], counts[i].1, sums[i].1));
    assert Map(StatsCategory, r) == ks;
    forall i | 0 <= i < |r|
      ensures r[i].apps == multiset(cats)[r[i].category]
    {
      OnesCount(cats, ks[i]);
    }
    r
  }

  // Lines 206-227: genres.

  function GenresOf(e: Earning): seq<string> { Split(e.Genres(), ';') }

  /** Line 206: `str.split(';')` on each Genres cell: each list joins back
      to its cell and has one piece more than the cell has separators. */
  function GenreSplit(t: seq<Earning>): (r: seq<seq<string>>)
    ensures |r| == |t|
    ensures forall i :: 0 <= i < |t| ==>
      Join(r[i], ';') == t[i].Genres() && |r[i]| == multiset(t[i].Genres())[';'] + 1
  {
    var r := Map(GenresOf, t);
    forall i | 0 <= i < |t|
      ensures Join(r[i], ';') == t[i].Genres() && |r[i]| == multiset(t[i].Genres())[';'] + 1
    {
      JoinSplit(t[i].Genres(), ';');
      SplitLength(t[i].Genres(), ';');
    }
    r
  }

  /** The number of `;` separators in the Genres column. */
  function Separators(t: seq<Earning>): nat
    decreases |t|
  {
    if |t| == 0 then 0 else Separators(t[..|t| - 1]) + multiset(t[|t| - 1].Genres())[';']
  }

  /** Line 209: the split lists flattened into one column of genres. */
  function AllGenres(t: seq<Earning>): (r: seq<string>)
    ensures forall i :: 0 <= i < |r| ==> ';' !in r[i]
  {
    AllGenresPieces(t);
    Flatten(GenreSplit(t))
  }

  lemma {:induction false} AllGenresPieces(t: seq<Earning>)
    ensures forall i :: 0 <= i < |Flatten(GenreSplit(t))| ==> ';' !in Flatten(GenreSplit(t))[i]
    decreases |t|
  {
    if |t| > 0 {
      var init := t[..|t| - 1];
      AllGenresPieces(init);
      assert GenreSplit(t) == GenreSplit(init) + [GenresOf(t[|t| - 1])];
      assert GenreSplit(t)[..|t| - 1] == GenreSplit(init);
    }
  }

  /** The flattened column holds exactly the genres some row's split
      gives. */
  lemma AllGenresFrom(t: seq<Earning>)
    ensures forall g :: g in AllGenres(t) <==> exists i :: 0 <= i < |t| && g in Split(t[i].Genres(), ';')
  {
    FlattenIn(GenreSplit(t));
    assert forall i :: 0 <= i < |t| ==> GenreSplit(t)[i] == Split(t[i].Genres(), ';');
  }

  /** How many times `g` is among the pieces of the rows' Genres cells. */
  function GenreOccurrences(t: seq<Earning>, g: string): nat
    decreases |t|
  {
    if |t| == 0 then 0
    else GenreOccurrences(t[..|t| - 1], g) + multiset(Split(t[|t| - 1].Genres(), ';'))[g]
  }

  /** Each genre occurs in the flattened column as often as in all the
      rows' splits together. */
  lemma {:induction false} AllGenresCount(t: seq<Earning>, g: string)
    ensures multiset(AllGenres(t))[g] == GenreOccurrences(t, g)
    decreases |t|
  {
    if |t| > 0 {
      var init := t[..|t| - 1];
      AllGenresCount(init, g);
      assert GenreSplit(t)[..|t| - 1] == GenreSplit(init);
      assert GenreSplit(t)[|t| - 1] == Split(t[|t| - 1].Genres(), ';');
    }
  }

  /** The flattened column has one genre per row plus one per separator. */
  lemma {:induction false} AllGenresLength(t: seq<Earning>)
    ensures |AllGenres(t)| == |t| + Separators(t)
    decreases |t|
  {
    if |t| > 0 {
      var init := t[..|t| - 1];
      AllGenresLength(init);
      assert GenreSplit(t)[..|t| - 1] == GenreSplit(init);
      SplitLength(t[|t| - 1].Genres(), ';');
    }
  }

  /** Lines 217 and 227: `all_genres.value_counts()`: one row per genre,
      with how often it occurs; the counts add up to the flattened column. */
  function GenreCounts(t: seq<Earning>): (r: seq<(string, nat)>)
    ensures Distinct(Keys(r))
    ensures forall g :: g in Keys(r) <==> g in AllGenres(t)
    ensures forall i :: 0 <= i < |r| ==> r[i].1 == multiset(AllGenres(t))[r[i].0]
    ensures Total(r) == |AllGenres(t)|
  {
    ValueCountsTotal(AllGenres(t));
    ValueCounts(AllGenres(t))
  }

  /** Line 212: `all_genres.nunique()`. */
  function UniqueGenres(t: seq<Earning>): (n: nat)
    ensures n <= |AllGenres(t)|
  {
    DedupSubsequence(AllGenres(t));
    SubsequenceLength(Dedup(AllGenres(t)), AllGenres(t));
    |Dedup(AllGenres(t))|
  }

  /** The number of unique genres is the size of the set of genres, and the
      number of rows of the genre counts. */
  lemma UniqueGenresCount(t: seq<Earning>)
    ensures UniqueGenres(t) == |set g | g in AllGenres(t)|
    ensures UniqueGenres(t) == |GenreCounts(t)|
  {
    var all := AllGenres(t);
    var d, k := Dedup(all), Keys(GenreCounts(t));
    DistinctCard(d);
    DistinctCard(k);
    assert (set g | g in d) == (set g | g in all);
    assert (set g | g in k) == (set g | g in all);
  }

  predicate HasSeveralGenres(e: Earning) {
    HasSubstring(e.Genres(), ";")
  }

  /** Line 220: the rows whose Genres cell contains `;`. */
  function MultiGenre(t: seq<Earning>): (r: seq<Earning>)
    ensures forall i :: 0 <= i < |r| ==> ';' in r[i].Genres()
  {
    var r := Filter(HasSeveralGenres, t);
    forall i | 0 <= i < |r| ensures ';' in r[i].Genres() {
      HasSubstringChar(r[i].Genres(), ';');
    }
    r
  }

  /** A row has several genres exactly when its split gives two pieces or
      more. */
  lemma MultiGenreRows(t: seq<Earning>)
    ensures forall e :: e in MultiGenre(t) <==> e in t && |Split(e.Genres(), ';')| >= 2
  {
    FilterIn(HasSeveralGenres, t);
    forall e ensures HasSeveralGenres(e) <==> |Split(e.Genres(), ';')| >= 2 {
      HasSubstringChar(e.Genres(), ';');
      SplitLength(e.Genres(), ';');
    }
  }

  // Line 254: apps per (Category, Type).

  function CategoryTypeOf(e: Earning): (string, string) { (e.Category(), e.AppType()) }

  /** Line 254: one row per (Category, Type) pair present, with its number of
      apps; the counts add up to the number of apps. */
  function CategoryTypeCounts(t: seq<Earning>): (r: seq<((string, string), nat)>)
    ensures Distinct(Keys(r))
    ensures forall k :: k in Keys(r) <==> k in Map(CategoryTypeOf, t)
    ensures forall i :: 0 <= i < |r| ==> r[i].1 == multiset(Map(CategoryTypeOf, t))[r[i].0]
    ensures Total(r) == |t|
  {
    ValueCountsTotal(Map(CategoryTypeOf, t));
    ValueCounts(Map(CategoryTypeOf, t))
  }

  // Line 285: free against paid.

  predicate IsFree(e: Earning) {
    e.AppType() == "Free"
  }

  predicate FreeOrPaid(e: Earning) {
    e.AppType() == "Free" || e.AppType() == "Paid"
  }

  /** Line 285: `clean_df[clean_df['Type'].isin(['Free', 'Paid'])]`. */
  function InstallComparison(t: seq<Earning>): (r: seq<Earning>)
    ensures forall i :: 0 <= i < |r| ==> r[i].AppType() == "Free" || r[i].AppType() == "Paid"
  {
    Filter(FreeOrPaid, t)
  }

  /** The comparison holds every free and every paid row, so as many rows as
      the free rows and the paid rows together. */
  lemma InstallComparisonRows(t: seq<Earning>)
    ensures forall e :: e in InstallComparison(t) <==> e in t && (IsFree(e) || IsPaid(e))
    ensures |InstallComparison(t)| == |Filter(IsFree, t)| + |PaidApps(t)|
  {
    FilterIn(FreeOrPaid, t);
    FilterEither(FreeOrPaid, IsFree, IsPaid, t);
  }

  // Lines 312-317: revenue of paid apps in well-populated categories.

  predicate Earns(e: Earning) {
    e.AppType() == "Paid" && e.revenue > 0.0
  }

  predicate Frequent(c: (string, nat)) {
    c.1 >= 5
  }

  /** Line 316: the categories with at least five of the given rows. */
  function FrequentCategories(rows: seq<Earning>): seq<string> {
    Keys(Filter(Frequent, ValueCounts(Map(CategoryOf, rows))))
  }

  /** A category is frequent exactly when at least five rows have it. */
  lemma FrequentCategory(rows: seq<Earning>, c: string)
    ensures c in FrequentCategories(rows) <==> multiset(Map(CategoryOf, rows))[c] >= 5
  {
    if c in FrequentCategories(rows) {
      FrequentOnlyIf(rows, c);
    }
    if multiset(Map(CategoryOf, rows))[c] >= 5 {
      FrequentIf(rows, c);
    }
  }

  lemma FrequentOnlyIf(rows: seq<Earning>, c: string)
    requires c in FrequentCategories(rows)
    ensures multiset(Map(CategoryOf, rows))[c] >= 5
  {
    var cats := Map(CategoryOf, rows);
    var counts := ValueCounts(cats);
    var frequent := Filter(Frequent, counts);
    var i :| 0 <= i < |frequent| && Keys(frequent)[i] == c;
    var x := frequent[i];
    assert x.0 == c && x.1 >= 5;
    FilterIn(Frequent, counts);
    assert x in counts;
    FrequentCounted(counts, cats, x);
  }

  lemma FrequentIf(rows: seq<Earning>, c: string)
    requires multiset(Map(CategoryOf, rows))[c] >= 5
    ensures c in FrequentCategories(rows)
  {
    var cats := Map(CategoryOf, rows);
    var counts := ValueCounts(cats);
    var frequent := Filter(Frequent, counts);
    assert c in multiset(cats);
    assert c in Keys(counts);
    var i :| 0 <= i < |counts| && Keys(counts)[i] == c;
    FilterIn(Frequent, counts);
    assert counts[i] in frequent;
    var j :| 0 <= j < |frequent| && frequent[j] == counts[i];
    assert Keys(frequent)[j] == c;
  }

  /** A row of the value counts holds the count of its own key. */
  lemma FrequentCounted(counts: seq<(string, nat)>, cats: seq<string>, x: (string, nat))
    requires forall i :: 0 <= i < |counts| ==> counts[i].1 == multiset(cats)[counts[i].0]
    requires x in counts
    ensures x.1 == multiset(cats)[x.0]
  {
  }

  /** Whether a row is a paid, earning row of one of the given categories. */
  function KeptIn(cs: seq<string>): Earning -> bool {
    (e: Earning) => Earns(e) && e.Category() in cs
  }

  function Member(cs: seq<string>): string -> bool {
    (c: string) => c in cs
  }

  /** Lines 312-317: the paid rows with a positive revenue estimate whose
      category has at least five such rows. */
  function PaidRevenue(t: seq<Earning>): (r: seq<Earning>)
    ensures forall i :: 0 <= i < |r| ==> r[i].AppType() == "Paid" && r[i].revenue > 0.0
  {
    Filter(KeptIn(FrequentCategories(Filter(Earns, t))), t)
  }

  /** A row is kept exactly when it is a paid, earning row of a category with
      at least five of those; and so every category left still has at least
      five rows. */
  lemma PaidRevenueRows(t: seq<Earning>)
    ensures var counts := multiset(Map(CategoryOf, Filter(Earns, t)));
      forall e :: e in PaidRevenue(t) <==> e in t && Earns(e) && counts[e.Category()] >= 5
    ensures var r := PaidRevenue(t);
      forall i :: 0 <= i < |r| ==> multiset(Map(CategoryOf, r))[r[i].Category()] >= 5
  {
    var candidates := Filter(Earns, t);
    var cs := FrequentCategories(candidates);
    var r := PaidRevenue(t);
    FilterIn(KeptIn(cs), t);
    forall e: Earning {
      FrequentCategory(candidates, e.Category());
    }
    forall i | 0 <= i < |r|
      ensures multiset(Map(CategoryOf, r))[r[i].Category()] >= 5
    {
      var c := r[i].Category();
      FrequentCategory(candidates, c);
      MapFilterCount(CategoryOf, Member(cs), Earns, KeptIn(cs), t, c);
    }
  }

  // Line 354: paid apps at a price of at most 100.

  predicate CheapEnough(e: Earning) {
    e.Price() <= 100.0
  }

  /** Line 354: `paid_apps[paid_apps['Price'] <= 100]`. */
  function PaidAppsFiltered(t: seq<Earning>): (r: seq<Earning>)
    ensures forall i :: 0 <= i < |r| ==> r[i].AppType() == "Paid" && r[i].Price() <= 100.0
  {
    var paid := PaidApps(t);
    var r := Filter(CheapEnough, paid);
    FilterIn(CheapEnough, paid);
    r
  }

  /** The cheaper paid apps are exactly the paid rows priced at most 100, in
      their order. */
  lemma PaidAppsFilteredRows(t: seq<Earning>)
    ensures forall e :: e in PaidAppsFiltered(t) <==> e in t && IsPaid(e) && e.Price() <= 100.0
    ensures Subsequence(PaidAppsFiltered(t), PaidApps(t))
  {
    PaidAppsRows(t);
    FilterIn(CheapEnough, PaidApps(t));
    FilterSubsequence(CheapEnough, PaidApps(t));
  }
}
