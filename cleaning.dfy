/** The cleaning stages of the script (lines 8 to 65): each takes the table
    of the previous stage and gives the next one. A conversion that raises
    stops the script, which is an `Err` here. */
module Cleaning {
  import opened Results
  import opened Seqs
  import opened Columns
  import opened Numbers
  import opened Normalise
  import opened Table

  // Line 8: dropping two columns.

  function DropDates(r: RawApp): Listing {
    Listing(r.name, r.category, r.rating, r.reviews, r.size, r.installs,
            r.appType, r.price, r.contentRating, r.genres, r.currentVer)
  }

  /** Puts the two dropped cells back into a listing row. */
  function Restore(l: Listing, lastUpdated: Option<string>, androidVer: Option<string>): RawApp {
    RawApp(l.name, l.category, l.rating, l.reviews, l.size, l.installs,
           l.appType, l.price, l.contentRating, l.genres, lastUpdated, l.currentVer, androidVer)
  }

  /** `df.drop(columns=['Last Updated', 'Android Ver'])`: the same rows in
      the same order, and those two cells are all each row loses. */
  function DropColumns(raw: seq<RawApp>): (t: seq<Listing>)
    ensures |t| == |raw|
    ensures forall i :: 0 <= i < |raw| ==>
      Restore(t[i], raw[i].lastUpdated, raw[i].androidVer) == raw[i]
  {
    Map(DropDates, raw)
  }

  // Line 11: missing values and duplicates.

  predicate Complete(l: Listing) {
    l.name.Some? && l.category.Some? && l.rating.Some? && l.reviews.Some?
    && l.size.Some? && l.installs.Some? && l.appType.Some? && l.price.Some?
    && l.contentRating.Some? && l.genres.Some? && l.currentVer.Some?
  }

  /** The listing row a complete row stands for. */
  function Listed(a: App): Listing {
    Listing(Some(a.name), Some(a.category), Some(a.rating), Some(a.reviews),
            Some(a.size), Some(a.installs), Some(a.appType), Some(a.price),
            Some(a.contentRating), Some(a.genres), Some(a.currentVer))
  }

  function Completed(l: Listing): (a: App)
    requires Complete(l)
    ensures Listed(a) == l
  {
    App(l.name.value, l.category.value, l.rating.value, l.reviews.value,
        l.size.value, l.installs.value, l.appType.value, l.price.value,
        l.contentRating.value, l.genres.value, l.currentVer.value)
  }

  /** `dropna()`: the rows without a missing cell, in their order. */
  function DropMissing(t: seq<Listing>): (r: seq<App>)
    ensures Map(Listed, r) == Filter(Complete, t)
    decreases |t|
  {
    if |t| == 0 then []
    else
      var init, l := t[..|t| - 1], t[|t| - 1];
      var rest := DropMissing(init);
      if Complete(l) then
        var a := Completed(l);
        MapConcat(Listed, rest, [a]);
        rest + [a]
      else rest
  }

  /** A row survives `dropna()` exactly when the listing holds it. */
  lemma DropMissingIn(t: seq<Listing>)
    ensures forall a :: a in DropMissing(t) <==> Listed(a) in t
  {
    var r := DropMissing(t);
    FilterIn(Complete, t);
    forall a ensures a in r <==> Listed(a) in t {
      if a in r {
        var j :| 0 <= j < |r| && r[j] == a;
        assert Map(Listed, r)[j] == Listed(a);
      }
      if Listed(a) in t {
        assert Listed(a) in Map(Listed, r);
        var j :| 0 <= j < |r| && Map(Listed, r)[j] == Listed(a);
        assert r[j] == a;
      }
    }
  }

  /** `df.dropna().drop_duplicates()`: complete rows, each value once. */
  function Sanitise(t: seq<Listing>): (r: seq<App>)
    ensures Distinct(r)
    ensures forall a :: a in r <==> Listed(a) in t
  {
    DropMissingIn(t);
    Dedup(DropMissing(t))
  }

  /** The sanitised rows keep the order of the listing, and of equal rows
      the first one is the one kept. */
  lemma SanitiseOrder(t: seq<Listing>)
    ensures Subsequence(Map(Listed, Sanitise(t)), t)
    ensures var c, r := DropMissing(t), Sanitise(t);
      forall i, j :: 0 <= i < j < |r| ==> FirstIndex(c, r[i]) < FirstIndex(c, r[j])
  {
    var c := DropMissing(t);
    DedupSubsequence(c);
    MapSubsequence(Listed, Dedup(c), c);
    FilterSubsequence(Complete, t);
    SubsequenceTrans(Map(Listed, Dedup(c)), Map(Listed, c), t);
    DedupKeepsFirst(c);
  }

  // Line 14: the size sentinel.

  predicate FixedSize(a: App) {
    a.size != SizeSentinel()
  }

  /** `clean_df[clean_df['Size'] != 'Varies with device']`. */
  function DropVaries(t: seq<App>): (r: seq<App>)
    ensures forall i :: 0 <= i < |r| ==> r[i].size != SizeSentinel()
  {
    Filter(FixedSize, t)
  }

  /** The sentinel filter keeps exactly the rows with a fixed size, in their
      order. */
  lemma DropVariesRows(t: seq<App>)
    ensures forall a :: a in DropVaries(t) <==> a in t && a.size != SizeSentinel()
    ensures Subsequence(DropVaries(t), t)
  {
    FilterIn(FixedSize, t);
    FilterSubsequence(FixedSize, t);
  }

  // Lines 26-27: Size_MB.

  /** `convert_size` applied to a row's Size cell; the exception it may
      raise carries the text `float` refused. */
  function SizeCell(a: App): Result<Option<real>, Failure> {
    match ConvertSize(a.size)
    case Ok(v) => Ok(v)
    case Err(e) => Err(BadSize(e))
  }

  /** A Size cell fails exactly when `convert_size` raises, and the text
      the failure carries is one `float` refuses. */
  lemma SizeCellMeaning(a: App)
    ensures SizeCell(a).Ok? <==> ConvertSize(a.size).Ok?
    ensures SizeCell(a).Ok? ==> SizeCell(a).value == ConvertSize(a.size).value
    ensures SizeCell(a).Err? ==>
      SizeCell(a).error == BadSize(ConvertSize(a.size).error)
      && ParseFloat(SizeCell(a).error.sizeText).None?
  {
  }

  function ToSized(p: (App, real)): Sized { Sized(p.0, p.1) }

  function SizedApp(s: Sized): App { s.app }

  /** Lines 26-27: `convert_size` on every Size cell, where the first cell
      that raises stops the script, then the rows whose Size_MB is `None`
      are dropped. */
  function SizeStage(t: seq<App>): (r: Result<seq<Sized>, Failure>)
    ensures r.Ok? <==> forall i :: 0 <= i < |t| ==> SizeCell(t[i]).Ok?
    ensures r.Ok? ==> Map(SizedApp, r.value) == Filter(Present(SizeCell), t)
    ensures r.Ok? ==> forall j :: 0 <= j < |r.value| ==>
      SizeCell(r.value[j].app) == Ok(Some(r.value[j].sizeMB))
    ensures r.Err? ==> exists i ::
      (0 <= i < |t| && SizeCell(t[i]) == Err(r.error)
       && forall k :: 0 <= k < i ==> SizeCell(t[k]).Ok?)
  {
    var col :- Traverse(SizeCell, t);
    var kept := DropAbsent(SizeCell, t, col);
    var r := Map(ToSized, kept);
    assert Map(SizedApp, r) == Map(Fst, kept);
    Ok(r)
  }

  /** The rows the size stage keeps come from its input in their order, each
      with a size `convert_size` reads, and none of them is the sentinel. */
  lemma SizeStageRows(t: seq<App>)
    requires SizeStage(t).Ok?
    ensures var s := SizeStage(t).value;
      Subsequence(Map(SizedApp, s), t)
      && forall j :: 0 <= j < |s| ==>
        ConvertSize(s[j].app.size) == Ok(Some(s[j].sizeMB)) && s[j].app.size != SizeSentinel()
  {
    var s := SizeStage(t).value;
    FilterSubsequence(Present(SizeCell), t);
    ConvertSizeSentinel();
    forall j | 0 <= j < |s|
      ensures ConvertSize(s[j].app.size) == Ok(Some(s[j].sizeMB))
    {
      SizeCellMeaning(s[j].app);
    }
  }

  // Lines 30-31 and 38-39: Installs and Price as numbers.

  /** `pd.to_numeric` on a row's normalised Installs cell. */
  function InstallsCell(s: Sized): Result<nat, Failure> {
    match ParseInstalls(s.app.installs)
    case Some(n) => Ok(n)
    case None => Err(BadInstalls(NormaliseInstalls(s.app.installs)))
  }

  /** `pd.to_numeric` on a row's normalised Price cell. */
  function PriceCell(s: Sized): Result<real, Failure> {
    match ParsePrice(s.app.price)
    case Some(p) => Ok(p)
    case None => Err(BadPrice(NormalisePrice(s.app.price)))
  }

  /** A numeric cell fails exactly when the normalised text is not a
      numeral, and the failure carries that text. */
  lemma NumericCellMeaning(s: Sized)
    ensures InstallsCell(s).Ok? <==> ParseInstalls(s.app.installs).Some?
    ensures InstallsCell(s).Ok? ==> ParseInstalls(s.app.installs) == Some(InstallsCell(s).value)
    ensures InstallsCell(s).Err? ==>
      InstallsCell(s).error.BadInstalls? && ParseNat(InstallsCell(s).error.installsText).None?
    ensures PriceCell(s).Ok? <==> ParsePrice(s.app.price).Some?
    ensures PriceCell(s).Ok? ==> ParsePrice(s.app.price) == Some(PriceCell(s).value)
    ensures PriceCell(s).Err? ==>
      PriceCell(s).error.BadPrice? && ParseDecimal(PriceCell(s).error.priceText).None?
  {
  }

  function Records(t: seq<Sized>, installs: seq<nat>, prices: seq<real>): (r: seq<Record>)
    requires |installs| == |t| && |prices| == |t|
    ensures |r| == |t|
    ensures forall i :: 0 <= i < |t| ==> r[i] == Record(t[i].app, t[i].sizeMB, installs[i], prices[i])
  {
    seq(|t|, i requires 0 <= i < |t| => Record(t[i].app, t[i].sizeMB, installs[i], prices[i]))
  }

  /** Lines 30-31, then 38-39: the Installs column is normalised and read
      as numbers, then the Price column; the first cell refused stops the
      script, so a bad Installs cell is reported before any Price cell. */
  function NumericStage(t: seq<Sized>): (r: Result<seq<Record>, Failure>)
    ensures r.Ok? <==> forall i :: 0 <= i < |t| ==> InstallsCell(t[i]).Ok? && PriceCell(t[i]).Ok?
    ensures r.Ok? ==> |r.value| == |t|
    ensures r.Ok? ==> forall i :: 0 <= i < |t| ==>
      r.value[i] == Record(t[i].app, t[i].sizeMB, InstallsCell(t[i]).value, PriceCell(t[i]).value)
    ensures r.Err? ==>
      if exists i :: 0 <= i < |t| && InstallsCell(t[i]).Err? then r.error.BadInstalls?
      else r.error.BadPrice?
    ensures r.Err? ==>
      (exists k :: 0 <= k < |t| && InstallsCell(t[k]) == Err(r.error)
         && forall i :: 0 <= i < k ==> InstallsCell(t[i]).Ok?)
      || ((forall i :: 0 <= i < |t| ==> InstallsCell(t[i]).Ok?)
          && exists k :: 0 <= k < |t| && PriceCell(t[k]) == Err(r.error)
               && forall i :: 0 <= i < k ==> PriceCell(t[i]).Ok?)
  {
    var installs :- Traverse(InstallsCell, t);
    var prices :- Traverse(PriceCell, t);
    Ok(Records(t, installs, prices))
  }

  function RecordApp(r: Record): App { r.app }

  // Line 62: the price cap.

  predicate Affordable(r: Record) {
    r.price <= 250.0
  }

  /** `clean_df[clean_df['Price'] <= 250]`. */
  function CapPrice(t: seq<Record>): (r: seq<Record>)
    ensures forall i :: 0 <= i < |r| ==> r[i].price <= 250.0
  {
    Filter(Affordable, t)
  }

  /** The price cap keeps exactly the rows priced at most 250, in their
      order. */
  lemma CapPriceRows(t: seq<Record>)
    ensures forall r :: r in CapPrice(t) <==> r in t && r.price <= 250.0
    ensures Subsequence(CapPrice(t), t)
  {
    FilterIn(Affordable, t);
    FilterSubsequence(Affordable, t);
  }

  // Line 65: Revenue_Estimate.

  function Earn(r: Record): Earning {
    Earning(r, r.price * r.installs as real)
  }

  function EarningRow(e: Earning): Record { e.row }

  /** `clean_df['Revenue_Estimate'] = Price * Installs`: every row keeps its
      cells and gains the product of its price and install count. */
  function WithRevenue(t: seq<Record>): (r: seq<Earning>)
    ensures Map(EarningRow, r) == t
    ensures forall i :: 0 <= i < |r| ==> r[i].revenue == r[i].row.price * r[i].row.installs as real
  {
    Map(Earn, t)
  }
}
