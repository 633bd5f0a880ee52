/** The script as a whole: the table is rebound stage by stage (lines 8 to
    65), the sorted views are taken before the price cap, and every chart
    table after it. A conversion that raises ends the run with its failure. */
module Script {
  import opened Results
  import opened Seqs
  import opened Groups
  import opened Columns
  import opened Numbers
  import opened Normalise
  import opened Table
  import opened Cleaning
  import opened Analysis

  /** What the cleaning part of the script leaves behind: the four sorted
      views printed before the price cap, and the final table every chart
      is drawn from (the chart tables are the functions of it in the
      Analysis module). */
  datatype Report = Report(
    highestRated: seq<Record>,
    largestApps: seq<Record>,
    mostReviewed: seq<Record>,
    mostExpensive: seq<Record>,
    table: seq<Earning>)

  /** The numbers a row carries are the readings of its own display text. */
  predicate Readable(rec: Record) {
    ConvertSize(rec.app.size) == Ok(Some(rec.sizeMB))
    && ParseInstalls(rec.app.installs) == Some(rec.installs)
    && ParsePrice(rec.app.price) == Some(rec.price)
  }

  /** A row of the final table: a complete, fixed-size row of the listing
      whose numbers are the readings of its text. */
  predicate Cleaned(raw: seq<RawApp>, rec: Record) {
    Readable(rec) && rec.app.size != SizeSentinel() && Listed(rec.app) in DropColumns(raw)
  }

  /** Lines 62-65: a row that passed the price cap and carries its revenue
      estimate, its price times its installs. */
  predicate Earned(e: Earning) {
    e.Price() <= 250.0 && e.revenue == e.Price() * e.Installs() as real
  }

  /** Lines 8-14: the listing without its two date columns, missing values,
      duplicates or size sentinel: no row twice, and an app is kept exactly
      when the listing holds it complete with a fixed size. */
  function Prepared(raw: seq<RawApp>): (r: seq<App>)
    ensures Distinct(r)
    ensures forall a :: a in r <==> Listed(a) in DropColumns(raw) && a.size != SizeSentinel()
  {
    var sane := Sanitise(DropColumns(raw));
    DropVariesRows(sane);
    SubsequenceDistinct(DropVaries(sane), sane);
    DropVaries(sane)
  }

  /** Lines 26-39: the prepared listing with Size_MB, Installs and Price
      read; the first conversion that raises ends the script. Every row
      read is a prepared row whose numbers are the readings of its text,
      and a failure carries a text its parser refuses. */
  function Converted(raw: seq<RawApp>): (r: Result<seq<Record>, Failure>)
    ensures r.Ok? <==>
      (forall a :: a in Prepared(raw) ==> SizeCell(a).Ok?)
      && (forall a :: a in Prepared(raw) && Present(SizeCell)(a) ==>
            ParseInstalls(a.installs).Some? && ParsePrice(a.price).Some?)
    ensures r.Ok? ==> Map(RecordApp, r.value) == Filter(Present(SizeCell), Prepared(raw))
    ensures r.Ok? ==> forall i :: 0 <= i < |r.value| ==>
      Readable(r.value[i]) && r.value[i].app in Prepared(raw)
    ensures r.Err? ==> match r.error
      case BadSize(x) => ParseFloat(x).None?
      case BadInstalls(x) => ParseNat(x).None?
      case BadPrice(x) => ParseDecimal(x).None?
  {
    var t := Prepared(raw);
    SizeStageFailure(t);
    StagesSucceed(t);
    var sized :- SizeStage(t);
    NumericStageFailure(sized);
    var records :- NumericStage(sized);
    ConvertedRows(t, sized, records);
    assert Map(RecordApp, records) == Map(SizedApp, sized);
    Ok(records)
  }

  /** The size stage succeeds exactly when every Size cell converts. */
  lemma SizeStageAll(t: seq<App>)
    ensures SizeStage(t).Ok? <==> forall a :: a in t ==> SizeCell(a).Ok?
  {
    if SizeStage(t).Ok? {
      forall a | a in t ensures SizeCell(a).Ok? {
        var i :| 0 <= i < |t| && t[i] == a;
      }
    }
  }

  /** The numeric stage succeeds exactly when every row's Installs and
      Price texts read. */
  lemma NumericStageAll(sized: seq<Sized>)
    ensures NumericStage(sized).Ok? <==>
      forall a :: a in Map(SizedApp, sized) ==> ParseInstalls(a.installs).Some? && ParsePrice(a.price).Some?
  {
    var u := Map(SizedApp, sized);
    forall i | 0 <= i < |sized|
      ensures InstallsCell(sized[i]).Ok? <==> ParseInstalls(u[i].installs).Some?
      ensures PriceCell(sized[i]).Ok? <==> ParsePrice(u[i].price).Some?
    {
      NumericCellMeaning(sized[i]);
    }
    if NumericStage(sized).Ok? {
      forall a | a in u ensures ParseInstalls(a.installs).Some? && ParsePrice(a.price).Some? {
        var i :| 0 <= i < |u| && u[i] == a;
      }
    }
  }

  /** Both conversion stages succeed exactly when every Size cell converts
      and every row with a size has an Installs and a Price text that read. */
  lemma StagesSucceed(t: seq<App>)
    ensures (SizeStage(t).Ok? && NumericStage(SizeStage(t).value).Ok?) <==>
      (forall a :: a in t ==> SizeCell(a).Ok?)
      && (forall a :: a in t && Present(SizeCell)(a) ==>
            ParseInstalls(a.installs).Some? && ParsePrice(a.price).Some?)
  {
    SizeStageAll(t);
    if SizeStage(t).Ok? {
      var sized := SizeStage(t).value;
      NumericStageAll(sized);
      FilterIn(Present(SizeCell), t);
    }
  }

  /** Cell `i` is the first Size cell that `convert_size` raises on, with
      failure `e`. */
  ghost predicate FirstSizeFailure(t: seq<App>, e: Failure) {
    exists i :: 0 <= i < |t| && SizeCell(t[i]) == Err(e) && forall k :: 0 <= k < i ==> SizeCell(t[k]).Ok?
  }

  /** `e` reports the first Installs text of `u` that is not a count. */
  ghost predicate FirstInstallsFailure(u: seq<App>, e: Failure) {
    exists i :: 0 <= i < |u| && ParseInstalls(u[i].installs).None?
      && e == BadInstalls(NormaliseInstalls(u[i].installs))
      && forall k :: 0 <= k < i ==> ParseInstalls(u[k].installs).Some?
  }

  /** `e` reports the first Price text of `u` that is not a numeral. */
  ghost predicate FirstPriceFailure(u: seq<App>, e: Failure) {
    exists i :: 0 <= i < |u| && ParsePrice(u[i].price).None?
      && e == BadPrice(NormalisePrice(u[i].price))
      && forall k :: 0 <= k < i ==> ParsePrice(u[k].price).Some?
  }

  /** The failure a run reports is the first one the script meets: the
      first Size cell `convert_size` raises on; or, when every Size cell
      converts, the first Installs text of a row with a size that is not a
      count; or, when those all read, the first Price text that is not a
      numeral. */
  lemma ConvertedFailure(raw: seq<RawApp>)
    ensures var t, r := Prepared(raw), Converted(raw);
      var u := Filter(Present(SizeCell), t);
      r.Err? ==>
        FirstSizeFailure(t, r.error)
        || ((forall a :: a in t ==> SizeCell(a).Ok?) && FirstInstallsFailure(u, r.error))
        || ((forall a :: a in t ==> SizeCell(a).Ok?)
            && (forall a :: a in u ==> ParseInstalls(a.installs).Some?)
            && FirstPriceFailure(u, r.error))
  {
    var t := Prepared(raw);
    SizeStageAll(t);
    if SizeStage(t).Ok? {
      var sized := SizeStage(t).value;
      if NumericStage(sized).Err? {
        NumericFirstFailure(sized, NumericStage(sized).error);
      }
    }
  }

  /** A failed numeric stage reports its first refused Installs text, or,
      when every Installs text reads, its first refused Price text. */
  lemma NumericFirstFailure(sized: seq<Sized>, e: Failure)
    requires NumericStage(sized) == Err(e)
    ensures var u := Map(SizedApp, sized);
      FirstInstallsFailure(u, e)
      || ((forall a :: a in u ==> ParseInstalls(a.installs).Some?) && FirstPriceFailure(u, e))
  {
    if exists i :: 0 <= i < |sized| && InstallsCell(sized[i]) == Err(e)
         && forall k :: 0 <= k < i ==> InstallsCell(sized[k]).Ok? {
      var i :| 0 <= i < |sized| && InstallsCell(sized[i]) == Err(e)
         && forall k :: 0 <= k < i ==> InstallsCell(sized[k]).Ok?;
      InstallsFirst(sized, e, i);
    } else {
      var i :| 0 <= i < |sized| && PriceCell(sized[i]) == Err(e)
         && forall k :: 0 <= k < i ==> PriceCell(sized[k]).Ok?;
      PriceFirst(sized, e, i);
    }
  }

  lemma InstallsFirst(sized: seq<Sized>, e: Failure, i: nat)
    requires i < |sized| && InstallsCell(sized[i]) == Err(e)
    requires forall k :: 0 <= k < i ==> InstallsCell(sized[k]).Ok?
    ensures FirstInstallsFailure(Map(SizedApp, sized), e)
  {
    var u := Map(SizedApp, sized);
    NumericCellMeaning(sized[i]);
    forall k | 0 <= k < i ensures ParseInstalls(u[k].installs).Some? {
      NumericCellMeaning(sized[k]);
    }
    assert u[i] == sized[i].app;
  }

  lemma PriceFirst(sized: seq<Sized>, e: Failure, i: nat)
    requires i < |sized| && PriceCell(sized[i]) == Err(e)
    requires forall k :: 0 <= k < i ==> PriceCell(sized[k]).Ok?
    requires forall k :: 0 <= k < |sized| ==> InstallsCell(sized[k]).Ok?
    ensures var u := Map(SizedApp, sized);
      (forall a :: a in u ==> ParseInstalls(a.installs).Some?) && FirstPriceFailure(u, e)
  {
    var u := Map(SizedApp, sized);
    NumericCellMeaning(sized[i]);
    forall k | 0 <= k < i ensures ParsePrice(u[k].price).Some? {
      NumericCellMeaning(sized[k]);
    }
    forall a | a in u ensures ParseInstalls(a.installs).Some? {
      var k :| 0 <= k < |u| && u[k] == a;
      NumericCellMeaning(sized[k]);
    }
    assert u[i] == sized[i].app;
  }

  /** A failed size stage reports a Size text `float` refuses. */
  lemma SizeStageFailure(t: seq<App>)
    ensures SizeStage(t).Err? ==>
      SizeStage(t).error.BadSize? && ParseFloat(SizeStage(t).error.sizeText).None?
  {
    if SizeStage(t).Err? {
      var i :| 0 <= i < |t| && SizeCell(t[i]) == Err(SizeStage(t).error);
      SizeCellMeaning(t[i]);
    }
  }

  /** A failed numeric stage reports an Installs text that is not a count
      or a Price text that is not a numeral. */
  lemma NumericStageFailure(t: seq<Sized>)
    ensures NumericStage(t).Err? ==> match NumericStage(t).error
      case BadSize(_) => false
      case BadInstalls(x) => ParseNat(x).None?
      case BadPrice(x) => ParseDecimal(x).None?
  {
    if NumericStage(t).Err? {
      var e := NumericStage(t).error;
      if exists k :: 0 <= k < |t| && InstallsCell(t[k]) == Err(e) {
        var k :| 0 <= k < |t| && InstallsCell(t[k]) == Err(e);
        NumericCellMeaning(t[k]);
      } else {
        var k :| 0 <= k < |t| && PriceCell(t[k]) == Err(e);
        NumericCellMeaning(t[k]);
      }
    }
  }

  /** Every row that comes out of the two conversion stages is a prepared
      row whose numbers are the readings of its text. */
  lemma ConvertedRows(t: seq<App>, sized: seq<Sized>, records: seq<Record>)
    requires SizeStage(t) == Ok(sized) && NumericStage(sized) == Ok(records)
    ensures forall i :: 0 <= i < |records| ==> Readable(records[i]) && records[i].app in t
  {
    FilterIn(Present(SizeCell), t);
    forall i | 0 <= i < |records|
      ensures Readable(records[i]) && records[i].app in t
    {
      var s := sized[i];
      SizeCellMeaning(s.app);
      NumericCellMeaning(s);
      assert Map(SizedApp, sized)[i] == s.app;
    }
  }

  /** Lines 62-65: every row of the capped table with its revenue is a row
      of the table before the cap, priced at most 250, and its revenue
      estimate is its price times its installs. */
  lemma CappedEarnings(records: seq<Record>)
    ensures var t := WithRevenue(CapPrice(records));
      forall i :: 0 <= i < |t| ==> t[i].row in records && Earned(t[i])
  {
    var capped := CapPrice(records);
    var t := WithRevenue(capped);
    FilterIn(Affordable, records);
    forall i | 0 <= i < |t|
      ensures t[i].row in records && Earned(t[i])
    {
      assert Map(EarningRow, t)[i] == t[i].row;
    }
  }

  /** The rows of the capped table keep the readings of their text and come
      from the listing. */
  lemma EarningRows(raw: seq<RawApp>, records: seq<Record>)
    requires forall i :: 0 <= i < |records| ==> Readable(records[i]) && records[i].app in Prepared(raw)
    ensures var t := WithRevenue(CapPrice(records));
      forall i :: 0 <= i < |t| ==> Cleaned(raw, t[i].row)
  {
    var t := WithRevenue(CapPrice(records));
    CappedEarnings(records);
    forall i | 0 <= i < |t|
      ensures Cleaned(raw, t[i].row)
    {
      assert t[i].row in records;
    }
  }

  /** Lines 8-65 end to end: once both conversion stages succeed, every row
      of the capped table with its revenue is a cleaned row of the listing
      that carries its revenue estimate. */
  lemma FinalRows(raw: seq<RawApp>, sized: seq<Sized>, records: seq<Record>)
    requires SizeStage(Prepared(raw)) == Ok(sized) && NumericStage(sized) == Ok(records)
    ensures var t := WithRevenue(CapPrice(records));
      forall i :: 0 <= i < |t| ==> Cleaned(raw, t[i].row) && Earned(t[i])
  {
    ConvertedRows(Prepared(raw), sized, records);
    CappedEarnings(records);
    EarningRows(raw, records);
  }

  function EarningApp(e: Earning): App { e.row.app }

  lemma SizedDistinct(t: seq<App>, sized: seq<Sized>)
    requires SizeStage(t) == Ok(sized) && Distinct(t)
    ensures Distinct(Map(SizedApp, sized))
  {
    SizeStageRows(t);
    SubsequenceDistinct(Map(SizedApp, sized), t);
  }

  lemma RecordsDistinct(sized: seq<Sized>, records: seq<Record>)
    requires NumericStage(sized) == Ok(records) && Distinct(Map(SizedApp, sized))
    ensures Distinct(Map(RecordApp, records))
  {
    assert Map(RecordApp, records) == Map(SizedApp, sized);
  }

  lemma CappedDistinct(records: seq<Record>)
    requires Distinct(Map(RecordApp, records))
    ensures Distinct(Map(EarningApp, WithRevenue(CapPrice(records))))
  {
    var capped := CapPrice(records);
    CapPriceRows(records);
    MapSubsequence(RecordApp, capped, records);
    SubsequenceDistinct(Map(RecordApp, capped), Map(RecordApp, records));
    assert Map(EarningApp, WithRevenue(capped)) == Map(RecordApp, capped);
  }

  /** The duplicates dropped at line 11 stay dropped: no app row occurs
      twice in the final table. */
  lemma FinalDistinct(raw: seq<RawApp>, sized: seq<Sized>, records: seq<Record>)
    requires SizeStage(Prepared(raw)) == Ok(sized) && NumericStage(sized) == Ok(records)
    ensures Distinct(Map(EarningApp, WithRevenue(CapPrice(records))))
  {
    SizedDistinct(Prepared(raw), sized);
    RecordsDistinct(sized, records);
    CappedDistinct(records);
  }

  /** The whole script. When it finishes, every row of the final table is a
      complete, fixed-size row of the listing whose Size_MB, Installs and
      Price are the readings of its text, priced at most 250 and carrying
      its revenue estimate; and every chart table is the one derived from
      that table. */
  method Analyse(raw: seq<RawApp>) returns (r: Result<Report, Failure>)
    ensures r.Ok? <==> Converted(raw).Ok?
    ensures r.Err? ==> r.error == Converted(raw).error
    ensures r.Ok? ==> var t := r.value.table;
      forall i :: 0 <= i < |t| ==> Cleaned(raw, t[i].row) && Earned(t[i])
    ensures r.Ok? ==> Distinct(Map(EarningApp, r.value.table))
    ensures r.Ok? ==> var rep, records := r.value, Converted(raw).value;
      rep.highestRated == HighestRated(records) && rep.largestApps == LargestApps(records)
      && rep.mostReviewed == MostReviewed(records) && rep.mostExpensive == MostExpensive(records)
      && rep.table == WithRevenue(CapPrice(records))
  {
    var listing := DropColumns(raw);
    var apps := Sanitise(listing);
    apps := DropVaries(apps);
    var sized :- SizeStage(apps);
    var records :- NumericStage(sized);
    FinalRows(raw, sized, records);
    FinalDistinct(raw, sized, records);

    var highestRated := HighestRated(records);
    var largestApps := LargestApps(records);
    var mostReviewed := MostReviewed(records);
    var mostExpensive := MostExpensive(records);

    records := CapPrice(records);
    var table := WithRevenue(records);

    r := Ok(Report(highestRated, largestApps, mostReviewed, mostExpensive, table));
  }
}
