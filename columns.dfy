/** Column-wise operations of pandas over a table held as a sequence of
    rows: `Series.apply` with a function that may raise, and `dropna` on a
    column computed from the rows. */
module Columns {
  import opened Results
  import opened Seqs

  /** Applies a conversion that may fail to every element, in order, the way
      `Series.apply` runs a function that may raise: the first element whose
      conversion fails stops the run and its failure is the result. */
  function Traverse<T, U, E>(f: T -> Result<U, E>, s: seq<T>): (r: Result<seq<U>, E>)
    ensures r.Ok? <==> forall i :: 0 <= i < |s| ==> f(s[i]).Ok?
    ensures r.Ok? ==> |r.value| == |s|
    ensures r.Ok? ==> forall i :: 0 <= i < |s| ==> r.value[i] == f(s[i]).value
    ensures r.Err? ==> exists k ::
      (0 <= k < |s| && f(s[k]) == Err(r.error) && forall i :: 0 <= i < k ==> f(s[i]).Ok?)
    decreases |s|
  {
    if |s| == 0 then Ok([])
    else
      var n := |s| - 1;
      var init := s[..n];
      assert forall i :: 0 <= i < n ==> init[i] == s[i];
      match Traverse(f, init)
      case Err(e) => Err(e)
      case Ok(vs) =>
        match f(s[n])
        case Err(e) => Err(e)
        case Ok(v) => Ok(vs + [v])
  }

  /** Whether `conv` gives a present value for a row. */
  function Present<T, U, E>(conv: T -> Result<Option<U>, E>): T -> bool {
    (x: T) => conv(x).Ok? && conv(x).value.Some?
  }

  function Fst<T, U>(p: (T, U)): T { p.0 }

  /** `dropna(subset=[c])` where the column `c` holds `conv` of every row:
      the rows whose value is present, in order, each paired with it. */
  function DropAbsent<T(!new), U, E>(conv: T -> Result<Option<U>, E>, t: seq<T>, col: seq<Option<U>>): (r: seq<(T, U)>)
    requires |col| == |t|
    requires forall i :: 0 <= i < |t| ==> conv(t[i]) == Ok(col[i])
    ensures Map(Fst, r) == Filter(Present(conv), t)
    ensures forall j :: 0 <= j < |r| ==> conv(r[j].0) == Ok(Some(r[j].1))
    decreases |t|
  {
    if |t| == 0 then []
    else
      var n := |t| - 1;
      var rest := DropAbsent(conv, t[..n], col[..n]);
      match col[n]
      case None => rest
      case Some(v) =>
        MapConcat(Fst, rest, [(t[n], v)]);
        rest + [(t[n], v)]
  }
}
