/**
 * FeatureEngineering and its helpers: label counts of list columns, products
 * of column pairs, and two quantile bucketings (duration and episodes) whose
 * bin edges are learned at fit time and whose bins are named by position
 * from a fixed label list.
 */
module FeatureEngineering {
  import opened Values
  import opened Tables
  import ModeImputer

  const DurationLabels: seq<string> := ["Very Short", "Short", "Medium", "Long"]
  const EpisodesLabels: seq<string> := ["Mini_Series", "Short_Series", "Standard_Series", "Long_Running"]

  /** Constructor arguments of the stage that the transform uses. */
  datatype Config = Config(
    listColumns: seq<string>,
    pairs: seq<(string, string)>,
    durationCol: string,
    durationQ: nat,
    episodesCol: string,
    episodesQ: nat)

  /** The default arguments. */
  const Default: Config :=
    Config(["Genres", "Producers", "Studios"], [("Episodes", "duration_minutes")], "duration_minutes", 4, "Episodes", 4)

  /** Learned state: the bin edges of both bucketings. */
  datatype Fitted = Fitted(durationBins: seq<int>, episodesBins: seq<int>)

  predicate Increasing(e: seq<int>)
  {
    forall i, j :: 0 <= i < j < |e| ==> e[i] < e[j]
  }

  /** Every cell is a number or missing. */
  predicate NumericColumn(col: seq<Value>)
  {
    forall i :: 0 <= i < |col| ==> col[i].Num? || col[i].Missing?
  }

  // ---------------------------------------------------------------- counts

  /** `len(x) if isinstance(x, list) else 0`: no normalisation, so a list literal string counts 0. */
  function ListCount(v: Value): (r: nat)
    ensures v.List? ==> r == |v.items|
    ensures !v.List? ==> r == 0
  {
    if v.List? then |v.items| else 0
  }

  /**
   * The count agrees with the number of labels `_ensure_list` finds in every
   * cell except a string: a string counts 0 even when it parses to a
   * non-empty list.
   */
  lemma ListCountVersusNormalised(parse: Parser, v: Value)
    ensures !v.Text? ==> ListCount(v) == |EnsureList(parse, v)|
    ensures v.Text? ==> ListCount(v) == 0
    ensures v.Text? && parse(v.text).Some? && parse(v.text).value != [] ==> ListCount(v) < |EnsureList(parse, v)|
  {
  }

  /** After the mode imputer, every configured cell counts at least one label. */
  lemma CountsAfterImputation(parse: Parser, st: ModeImputer.Imputer, t: Table, c: string, i: nat)
    requires Valid(t) && HasColumns(t, st.columns)
    requires forall c :: c in st.columns ==> c in st.modes
    requires c in st.columns && i < t.rows
    ensures ListCount(ModeImputer.Transform(parse, st, t).cols[c][i]) >= 1
  {
  }

  function CountName(c: string): string
  {
    c + "_Count"
  }

  /** Different list columns get different count names. */
  lemma CountNameInjective(a: string, b: string)
    ensures CountName(a) == CountName(b) ==> a == b
  {
    if CountName(a) == CountName(b) {
      assert |a| == |b|;
      assert a == CountName(a)[..|a|] && b == CountName(b)[..|b|];
    }
  }

  function CountNames(columns: seq<string>): (r: seq<string>)
    ensures |r| == |columns|
    ensures forall k :: 0 <= k < |columns| ==> r[k] == CountName(columns[k])
  {
    seq(|columns|, k requires 0 <= k < |columns| => CountName(columns[k]))
  }

  function CountColumn(col: seq<Value>): (r: seq<Value>)
    ensures |r| == |col|
    ensures forall i :: 0 <= i < |col| ==> r[i] == Num(ListCount(col[i]))
  {
    seq(|col|, i requires 0 <= i < |col| => Num(ListCount(col[i])))
  }

  /**
   * `create_list_counts`: the dict `out` gets `<col>_Count` for each list
   * column in order, so a column listed twice gives one count column, at
   * its first position.
   */
  function ListCounts(t: Table, columns: seq<string>): (r: Table)
    requires Valid(t) && HasColumns(t, columns)
    ensures Valid(r) && r.rows == t.rows && r.names == Dedup(CountNames(columns))
    ensures forall k :: 0 <= k < |columns| ==>
      CountName(columns[k]) in r.cols && r.cols[CountName(columns[k])] == CountColumn(t.cols[columns[k]])
  {
    var names := CountNames(columns);
    var cols := seq(|columns|, k requires 0 <= k < |columns| => CountColumn(t.cols[columns[k]]));
    var r := FromDict(t.rows, names, cols);
    assert forall k :: 0 <= k < |columns| ==> r.cols[CountName(columns[k])] == CountColumn(t.cols[columns[k]]) by {
      forall k | 0 <= k < |columns|
        ensures r.cols[CountName(columns[k])] == CountColumn(t.cols[columns[k]])
      {
        var j := LastIndex(names, names[k]);
        CountNameInjective(columns[j], columns[k]);
      }
    }
    r
  }

  /** Distinct list columns give one count column each, in their order. */
  lemma ListCountsDistinctColumns(t: Table, columns: seq<string>)
    requires Valid(t) && HasColumns(t, columns) && Distinct(columns)
    ensures ListCounts(t, columns).names == CountNames(columns)
  {
    var names := CountNames(columns);
    forall i, j | 0 <= i < j < |names|
      ensures names[i] != names[j]
    {
      CountNameInjective(columns[i], columns[j]);
    }
    DedupDistinct(names);
  }

  /** A list column configured twice gives a single count column. */
  lemma ListCountsRepeatedColumn(t: Table, c: string)
    requires Valid(t) && c in t.cols
    ensures ListCounts(t, [c, c]).names == [CountName(c)]
  {
    var names := CountNames([c, c]);
    assert names == [CountName(c), CountName(c)];
    assert names[..1] == [CountName(c)];
    assert Dedup(names[..1]) == [CountName(c)] by {
      assert names[..1][..0] == [];
    }
  }

  // ---------------------------------------------------------- interactions

  function InteractionName(a: string, b: string): string
  {
    a + "_x_" + b
  }

  function InteractionNames(pairs: seq<(string, string)>): (r: seq<string>)
    ensures |r| == |pairs|
    ensures forall k :: 0 <= k < |pairs| ==> r[k] == InteractionName(pairs[k].0, pairs[k].1)
  {
    seq(|pairs|, k requires 0 <= k < |pairs| => InteractionName(pairs[k].0, pairs[k].1))
  }

  /** Two different pairs can share a name: `("a_x", "b")` and `("a", "x_b")` both give `a_x_x_b`. */
  lemma InteractionNamesCanClash()
    ensures ("a_x", "b") != ("a", "x_b") && InteractionName("a_x", "b") == InteractionName("a", "x_b")
  {
  }

  /** `df[a] * df[b]` for one row: a missing operand gives a missing product. */
  function Product(u: Value, w: Value): (r: Value)
    requires (u.Num? || u.Missing?) && (w.Num? || w.Missing?)
    ensures r.Num? <==> u.Num? && w.Num?
    ensures r.Num? ==> r.n == u.n * w.n
  {
    if u.Num? && w.Num? then Num(u.n * w.n) else Missing
  }

  /** Both columns of every pair exist and are numeric. */
  predicate PairsNumeric(t: Table, pairs: seq<(string, string)>)
  {
    forall k :: 0 <= k < |pairs| ==>
      && pairs[k].0 in t.cols && NumericColumn(t.cols[pairs[k].0])
      && pairs[k].1 in t.cols && NumericColumn(t.cols[pairs[k].1])
  }

  function ProductColumn(a: seq<Value>, b: seq<Value>): (r: seq<Value>)
    requires NumericColumn(a) && NumericColumn(b) && |a| == |b|
    ensures |r| == |a|
    ensures forall i :: 0 <= i < |a| ==> r[i] == Product(a[i], b[i])
  {
    seq(|a|, i requires 0 <= i < |a| => Product(a[i], b[i]))
  }

  /** The interaction of `a` with `b` holds the same values as that of `b` with `a`. */
  lemma ProductColumnSymmetric(a: seq<Value>, b: seq<Value>)
    requires NumericColumn(a) && NumericColumn(b) && |a| == |b|
    ensures ProductColumn(a, b) == ProductColumn(b, a)
  {
  }

  /** The row-wise product of the columns of pair `k`. */
  function PairProduct(t: Table, pairs: seq<(string, string)>, k: nat): (r: seq<Value>)
    requires Valid(t) && PairsNumeric(t, pairs) && k < |pairs|
    ensures |r| == t.rows
    ensures forall i :: 0 <= i < t.rows ==> r[i] == Product(t.cols[pairs[k].0][i], t.cols[pairs[k].1][i])
  {
    ProductColumn(t.cols[pairs[k].0], t.cols[pairs[k].1])
  }

  /** The product columns of all pairs, in pair order: the values assigned into `out`. */
  function PairProducts(t: Table, pairs: seq<(string, string)>): (r: seq<seq<Value>>)
    requires Valid(t) && PairsNumeric(t, pairs)
    ensures |r| == |pairs|
    ensures forall k :: 0 <= k < |pairs| ==> r[k] == PairProduct(t, pairs, k) && |r[k]| == t.rows
  {
    seq(|pairs|, k requires 0 <= k < |pairs| => PairProduct(t, pairs, k))
  }

  /** The pair whose product ends up under the name of pair `k`: the last one with that name. */
  function Winner(pairs: seq<(string, string)>, k: nat): (j: nat)
    requires k < |pairs|
    ensures k <= j < |pairs|
    ensures InteractionName(pairs[j].0, pairs[j].1) == InteractionName(pairs[k].0, pairs[k].1)
    ensures forall l :: j < l < |pairs| ==> InteractionName(pairs[l].0, pairs[l].1) != InteractionName(pairs[k].0, pairs[k].1)
  {
    var names := InteractionNames(pairs);
    LastIndex(names, names[k])
  }

  /**
   * `create_interactions`: the dict `out` gets `<a>_x_<b>` for each pair in
   * order, so pairs that share a name give one column, at the first pair's
   * position, holding the last pair's product.
   */
  function Interactions(t: Table, pairs: seq<(string, string)>): (r: Table)
    requires Valid(t) && PairsNumeric(t, pairs)
    ensures Valid(r) && r.rows == t.rows && r.names == Dedup(InteractionNames(pairs))
    ensures forall k :: 0 <= k < |pairs| ==>
      InteractionName(pairs[k].0, pairs[k].1) in r.cols &&
      r.cols[InteractionName(pairs[k].0, pairs[k].1)] == PairProduct(t, pairs, Winner(pairs, k))
  {
    var names := InteractionNames(pairs);
    var cols := PairProducts(t, pairs);
    var r := FromDict(t.rows, names, cols);
    assert forall k :: 0 <= k < |pairs| ==> r.cols[names[k]] == PairProduct(t, pairs, Winner(pairs, k)) by {
      forall k | 0 <= k < |pairs|
        ensures r.cols[names[k]] == PairProduct(t, pairs, Winner(pairs, k))
      {
        assert Winner(pairs, k) == LastIndex(names, names[k]);
      }
    }
    r
  }

  lemma PairsNumericAppend(t: Table, p: seq<(string, string)>, q: seq<(string, string)>)
    requires PairsNumeric(t, p + q)
    ensures PairsNumeric(t, p) && PairsNumeric(t, q)
  {
    forall k | 0 <= k < |p|
      ensures p[k] == (p + q)[k]
    {
    }
    forall k | 0 <= k < |q|
      ensures q[k] == (p + q)[|p| + k]
    {
    }
  }

  lemma PairProductsAppend(t: Table, p: seq<(string, string)>, q: seq<(string, string)>)
    requires Valid(t) && PairsNumeric(t, p + q) && PairsNumeric(t, p) && PairsNumeric(t, q)
    ensures PairProducts(t, p + q) == PairProducts(t, p) + PairProducts(t, q)
  {
    var cp, cq, c := PairProducts(t, p), PairProducts(t, q), PairProducts(t, p + q);
    forall k | 0 <= k < |c|
      ensures c[k] == (cp + cq)[k]
    {
      if k < |p| {
        assert (p + q)[k] == p[k];
      } else {
        assert (p + q)[k] == q[k - |p|];
      }
    }
  }

  lemma InteractionNamesAppend(p: seq<(string, string)>, q: seq<(string, string)>)
    ensures InteractionNames(p + q) == InteractionNames(p) + InteractionNames(q)
  {
    assert forall k :: 0 <= k < |p| ==> (p + q)[k] == p[k];
    assert forall k :: 0 <= k < |q| ==> (p + q)[|p| + k] == q[k];
  }

  /** With no shared names, the dict frame of the interactions is built from the names and products in order. */
  lemma InteractionsDistinct(t: Table, p: seq<(string, string)>)
    requires Valid(t) && PairsNumeric(t, p) && Distinct(InteractionNames(p))
    ensures Interactions(t, p) == Build(t.rows, InteractionNames(p), PairProducts(t, p))
  {
    FromDictDistinct(t.rows, InteractionNames(p), PairProducts(t, p));
  }

  /** With no shared names, the interactions of `p + q` are those of `p` followed by those of `q`. */
  lemma InteractionsAppend(t: Table, p: seq<(string, string)>, q: seq<(string, string)>)
    requires Valid(t) && PairsNumeric(t, p + q) && Distinct(InteractionNames(p + q))
    ensures PairsNumeric(t, p) && PairsNumeric(t, q)
    ensures forall c :: c in Interactions(t, p).cols ==> c !in Interactions(t, q).cols
    ensures Interactions(t, p + q) == Concat(Interactions(t, p), Interactions(t, q))
  {
    PairsNumericAppend(t, p, q);
    var np, nq := InteractionNames(p), InteractionNames(q);
    InteractionNamesAppend(p, q);
    DistinctSplit(np, nq);
    PairProductsAppend(t, p, q);
    InteractionsDistinct(t, p + q);
    InteractionsDistinct(t, p);
    InteractionsDistinct(t, q);
    BuildAppend(t.rows, np, PairProducts(t, p), nq, PairProducts(t, q));
  }

  // ------------------------------------------------------------- bucketing

  /** Adds `x` to a strictly increasing sequence, keeping it strictly increasing. */
  function InsertEdge(x: int, s: seq<int>): (r: seq<int>)
    requires Increasing(s)
    ensures Increasing(r)
    ensures forall y :: y in r <==> y == x || y in s
    ensures |r| <= |s| + 1
  {
    if |s| == 0 then [x]
    else if x == s[0] then s
    else if x < s[0] then
      assert forall j :: 0 < j < |s| ==> s[0] < s[j];
      assert forall j :: 0 <= j < |s| ==> x < s[j];
      [x] + s
    else
      var rest := InsertEdge(x, s[1..]);
      forall j | 0 <= j < |rest|
        ensures s[0] < rest[j]
      {
        var y := rest[j];
        assert y in rest;
        if y != x {
          var i :| 0 <= i < |s[1..]| && s[1..][i] == y;
          assert s[i + 1] == y;
        }
      }
      [s[0]] + rest
  }

  /** `np.unique`: the distinct values, sorted. */
  function Unique(xs: seq<int>): (r: seq<int>)
    ensures Increasing(r)
    ensures forall y :: y in r <==> y in xs
    ensures |r| <= |xs|
  {
    if |xs| == 0 then [] else InsertEdge(xs[0], Unique(xs[1..]))
  }

  /** The first and last edges of `np.unique(xs)` are the least and greatest of `xs`. */
  lemma UniqueBounds(xs: seq<int>)
    requires |xs| > 0
    ensures |Unique(xs)| > 0
    ensures Unique(xs)[0] in xs && Unique(xs)[|Unique(xs)| - 1] in xs
    ensures forall y :: y in xs ==> Unique(xs)[0] <= y <= Unique(xs)[|Unique(xs)| - 1]
  {
    var e := Unique(xs);
    assert xs[0] in e;
    forall y | y in xs
      ensures e[0] <= y <= e[|e| - 1]
    {
      assert y in e;
    }
  }

  /** numpy's `searchsorted(side="left")`: the first position whose edge is at least `x`. */
  function SearchLeft(e: seq<int>, x: int): (j: nat)
    requires Increasing(e)
    ensures j <= |e|
    ensures forall k :: 0 <= k < j ==> e[k] < x
    ensures forall k :: j <= k < |e| ==> x <= e[k]
  {
    if |e| == 0 || x <= e[0] then 0
    else
      var j := SearchLeft(e[1..], x);
      assert forall k :: 1 <= k < |e| ==> e[k] == e[1..][k - 1];
      1 + j
  }

  /**
   * `x` falls in bin `i` of `pd.cut(bins=e, include_lowest=True)`: the bins
   * are closed on the right and the lowest one is closed on the left too.
   */
  ghost predicate InBin(e: seq<int>, i: nat, x: int)
  {
    i + 1 < |e| && (e[i] < x <= e[i + 1] || (i == 0 && x == e[0]))
  }

  /**
   * `pd.cut(..., labels=False, include_lowest=True)` on one value: the bin
   * index, or `None` (NaN) for a missing value or one outside the edges.
   */
  function Cut(e: seq<int>, v: Value): (r: Option<nat>)
    requires Increasing(e) && |e| >= 1 && (v.Num? || v.Missing?)
    ensures v.Missing? ==> r == None
    ensures v.Num? ==> forall i: nat :: InBin(e, i, v.n) <==> r == Some(i)
    ensures r.Some? <==> v.Num? && |e| >= 2 && e[0] <= v.n <= e[|e| - 1]
  {
    if v.Missing? then None
    else
      var x := v.n;
      var ids := if x == e[0] then 1 else SearchLeft(e, x);
      if ids == 0 || ids == |e| then None else Some(ids - 1)
  }

  /** Every value that gets a bin gets one that has a label (otherwise `labels[int(x)]` raises `IndexError`). */
  predicate Labelled(labels: seq<string>, e: seq<int>, col: seq<Value>)
    requires Increasing(e) && |e| >= 1 && NumericColumn(col)
  {
    forall i :: 0 <= i < |col| && Cut(e, col[i]).Some? ==> Cut(e, col[i]).value < |labels|
  }

  /**
   * The category of one value: the label at the bin's position, so that with
   * fewer bins than labels only the first labels are ever used.
   */
  function BinLabel(labels: seq<string>, e: seq<int>, v: Value): (r: Value)
    requires Increasing(e) && |e| >= 1 && (v.Num? || v.Missing?)
    requires Cut(e, v).Some? ==> Cut(e, v).value < |labels|
    ensures r.Missing? <==> Cut(e, v).None?
    ensures r.Text? ==> r.text == labels[Cut(e, v).value]
    ensures r.Text? ==> exists i :: 0 <= i < |e| - 1 && i < |labels| && r.text == labels[i]
    ensures r.Missing? || r.Text?
  {
    match Cut(e, v)
    case Some(i) => Text(labels[i])
    case None => Missing
  }

  function BinColumn(labels: seq<string>, e: seq<int>, col: seq<Value>): (r: seq<Value>)
    requires Increasing(e) && |e| >= 1 && NumericColumn(col) && Labelled(labels, e, col)
    ensures |r| == |col|
    ensures forall i :: 0 <= i < |col| ==> r[i] == BinLabel(labels, e, col[i])
  {
    seq(|col|, i requires 0 <= i < |col| => BinLabel(labels, e, col[i]))
  }

  /**
   * `fit`: the edges of each bucketing are the quantile values made unique,
   * so they are strictly increasing and range from the least to the greatest
   * quantile. The quantiles themselves are an input (one per
   * `linspace(0, 1, q + 1)` point).
   */
  function Fit(cfg: Config, durationQuantiles: seq<int>, episodesQuantiles: seq<int>): (r: Fitted)
    requires |durationQuantiles| == cfg.durationQ + 1
    requires |episodesQuantiles| == cfg.episodesQ + 1
    ensures Increasing(r.durationBins) && Increasing(r.episodesBins)
    ensures forall y :: y in r.durationBins <==> y in durationQuantiles
    ensures forall y :: y in r.episodesBins <==> y in episodesQuantiles
    ensures 1 <= |r.durationBins| <= cfg.durationQ + 1 && 1 <= |r.episodesBins| <= cfg.episodesQ + 1
  {
    UniqueBounds(durationQuantiles);
    UniqueBounds(episodesQuantiles);
    Fitted(Unique(durationQuantiles), Unique(episodesQuantiles))
  }

  /**
   * With at most as many quantile steps as labels, `fit` learns at most one
   * bin per label, so no value of any numeric column reaches a bin without a
   * label.
   */
  lemma FitLabelled(cfg: Config, durationQuantiles: seq<int>, episodesQuantiles: seq<int>, durations: seq<Value>, episodes: seq<Value>)
    requires |durationQuantiles| == cfg.durationQ + 1
    requires |episodesQuantiles| == cfg.episodesQ + 1
    requires NumericColumn(durations) && NumericColumn(episodes)
    ensures cfg.durationQ <= |DurationLabels| ==> Labelled(DurationLabels, Fit(cfg, durationQuantiles, episodesQuantiles).durationBins, durations)
    ensures cfg.episodesQ <= |EpisodesLabels| ==> Labelled(EpisodesLabels, Fit(cfg, durationQuantiles, episodesQuantiles).episodesBins, episodes)
  {
    var st := Fit(cfg, durationQuantiles, episodesQuantiles);
    BinBelowEdges(st.durationBins, durations);
    BinBelowEdges(st.episodesBins, episodes);
  }

  /** A bin index is always below the number of edges less one. */
  lemma BinBelowEdges(e: seq<int>, col: seq<Value>)
    requires Increasing(e) && |e| >= 1 && NumericColumn(col)
    ensures forall i :: 0 <= i < |col| && Cut(e, col[i]).Some? ==> Cut(e, col[i]).value < |e| - 1
  {
    forall i | 0 <= i < |col| && Cut(e, col[i]).Some?
      ensures Cut(e, col[i]).value < |e| - 1
    {
      assert InBin(e, Cut(e, col[i]).value, col[i].n);
    }
  }

  /** With the default four quantile steps, every value of a numeric column gets a labelled bin or none. */
  lemma DefaultLabelled(durationQuantiles: seq<int>, episodesQuantiles: seq<int>, durations: seq<Value>, episodes: seq<Value>)
    requires |durationQuantiles| == Default.durationQ + 1
    requires |episodesQuantiles| == Default.episodesQ + 1
    requires NumericColumn(durations) && NumericColumn(episodes)
    ensures Labelled(DurationLabels, Fit(Default, durationQuantiles, episodesQuantiles).durationBins, durations)
    ensures Labelled(EpisodesLabels, Fit(Default, durationQuantiles, episodesQuantiles).episodesBins, episodes)
  {
    FitLabelled(Default, durationQuantiles, episodesQuantiles, durations, episodes);
  }

  /** The lowest edge falls in the first bin and the highest edge in the last one. */
  lemma CutEnds(e: seq<int>)
    requires Increasing(e) && |e| >= 2
    ensures Cut(e, Num(e[0])) == Some(0)
    ensures Cut(e, Num(e[|e| - 1])) == Some(|e| - 2)
  {
    assert InBin(e, 0, e[0]);
    assert e[|e| - 2] < e[|e| - 1];
    assert InBin(e, |e| - 2, e[|e| - 1]);
  }

  /*
   * The three lemmas below are about edges `e` that hold exactly the
   * training quantiles `qs`, as `Fit` learns them.
   */

  /** The least training quantile falls in the first bin (the one `include_lowest` closes). */
  lemma LeastQuantileFirstBin(qs: seq<int>, e: seq<int>, x: int)
    requires Increasing(e) && |e| >= 2 && forall y :: y in e <==> y in qs
    requires x in qs && forall y :: y in qs ==> x <= y
    ensures Cut(e, Num(x)) == Some(0)
  {
    assert e[0] in e;
    assert e[0] in qs;
    assert x in e;
    assert forall j :: 0 < j < |e| ==> e[0] < e[j];
    assert x == e[0];
    CutEnds(e);
  }

  /** The greatest training quantile falls in the last bin. */
  lemma GreatestQuantileLastBin(qs: seq<int>, e: seq<int>, x: int)
    requires Increasing(e) && |e| >= 2 && forall y :: y in e <==> y in qs
    requires x in qs && forall y :: y in qs ==> y <= x
    ensures Cut(e, Num(x)) == Some(|e| - 2)
  {
    assert e[|e| - 1] in e;
    assert e[|e| - 1] in qs;
    assert x in e;
    assert forall j :: 0 <= j < |e| - 1 ==> e[j] < e[|e| - 1];
    assert x == e[|e| - 1];
    CutEnds(e);
  }

  /** A value below every training quantile, or above every one, falls in no bin. */
  lemma OutsideQuantilesNoBin(qs: seq<int>, e: seq<int>, x: int)
    requires Increasing(e) && |e| >= 2 && forall y :: y in e <==> y in qs
    requires (forall y :: y in qs ==> x < y) || (forall y :: y in qs ==> y < x)
    ensures Cut(e, Num(x)) == None
  {
    assert e[0] in e && e[|e| - 1] in e;
    assert e[0] in qs && e[|e| - 1] in qs;
  }

  /** The columns `transform` appends, in order. */
  function NewNames(cfg: Config): (r: seq<string>)
    ensures forall n :: n in r <==>
      n in CountNames(cfg.listColumns) || n in InteractionNames(cfg.pairs) || n == "DurationCat" || n == "EpisodesCat"
    ensures |r| >= 2 && r[|r| - 2] == "DurationCat" && r[|r| - 1] == "EpisodesCat"
  {
    Dedup(CountNames(cfg.listColumns)) + Dedup(InteractionNames(cfg.pairs)) + ["DurationCat", "EpisodesCat"]
  }

  /**
   * What `transform` needs of its input beyond the fitted edges. The new
   * names must be fresh and pairwise different because `pd.concat` keeps
   * both columns of a clash.
   */
  predicate Ready(cfg: Config, st: Fitted, t: Table)
  {
    && HasColumns(t, cfg.listColumns)
    && PairsNumeric(t, cfg.pairs)
    && cfg.durationCol in t.cols && NumericColumn(t.cols[cfg.durationCol])
    && cfg.episodesCol in t.cols && NumericColumn(t.cols[cfg.episodesCol])
    && Increasing(st.durationBins) && |st.durationBins| >= 1
    && Increasing(st.episodesBins) && |st.episodesBins| >= 1
    && Labelled(DurationLabels, st.durationBins, t.cols[cfg.durationCol])
    && Labelled(EpisodesLabels, st.episodesBins, t.cols[cfg.episodesCol])
    && Distinct(NewNames(cfg))
    && (forall n :: n in NewNames(cfg) ==> n !in t.cols)
  }

  /** The new name list splits into the count and interaction names, then the two categories. */
  lemma NewNamesDistinct(cfg: Config)
    requires Distinct(NewNames(cfg))
    ensures Distinct(Dedup(CountNames(cfg.listColumns)) + Dedup(InteractionNames(cfg.pairs)))
    ensures NewNames(cfg) == (Dedup(CountNames(cfg.listColumns)) + Dedup(InteractionNames(cfg.pairs))) + ["DurationCat", "EpisodesCat"]
  {
    var front := Dedup(CountNames(cfg.listColumns)) + Dedup(InteractionNames(cfg.pairs));
    DistinctSplit(front, ["DurationCat", "EpisodesCat"]);
  }

  /** `df_dur` and `df_ep` side by side. */
  function Categories(cfg: Config, st: Fitted, t: Table): (r: Table)
    requires Valid(t) && Ready(cfg, st, t)
    ensures Valid(r) && r.rows == t.rows && r.names == ["DurationCat", "EpisodesCat"]
    ensures r.cols["DurationCat"] == BinColumn(DurationLabels, st.durationBins, t.cols[cfg.durationCol])
    ensures r.cols["EpisodesCat"] == BinColumn(EpisodesLabels, st.episodesBins, t.cols[cfg.episodesCol])
  {
    Build(t.rows, ["DurationCat", "EpisodesCat"],
      [BinColumn(DurationLabels, st.durationBins, t.cols[cfg.durationCol]),
       BinColumn(EpisodesLabels, st.episodesBins, t.cols[cfg.episodesCol])])
  }

  /** The frame of new columns: `df_list`, `df_inter`, `df_dur` and `df_ep` side by side. */
  function Added(cfg: Config, st: Fitted, t: Table): (r: Table)
    requires Valid(t) && Ready(cfg, st, t)
    ensures Valid(r) && r.rows == t.rows && r.names == NewNames(cfg)
    ensures forall k :: 0 <= k < |cfg.listColumns| ==>
      CountName(cfg.listColumns[k]) in r.cols && r.cols[CountName(cfg.listColumns[k])] == CountColumn(t.cols[cfg.listColumns[k]])
    ensures forall k :: 0 <= k < |cfg.pairs| ==>
      InteractionName(cfg.pairs[k].0, cfg.pairs[k].1) in r.cols &&
      r.cols[InteractionName(cfg.pairs[k].0, cfg.pairs[k].1)] == PairProduct(t, cfg.pairs, Winner(cfg.pairs, k))
    ensures r.cols["DurationCat"] == BinColumn(DurationLabels, st.durationBins, t.cols[cfg.durationCol])
    ensures r.cols["EpisodesCat"] == BinColumn(EpisodesLabels, st.episodesBins, t.cols[cfg.episodesCol])
  {
    NewNamesDistinct(cfg);
    var counts := ListCounts(t, cfg.listColumns);
    var inter := Interactions(t, cfg.pairs);
    var cats := Categories(cfg, st, t);
    DistinctNamesDisjoint(counts, inter);
    var front := Concat(counts, inter);
    DistinctNamesDisjoint(front, cats);
    Concat(front, cats)
  }

  /**
   * `transform`: every input column is kept, unchanged and in order, and the
   * count, interaction and category columns are appended after them.
   */
  function Transform(cfg: Config, st: Fitted, t: Table): (r: Table)
    requires Valid(t) && Ready(cfg, st, t)
    ensures Valid(r) && r.rows == t.rows && r.names == t.names + NewNames(cfg)
    ensures forall c :: c in t.cols ==> r.cols[c] == t.cols[c]
    ensures forall k :: 0 <= k < |cfg.listColumns| ==>
      CountName(cfg.listColumns[k]) in r.cols && r.cols[CountName(cfg.listColumns[k])] == CountColumn(t.cols[cfg.listColumns[k]])
    ensures forall k :: 0 <= k < |cfg.pairs| ==>
      InteractionName(cfg.pairs[k].0, cfg.pairs[k].1) in r.cols &&
      r.cols[InteractionName(cfg.pairs[k].0, cfg.pairs[k].1)] == PairProduct(t, cfg.pairs, Winner(cfg.pairs, k))
    ensures r.cols["DurationCat"] == BinColumn(DurationLabels, st.durationBins, t.cols[cfg.durationCol])
    ensures r.cols["EpisodesCat"] == BinColumn(EpisodesLabels, st.episodesBins, t.cols[cfg.episodesCol])
  {
    var added := Added(cfg, st, t);
    Concat(t, added)
  }
}
