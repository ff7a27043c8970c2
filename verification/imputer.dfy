/**
 * MultiListModeImputer: learns, per list column, the most frequent label of
 * the training column (ties go to the label met first) and writes it into
 * every cell that normalises to the empty list.
 */
module ModeImputer {
  import opened Values
  import opened Tables

  /** Learned state: the configured columns and the mode of each (`None` when the column had no label). */
  datatype Imputer = Imputer(columns: seq<string>, modes: map<string, Option<Item>>)

  /** The first position of `y` in `xs`. */
  function FirstIndex(xs: seq<Item>, y: Item): (k: nat)
    requires y in xs
    ensures k < |xs| && xs[k] == y
    ensures forall p :: 0 <= p < |xs| && xs[p] == y ==> k <= p
  {
    if xs[0] == y then 0
    else
      var k := 1 + FirstIndex(xs[1..], y);
      assert forall p :: 1 <= p < |xs| ==> xs[p] == xs[1..][p - 1];
      k
  }

  /**
   * `m` is a most frequent element of `xs`, and every element exactly as
   * frequent is first encountered no earlier than `m`.
   */
  predicate IsFirstMode(xs: seq<Item>, m: Item)
  {
    && m in xs
    && (forall y :: y in xs ==> Count(xs, y) <= Count(xs, m))
    && (forall y :: y in xs && Count(xs, y) == Count(xs, m) ==> FirstIndex(xs, m) <= FirstIndex(xs, y))
  }

  /**
   * One pass of `max` over the positions of `xs`: `b` is the first position
   * of greatest count among those before `i`; the result is the first
   * position of greatest count overall.
   */
  function ScanMode(xs: seq<Item>, i: nat, b: nat): (k: nat)
    requires b < i <= |xs|
    requires forall j :: 0 <= j < i ==> Count(xs, xs[j]) <= Count(xs, xs[b])
    requires forall j :: 0 <= j < b ==> Count(xs, xs[j]) < Count(xs, xs[b])
    ensures b <= k < |xs|
    ensures forall j :: 0 <= j < |xs| ==> Count(xs, xs[j]) <= Count(xs, xs[k])
    ensures forall j :: 0 <= j < k ==> Count(xs, xs[j]) < Count(xs, xs[k])
    decreases |xs| - i
  {
    if i == |xs| then b
    else if Count(xs, xs[i]) > Count(xs, xs[b]) then ScanMode(xs, i + 1, i)
    else ScanMode(xs, i + 1, b)
  }

  /** `Counter(xs).most_common(1)[0][0]`, or `None` for an empty `xs`. */
  function ModeOf(xs: seq<Item>): (r: Option<Item>)
    ensures r == None <==> |xs| == 0
    ensures r.Some? ==> IsFirstMode(xs, r.value)
  {
    if |xs| == 0 then None
    else
      var k := ScanMode(xs, 1, 0);
      assert forall y :: y in xs && Count(xs, y) == Count(xs, xs[k]) ==> FirstIndex(xs, xs[k]) <= FirstIndex(xs, y);
      Some(xs[k])
  }

  /** There is only one first-encountered mode. */
  lemma FirstModeUnique(xs: seq<Item>, a: Item, b: Item)
    requires IsFirstMode(xs, a) && IsFirstMode(xs, b)
    ensures a == b
  {
    assert Count(xs, a) == Count(xs, b);
    assert xs[FirstIndex(xs, a)] == xs[FirstIndex(xs, b)];
  }

  /** The computed mode is exactly the first-encountered most frequent label. */
  lemma ModeOfCharacterization(xs: seq<Item>, m: Item)
    ensures ModeOf(xs) == Some(m) <==> IsFirstMode(xs, m)
  {
    if IsFirstMode(xs, m) {
      FirstModeUnique(xs, ModeOf(xs).value, m);
    }
  }

  /** `fit`: one mode per configured column, computed from its normalised labels. */
  function Fit(parse: Parser, columns: seq<string>, t: Table): (r: Imputer)
    requires HasColumns(t, columns)
    ensures r.columns == columns
    ensures forall c :: c in r.modes <==> c in columns
    ensures forall c :: c in columns ==>
      (r.modes[c] == None <==> forall i :: 0 <= i < |t.cols[c]| ==> EnsureList(parse, t.cols[c][i]) == [])
    ensures forall c :: c in columns && r.modes[c].Some? ==>
      IsFirstMode(AllItems(parse, t.cols[c]), r.modes[c].value)
  {
    assert forall c :: c in columns ==>
      (AllItems(parse, t.cols[c]) == [] <==> forall i :: 0 <= i < |t.cols[c]| ==> EnsureList(parse, t.cols[c][i]) == [])
    by {
      forall c | c in columns {
        AllItemsEmpty(parse, t.cols[c]);
      }
    }
    Imputer(columns, map c | c in columns :: ModeOf(AllItems(parse, t.cols[c])))
  }

  /** The value written into an empty cell: the mode, or `None` when there is none. */
  function FillItem(mode: Option<Item>): Item
  {
    match mode
    case Some(m) => m
    case None => Null
  }

  /**
   * One cell of `transform`: a cell with labels keeps them; a cell without
   * becomes the singleton holding the mode, even when the mode is `None`.
   */
  function ImputeCell(parse: Parser, mode: Option<Item>, v: Value): (r: Value)
    ensures r.List? && |r.items| >= 1
    ensures EnsureList(parse, v) != [] ==> r.items == EnsureList(parse, v)
    ensures EnsureList(parse, v) == [] ==> r.items == [FillItem(mode)]
  {
    var xs := EnsureList(parse, v);
    if |xs| > 0 then List(xs) else List([FillItem(mode)])
  }

  function ImputeColumn(parse: Parser, mode: Option<Item>, col: seq<Value>): (r: seq<Value>)
    ensures |r| == |col|
    ensures forall i :: 0 <= i < |col| ==> r[i] == ImputeCell(parse, mode, col[i])
  {
    seq(|col|, i requires 0 <= i < |col| => ImputeCell(parse, mode, col[i]))
  }

  /** Imputing an imputed column changes nothing. */
  lemma ImputeColumnIdempotent(parse: Parser, mode: Option<Item>, col: seq<Value>)
    ensures ImputeColumn(parse, mode, ImputeColumn(parse, mode, col)) == ImputeColumn(parse, mode, col)
  {
  }

  /** The loop of `transform` over the configured columns `cs`. */
  function ImputeColumns(parse: Parser, modes: map<string, Option<Item>>, t: Table, cs: seq<string>): (r: Table)
    requires Valid(t) && HasColumns(t, cs)
    requires forall c :: c in cs ==> c in modes
    ensures Valid(r) && r.rows == t.rows && r.names == t.names
    ensures forall c :: c in r.cols <==> c in t.cols
    ensures forall c :: c in t.cols && c !in cs ==> r.cols[c] == t.cols[c]
    ensures forall c :: c in cs ==> r.cols[c] == ImputeColumn(parse, modes[c], t.cols[c])
    decreases |cs|
  {
    if |cs| == 0 then t
    else
      var c := cs[0];
      var t' := Replace(t, c, ImputeColumn(parse, modes[c], t.cols[c]));
      ImputeColumnIdempotent(parse, modes[c], t.cols[c]);
      ImputeColumns(parse, modes, t', cs[1..])
  }

  /**
   * `transform`: every configured column is imputed cell by cell; every
   * other column, the column order and the row count are untouched.
   */
  function Transform(parse: Parser, st: Imputer, t: Table): (r: Table)
    requires Valid(t) && HasColumns(t, st.columns)
    requires forall c :: c in st.columns ==> c in st.modes
    ensures Valid(r) && r.rows == t.rows && r.names == t.names
    ensures forall c :: c in r.cols <==> c in t.cols
    ensures forall c :: c in t.cols && c !in st.columns ==> r.cols[c] == t.cols[c]
    ensures forall c, i :: c in st.columns && 0 <= i < t.rows ==>
      r.cols[c][i] == ImputeCell(parse, st.modes[c], t.cols[c][i])
    ensures forall c, i :: c in st.columns && 0 <= i < t.rows ==>
      r.cols[c][i].List? && |r.cols[c][i].items| >= 1
  {
    ImputeColumns(parse, st.modes, t, st.columns)
  }

  /** Transforming an already transformed table changes nothing. */
  lemma TransformIdempotent(parse: Parser, st: Imputer, t: Table)
    requires Valid(t) && HasColumns(t, st.columns)
    requires forall c :: c in st.columns ==> c in st.modes
    ensures Transform(parse, st, Transform(parse, st, t)) == Transform(parse, st, t)
  {
    var once := Transform(parse, st, t);
    var twice := Transform(parse, st, once);
    forall c | c in st.columns
      ensures twice.cols[c] == once.cols[c]
    {
      ImputeColumnIdempotent(parse, st.modes[c], t.cols[c]);
      assert once.cols[c] == ImputeColumn(parse, st.modes[c], t.cols[c]);
    }
    assert twice.cols == once.cols;
  }

  /**
   * `ys` is `xs` with extra occurrences of `f` and nothing else changed; when
   * `f` gained nothing, `ys` is `xs` itself.
   */
  ghost predicate GainsOnly(xs: seq<Item>, ys: seq<Item>, f: Item)
  {
    && (forall y :: y != f ==> Count(ys, y) == Count(xs, y))
    && Count(ys, f) >= Count(xs, f)
    && (Count(ys, f) == Count(xs, f) ==> ys == xs)
  }

  lemma GainsOnlyAppend(x0: seq<Item>, xs: seq<Item>, y0: seq<Item>, ys: seq<Item>, f: Item)
    requires GainsOnly(x0, y0, f) && GainsOnly(xs, ys, f)
    ensures GainsOnly(x0 + xs, y0 + ys, f)
  {
    forall y
      ensures Count(x0 + xs, y) == Count(x0, y) + Count(xs, y)
      ensures Count(y0 + ys, y) == Count(y0, y) + Count(ys, y)
    {
      assert multiset(x0 + xs) == multiset(x0) + multiset(xs);
      assert multiset(y0 + ys) == multiset(y0) + multiset(ys);
    }
  }

  /** One imputed cell: an empty cell gains the fill value, any other cell is kept. */
  lemma ImputedCellGains(parse: Parser, mode: Option<Item>, v: Value)
    ensures GainsOnly(EnsureList(parse, v), EnsureList(parse, ImputeCell(parse, mode, v)), FillItem(mode))
  {
    var x0 := EnsureList(parse, v);
    if x0 == [] {
      assert EnsureList(parse, ImputeCell(parse, mode, v)) == [FillItem(mode)];
      assert multiset(x0) == multiset{};
    }
  }

  /**
   * What imputation does to the label counts of a column: the fill value
   * gains one occurrence per empty cell, every other label keeps its count,
   * and the labels are unchanged when the fill value gained nothing.
   */
  lemma {:induction false} ImputedCounts(parse: Parser, mode: Option<Item>, col: seq<Value>)
    ensures GainsOnly(AllItems(parse, col), AllItems(parse, ImputeColumn(parse, mode, col)), FillItem(mode))
    decreases |col|
  {
    var out := ImputeColumn(parse, mode, col);
    if |col| > 0 {
      ImputedCounts(parse, mode, col[1..]);
      AllItemsCons(parse, col);
      AllItemsCons(parse, out);
      assert out[1..] == ImputeColumn(parse, mode, col[1..]);
      ImputedCellGains(parse, mode, col[0]);
      GainsOnlyAppend(EnsureList(parse, col[0]), AllItems(parse, col[1..]),
                      EnsureList(parse, out[0]), AllItems(parse, out[1..]), FillItem(mode));
    }
  }

  /** Every label counts at most as often as a first-encountered mode. */
  lemma ModeBoundsCount(xs: seq<Item>, m: Item, y: Item)
    requires IsFirstMode(xs, m)
    ensures Count(xs, y) <= Count(xs, m)
  {
    if y !in xs {
      assert Count(xs, y) == 0;
    }
  }

  /**
   * A first-encountered mode stays the first-encountered mode when it gains
   * occurrences and every other label keeps its count.
   */
  lemma ModeSurvivesGain(xs: seq<Item>, ys: seq<Item>, m: Item)
    requires IsFirstMode(xs, m) && GainsOnly(xs, ys, m)
    ensures IsFirstMode(ys, m)
  {
    if Count(ys, m) > Count(xs, m) {
      forall y | y in ys
        ensures Count(ys, y) <= Count(ys, m)
      {
        ModeBoundsCount(xs, m, y);
      }
      forall y | y in ys && Count(ys, y) == Count(ys, m)
        ensures y == m
      {
        ModeBoundsCount(xs, m, y);
      }
    }
  }

  /**
   * Refitting on the imputed training table learns the same mode for every
   * column that had one: imputation only reinforces the mode.
   */
  lemma RefitKeepsMode(parse: Parser, columns: seq<string>, t: Table)
    requires Valid(t) && HasColumns(t, columns)
    ensures var st := Fit(parse, columns, t);
            var st' := Fit(parse, columns, Transform(parse, st, t));
            forall c :: c in columns && st.modes[c].Some? ==> st'.modes[c] == st.modes[c]
  {
    var st := Fit(parse, columns, t);
    var u := Transform(parse, st, t);
    var st' := Fit(parse, columns, u);
    forall c | c in columns && st.modes[c].Some?
      ensures st'.modes[c] == st.modes[c]
    {
      var m := st.modes[c].value;
      assert u.cols[c] == ImputeColumn(parse, st.modes[c], t.cols[c]);
      ImputedCounts(parse, st.modes[c], t.cols[c]);
      ModeSurvivesGain(AllItems(parse, t.cols[c]), AllItems(parse, u.cols[c]), m);
      ModeOfCharacterization(AllItems(parse, u.cols[c]), m);
    }
  }
}
