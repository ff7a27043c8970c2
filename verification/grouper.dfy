/**
 * FrequencyGrouper: learns, per list column, the labels that occur at least
 * a threshold number of times in the training column, and rewrites every
 * other label to "Other".
 */
module FrequencyGrouper {
  import opened Values
  import opened Tables

  /** The threshold of a column that has none configured. */
  const DefaultMinFreq: int := 10

  /** The catch-all label rare labels are rewritten to. */
  const OtherLabel: Item := Label("Other")

  /** Learned state: configuration plus the frequent set of every configured column. */
  datatype Grouper = Grouper(columns: seq<string>, minFreq: map<string, int>, frequent: map<string, set<Item>>)

  /** `min_freq.get(col, 10)`. */
  function Threshold(minFreq: map<string, int>, c: string): int
  {
    if c in minFreq then minFreq[c] else DefaultMinFreq
  }

  /** `Counter(xs)`: every label of `xs` with its number of occurrences. */
  function Tally(xs: seq<Item>): (r: map<Item, nat>)
    ensures forall y :: y in r <==> y in xs
    ensures forall y :: y in r ==> r[y] == Count(xs, y)
    decreases |xs|
  {
    if |xs| == 0 then map[]
    else
      var init := xs[..|xs| - 1];
      var x := xs[|xs| - 1];
      var m := Tally(init);
      assert xs == init + [x];
      assert multiset(xs) == multiset(init) + multiset{x};
      m[x := if x in m then m[x] + 1 else 1]
  }

  /** The labels counted at least `minF` times. */
  function FrequentSet(xs: seq<Item>, minF: int): (r: set<Item>)
    ensures forall y :: y in r <==> y in xs && Count(xs, y) >= minF
  {
    var counts := Tally(xs);
    set y | y in counts && counts[y] >= minF
  }

  /** A higher threshold can only shrink the frequent set. */
  lemma ThresholdMonotone(xs: seq<Item>, lo: int, hi: int)
    requires lo <= hi
    ensures FrequentSet(xs, hi) <= FrequentSet(xs, lo)
  {
  }

  /** `fit`: the frequent set of every configured column, over its normalised labels. */
  function Fit(parse: Parser, columns: seq<string>, minFreq: map<string, int>, t: Table): (r: Grouper)
    requires HasColumns(t, columns)
    ensures r.columns == columns && r.minFreq == minFreq
    ensures forall c :: c in r.frequent <==> c in columns
    ensures forall c, y :: c in columns ==>
      (y in r.frequent[c] <==> y in AllItems(parse, t.cols[c]) && Count(AllItems(parse, t.cols[c]), y) >= Threshold(minFreq, c))
  {
    Grouper(columns, minFreq, map c | c in columns :: FrequentSet(AllItems(parse, t.cols[c]), Threshold(minFreq, c)))
  }

  function GroupItem(freq: set<Item>, x: Item): Item
  {
    if x in freq then x else OtherLabel
  }

  /**
   * One cell of `transform`: the normalised labels in their order, each kept
   * when frequent and replaced by "Other" otherwise (duplicates included).
   */
  function GroupCell(parse: Parser, freq: set<Item>, v: Value): (r: Value)
    ensures r.List? && |r.items| == |EnsureList(parse, v)|
    ensures forall i :: 0 <= i < |r.items| ==>
      (EnsureList(parse, v)[i] in freq ==> r.items[i] == EnsureList(parse, v)[i]) &&
      (EnsureList(parse, v)[i] !in freq ==> r.items[i] == OtherLabel)
    ensures forall y :: y in r.items ==> y in freq || y == OtherLabel
  {
    var xs := EnsureList(parse, v);
    List(seq(|xs|, i requires 0 <= i < |xs| => GroupItem(freq, xs[i])))
  }

  function GroupColumn(parse: Parser, freq: set<Item>, col: seq<Value>): (r: seq<Value>)
    ensures |r| == |col|
    ensures forall i :: 0 <= i < |col| ==> r[i] == GroupCell(parse, freq, col[i])
  {
    seq(|col|, i requires 0 <= i < |col| => GroupCell(parse, freq, col[i]))
  }

  /** Grouping a grouped column changes nothing: "Other" stays "Other" whether or not it is frequent. */
  lemma GroupColumnIdempotent(parse: Parser, freq: set<Item>, col: seq<Value>)
    ensures GroupColumn(parse, freq, GroupColumn(parse, freq, col)) == GroupColumn(parse, freq, col)
  {
    var once := GroupColumn(parse, freq, col);
    forall i | 0 <= i < |col|
      ensures GroupCell(parse, freq, once[i]) == once[i]
    {
      var items := once[i].items;
      assert EnsureList(parse, once[i]) == items;
      assert forall k :: 0 <= k < |items| ==> GroupItem(freq, items[k]) == items[k];
    }
  }

  /** The loop of `transform` over the configured columns `cs`. */
  function GroupColumns(parse: Parser, frequent: map<string, set<Item>>, t: Table, cs: seq<string>): (r: Table)
    requires Valid(t) && HasColumns(t, cs)
    requires forall c :: c in cs ==> c in frequent
    ensures Valid(r) && r.rows == t.rows && r.names == t.names
    ensures forall c :: c in r.cols <==> c in t.cols
    ensures forall c :: c in t.cols && c !in cs ==> r.cols[c] == t.cols[c]
    ensures forall c :: c in cs ==> r.cols[c] == GroupColumn(parse, frequent[c], t.cols[c])
    decreases |cs|
  {
    if |cs| == 0 then t
    else
      var c := cs[0];
      var t' := Replace(t, c, GroupColumn(parse, frequent[c], t.cols[c]));
      GroupColumnIdempotent(parse, frequent[c], t.cols[c]);
      GroupColumns(parse, frequent, t', cs[1..])
  }

  /**
   * `transform`: every configured column is grouped cell by cell; every other
   * column, the column order and the row count are untouched.
   */
  function Transform(parse: Parser, g: Grouper, t: Table): (r: Table)
    requires Valid(t) && HasColumns(t, g.columns)
    requires forall c :: c in g.columns ==> c in g.frequent
    ensures Valid(r) && r.rows == t.rows && r.names == t.names
    ensures forall c :: c in r.cols <==> c in t.cols
    ensures forall c :: c in t.cols && c !in g.columns ==> r.cols[c] == t.cols[c]
    ensures forall c, i :: c in g.columns && 0 <= i < t.rows ==>
      r.cols[c][i] == GroupCell(parse, g.frequent[c], t.cols[c][i])
  {
    GroupColumns(parse, g.frequent, t, g.columns)
  }

  /** Grouping twice is grouping once. */
  lemma TransformIdempotent(parse: Parser, g: Grouper, t: Table)
    requires Valid(t) && HasColumns(t, g.columns)
    requires forall c :: c in g.columns ==> c in g.frequent
    ensures Transform(parse, g, Transform(parse, g, t)) == Transform(parse, g, t)
  {
    var once := Transform(parse, g, t);
    var twice := Transform(parse, g, once);
    forall c | c in g.columns
      ensures twice.cols[c] == once.cols[c]
    {
      GroupColumnIdempotent(parse, g.frequent[c], t.cols[c]);
      assert once.cols[c] == GroupColumn(parse, g.frequent[c], t.cols[c]);
    }
    assert twice.cols == once.cols;
  }
}
