/**
 * MultiLabelBinarizerDF: learns, per list column, the sorted vocabulary of
 * its labels, and replaces the column by one 0/1 indicator column
 * `<col>__<label>` per vocabulary label. The cells are used as they are (no
 * normalisation), so every configured cell must already be a list.
 */
module Binarizer {
  import opened Values
  import opened Tables
  import opened Collation

  /** Learned state: configured columns, the vocabulary (`classes_`) of each, and `output_features_`. */
  datatype Binarizer = Binarizer(columns: seq<string>, classes: map<string, seq<Item>>, features: seq<string>)

  predicate ListColumn(col: seq<Value>)
  {
    forall i :: 0 <= i < |col| ==> col[i].List?
  }

  /** Some cell of the column is a list holding `y`. */
  ghost predicate Seen(col: seq<Value>, y: Item)
  {
    exists i :: 0 <= i < |col| && col[i].List? && y in col[i].items
  }

  /** The labels of a list column, in row order. */
  function Labels(col: seq<Value>): (r: seq<Item>)
    requires ListColumn(col)
    ensures forall y :: y in r <==> Seen(col, y)
  {
    var xss := seq(|col|, i requires 0 <= i < |col| => col[i].items);
    assert forall y :: y in Flatten(xss) <==> Seen(col, y) by {
      forall y
        ensures y in Flatten(xss) <==> Seen(col, y)
      {
        FlattenMember(xss, y);
        assert forall i :: 0 <= i < |col| ==> xss[i] == col[i].items;
      }
    }
    Flatten(xss)
  }

  /** Labels Python can sort: all strings, or all `None` (mixing the two raises `TypeError`). */
  predicate Comparable(xs: seq<Item>)
  {
    (forall x :: x in xs ==> x.Label?) || (forall x :: x in xs ==> x.Null?)
  }

  /** How a label prints inside a column name. */
  function ItemText(y: Item): string
  {
    match y
    case Label(s) => s
    case Null => "None"
  }

  /** `f"{col}__{c}"`. */
  function FeatureName(c: string, y: Item): string
  {
    c + "__" + ItemText(y)
  }

  /** The indicator column names of one column, in vocabulary order. */
  function ColumnFeatures(c: string, vocab: seq<Item>): (r: seq<string>)
    ensures |r| == |vocab|
    ensures forall k :: 0 <= k < |vocab| ==> r[k] == FeatureName(c, vocab[k])
  {
    seq(|vocab|, k requires 0 <= k < |vocab| => FeatureName(c, vocab[k]))
  }

  /** The indicator column names of all configured columns, column after column. */
  function AllFeatures(cs: seq<string>, classes: map<string, seq<Item>>): seq<string>
    requires forall c :: c in cs ==> c in classes
  {
    if |cs| == 0 then [] else ColumnFeatures(cs[0], classes[cs[0]]) + AllFeatures(cs[1..], classes)
  }

  /**
   * `fit`: the vocabulary of each configured column is the strictly
   * increasing sequence of the labels seen in it, and the output features
   * are reset and then list `<col>__<label>` per column in vocabulary order.
   */
  function Fit(columns: seq<string>, t: Table): (r: Binarizer)
    requires HasColumns(t, columns)
    requires forall c :: c in columns ==> ListColumn(t.cols[c]) && Comparable(Labels(t.cols[c]))
    ensures r.columns == columns
    ensures forall c :: c in r.classes <==> c in columns
    ensures forall c :: c in columns ==> StrictlySorted(r.classes[c])
    ensures forall c, y :: c in columns ==>
      (y in r.classes[c] <==> Seen(t.cols[c], y))
    ensures r.features == AllFeatures(columns, r.classes)
  {
    var classes := map c | c in columns :: SortDistinct(Labels(t.cols[c]));
    Binarizer(columns, classes, AllFeatures(columns, classes))
  }

  /** The learned vocabulary is the one strictly increasing sequence of the column's distinct labels. */
  lemma VocabularyIsSortedLabelSet(columns: seq<string>, t: Table, c: string, v: seq<Item>)
    requires HasColumns(t, columns)
    requires forall c :: c in columns ==> ListColumn(t.cols[c]) && Comparable(Labels(t.cols[c]))
    requires c in columns && StrictlySorted(v)
    requires forall y :: y in v <==> Seen(t.cols[c], y)
    ensures Fit(columns, t).classes[c] == v
  {
    SortedUnique(Fit(columns, t).classes[c], v);
  }

  /** `mlb.transform` for one vocabulary label: 1 exactly when the label is in the cell, duplicates or not. */
  function IndicatorColumn(vocab: seq<Item>, k: nat, col: seq<Value>): (r: seq<Value>)
    requires k < |vocab| && ListColumn(col)
    ensures |r| == |col|
    ensures forall i :: 0 <= i < |col| ==>
      (r[i] == Num(1) <==> vocab[k] in col[i].items) && (r[i] == Num(0) <==> vocab[k] !in col[i].items)
  {
    seq(|col|, i requires 0 <= i < |col| => Num(if vocab[k] in col[i].items then 1 else 0))
  }

  /** Indicators see a cell only through which vocabulary labels it holds: unseen labels change nothing. */
  lemma UnseenLabelsIgnored(vocab: seq<Item>, k: nat, col: seq<Value>, col': seq<Value>)
    requires k < |vocab| && ListColumn(col) && ListColumn(col') && |col| == |col'|
    requires forall i, y :: 0 <= i < |col| && y in vocab ==> (y in col[i].items <==> y in col'[i].items)
    ensures IndicatorColumn(vocab, k, col) == IndicatorColumn(vocab, k, col')
  {
    assert vocab[k] in vocab;
  }

  function ColumnIndicators(vocab: seq<Item>, col: seq<Value>): (r: seq<seq<Value>>)
    requires ListColumn(col)
    ensures |r| == |vocab|
    ensures forall k :: 0 <= k < |vocab| ==> r[k] == IndicatorColumn(vocab, k, col)
  {
    seq(|vocab|, k requires 0 <= k < |vocab| => IndicatorColumn(vocab, k, col))
  }

  function AllIndicators(cs: seq<string>, classes: map<string, seq<Item>>, t: Table): (r: seq<seq<Value>>)
    requires Valid(t) && HasColumns(t, cs)
    requires forall c :: c in cs ==> c in classes && ListColumn(t.cols[c])
    ensures |r| == |AllFeatures(cs, classes)|
    ensures forall p :: 0 <= p < |r| ==> |r[p]| == t.rows
  {
    if |cs| == 0 then []
    else ColumnIndicators(classes[cs[0]], t.cols[cs[0]]) + AllIndicators(cs[1..], classes, t)
  }

  /** The name and the indicator column of label `k` of column `c` sit at the same position. */
  lemma {:induction false} FeatureAt(cs: seq<string>, classes: map<string, seq<Item>>, t: Table, c: string, k: nat)
    requires Valid(t) && HasColumns(t, cs)
    requires forall c :: c in cs ==> c in classes && ListColumn(t.cols[c])
    requires c in cs && k < |classes[c]|
    ensures exists p :: (0 <= p < |AllFeatures(cs, classes)|
      && AllFeatures(cs, classes)[p] == FeatureName(c, classes[c][k])
      && AllIndicators(cs, classes, t)[p] == IndicatorColumn(classes[c], k, t.cols[c]))
    decreases |cs|
  {
    var head := ColumnFeatures(cs[0], classes[cs[0]]);
    if c == cs[0] {
      assert AllFeatures(cs, classes)[k] == head[k];
      assert AllIndicators(cs, classes, t)[k] == ColumnIndicators(classes[cs[0]], t.cols[cs[0]])[k];
    } else {
      FeatureAt(cs[1..], classes, t, c, k);
      var p :| 0 <= p < |AllFeatures(cs[1..], classes)|
        && AllFeatures(cs[1..], classes)[p] == FeatureName(c, classes[c][k])
        && AllIndicators(cs[1..], classes, t)[p] == IndicatorColumn(classes[c], k, t.cols[c]);
      assert AllFeatures(cs, classes)[|head| + p] == FeatureName(c, classes[c][k]);
      assert AllIndicators(cs, classes, t)[|head| + p] == IndicatorColumn(classes[c], k, t.cols[c]);
    }
  }

  /** The frame of indicator columns, `encoded_list` concatenated. */
  function Encode(b: Binarizer, t: Table): (r: Table)
    requires Valid(t) && HasColumns(t, b.columns)
    requires forall c :: c in b.columns ==> c in b.classes && ListColumn(t.cols[c])
    requires Distinct(AllFeatures(b.columns, b.classes))
    ensures Valid(r) && r.rows == t.rows && r.names == AllFeatures(b.columns, b.classes)
    ensures forall c, k :: c in b.columns && 0 <= k < |b.classes[c]| ==>
      FeatureName(c, b.classes[c][k]) in r.cols &&
      r.cols[FeatureName(c, b.classes[c][k])] == IndicatorColumn(b.classes[c], k, t.cols[c])
  {
    var r := Build(t.rows, AllFeatures(b.columns, b.classes), AllIndicators(b.columns, b.classes, t));
    assert forall c, k :: c in b.columns && 0 <= k < |b.classes[c]| ==>
      FeatureName(c, b.classes[c][k]) in r.cols &&
      r.cols[FeatureName(c, b.classes[c][k])] == IndicatorColumn(b.classes[c], k, t.cols[c])
    by {
      forall c, k | c in b.columns && 0 <= k < |b.classes[c]| {
        FeatureAt(b.columns, b.classes, t, c, k);
      }
    }
    r
  }

  /**
   * `transform`: the configured columns are dropped, the other columns come
   * first in their order, then one indicator column per vocabulary label of
   * each configured column. The new names depend on the learned vocabulary
   * only, never on the labels met at transform time.
   */
  function Transform(b: Binarizer, t: Table): (r: Table)
    requires Valid(t) && HasColumns(t, b.columns)
    requires forall c :: c in b.columns ==> c in b.classes && ListColumn(t.cols[c])
    requires Distinct(AllFeatures(b.columns, b.classes))
    requires forall f :: f in AllFeatures(b.columns, b.classes) && f in t.cols ==> f in b.columns
    ensures Valid(r) && r.rows == t.rows
    ensures r.names == Without(t.names, b.columns) + AllFeatures(b.columns, b.classes)
    ensures forall c :: c in t.cols && c !in b.columns ==> r.cols[c] == t.cols[c]
    ensures forall c, k :: c in b.columns && 0 <= k < |b.classes[c]| ==>
      FeatureName(c, b.classes[c][k]) in r.cols &&
      r.cols[FeatureName(c, b.classes[c][k])] == IndicatorColumn(b.classes[c], k, t.cols[c])
  {
    var encoded := Encode(b, t);
    var kept := Drop(t, b.columns);
    assert forall c :: c in kept.cols ==> c !in encoded.cols;
    Concat(kept, encoded)
  }

  /** `get_feature_names_out()` after `fit` names exactly the columns `transform` adds. */
  lemma FeatureNamesOutMatchTransform(columns: seq<string>, t: Table, u: Table)
    requires HasColumns(t, columns)
    requires forall c :: c in columns ==> ListColumn(t.cols[c]) && Comparable(Labels(t.cols[c]))
    requires Valid(u) && HasColumns(u, columns)
    requires forall c :: c in columns ==> ListColumn(u.cols[c])
    requires Distinct(Fit(columns, t).features)
    requires forall f :: f in Fit(columns, t).features && f in u.cols ==> f in columns
    ensures Transform(Fit(columns, t), u).names == Without(u.names, columns) + Fit(columns, t).features
  {
  }
}
