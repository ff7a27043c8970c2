/**
 * A table: an ordered list of distinct column names, each naming a column of
 * cells, all columns of the same length. The column operations are the pandas
 * ones the stages rely on: in-place column replacement, dropping columns,
 * building a frame from named columns and concatenating frames side by side.
 */
module Tables {
  import opened Values

  datatype Table = Table(rows: nat, names: seq<string>, cols: map<string, seq<Value>>)

  predicate Distinct<T(==)>(s: seq<T>)
  {
    forall i, j :: 0 <= i < j < |s| ==> s[i] != s[j]
  }

  lemma DistinctSplit<T>(a: seq<T>, b: seq<T>)
    requires Distinct(a + b)
    ensures Distinct(a) && Distinct(b)
  {
    assert forall i :: 0 <= i < |a| ==> (a + b)[i] == a[i];
    assert forall i :: 0 <= i < |b| ==> (a + b)[|a| + i] == b[i];
  }

  /** The names are distinct and in one-to-one correspondence with the columns. */
  ghost predicate Valid(t: Table)
  {
    && Distinct(t.names)
    && (forall c :: c in t.cols <==> c in t.names)
    && (forall c :: c in t.cols ==> |t.cols[c]| == t.rows)
  }

  /** Every name of `cs` is a column of `t` (otherwise pandas raises `KeyError`). */
  predicate HasColumns(t: Table, cs: seq<string>)
  {
    forall c :: c in cs ==> c in t.cols
  }

  /** `X[c] = col` for a column that exists: the column keeps its position. */
  function Replace(t: Table, c: string, col: seq<Value>): (r: Table)
    requires Valid(t) && c in t.cols && |col| == t.rows
    ensures Valid(r) && r.rows == t.rows && r.names == t.names
    ensures r.cols == t.cols[c := col]
  {
    t.(cols := t.cols[c := col])
  }

  /** The names of `names` that are not in `cs`, in their original order. */
  function Without(names: seq<string>, cs: seq<string>): (r: seq<string>)
    ensures forall c :: c in r <==> c in names && c !in cs
    ensures Distinct(names) ==> Distinct(r)
  {
    if |names| == 0 then []
    else if names[0] in cs then Without(names[1..], cs)
    else
      var rest := Without(names[1..], cs);
      assert Distinct(names) ==> names[0] !in names[1..];
      [names[0]] + rest
  }

  /** `X.drop(columns=cs)`. */
  function Drop(t: Table, cs: seq<string>): (r: Table)
    requires Valid(t) && HasColumns(t, cs)
    ensures Valid(r) && r.rows == t.rows
    ensures r.names == Without(t.names, cs)
    ensures forall c :: c in r.cols <==> c in t.cols && c !in cs
    ensures forall c :: c in r.cols ==> r.cols[c] == t.cols[c]
  {
    Table(t.rows, Without(t.names, cs), map c | c in t.cols && c !in cs :: t.cols[c])
  }

  /** A frame whose columns are `cols`, named by `names`, in that order. */
  function Build(rows: nat, names: seq<string>, cols: seq<seq<Value>>): (r: Table)
    requires |names| == |cols| && Distinct(names)
    requires forall i :: 0 <= i < |cols| ==> |cols[i]| == rows
    ensures Valid(r) && r.rows == rows && r.names == names
    ensures forall i :: 0 <= i < |names| ==> r.cols[names[i]] == cols[i]
  {
    Table(rows, names, map i | 0 <= i < |names| :: names[i] := cols[i])
  }

  /** The position of the first occurrence of `x` in `s`. */
  function FirstPosition(s: seq<string>, x: string): (k: nat)
    requires x in s
    ensures k < |s| && s[k] == x
    ensures forall p :: 0 <= p < k ==> s[p] != x
  {
    if s[0] == x then 0
    else
      var k := 1 + FirstPosition(s[1..], x);
      assert forall p :: 1 <= p < |s| ==> s[p] == s[1..][p - 1];
      k
  }

  /** Appending elements does not move a first occurrence. */
  lemma FirstPositionAppend(a: seq<string>, b: seq<string>, x: string)
    requires x in a
    ensures x in a + b && FirstPosition(a + b, x) == FirstPosition(a, x)
  {
    var i, k := FirstPosition(a, x), FirstPosition(a + b, x);
    assert (a + b)[i] == x;
    assert k <= i;
    assert a[k] == x;
  }

  /**
   * The elements of `s` in order of first occurrence: the key order of a
   * dict whose keys are assigned in the order of `s`.
   */
  function Dedup(s: seq<string>): (r: seq<string>)
    ensures Distinct(r)
    ensures forall x :: x in r <==> x in s
    decreases |s|
  {
    if |s| == 0 then []
    else
      var init, x := s[..|s| - 1], s[|s| - 1];
      assert s == init + [x];
      var d := Dedup(init);
      if x in d then d else d + [x]
  }

  /** `Dedup` lists the elements in the order of their first occurrences. */
  lemma {:induction false} DedupFirstOccurrenceOrder(s: seq<string>)
    ensures forall i, j :: 0 <= i < j < |Dedup(s)| ==> FirstPosition(s, Dedup(s)[i]) < FirstPosition(s, Dedup(s)[j])
    decreases |s|
  {
    if |s| > 0 {
      var init, x := s[..|s| - 1], s[|s| - 1];
      assert s == init + [x];
      var d := Dedup(init);
      DedupFirstOccurrenceOrder(init);
      forall y | y in init
        ensures FirstPosition(s, y) == FirstPosition(init, y)
      {
        FirstPositionAppend(init, [x], y);
      }
      if x !in d {
        assert Dedup(s) == d + [x];
        assert forall i :: 0 <= i < |d| ==> d[i] in init && FirstPosition(s, d[i]) < |init|;
        assert FirstPosition(s, x) == |init|;
      }
    }
  }

  /** A sequence without repetition is its own first-occurrence order. */
  lemma {:induction false} DedupDistinct(s: seq<string>)
    requires Distinct(s)
    ensures Dedup(s) == s
    decreases |s|
  {
    if |s| > 0 {
      var init, x := s[..|s| - 1], s[|s| - 1];
      assert s == init + [x];
      DistinctSplit(init, [x]);
      DedupDistinct(init);
      assert x !in init by {
        assert forall i :: 0 <= i < |init| ==> init[i] == s[i];
      }
    }
  }

  /** The position of the last occurrence of `x` in `s`. */
  function LastIndex(s: seq<string>, x: string): (j: nat)
    requires x in s
    ensures j < |s| && s[j] == x
    ensures forall k :: j < k < |s| ==> s[k] != x
    decreases |s|
  {
    var n := |s| - 1;
    if s[n] == x then n
    else
      assert s == s[..n] + [s[n]];
      LastIndex(s[..n], x)
  }

  /** In a sequence without repetition, the last occurrence of an element is its only one. */
  lemma LastIndexDistinct(s: seq<string>, i: nat)
    requires Distinct(s) && i < |s|
    ensures LastIndex(s, s[i]) == i
  {
    var j := LastIndex(s, s[i]);
    assert !(i < j) && !(j < i);
  }

  /** Before the last position, the last occurrence of an element other than the final one is unchanged. */
  lemma LastIndexInit(s: seq<string>, x: string)
    requires x in s && x != s[|s| - 1]
    ensures x in s[..|s| - 1] && LastIndex(s, x) == LastIndex(s[..|s| - 1], x)
  {
    assert s == s[..|s| - 1] + [s[|s| - 1]];
  }

  /** `out[k] = col` on a dict: a new key goes last, an old key keeps its place and gets the new column. */
  function Assign(t: Table, k: string, col: seq<Value>): (r: Table)
    requires Valid(t) && |col| == t.rows
    ensures Valid(r) && r.rows == t.rows
    ensures r.names == if k in t.cols then t.names else t.names + [k]
    ensures r.cols == t.cols[k := col]
  {
    Table(t.rows, if k in t.cols then t.names else t.names + [k], t.cols[k := col])
  }

  /**
   * `pd.DataFrame(out)` for a dict `out` filled by `out[keys[i]] = cols[i]`
   * in order: a repeated key keeps the position of its first assignment and
   * the column of its last.
   */
  function FromDict(rows: nat, keys: seq<string>, cols: seq<seq<Value>>): (r: Table)
    requires |keys| == |cols|
    requires forall i :: 0 <= i < |cols| ==> |cols[i]| == rows
    ensures Valid(r) && r.rows == rows && r.names == Dedup(keys)
    ensures forall i :: 0 <= i < |keys| ==> keys[i] in r.cols && r.cols[keys[i]] == cols[LastIndex(keys, keys[i])]
    decreases |keys|
  {
    if |keys| == 0 then Table(rows, [], map[])
    else
      var n := |keys| - 1;
      var t := FromDict(rows, keys[..n], cols[..n]);
      var r := Assign(t, keys[n], cols[n]);
      assert forall i :: 0 <= i < |keys| ==> keys[i] in r.cols && r.cols[keys[i]] == cols[LastIndex(keys, keys[i])] by {
        forall i | 0 <= i < |keys|
          ensures keys[i] in r.cols && r.cols[keys[i]] == cols[LastIndex(keys, keys[i])]
        {
          if keys[i] != keys[n] {
            LastIndexInit(keys, keys[i]);
            assert keys[..n][i] == keys[i];
          }
        }
      }
      r
  }

  /** Column maps with the same names and the same column under each name are equal. */
  lemma SameColumns(m1: map<string, seq<Value>>, m2: map<string, seq<Value>>)
    requires forall c :: c in m1 ==> c in m2 && m1[c] == m2[c]
    requires forall c :: c in m2 ==> c in m1
    ensures m1 == m2
  {
  }

  /** Filled from distinct keys, the dict's frame is the frame built from the same names and columns. */
  lemma FromDictDistinct(rows: nat, keys: seq<string>, cols: seq<seq<Value>>)
    requires |keys| == |cols| && Distinct(keys)
    requires forall i :: 0 <= i < |cols| ==> |cols[i]| == rows
    ensures FromDict(rows, keys, cols) == Build(rows, keys, cols)
  {
    var a, b := FromDict(rows, keys, cols), Build(rows, keys, cols);
    DedupDistinct(keys);
    assert a.names == b.names;
    FromDictDistinctColumns(rows, keys, cols);
  }

  /** The column maps of the two frames in `FromDictDistinct` agree. */
  lemma FromDictDistinctColumns(rows: nat, keys: seq<string>, cols: seq<seq<Value>>)
    requires |keys| == |cols| && Distinct(keys)
    requires forall i :: 0 <= i < |cols| ==> |cols[i]| == rows
    ensures FromDict(rows, keys, cols).cols == Build(rows, keys, cols).cols
  {
    var a, b := FromDict(rows, keys, cols), Build(rows, keys, cols);
    forall c | c in a.cols
      ensures c in b.cols && a.cols[c] == b.cols[c]
    {
      var i :| 0 <= i < |keys| && keys[i] == c;
      LastIndexDistinct(keys, i);
    }
    assert forall c :: c in b.cols ==> c in a.cols;
    SameColumns(a.cols, b.cols);
  }

  /** Building from two name lists is building from each and concatenating. */
  lemma BuildAppend(rows: nat, n1: seq<string>, c1: seq<seq<Value>>, n2: seq<string>, c2: seq<seq<Value>>)
    requires |n1| == |c1| && |n2| == |c2| && Distinct(n1 + n2)
    requires forall i :: 0 <= i < |c1| ==> |c1[i]| == rows
    requires forall i :: 0 <= i < |c2| ==> |c2[i]| == rows
    ensures Distinct(n1) && Distinct(n2) && forall c :: c in n1 ==> c !in n2
    ensures Build(rows, n1 + n2, c1 + c2) == Concat(Build(rows, n1, c1), Build(rows, n2, c2))
  {
    DistinctSplit(n1, n2);
    var a, b := Build(rows, n1, c1), Build(rows, n2, c2);
    DistinctNamesDisjoint(a, b);
    BuildAppendColumns(rows, n1, c1, n2, c2);
  }

  /** The column maps of the two frames in `BuildAppend` agree. */
  lemma BuildAppendColumns(rows: nat, n1: seq<string>, c1: seq<seq<Value>>, n2: seq<string>, c2: seq<seq<Value>>)
    requires |n1| == |c1| && |n2| == |c2| && Distinct(n1 + n2) && Distinct(n1) && Distinct(n2)
    requires forall c :: c in n1 ==> c !in n2
    requires forall i :: 0 <= i < |c1| ==> |c1[i]| == rows
    requires forall i :: 0 <= i < |c2| ==> |c2[i]| == rows
    ensures Build(rows, n1 + n2, c1 + c2).cols == Concat(Build(rows, n1, c1), Build(rows, n2, c2)).cols
  {
    var a, b := Build(rows, n1, c1), Build(rows, n2, c2);
    var l, r := Build(rows, n1 + n2, c1 + c2), Concat(a, b);
    forall c | c in l.cols
      ensures c in r.cols && l.cols[c] == r.cols[c]
    {
      var i :| 0 <= i < |n1 + n2| && (n1 + n2)[i] == c;
      assert l.cols[c] == (c1 + c2)[i];
      if i < |n1| {
        assert c == n1[i] && (c1 + c2)[i] == c1[i];
        assert a.cols[c] == c1[i];
      } else {
        assert c == n2[i - |n1|] && (c1 + c2)[i] == c2[i - |n1|];
        assert b.cols[c] == c2[i - |n1|];
      }
    }
    assert forall c :: c in r.cols ==> c in l.cols;
    SameColumns(l.cols, r.cols);
  }

  /** Frames whose joint name list has no repetition share no column. */
  lemma DistinctNamesDisjoint(a: Table, b: Table)
    requires Valid(a) && Valid(b) && Distinct(a.names + b.names)
    ensures forall c :: c in a.cols ==> c !in b.cols
  {
    forall i, j | 0 <= i < |a.names| && 0 <= j < |b.names|
      ensures a.names[i] != b.names[j]
    {
      assert (a.names + b.names)[i] == a.names[i];
      assert (a.names + b.names)[|a.names| + j] == b.names[j];
    }
  }

  /** `pd.concat([a, b], axis=1)` for frames with disjoint column names. */
  function Concat(a: Table, b: Table): (r: Table)
    requires Valid(a) && Valid(b) && a.rows == b.rows
    requires forall c :: c in a.cols ==> c !in b.cols
    ensures Valid(r) && r.rows == a.rows && r.names == a.names + b.names
    ensures forall c :: c in r.cols <==> c in a.cols || c in b.cols
    ensures forall c :: c in a.cols ==> r.cols[c] == a.cols[c]
    ensures forall c :: c in b.cols ==> r.cols[c] == b.cols[c]
  {
    var r := Table(a.rows, a.names + b.names, a.cols + b.cols);
    assert Distinct(r.names) by {
      forall i, j | 0 <= i < j < |r.names|
        ensures r.names[i] != r.names[j]
      {
        if j >= |a.names| && i < |a.names| {
          assert r.names[i] in a.cols && r.names[j] in b.cols;
        }
      }
    }
    r
  }
}
