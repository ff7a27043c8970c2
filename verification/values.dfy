/**
 * Cell values of a feature table, and the list-cell normalisation that every
 * list-column stage applies before it aggregates anything.
 */
module Values {

  datatype Option<+T> = None | Some(value: T)

  /** One element of a list-valued cell: a category label, or Python's `None`. */
  datatype Item = Label(name: string) | Null

  /**
   * A table cell. `Text` is a string that has not been parsed yet; `Opaque`
   * stands for any other object that is neither a list, a string, a number
   * nor a missing marker.
   */
  datatype Value =
    | List(items: seq<Item>)
    | Missing
    | Text(text: string)
    | Num(n: int)
    | Opaque

  /**
   * Evaluation of a string as a literal list of labels; `None` when the text
   * is not a well-formed literal (the evaluation raises).
   */
  type Parser = string -> Option<seq<Item>>

  /** How many times `y` occurs in `xs`. */
  function Count(xs: seq<Item>, y: Item): nat
  {
    multiset(xs)[y]
  }

  /**
   * `_ensure_list`: the labels of a cell. A list is returned as it is; a
   * missing marker, a non-string scalar and an unparsable string all degrade
   * to the empty list, so normalisation never fails.
   */
  function EnsureList(parse: Parser, v: Value): (r: seq<Item>)
    ensures v.List? ==> r == v.items
    ensures r != [] ==> v.List? || (v.Text? && parse(v.text) == Some(r))
    ensures v.Text? && parse(v.text).Some? ==> r == parse(v.text).value
  {
    match v
    case List(xs) => xs
    case Missing => []
    case Text(s) => (match parse(s) case Some(xs) => xs case None => [])
    case Num(_) => []
    case Opaque => []
  }

  /** Every cell of a column, normalised. */
  function NormalizeColumn(parse: Parser, col: seq<Value>): (r: seq<seq<Item>>)
    ensures |r| == |col|
    ensures forall i :: 0 <= i < |col| ==> r[i] == EnsureList(parse, col[i])
  {
    seq(|col|, i requires 0 <= i < |col| => EnsureList(parse, col[i]))
  }

  /** Concatenation of a sequence of lists, as repeated `extend`. */
  function Flatten<T>(xss: seq<seq<T>>): seq<T>
  {
    if |xss| == 0 then [] else xss[0] + Flatten(xss[1..])
  }

  /** The labels of a whole column, in row order (`all_items` in `fit`). */
  function AllItems(parse: Parser, col: seq<Value>): seq<Item>
  {
    Flatten(NormalizeColumn(parse, col))
  }

  lemma {:induction false} FlattenMember<T>(xss: seq<seq<T>>, y: T)
    ensures y in Flatten(xss) <==> exists i :: 0 <= i < |xss| && y in xss[i]
    decreases |xss|
  {
    if |xss| > 0 {
      FlattenMember(xss[1..], y);
      if y in Flatten(xss[1..]) {
        var i :| 0 <= i < |xss[1..]| && y in xss[1..][i];
        assert y in xss[i + 1];
      }
      if exists i :: 0 <= i < |xss| && y in xss[i] {
        var i :| 0 <= i < |xss| && y in xss[i];
        if i > 0 {
          assert y in xss[1..][i - 1];
        }
      }
    }
  }

  lemma {:induction false} FlattenEmpty<T>(xss: seq<seq<T>>)
    ensures Flatten(xss) == [] <==> forall i :: 0 <= i < |xss| ==> xss[i] == []
    decreases |xss|
  {
    if |xss| > 0 {
      FlattenEmpty(xss[1..]);
      if forall i :: 0 <= i < |xss[1..]| ==> xss[1..][i] == [] {
        assert forall i :: 1 <= i < |xss| ==> xss[i] == xss[1..][i - 1];
      }
    }
  }

  /** The labels of a column are the first cell's labels followed by the rest's. */
  lemma AllItemsCons(parse: Parser, col: seq<Value>)
    requires |col| > 0
    ensures AllItems(parse, col) == EnsureList(parse, col[0]) + AllItems(parse, col[1..])
  {
    assert NormalizeColumn(parse, col)[1..] == NormalizeColumn(parse, col[1..]);
  }

  /**
   * A column has no labels at all exactly when every one of its cells
   * normalises to the empty list.
   */
  lemma AllItemsEmpty(parse: Parser, col: seq<Value>)
    ensures AllItems(parse, col) == [] <==> forall i :: 0 <= i < |col| ==> EnsureList(parse, col[i]) == []
  {
    FlattenEmpty(NormalizeColumn(parse, col));
  }

  /** A label occurs in a column exactly when it occurs in one of its normalised cells. */
  lemma AllItemsMember(parse: Parser, col: seq<Value>, y: Item)
    ensures y in AllItems(parse, col) <==> exists i :: 0 <= i < |col| && y in EnsureList(parse, col[i])
  {
    var xss := NormalizeColumn(parse, col);
    FlattenMember(xss, y);
    if exists i :: 0 <= i < |xss| && y in xss[i] {
      var i :| 0 <= i < |xss| && y in xss[i];
      assert y in EnsureList(parse, col[i]);
    }
  }
}
