/**
 * The order Python's `sorted` uses on labels (code-point lexicographic order
 * on strings) and `sorted(set(xs))` as insertion into a strictly increasing
 * sequence.
 */
module Collation {
  import opened Values

  /** Lexicographic order on strings by character code; a proper prefix comes first. */
  predicate StrLt(a: string, b: string)
    decreases |a|
  {
    if |a| == 0 then |b| > 0
    else if |b| == 0 then false
    else a[0] < b[0] || (a[0] == b[0] && StrLt(a[1..], b[1..]))
  }

  lemma {:induction false} StrLtIrreflexive(a: string)
    ensures !StrLt(a, a)
    decreases |a|
  {
    if |a| > 0 {
      StrLtIrreflexive(a[1..]);
    }
  }

  lemma {:induction false} StrLtTransitive(a: string, b: string, c: string)
    requires StrLt(a, b) && StrLt(b, c)
    ensures StrLt(a, c)
    decreases |a|
  {
    if |a| > 0 && a[0] == b[0] && b[0] == c[0] {
      StrLtTransitive(a[1..], b[1..], c[1..]);
    }
  }

  lemma {:induction false} StrLtTotal(a: string, b: string)
    ensures a == b || StrLt(a, b) || StrLt(b, a)
    decreases |a|
  {
    if |a| > 0 && |b| > 0 && a[0] == b[0] {
      StrLtTotal(a[1..], b[1..]);
      if a[1..] == b[1..] {
        assert a == [a[0]] + a[1..] && b == [b[0]] + b[1..];
      }
    }
  }

  /**
   * Order on list elements. Python cannot compare `None` with a string; the
   * stages that sort forbid mixing the two, and here `None` comes first.
   */
  predicate ItemLt(a: Item, b: Item)
  {
    match (a, b)
    case (Label(x), Label(y)) => StrLt(x, y)
    case (Null, Label(_)) => true
    case _ => false
  }

  lemma ItemLtIrreflexive(a: Item)
    ensures !ItemLt(a, a)
  {
    if a.Label? {
      StrLtIrreflexive(a.name);
    }
  }

  lemma ItemLtTransitive(a: Item, b: Item, c: Item)
    requires ItemLt(a, b) && ItemLt(b, c)
    ensures ItemLt(a, c)
  {
    if a.Label? {
      StrLtTransitive(a.name, b.name, c.name);
    }
  }

  lemma ItemLtTotal(a: Item, b: Item)
    ensures a == b || ItemLt(a, b) || ItemLt(b, a)
  {
    if a.Label? && b.Label? {
      StrLtTotal(a.name, b.name);
    }
  }

  predicate StrictlySorted(s: seq<Item>)
  {
    forall i, j :: 0 <= i < j < |s| ==> ItemLt(s[i], s[j])
  }

  /** Adds `x` to a strictly increasing sequence, keeping it strictly increasing. */
  function Insert(x: Item, s: seq<Item>): (r: seq<Item>)
    requires StrictlySorted(s)
    ensures StrictlySorted(r)
    ensures forall y :: y in r <==> y == x || y in s
  {
    if |s| == 0 then [x]
    else if x == s[0] then s
    else if ItemLt(x, s[0]) then
      assert forall j :: 0 < j < |s| ==> ItemLt(x, s[j]) by {
        forall j | 0 < j < |s| {
          ItemLtTransitive(x, s[0], s[j]);
        }
      }
      [x] + s
    else
      var rest := Insert(x, s[1..]);
      ItemLtTotal(x, s[0]);
      assert forall y :: y in rest ==> ItemLt(s[0], y);
      [s[0]] + rest
  }

  /** `sorted(set(xs))`: the distinct elements of `xs` in strictly increasing order. */
  function SortDistinct(xs: seq<Item>): (r: seq<Item>)
    ensures StrictlySorted(r)
    ensures forall y :: y in r <==> y in xs
  {
    if |xs| == 0 then [] else Insert(xs[0], SortDistinct(xs[1..]))
  }

  /** The first element of a strictly increasing sequence is below all the others. */
  lemma HeadIsLeast(s: seq<Item>, y: Item)
    requires StrictlySorted(s) && y in s
    ensures y == s[0] || ItemLt(s[0], y)
  {
  }

  lemma NoMembersIsEmpty(s: seq<Item>)
    ensures (forall y :: y !in s) ==> s == []
  {
    if |s| > 0 {
      assert s[0] in s;
    }
  }

  /** A strictly increasing sequence is determined by its elements. */
  lemma {:induction false} SortedUnique(a: seq<Item>, b: seq<Item>)
    requires StrictlySorted(a) && StrictlySorted(b)
    requires forall y :: y in a <==> y in b
    ensures a == b
    decreases |a|
  {
    if |a| == 0 {
      NoMembersIsEmpty(b);
    } else if |b| == 0 {
      NoMembersIsEmpty(a);
    } else {
      HeadIsLeast(a, b[0]);
      HeadIsLeast(b, a[0]);
      if ItemLt(a[0], b[0]) && ItemLt(b[0], a[0]) {
        ItemLtTransitive(a[0], b[0], a[0]);
        ItemLtIrreflexive(a[0]);
      }
      assert a[0] == b[0];
      assert a == [a[0]] + a[1..] && b == [b[0]] + b[1..];
      forall y
        ensures y in a[1..] <==> y in b[1..]
      {
        ItemLtIrreflexive(a[0]);
        if y in a[1..] {
          var k :| 0 <= k < |a[1..]| && a[1..][k] == y;
          assert ItemLt(a[0], a[k + 1]);
          assert y in b && y != b[0];
        }
        if y in b[1..] {
          var k :| 0 <= k < |b[1..]| && b[1..][k] == y;
          assert ItemLt(b[0], b[k + 1]);
          assert y in a && y != a[0];
        }
      }
      SortedUnique(a[1..], b[1..]);
    }
  }
}
