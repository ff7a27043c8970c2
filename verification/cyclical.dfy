/**
 * CyclicalMonthEncoder, names only: `fit` records, for every configured
 * month column, the names of the sine and cosine columns `transform` makes
 * from it.
 */
module CyclicalMonth {
  function SinName(c: string): string
  {
    c + "_sin"
  }

  function CosName(c: string): string
  {
    c + "_cos"
  }

  /**
   * `fit`: `generated_features_` is reset, then holds `<col>_sin` and
   * `<col>_cos` for each configured column, in column order.
   */
  function GeneratedFeatures(columns: seq<string>): (r: seq<string>)
    ensures |r| == 2 * |columns|
    ensures forall i :: 0 <= i < |columns| ==> r[2 * i] == SinName(columns[i]) && r[2 * i + 1] == CosName(columns[i])
    decreases |columns|
  {
    if |columns| == 0 then []
    else
      var rest := GeneratedFeatures(columns[1..]);
      assert forall i :: 1 <= i < |columns| ==> columns[i] == columns[1..][i - 1];
      [SinName(columns[0]), CosName(columns[0])] + rest
  }

  /** Every generated name comes from a configured column, as its sine or its cosine. */
  lemma {:induction false} GeneratedFromColumns(columns: seq<string>, f: string)
    requires f in GeneratedFeatures(columns)
    ensures exists i :: 0 <= i < |columns| && (f == SinName(columns[i]) || f == CosName(columns[i]))
    decreases |columns|
  {
    var head := columns[0];
    if f != SinName(head) && f != CosName(head) {
      assert GeneratedFeatures(columns) == [SinName(head), CosName(head)] + GeneratedFeatures(columns[1..]);
      GeneratedFromColumns(columns[1..], f);
      var i :| 0 <= i < |columns[1..]| && (f == SinName(columns[1..][i]) || f == CosName(columns[1..][i]));
      assert columns[1..][i] == columns[i + 1];
    }
  }

  /** Fitting on more columns extends the names of the earlier ones. */
  lemma GeneratedAppend(a: seq<string>, b: seq<string>)
    ensures GeneratedFeatures(a + b) == GeneratedFeatures(a) + GeneratedFeatures(b)
  {
    var l, r := GeneratedFeatures(a + b), GeneratedFeatures(a) + GeneratedFeatures(b);
    forall p | 0 <= p < |l|
      ensures l[p] == r[p]
    {
      if p < 2 * |a| {
        assert (a + b)[p / 2] == a[p / 2];
      } else {
        assert (a + b)[p / 2] == b[p / 2 - |a|];
        assert p - 2 * |a| == 2 * (p / 2 - |a|) + p % 2;
      }
    }
  }
}
