/** Linear forms given as term lists, seen column by column. */
module Columns {
  import opened Sums
  import opened ConicModel

  function CoefficientOf(t: Term, j: int): real {
    if t.col == j then t.coef else 0.0
  }

  /** The coefficient of column `j`, duplicates added up. */
  function Coefficient(terms: seq<Term>, j: int): real {
    if terms == [] then 0.0 else CoefficientOf(terms[0], j) + Coefficient(terms[1..], j)
  }

  function ColumnProducts(terms: seq<Term>, x: seq<real>): seq<real> {
    seq(|x|, j requires 0 <= j < |x| => Coefficient(terms, j) * x[j])
  }

  function ColumnUnit(c: int, v: real, x: seq<real>): seq<real> {
    seq(|x|, j requires 0 <= j < |x| => CoefficientOf(Term(c, v), j) * x[j])
  }

  lemma {:induction false} ColumnUnitSum(c: int, v: real, x: seq<real>)
    requires 0 <= c < |x|
    ensures Sum(ColumnUnit(c, v, x)) == v * x[c]
  {
    forall j | 0 <= j < |x| && j != c
      ensures ColumnUnit(c, v, x)[j] == 0.0
    {
      assert CoefficientOf(Term(c, v), j) == 0.0;
    }
    SumUnit(ColumnUnit(c, v, x), c);
    assert CoefficientOf(Term(c, v), c) == v;
    assert ColumnUnit(c, v, x)[c] == v * x[c];
  }

  lemma {:induction false} ColumnProductsStep(terms: seq<Term>, x: seq<real>, j: int)
    requires terms != [] && 0 <= j < |x|
    ensures ColumnProducts(terms, x)[j] == ColumnUnit(terms[0].col, terms[0].coef, x)[j] + ColumnProducts(terms[1..], x)[j]
  {
    var p, q := CoefficientOf(terms[0], j), Coefficient(terms[1..], j);
    assert (p + q) * x[j] == p * x[j] + q * x[j];
  }

  /** A linear form only depends on the summed coefficients of its columns. */
  lemma {:induction false} DotByColumns(terms: seq<Term>, x: seq<real>)
    requires TermsBelow(terms, |x|)
    ensures Dot(terms, x) == Sum(ColumnProducts(terms, x))
  {
    if terms == [] {
      SumScale(ColumnProducts(terms, x), ColumnProducts(terms, x), 0.0);
    } else {
      hide Coefficient, CoefficientOf, Sum;
      var unit := ColumnUnit(terms[0].col, terms[0].coef, x);
      DotByColumns(terms[1..], x);
      ColumnUnitSum(terms[0].col, terms[0].coef, x);
      forall j | 0 <= j < |x|
        ensures ColumnProducts(terms, x)[j] == unit[j] + ColumnProducts(terms[1..], x)[j]
      {
        ColumnProductsStep(terms, x, j);
      }
      SumAdd(unit, ColumnProducts(terms[1..], x), ColumnProducts(terms, x));
    }
  }
}
