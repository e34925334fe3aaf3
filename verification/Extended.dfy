/** Real numbers with the two infinities, the values that bounds of variables, nodes and queues range over. */
module Extended {
  datatype Ext = NegInf | Fin(v: real) | PosInf

  predicate Le(a: Ext, b: Ext) {
    a.NegInf? || b.PosInf? || (a.Fin? && b.Fin? && a.v <= b.v)
  }

  predicate Lt(a: Ext, b: Ext) {
    !Le(b, a)
  }

  function Min(a: Ext, b: Ext): Ext {
    if Le(a, b) then a else b
  }

  function Max(a: Ext, b: Ext): Ext {
    if Le(a, b) then b else a
  }

  lemma {:induction false} LeTransitive(a: Ext, b: Ext, c: Ext)
    requires Le(a, b) && Le(b, c)
    ensures Le(a, c)
  {
  }

  lemma {:induction false} LeReflexive(a: Ext)
    ensures Le(a, a)
  {
  }

  lemma {:induction false} LtLe(a: Ext, b: Ext)
    requires Lt(a, b)
    ensures Le(a, b)
  {
  }

  lemma {:induction false} MinSides(a: Ext, b: Ext)
    ensures Le(Min(a, b), a) && Le(Min(a, b), b) && (Min(a, b) == a || Min(a, b) == b)
  {
  }

  lemma {:induction false} MinTop(a: Ext)
    ensures Min(a, PosInf) == a && Min(PosInf, a) == a
  {
  }

  lemma {:induction false} MinOrder(a: Ext, b: Ext, c: Ext)
    ensures Min(c, Min(a, b)) == Min(a, Min(b, c)) == Min(Min(a, b), c)
  {
  }
}
