/**
 * Reordering the columns so that the cones become consecutive trailing blocks, and carrying the linear and
 * quadratic objective along.
 */
module SocPermute {
  import opened Extended
  import opened Sums
  import opened ConicModel
  import opened SocClassify
  import opened SocGeneral
  import opened SocPasses

  predicate AllCones(cons: seq<Con>) {
    forall i | 0 <= i < |cons| :: cons[i].Cone? && cons[i].vars != []
  }

  /** All cone members, cone after cone. */
  function Flatten(cons: seq<Con>): seq<int> {
    if cons == [] then []
    else Flatten(cons[..|cons| - 1]) + if cons[|cons| - 1].Cone? then cons[|cons| - 1].vars else []
  }

  function DimsOf(cons: seq<Con>): seq<nat> {
    seq(|cons|, i requires 0 <= i < |cons| => ConDim(cons[i]))
  }

  function ConDim(c: Con): nat {
    match c
    case Quadratic(_) => 0
    case PendingAffine(_, tails, _, _) => |tails| + 2
    case HalfHead(_, tails) => |tails| + 2
    case TwoHeads(_, _, tails, _) => |tails| + 2
    case Cone(vars) => |vars|
  }

  /** First column of block `k` when the blocks start at `start`. */
  function BlockStart(start: int, dims: seq<nat>, k: nat): int
    requires k <= |dims|
  {
    if k == 0 then start else BlockStart(start, dims, k - 1) + dims[k - 1]
  }

  function Block(start: int, dims: seq<nat>, k: nat): seq<int>
    requires k < |dims|
  {
    seq(dims[k], i => BlockStart(start, dims, k) + i)
  }

  /** Two lists that name each other's positions: `forward[j]` is the place of column `j` in `back`. */
  predicate Inverses(forward: seq<int>, back: seq<int>, n: nat) {
    && |forward| == |back| == n
    && (forall j | 0 <= j < n :: 0 <= forward[j] < n && back[forward[j]] == j)
    && (forall k | 0 <= k < n :: 0 <= back[k] < n && forward[back[k]] == k)
  }

  lemma {:induction false} InversesPermutation(forward: seq<int>, back: seq<int>, n: nat)
    requires Inverses(forward, back, n)
    ensures IsPermutation(forward, n) && IsPermutation(back, n)
  {
    forall j, k | 0 <= j < k < n
      ensures forward[j] != forward[k] && back[j] != back[k]
    {
      assert back[forward[j]] == j && back[forward[k]] == k;
      assert forward[back[j]] == j && forward[back[k]] == k;
    }
  }

  lemma {:induction false} NumberedAt(back: seq<int>, forward: seq<int>, j: int)
    requires Numbering(back, forward) && j in back
    ensures 0 <= j < |forward| && 0 <= forward[j] < |back| && back[forward[j]] == j
  {
    var k :| 0 <= k < |back| && back[k] == j;
    assert forward[back[k]] == k;
  }

  /** A numbering that reaches every column is a bijection. */
  lemma {:induction false} NumberingTotal(back: seq<int>, forward: seq<int>)
    requires Numbering(back, forward)
    requires forall j | 0 <= j < |forward| :: j in back
    ensures Inverses(forward, back, |forward|)
  {
    var n := |forward|;
    NumberingInjective(back, forward);
    InjectiveCardinality(back);
    var image := set v | v in back;
    forall v
      ensures v in image <==> 0 <= v < n
    {
      if v in image { NumberedAt(back, forward, v); }
    }
    assert image == Interval(n);
    forall j | 0 <= j < n
      ensures 0 <= forward[j] < |back| && back[forward[j]] == j
    {
      NumberedAt(back, forward, j);
    }
  }

  // ---------------------------------------------------------------- permuted model

  function PermuteTerms(terms: seq<Term>, forward: seq<int>): seq<Term> {
    seq(|terms|, k requires 0 <= k < |terms| =>
      Term(if 0 <= terms[k].col < |forward| then forward[terms[k].col] else terms[k].col, terms[k].coef))
  }

  function PermuteRows(rows: seq<Row>, forward: seq<int>): seq<Row> {
    seq(|rows|, i requires 0 <= i < |rows| => rows[i].(terms := PermuteTerms(rows[i].terms, forward)))
  }

  lemma {:induction false} PermuteTermsDot(terms: seq<Term>, forward: seq<int>, z: seq<real>)
    requires TermsBelow(terms, |forward|) && forall j | 0 <= j < |forward| :: 0 <= forward[j] < |z|
    ensures Dot(PermuteTerms(terms, forward), z) == Dot(terms, Gather(z, forward))
  {
    if terms != [] {
      PermuteTermsDot(terms[1..], forward, z);
      assert PermuteTerms(terms, forward)[1..] == PermuteTerms(terms[1..], forward);
      assert At(Gather(z, forward), terms[0].col) == At(z, forward[terms[0].col]);
    }
  }

  /** Feasible points of a model whose cones are the blocks of sizes `dims` from column `start` on. */
  ghost predicate BlockFeasible(m: Model, start: int, dims: seq<nat>, z: seq<real>) {
    LinearOk(m, z) && forall k | 0 <= k < |dims| :: InCone(Block(start, dims, k), z)
  }

  /** `p` is `m` with column j moved to `forward[j]`. */
  ghost predicate Permutes(m: Model, p: Model, forward: seq<int>, back: seq<int>) {
    && Inverses(forward, back, m.n)
    && p.n == m.n && |p.obj| == |p.lower| == |p.upper| == m.n
    && |m.obj| == |m.lower| == |m.upper| == m.n
    && p.rows == PermuteRows(m.rows, forward)
    && forall j | 0 <= j < m.n ::
         p.obj[forward[j]] == m.obj[j] && p.lower[forward[j]] == m.lower[j] && p.upper[forward[j]] == m.upper[j]
  }

  lemma {:induction false} PermutedWellFormed(m: Model, p: Model, forward: seq<int>, back: seq<int>)
    requires WellFormed(m) && Permutes(m, p, forward, back)
    ensures WellFormed(p)
  {
    forall i | 0 <= i < |p.rows|
      ensures TermsBelow(p.rows[i].terms, p.n)
    {
      assert TermsBelow(m.rows[i].terms, m.n);
    }
  }

  lemma {:induction false} PermutedLinear(m: Model, p: Model, forward: seq<int>, back: seq<int>, z: seq<real>)
    requires WellFormed(m) && Permutes(m, p, forward, back) && |z| == m.n
    ensures LinearOk(p, z) <==> LinearOk(m, Gather(z, forward))
  {
    var x := Gather(z, forward);
    forall i | 0 <= i < |m.rows|
      ensures RowSat(p.rows[i], z) <==> RowSat(m.rows[i], x)
    {
      PermuteTermsDot(m.rows[i].terms, forward, z);
    }
    forall j | 0 <= j < m.n
      ensures At(x, j) == At(z, forward[j])
    {
    }
    if BoundsOk(m, x) {
      forall k | 0 <= k < m.n ensures Le(p.lower[k], Fin(At(z, k))) && Le(Fin(At(z, k)), p.upper[k]) {
        var j := back[k];
        assert forward[j] == k;
        assert Le(m.lower[j], Fin(At(x, j))) && Le(Fin(At(x, j)), m.upper[j]);
      }
    }
    if BoundsOk(p, z) {
      forall j | 0 <= j < m.n ensures Le(m.lower[j], Fin(At(x, j))) && Le(Fin(At(x, j)), m.upper[j]) {
        assert Le(p.lower[forward[j]], Fin(At(z, forward[j]))) && Le(Fin(At(z, forward[j])), p.upper[forward[j]]);
      }
    }
  }

  lemma {:induction false} FlattenLength(cons: seq<Con>, start: int)
    requires AllCones(cons)
    ensures BlockStart(start, DimsOf(cons), |cons|) == start + |Flatten(cons)|
  {
    if cons != [] {
      var front := cons[..|cons| - 1];
      FlattenLength(front, start);
      BlockStartPrefix(start, DimsOf(front), DimsOf(cons), |front|);
    }
  }

  lemma {:induction false} BlockStartPrefix(start: int, a: seq<nat>, b: seq<nat>, k: nat)
    requires k <= |a| <= |b| && a == b[..|a|]
    ensures BlockStart(start, a, k) == BlockStart(start, b, k)
  {
    if k > 0 { BlockStartPrefix(start, a, b, k - 1); }
  }

  /** Member `i` of cone `k` sits at its place of block `k` in the flattened list. */
  lemma {:induction false} FlattenAt(cons: seq<Con>, start: int, k: int, i: int)
    requires AllCones(cons) && 0 <= k < |cons| && 0 <= i < |cons[k].vars|
    ensures var at := BlockStart(start, DimsOf(cons), k) + i - start;
            0 <= at < |Flatten(cons)| && Flatten(cons)[at] == cons[k].vars[i]
  {
    var last := |cons| - 1;
    var front := cons[..last];
    BlockStartPrefix(start, DimsOf(front), DimsOf(cons), if k < last then k else last);
    if k < last {
      FlattenAt(front, start, k, i);
    } else {
      FlattenLength(front, start);
    }
  }

  /** Blocks hold exactly the members of the cones they come from. */
  lemma {:induction false} PermutedCones(m: Model, forward: seq<int>, back: seq<int>, start: int, z: seq<real>)
    requires AllCones(m.cons) && ConsBelow(m.cons, m.n) && Inverses(forward, back, m.n) && |z| == m.n
    requires 0 <= start <= m.n && back[start..] == Flatten(m.cons)
    ensures ConsOk(m.cons, Gather(z, forward)) <==>
            forall k | 0 <= k < |m.cons| :: InCone(Block(start, DimsOf(m.cons), k), z)
  {
    var x, dims := Gather(z, forward), DimsOf(m.cons);
    forall k | 0 <= k < |m.cons|
      ensures ConSat(m.cons[k], x) <==> InCone(Block(start, dims, k), z)
    {
      var vars, block := m.cons[k].vars, Block(start, dims, k);
      assert ConBelow(m.cons[k], m.n);
      forall i | 0 <= i < |vars|
        ensures At(x, vars[i]) == At(z, block[i])
      {
        FlattenAt(m.cons, start, k, i);
        assert back[start + (block[i] - start)] == back[start..][block[i] - start] == vars[i];
        assert forward[back[block[i]]] == block[i];
      }
      InConeEqual(vars, block, z, x);
    }
  }

  lemma {:induction false} GatherInverse(x: seq<real>, forward: seq<int>, back: seq<int>)
    requires Inverses(forward, back, |x|)
    ensures Gather(Gather(x, back), forward) == x
  {
  }

  function Products(c: seq<real>, x: seq<real>): seq<real> {
    seq(|c|, j requires 0 <= j < |c| => c[j] * At(x, j))
  }

  /** The linear objective does not notice the reordering. */
  lemma {:induction false} PermutedObjective(m: Model, p: Model, forward: seq<int>, back: seq<int>, z: seq<real>)
    requires |m.obj| == m.n && Permutes(m, p, forward, back) && |z| == m.n
    ensures DenseDot(p.obj, z) == DenseDot(m.obj, Gather(z, forward))
  {
    InversesPermutation(forward, back, m.n);
    var x := Gather(z, forward);
    var a, b := Products(p.obj, z), Products(m.obj, x);
    forall j | 0 <= j < m.n
      ensures Gather(a, forward)[j] == b[j]
    {
      assert At(x, j) == At(z, forward[j]);
      assert At(a, forward[j]) == p.obj[forward[j]] * At(z, forward[j]);
    }
    assert Gather(a, forward) == b;
    SumGather(a, forward);
  }

  lemma {:induction false} SumOfZeros(n: nat)
    ensures Sum(seq(n, _ => 0.0)) == 0.0
  {
    if n > 0 {
      SumOfZeros(n - 1);
      assert seq(n, _ => 0.0)[1..] == seq(n - 1, _ => 0.0);
    }
  }

  /** Columns that were added carry no objective. */
  lemma {:induction false} ExtendedObjective(a: Model, b: Model, z: seq<real>)
    requires |a.obj| == a.n && Extends(a, b) && |z| == b.n
    ensures DenseDot(b.obj, z) == DenseDot(a.obj, z[..a.n])
  {
    var k := b.n - a.n;
    var whole, head := Products(b.obj, z), Products(a.obj, z[..a.n]);
    forall j | 0 <= j < |whole|
      ensures whole[j] == (head + seq(k, _ => 0.0))[j]
    {
      if j < a.n { assert b.obj[j] == a.obj[j] && At(z, j) == At(z[..a.n], j); }
    }
    assert whole == head + seq(k, _ => 0.0);
    SumConcat(head, seq(k, _ => 0.0));
    SumOfZeros(k);
  }

  // ---------------------------------------------------------------- quadratic objective in CSR form

  datatype Csr = Csr(offsets: seq<int>, indices: seq<int>, values: seq<real>)

  predicate ValidCsr(q: Csr, n: nat) {
    && |q.offsets| == n + 1 && q.offsets[0] == 0 && q.offsets[n] == |q.values| == |q.indices|
    && forall r | 0 <= r < n :: RowInside(q, r)
  }

  predicate RowInside(q: Csr, r: int)
    requires 0 <= r < |q.offsets| - 1
  {
    0 <= q.offsets[r] <= q.offsets[r + 1] <= |q.values|
  }

  function CsrRow(q: Csr, r: int): seq<Term> {
    if 0 <= r < |q.offsets| - 1 && 0 <= q.offsets[r] <= q.offsets[r + 1] <= |q.values| && |q.values| == |q.indices| then
      seq(q.offsets[r + 1] - q.offsets[r], i requires 0 <= i < q.offsets[r + 1] - q.offsets[r] =>
        Term(q.indices[q.offsets[r] + i], q.values[q.offsets[r] + i]))
    else []
  }

  function CsrFormTerms(q: Csr, n: nat, x: seq<real>): seq<real> {
    seq(n, r requires 0 <= r < n => At(x, r) * Dot(CsrRow(q, r), x))
  }

  /** xᵀ Q x, row by row. */
  function CsrForm(q: Csr, n: nat, x: seq<real>): real {
    Sum(CsrFormTerms(q, n, x))
  }

  function RowLength(q: Csr, r: int): int {
    if 0 <= r < |q.offsets| - 1 then q.offsets[r + 1] - q.offsets[r] else 0
  }

  /** Row `forward[r]` of `p` is row r of `q` with its columns renamed; the other rows of `p` are empty. */
  ghost predicate CsrPermutes(q: Csr, n: nat, p: Csr, forward: seq<int>) {
    forall j | 0 <= j < |forward| ::
      CsrRow(p, forward[j]) == if j < n then PermuteTerms(CsrRow(q, j), forward) else []
  }

  predicate CsrColumnsBelow(q: Csr, n: int) {
    forall k | 0 <= k < |q.indices| :: 0 <= q.indices[k] < n
  }

  lemma {:induction false} SumPadded(a: seq<real>, b: seq<real>)
    requires |a| <= |b| && a == b[..|a|] && forall k | |a| <= k < |b| :: b[k] == 0.0
    ensures Sum(a) == Sum(b)
  {
    SumConcat(a, b[|a|..]);
    assert a + b[|a|..] == b;
    assert b[|a|..] == seq(|b| - |a|, _ => 0.0);
    SumOfZeros(|b| - |a|);
  }

  lemma {:induction false} CsrRowBelow(q: Csr, r: int, n: int)
    requires CsrColumnsBelow(q, n)
    ensures TermsBelow(CsrRow(q, r), n)
  {
  }

  lemma {:induction false} TermsBelowLonger(terms: seq<Term>, n: int, n': int)
    requires TermsBelow(terms, n) && n <= n'
    ensures TermsBelow(terms, n')
  {
  }

  lemma {:induction false} PermutedCsrTerm(q: Csr, n: nat, p: Csr, forward: seq<int>, back: seq<int>, z: seq<real>, j: int)
    requires n <= |z| && Inverses(forward, back, |z|) && CsrPermutes(q, n, p, forward) && CsrColumnsBelow(q, n)
    requires 0 <= j < |z|
    ensures At(CsrFormTerms(p, |z|, z), forward[j]) ==
            if j < n then CsrFormTerms(q, n, Gather(z, forward)[..n])[j] else 0.0
  {
    hide CsrRow, PermuteTerms, TermsBelow, CsrColumnsBelow;
    var x := Gather(z, forward);
    var k := forward[j];
    assert 0 <= k < |z| && At(x, j) == At(z, k);
    assert CsrRow(p, k) == if j < n then PermuteTerms(CsrRow(q, j), forward) else [];
    assert At(CsrFormTerms(p, |z|, z), k) == At(z, k) * Dot(CsrRow(p, k), z);
    if j < n {
      CsrRowBelow(q, j, n);
      TermsBelowLonger(CsrRow(q, j), n, |z|);
      PermuteTermsDot(CsrRow(q, j), forward, z);
      DotPrefix(CsrRow(q, j), x[..n], x);
    }
  }

  /** The scattered quadratic objective evaluates like the original one. */
  lemma {:induction false} PermutedCsrForm(q: Csr, n: nat, p: Csr, forward: seq<int>, back: seq<int>, z: seq<real>)
    requires n <= |z| && Inverses(forward, back, |z|) && CsrPermutes(q, n, p, forward) && CsrColumnsBelow(q, n)
    ensures CsrForm(p, |z|, z) == CsrForm(q, n, Gather(z, forward)[..n])
  {
    hide CsrFormTerms, CsrPermutes;
    var x := Gather(z, forward);
    var a, b := CsrFormTerms(p, |z|, z), CsrFormTerms(q, n, x[..n]);
    CsrFormLengths(p, |z|, z);
    CsrFormLengths(q, n, x[..n]);
    InversesPermutation(forward, back, |z|);
    forall j | 0 <= j < |z|
      ensures Gather(a, forward)[j] == if j < n then b[j] else 0.0
    {
      PermutedCsrTerm(q, n, p, forward, back, z, j);
    }
    SumGather(a, forward);
    assert b == Gather(a, forward)[..n];
    SumPadded(b, Gather(a, forward));
  }

  lemma {:induction false} CsrFormLengths(q: Csr, n: nat, x: seq<real>)
    ensures |CsrFormTerms(q, n, x)| == n
  {
  }

  // ---------------------------------------------------------------- scattering the rows

  function LengthsFrom(q: Csr, n: nat, back: seq<int>): seq<real> {
    seq(|back|, k requires 0 <= k < |back| => if 0 <= back[k] < n then RowLength(q, back[k]) as real else 0.0)
  }

  lemma {:induction false} LengthsSum(q: Csr, n: nat, r: nat)
    requires ValidCsr(q, n) && r <= n
    ensures Sum(seq(r, j => RowLength(q, j) as real)) == q.offsets[r] as real
  {
    if r > 0 {
      LengthsSum(q, n, r - 1);
      assert seq(r, j => RowLength(q, j) as real) == seq(r - 1, j => RowLength(q, j) as real) + [RowLength(q, r - 1) as real];
      SumConcat(seq(r - 1, j => RowLength(q, j) as real), [RowLength(q, r - 1) as real]);
    }
  }

  /** The row lengths in the new order still add up to the number of stored values. */
  lemma {:induction false} ScatteredTotal(q: Csr, n: nat, forward: seq<int>, back: seq<int>)
    requires ValidCsr(q, n) && n <= |back| && Inverses(forward, back, |back|)
    ensures Sum(LengthsFrom(q, n, back)) == |q.values| as real
  {
    var lengths, old_order := LengthsFrom(q, n, back), seq(n, j => RowLength(q, j) as real);
    InversesPermutation(forward, back, |back|);
    SumGather(lengths, forward);
    forall j | 0 <= j < |back|
      ensures Gather(lengths, forward)[j] == if j < n then old_order[j] else 0.0
    {
      assert back[forward[j]] == j;
    }
    assert old_order == Gather(lengths, forward)[..n];
    SumPadded(old_order, Gather(lengths, forward));
    LengthsSum(q, n, n);
  }

  /** How many values land in row `k` of the new matrix. */
  function RowCount(q: Csr, n: nat, back: seq<int>, k: int): int {
    if 0 <= k < |back| && 0 <= back[k] < n then RowLength(q, back[k]) else 0
  }

  /** Offsets of the new matrix: consecutive segments of the row counts. */
  predicate Segments(offsets: seq<int>, q: Csr, n: nat, back: seq<int>) {
    && |offsets| == |back| + 1 && offsets[0] == 0
    && forall k | 0 <= k < |back| :: offsets[k + 1] == offsets[k] + RowCount(q, n, back, k)
  }

  lemma {:induction false} SegmentsSum(offsets: seq<int>, q: Csr, n: nat, back: seq<int>, k: nat)
    requires Segments(offsets, q, n, back) && k <= |back|
    ensures offsets[k] as real == Sum(LengthsFrom(q, n, back)[..k])
  {
    if k > 0 {
      SegmentsSum(offsets, q, n, back, k - 1);
      var lengths := LengthsFrom(q, n, back);
      assert lengths[..k] == lengths[..k - 1] + [lengths[k - 1]];
      SumConcat(lengths[..k - 1], [lengths[k - 1]]);
      assert offsets[(k - 1) + 1] == offsets[k - 1] + RowCount(q, n, back, k - 1);
    }
  }

  lemma {:induction false} SegmentsOrdered(offsets: seq<int>, q: Csr, n: nat, back: seq<int>, k: nat, l: nat)
    requires Segments(offsets, q, n, back) && ValidCsr(q, n) && k <= l <= |back|
    ensures 0 <= offsets[k] <= offsets[l]
    decreases l
  {
    if l > 0 {
      var j := l - 1;
      assert offsets[j + 1] == offsets[j] + RowCount(q, n, back, j);
      assert 0 <= back[j] < n ==> RowInside(q, back[j]);
      SegmentsOrdered(offsets, q, n, back, if k < l then k else j, j);
    }
  }

  /** The segments tile the value array exactly. */
  lemma {:induction false} SegmentsTotal(offsets: seq<int>, q: Csr, n: nat, forward: seq<int>, back: seq<int>)
    requires Segments(offsets, q, n, back) && ValidCsr(q, n) && n <= |back| && Inverses(forward, back, |back|)
    ensures offsets[|back|] == |q.values|
  {
    SegmentsSum(offsets, q, n, back, |back|);
    ScatteredTotal(q, n, forward, back);
    var lengths := LengthsFrom(q, n, back);
    assert lengths[..|back|] == lengths;
  }

  lemma {:induction false} SegmentsApart(offsets: seq<int>, q: Csr, n: nat, back: seq<int>, k: nat, l: nat, i: int, j: int)
    requires Segments(offsets, q, n, back) && ValidCsr(q, n) && k < |back| && l < |back| && k != l
    requires 0 <= i < RowCount(q, n, back, k) && 0 <= j < RowCount(q, n, back, l)
    ensures offsets[k] + i != offsets[l] + j
  {
    assert offsets[k + 1] == offsets[k] + RowCount(q, n, back, k);
    assert offsets[l + 1] == offsets[l] + RowCount(q, n, back, l);
    if k < l {
      SegmentsOrdered(offsets, q, n, back, k + 1, l);
    } else {
      SegmentsOrdered(offsets, q, n, back, l + 1, k);
    }
  }

  method CountRows(q: Csr, n: nat, forward: seq<int>, ghost back: seq<int>) returns (offsets: seq<int>)
    requires ValidCsr(q, n) && n <= |forward| && Inverses(forward, back, |forward|)
    ensures Segments(offsets, q, n, back)
  {
    var m := |forward|;
    offsets := seq(m + 1, _ => 0);
    for r := 0 to n
      invariant |offsets| == m + 1 && offsets[0] == 0
      invariant forall k | 0 <= k < m :: offsets[k + 1] == if 0 <= back[k] < r then RowLength(q, back[k]) else 0
    {
      offsets := offsets[forward[r] + 1 := q.offsets[r + 1] - q.offsets[r]];
    }
    for row := 0 to m
      invariant |offsets| == m + 1 && offsets[0] == 0
      invariant forall k | 0 <= k < row :: offsets[k + 1] == offsets[k] + RowCount(q, n, back, k)
      invariant forall k | row <= k < m :: offsets[k + 1] == RowCount(q, n, back, k)
    {
      offsets := offsets[row + 1 := offsets[row + 1] + offsets[row]];
    }
  }

  /** Cells of rows before `r`, and of row `r` before its `i`-th value, are in place. */
  ghost predicate Placed(q: Csr, n: nat, forward: seq<int>, offsets: seq<int>, indices: seq<int>, values: seq<real>, r: int, i: int)
    requires ValidCsr(q, n) && n <= |forward| && forall j | 0 <= j < |forward| :: 0 <= forward[j] < |offsets|
  {
    |indices| == |values| == |q.values| &&
    forall j, e | 0 <= j < n && (j < r || (j == r && e < i)) && 0 <= e < RowLength(q, j) ::
      CellAt(q, n, forward, offsets, j, e, indices, values)
  }

  ghost predicate CellAt(q: Csr, n: nat, forward: seq<int>, offsets: seq<int>, j: int, e: int, indices: seq<int>, values: seq<real>)
    requires ValidCsr(q, n) && 0 <= j < n <= |forward| && 0 <= forward[j] < |offsets| && 0 <= e < RowLength(q, j)
  {
    var dst := offsets[forward[j]] + e;
    && RowInside(q, j)
    && 0 <= dst < |indices| == |values|
    && 0 <= q.indices[q.offsets[j] + e] < |forward|
    && indices[dst] == forward[q.indices[q.offsets[j] + e]]
    && values[dst] == q.values[q.offsets[j] + e]
  }

  lemma {:induction false} PlaceOne(q: Csr, n: nat, forward: seq<int>, back: seq<int>, offsets: seq<int>, indices: seq<int>, values: seq<real>,
                 r: nat, i: nat)
    requires ValidCsr(q, n) && CsrColumnsBelow(q, n) && r < n <= |forward| && Inverses(forward, back, |forward|)
    requires Segments(offsets, q, n, back) && i < RowLength(q, r)
    requires Placed(q, n, forward, offsets, indices, values, r, i)
    ensures var dst, src := offsets[forward[r]] + i, q.offsets[r] + i;
            && 0 <= dst < |q.values| && 0 <= src < |q.values| && 0 <= q.indices[src] < |forward|
            && Placed(q, n, forward, offsets, indices[dst := forward[q.indices[src]]], values[dst := q.values[src]], r, i + 1)
  {
    assert RowInside(q, r);
    var dst, src := offsets[forward[r]] + i, q.offsets[r] + i;
    assert offsets[forward[r] + 1] == offsets[forward[r]] + RowCount(q, n, back, forward[r]);
    SegmentsOrdered(offsets, q, n, back, 0, forward[r]);
    SegmentsOrdered(offsets, q, n, back, forward[r] + 1, |back|);
    SegmentsTotal(offsets, q, n, forward, back);
    var indices', values' := indices[dst := forward[q.indices[src]]], values[dst := q.values[src]];
    forall j, e | 0 <= j < n && (j < r || (j == r && e < i + 1)) && 0 <= e < RowLength(q, j)
      ensures CellAt(q, n, forward, offsets, j, e, indices', values')
    {
      if j < r {
        SegmentsApart(offsets, q, n, back, forward[j], forward[r], e, i);
        assert CellAt(q, n, forward, offsets, j, e, indices, values);
      } else if e < i {
        assert CellAt(q, n, forward, offsets, j, e, indices, values);
      }
    }
  }

  /** Fully placed cells make the renamed matrix. */
  lemma {:induction false} PlacedPermutes(q: Csr, n: nat, forward: seq<int>, back: seq<int>, p: Csr)
    requires ValidCsr(q, n) && CsrColumnsBelow(q, n) && n <= |forward| && Inverses(forward, back, |forward|)
    requires Segments(p.offsets, q, n, back) && Placed(q, n, forward, p.offsets, p.indices, p.values, n, 0)
    ensures CsrPermutes(q, n, p, forward) && ValidCsr(p, |forward|)
  {
    SegmentsTotal(p.offsets, q, n, forward, back);
    forall r | 0 <= r < |forward|
      ensures RowInside(p, r)
    {
      SegmentsOrdered(p.offsets, q, n, back, r, r + 1);
      SegmentsOrdered(p.offsets, q, n, back, r + 1, |back|);
    }
    forall j | 0 <= j < |forward|
      ensures CsrRow(p, forward[j]) == if j < n then PermuteTerms(CsrRow(q, j), forward) else []
    {
      PlacedRow(q, n, forward, back, p, j);
    }
  }

  lemma {:induction false} PlacedCell(q: Csr, n: nat, forward: seq<int>, back: seq<int>, p: Csr, j: int, e: int)
    requires ValidCsr(q, n) && n <= |forward| && Inverses(forward, back, |forward|) && 0 <= j < n
    requires Segments(p.offsets, q, n, back) && Placed(q, n, forward, p.offsets, p.indices, p.values, n, 0)
    requires ValidCsr(p, |forward|) && 0 <= e < RowLength(q, j)
    ensures |CsrRow(p, forward[j])| == |CsrRow(q, j)| == RowLength(q, j)
    ensures CsrRow(p, forward[j])[e] == PermuteTerms(CsrRow(q, j), forward)[e]
  {
    var k := forward[j];
    assert RowInside(p, k) && RowInside(q, j) && p.offsets[k + 1] == p.offsets[k] + RowCount(q, n, back, k) && back[k] == j;
    assert CellAt(q, n, forward, p.offsets, j, e, p.indices, p.values);
  }

  lemma {:induction false} PlacedRow(q: Csr, n: nat, forward: seq<int>, back: seq<int>, p: Csr, j: int)
    requires ValidCsr(q, n) && n <= |forward| && Inverses(forward, back, |forward|) && 0 <= j < |forward|
    requires Segments(p.offsets, q, n, back) && Placed(q, n, forward, p.offsets, p.indices, p.values, n, 0)
    requires ValidCsr(p, |forward|)
    ensures CsrRow(p, forward[j]) == if j < n then PermuteTerms(CsrRow(q, j), forward) else []
  {
    hide Placed;
    var k := forward[j];
    assert RowInside(p, k) && p.offsets[k + 1] == p.offsets[k] + RowCount(q, n, back, k) && back[k] == j;
    if j < n {
      assert RowInside(q, j);
      forall e | 0 <= e < RowLength(q, j)
        ensures CsrRow(p, k)[e] == PermuteTerms(CsrRow(q, j), forward)[e]
      {
        PlacedCell(q, n, forward, back, p, j, e);
      }
    }
  }

  /** Move the quadratic objective to the new column order by counting, prefix sums and scattering. */
  method ScatterQuadratic(q: Csr, n: nat, forward: seq<int>, ghost back: seq<int>) returns (p: Csr)
    requires ValidCsr(q, n) && CsrColumnsBelow(q, n) && n <= |forward| && Inverses(forward, back, |forward|)
    ensures CsrPermutes(q, n, p, forward) && ValidCsr(p, |forward|)
  {
    var offsets := CountRows(q, n, forward, back);
    var indices, values := seq(|q.values|, _ => 0), seq(|q.values|, _ => 0.0);
    var write := offsets;
    for r := 0 to n
      invariant |write| == |offsets|
      invariant forall j | r <= j < n :: write[forward[j]] == offsets[forward[j]]
      invariant Placed(q, n, forward, offsets, indices, values, r, 0)
    {
      var row := forward[r];
      assert RowInside(q, r);
      for e := q.offsets[r] to q.offsets[r + 1]
        invariant |write| == |offsets|
        invariant write[row] == offsets[row] + (e - q.offsets[r])
        invariant forall j | r < j < n :: write[forward[j]] == offsets[forward[j]]
        invariant Placed(q, n, forward, offsets, indices, values, r, e - q.offsets[r])
      {
        PlaceOne(q, n, forward, back, offsets, indices, values, r, e - q.offsets[r]);
        var dst := write[row];
        write := write[row := dst + 1];
        indices := indices[dst := forward[q.indices[e]]];
        values := values[dst := q.values[e]];
      }
    }
    p := Csr(offsets, indices, values);
    PlacedPermutes(q, n, forward, back, p);
  }

  // ---------------------------------------------------------------- building and applying the order

  predicate Flagged(flags: seq<bool>, members: seq<int>) {
    forall j | 0 <= j < |flags| :: flags[j] <==> j in members
  }

  method FlagMembers(cons: seq<Con>, n: nat) returns (flags: seq<bool>)
    requires AllCones(cons) && ColsBelow(Flatten(cons), n)
    ensures |flags| == n && Flagged(flags, Flatten(cons))
  {
    flags := seq(n, _ => false);
    for ci := 0 to |cons|
      invariant |flags| == n && Flagged(flags, Flatten(cons[..ci]))
    {
      var cone := cons[ci].vars;
      assert cons[..ci + 1][..ci] == cons[..ci] && cons[..ci + 1][ci] == cons[ci];
      FlattenSplit(cons, ci);
      ghost var before := Flatten(cons[..ci]);
      for k := 0 to |cone|
        invariant |flags| == n && Flagged(flags, before + cone[..k])
      {
        assert Flatten(cons)[|before| + k] == (before + cone)[|before| + k] == cone[k];
        assert cone[..k + 1] == cone[..k] + [cone[k]];
        flags := flags[cone[k] := true];
      }
      assert cone[..|cone|] == cone;
    }
    assert cons[..|cons|] == cons;
  }

  /** The columns outside the cones, in increasing order. */
  function Outside(flags: seq<bool>): seq<int> {
    if flags == [] then []
    else Outside(flags[..|flags| - 1]) + if flags[|flags| - 1] then [] else [|flags| - 1]
  }

  lemma {:induction false} OutsideMembers(flags: seq<bool>)
    ensures forall j :: j in Outside(flags) <==> 0 <= j < |flags| && !flags[j]
  {
    if flags != [] { OutsideMembers(flags[..|flags| - 1]); }
  }

  lemma {:induction false} AppendNumbered(back: seq<int>, forward: seq<int>, v: int)
    requires Numbering(back, forward) && 0 <= v < |forward| && v !in back
    ensures Numbering(back + [v], forward[v := |back|])
  {
    var forward' := forward[v := |back|];
    forall w | 0 <= w < |forward| && forward'[w] != -1
      ensures 0 <= forward'[w] < |back| + 1 && (back + [v])[forward'[w]] == w
    {
      if w != v { assert forward[w] != -1; }
    }
  }

  /** Number the columns outside the cones first, then the cones one after the other. */
  method BuildOrder(cons: seq<Con>, n: nat) returns (forward: seq<int>, back: seq<int>, start: nat)
    requires AllCones(cons) && Injective(Flatten(cons)) && ColsBelow(Flatten(cons), n)
    ensures Inverses(forward, back, n) && start <= n && back[start..] == Flatten(cons)
  {
    var flags := FlagMembers(cons, n);
    forward, back := seq(n, _ => -1), [];
    for j := 0 to n
      invariant |forward| == n && Numbering(back, forward) && back == Outside(flags[..j])
    {
      assert flags[..j + 1][..j] == flags[..j];
      OutsideMembers(flags[..j]);
      if !flags[j] {
        AppendNumbered(back, forward, j);
        forward := forward[j := |back|];
        back := back + [j];
      }
    }
    assert flags[..n] == flags;
    start := |back|;
    OutsideMembers(flags);
    ghost var outside := back;
    assert Flatten(cons[..0]) == [];
    for ci := 0 to |cons|
      invariant |forward| == n && Numbering(back, forward) && back == outside + Flatten(cons[..ci])
    {
      back, forward := NumberCone(cons, ci, n, outside, flags, back, forward);
    }
    assert cons[..|cons|] == cons;
    forall j | 0 <= j < n
      ensures j in back
    {
      assert flags[j] <==> j in Flatten(cons);
    }
    NumberingTotal(back, forward);
  }

  method NumberCone(cons: seq<Con>, ci: nat, n: nat, ghost outside: seq<int>, flags: seq<bool>, back: seq<int>, forward: seq<int>)
    returns (back': seq<int>, forward': seq<int>)
    requires AllCones(cons) && Injective(Flatten(cons)) && ColsBelow(Flatten(cons), n) && ci < |cons|
    requires |forward| == |flags| == n && Numbering(back, forward) && back == outside + Flatten(cons[..ci])
    requires Flagged(flags, Flatten(cons)) && forall j | j in outside :: 0 <= j < n && !flags[j]
    ensures |forward'| == n && Numbering(back', forward') && back' == outside + Flatten(cons[..ci + 1])
  {
    hide Numbering, Outside;
    var cone := cons[ci].vars;
    assert cons[..ci + 1][..ci] == cons[..ci] && cons[..ci + 1][ci] == cons[ci];
    back', forward' := back, forward;
    ghost var flat := Flatten(cons[..ci]);
    assert flat + cone[..0] == flat;
    FlattenSplit(cons, ci);
    for k := 0 to |cone|
      invariant |forward'| == n && Numbering(back', forward') && back' == outside + (flat + cone[..k])
    {
      var v := cone[k];
      NotYetNumbered(cons, ci, k, outside, flags, n);
      AppendNumbered(back', forward', v);
      assert cone[..k + 1] == cone[..k] + [v];
      forward' := forward'[v := |back'|];
      back' := back' + [v];
    }
    assert cone[..|cone|] == cone;
  }

  lemma {:induction false} FlattenSplit(cons: seq<Con>, ci: nat)
    requires AllCones(cons) && ci < |cons|
    ensures Flatten(cons[..ci]) + cons[ci].vars <= Flatten(cons)
    decreases |cons|
  {
    if ci < |cons| - 1 {
      FlattenSplit(cons[..|cons| - 1], ci);
      assert cons[..|cons| - 1][..ci] == cons[..ci];
    }
  }

  lemma {:induction false} NotYetNumbered(cons: seq<Con>, ci: nat, k: nat, outside: seq<int>, flags: seq<bool>, n: nat)
    requires AllCones(cons) && Injective(Flatten(cons)) && ColsBelow(Flatten(cons), n) && ci < |cons| && k < |cons[ci].vars|
    requires |flags| == n && Flagged(flags, Flatten(cons)) && forall j | j in outside :: 0 <= j < n && !flags[j]
    ensures 0 <= cons[ci].vars[k] < n && cons[ci].vars[k] !in outside + (Flatten(cons[..ci]) + cons[ci].vars[..k])
  {
    hide Flatten;
    var all, flat, cone := Flatten(cons), Flatten(cons[..ci]), cons[ci].vars;
    FlattenSplit(cons, ci);
    var p := |flat| + k;
    assert (flat + cone)[p] == cone[k] == all[p];
    forall q | 0 <= q < |flat| + k
      ensures (flat + cone[..k])[q] != cone[k]
    {
      assert (flat + cone[..k])[q] == (flat + cone)[q] == all[q];
    }
    assert all[p] in all;
  }

  method PermuteRowIndices(rows: seq<Row>, forward: seq<int>) returns (out: seq<Row>)
    requires forall i | 0 <= i < |rows| :: TermsBelow(rows[i].terms, |forward|)
    ensures out == PermuteRows(rows, forward)
  {
    out := [];
    for i := 0 to |rows|
      invariant |out| == i && forall k | 0 <= k < i :: out[k] == PermuteRows(rows, forward)[k]
    {
      var terms, moved := rows[i].terms, [];
      for p := 0 to |terms|
        invariant |moved| == p && forall k | 0 <= k < p :: moved[k] == PermuteTerms(terms, forward)[k]
      {
        moved := moved + [Term(forward[terms[p].col], terms[p].coef)];
      }
      assert moved == PermuteTerms(terms, forward);
      out := out + [rows[i].(terms := moved)];
    }
  }

  method PermuteDense<T>(values: seq<T>, forward: seq<int>, ghost back: seq<int>) returns (out: seq<T>)
    requires Inverses(forward, back, |values|)
    ensures |out| == |values| && forall j | 0 <= j < |values| :: out[forward[j]] == values[j]
  {
    out := values;
    for j := 0 to |values|
      invariant |out| == |values| && forall i | 0 <= i < j :: out[forward[i]] == values[i]
    {
      assert forall i | 0 <= i < j :: back[forward[i]] == i;
      out := out[forward[j] := values[j]];
    }
  }
}
