/** Making the cones disjoint, and freeing their members from bounds, by linked copies. */
module SocDisjoint {
  import opened Extended
  import opened ConicModel
  import opened SocClassify
  import opened SocPasses
  import opened SocPermute

  predicate InjectiveCones(cons: seq<Con>) {
    AllCones(cons) && forall i | 0 <= i < |cons| :: Injective(cons[i].vars)
  }

  lemma {:induction false} FlattenSnoc(cons: seq<Con>, c: Con)
    ensures Flatten(cons + [c]) == Flatten(cons) + if c.Cone? then c.vars else []
  {
    assert (cons + [c])[..|cons|] == cons;
  }

  lemma {:induction false} InjectiveSnoc(s: seq<int>, v: int)
    requires Injective(s) && v !in s
    ensures Injective(s + [v])
  {
  }

  /**
   * The members seen so far (`flat`) are distinct; the old columns among them have an owner, and only
   * members of the current cone `ci` (those in `here`) are owned by it.
   */
  ghost predicate Owned(flat: seq<int>, owner: seq<int>, n: nat, copies: nat, ci: nat, here: seq<int>) {
    && |owner| == n && Injective(flat) && ColsBelow(flat, n + copies)
    && (forall k | 0 <= k < |flat| && flat[k] < n :: owner[flat[k]] != -1)
    && (forall v | 0 <= v < n :: -1 <= owner[v] <= ci)
    && (forall v | 0 <= v < n && owner[v] == ci :: v in here)
  }

  /** The columns with an owner are those seen so far. */
  predicate OwnsSeen(owner: seq<int>, seen: seq<int>) {
    forall v | 0 <= v < |owner| :: owner[v] != -1 <==> v in seen
  }

  /** A member stays exactly when no earlier cone has it. */
  predicate FirstKept(members: seq<int>, cone: seq<int>, earlier: seq<int>) {
    |members| == |cone| && forall k | 0 <= k < |cone| :: members[k] == cone[k] <==> cone[k] !in earlier
  }

  lemma {:induction false} FirstKeptSnoc(members: seq<int>, cone: seq<int>, earlier: seq<int>, w: int, v: int)
    requires FirstKept(members, cone, earlier) && (w == v <==> v !in earlier)
    ensures FirstKept(members + [w], cone + [v], earlier)
  {
  }

  predicate AllFirstKept(after: seq<Con>, cons: seq<Con>) {
    AllCones(cons) && AllCones(after) && |after| <= |cons|
    && forall i | 0 <= i < |after| :: FirstKept(after[i].vars, cons[i].vars, Flatten(cons[..i]))
  }

  lemma {:induction false} AllFirstKeptSnoc(after: seq<Con>, cons: seq<Con>, members: seq<int>)
    requires AllFirstKept(after, cons) && |after| < |cons| && members != []
    requires FirstKept(members, cons[|after|].vars, Flatten(cons[..|after|]))
    ensures AllFirstKept(after + [Cone(members)], cons)
  {
    hide Flatten, FirstKept;
  }

  /** Decide about one cone member: keep it, or take a copy. */
  method AliasMember(v: int, owner: seq<int>, originals: seq<int>, n: nat, ci: nat, ghost flat: seq<int>, ghost here: seq<int>)
    returns (w: int, owner': seq<int>, originals': seq<int>)
    requires Owned(flat, owner, n, |originals|, ci, here) && 0 <= v < n && v !in here && ColsBelow(originals, n)
    ensures Owned(flat + [w], owner', n, |originals'|, ci, here + [v])
    ensures originals <= originals' && ColsBelow(originals', n) && IsCopyOf(w, v, originals', n)
    ensures (w == v <==> owner[v] == -1) && owner' == if owner[v] == -1 then owner[v := ci] else owner
  {
    w, owner', originals' := v, owner, originals;
    if owner[v] == -1 {
      owner' := owner[v := ci];
    } else if owner[v] != ci {
      w := n + |originals|;
      originals' := originals + [v];
    } else {
      assert false;
    }
    assert w !in flat;
    InjectiveSnoc(flat, w);
  }

  lemma {:induction false} OwnedNextCone(flat: seq<int>, owner: seq<int>, n: nat, copies: nat, ci: nat, here: seq<int>)
    requires Owned(flat, owner, n, copies, ci, here)
    ensures Owned(flat, owner, n, copies, ci + 1, [])
  {
  }

  predicate MembersCopied(after: seq<int>, before: seq<int>, originals: seq<int>, n: int) {
    |after| == |before| && forall k | 0 <= k < |after| :: IsCopyOf(after[k], before[k], originals, n)
  }

  lemma {:induction false} MembersCopiedMore(after: seq<int>, before: seq<int>, a: seq<int>, b: seq<int>, n: int)
    requires MembersCopied(after, before, a, n) && a <= b
    ensures MembersCopied(after, before, b, n)
  {
  }

  lemma {:induction false} ConesCopiedMore(after: seq<Con>, before: seq<Con>, a: seq<int>, b: seq<int>, n: int)
    requires ConesCopied(after, before, a, n) && a <= b
    ensures ConesCopied(after, before, b, n)
  {
    forall i | 0 <= i < |after|
      ensures ConeCopied(after[i], before[i], b, n)
    {
      assert ConeCopied(after[i], before[i], a, n);
      MembersCopiedMore(after[i].vars, before[i].vars, a, b, n);
    }
  }

  lemma {:induction false} ConesCopiedSnoc(after: seq<Con>, before: seq<Con>, c: seq<int>, b: Con, originals: seq<int>, n: int)
    requires ConesCopied(after, before, originals, n) && b.Cone? && MembersCopied(c, b.vars, originals, n)
    ensures ConesCopied(after + [Cone(c)], before + [b], originals, n)
  {
  }

  lemma {:induction false} OwnsOneMore(owner: seq<int>, earlier: seq<int>, here: seq<int>, v: int, ci: nat)
    requires OwnsSeen(owner, earlier + here) && 0 <= v < |owner| && v !in here
    ensures OwnsSeen(if owner[v] == -1 then owner[v := ci] else owner, earlier + (here + [v]))
    ensures owner[v] == -1 <==> v !in earlier
  {
    assert earlier + (here + [v]) == (earlier + here) + [v];
  }

  /** The members of one cone, each kept or replaced by a copy. */
  method AliasCone(cone: seq<int>, owner: seq<int>, originals: seq<int>, n: nat, ci: nat, ghost before: seq<int>, ghost earlier: seq<int>)
    returns (members: seq<int>, owner': seq<int>, originals': seq<int>)
    requires Injective(cone) && ColsBelow(cone, n) && ColsBelow(originals, n)
    requires Owned(before, owner, n, |originals|, ci, []) && |owner| == n && OwnsSeen(owner, earlier)
    ensures MembersCopied(members, cone, originals', n) && originals <= originals' && ColsBelow(originals', n)
    ensures Owned(before + members, owner', n, |originals'|, ci, cone)
    ensures |owner'| == n && OwnsSeen(owner', earlier + cone) && FirstKept(members, cone, earlier) && |members| == |cone|
  {
    hide Owned, OwnsSeen, FirstKept;
    members, owner', originals' := [], owner, originals;
    assert before + members == before;
    assert earlier + cone[..0] == earlier;
    NoneKept(earlier);
    for k := 0 to |cone|
      invariant MembersCopied(members, cone[..k], originals', n) && originals <= originals' && ColsBelow(originals', n)
      invariant Owned(before + members, owner', n, |originals'|, ci, cone[..k])
      invariant |owner'| == n && OwnsSeen(owner', earlier + cone[..k]) && FirstKept(members, cone[..k], earlier) && |members| == k
    {
      var w, more;
      OwnsOneMore(owner', earlier, cone[..k], cone[k], ci);
      w, owner', more := AliasMember(cone[k], owner', originals', n, ci, before + members, cone[..k]);
      MembersCopiedMore(members, cone[..k], originals', more, n);
      FirstKeptSnoc(members, cone[..k], earlier, w, cone[k]);
      originals' := more;
      assert (before + members) + [w] == before + (members + [w]);
      assert cone[..k] + [cone[k]] == cone[..k + 1];
      members := members + [w];
    }
    assert cone[..|cone|] == cone;
  }

  lemma {:induction false} NoneKept(earlier: seq<int>)
    ensures FirstKept([], [], earlier)
  {
  }

  lemma {:induction false} OwnedStart(n: nat)
    ensures Owned([], seq(n, _ => -1), n, 0, 0, []) && OwnsSeen(seq(n, _ => -1), [])
  {
  }

  lemma {:induction false} OwnedEnd(flat: seq<int>, owner: seq<int>, n: nat, copies: nat, ci: nat, here: seq<int>)
    requires Owned(flat, owner, n, copies, ci, here)
    ensures Injective(flat) && ColsBelow(flat, n + copies)
  {
  }

  lemma {:induction false} CopiedDims(after: seq<Con>, before: seq<Con>, originals: seq<int>, n: int)
    requires ConesCopied(after, before, originals, n) && AllCones(before)
    ensures DimsOf(after) == DimsOf(before) && AllCones(after)
  {
    forall i | 0 <= i < |after|
      ensures ConDim(after[i]) == ConDim(before[i]) && after[i].Cone? && after[i].vars != []
    {
      assert ConeCopied(after[i], before[i], originals, n);
    }
  }

  /** A column that appears in several cones stays in the first one; the later cones get copies. */
  method AliasShared(cons: seq<Con>, n: nat) returns (after: seq<Con>, originals: seq<int>)
    requires InjectiveCones(cons) && ConsBelow(cons, n)
    ensures ConesCopied(after, cons, originals, n) && ColsBelow(originals, n)
    ensures AllCones(after) && Injective(Flatten(after)) && ColsBelow(Flatten(after), n + |originals|)
    ensures DimsOf(after) == DimsOf(cons) && AllFirstKept(after, cons)
  {
    hide Owned, MembersCopied, Flatten, Injective, OwnsSeen, FirstKept;
    after, originals := [], [];
    var owner := seq(n, _ => -1);
    OwnedStart(n);
    FlattenEmpty();
    for ci := 0 to |cons|
      invariant ConesCopied(after, cons[..ci], originals, n)
      invariant ColsBelow(originals, n) && Owned(Flatten(after), owner, n, |originals|, ci, [])
      invariant |owner| == n && OwnsSeen(owner, Flatten(cons[..ci])) && AllFirstKept(after, cons) && |after| == ci
    {
      var cone := cons[ci].vars;
      assert ConBelow(cons[ci], n);
      var members, more;
      ghost var before := Flatten(after);
      members, owner, more := AliasCone(cone, owner, originals, n, ci, before, Flatten(cons[..ci]));
      AllFirstKeptSnoc(after, cons, members);
      FlattenSnoc(cons[..ci], cons[ci]);
      ConesCopiedMore(after, cons[..ci], originals, more, n);
      originals := more;
      ConesCopiedSnoc(after, cons[..ci], members, cons[ci], originals, n);
      assert cons[..ci] + [cons[ci]] == cons[..ci + 1];
      FlattenSnoc(after, Cone(members));
      OwnedNextCone(before + members, owner, n, |originals|, ci, cone);
      after := after + [Cone(members)];
    }
    assert cons[..|cons|] == cons;
    CopiedDims(after, cons, originals, n);
    OwnedEnd(Flatten(after), owner, n, |originals|, |cons|, []);
  }

  lemma {:induction false} FlattenEmpty()
    ensures Flatten([]) == []
  {
  }

  // ---------------------------------------------------------------- bounded members

  predicate IsFree(v: int, lower: seq<Ext>, upper: seq<Ext>) {
    0 <= v < |lower| == |upper| && lower[v] == NegInf && upper[v] == PosInf
  }

  /** What the barrier accepts at position `k` of a cone: a free column, or a head in [0, inf). */
  predicate BarrierReady(v: int, k: int, lower: seq<Ext>, upper: seq<Ext>) {
    || IsFree(v, lower, upper)
    || (k == 0 && 0 <= v < |lower| == |upper| && lower[v] == Fin(0.0) && upper[v] == PosInf)
  }

  /** Position by position, `flat` keeps the old member or holds a fresh copy. */
  ghost predicate Freshened(flat: seq<int>, prior: seq<int>, n: nat, copies: nat) {
    && |flat| == |prior| && Injective(flat) && ColsBelow(flat, n + copies)
    && forall k | 0 <= k < |flat| :: flat[k] == prior[k] || flat[k] >= n
  }

  lemma {:induction false} FreshenedKeep(flat: seq<int>, prior: seq<int>, n: nat, copies: nat, v: int)
    requires Freshened(flat, prior, n, copies) && 0 <= v < n && Injective(prior + [v])
    ensures Freshened(flat + [v], prior + [v], n, copies)
  {
    forall k | 0 <= k < |flat|
      ensures flat[k] != v
    {
      assert (prior + [v])[k] == prior[k] && (prior + [v])[|prior|] == v;
    }
    InjectiveSnoc(flat, v);
  }

  lemma {:induction false} FreshenedCopy(flat: seq<int>, prior: seq<int>, n: nat, copies: nat, v: int)
    requires Freshened(flat, prior, n, copies)
    ensures Freshened(flat + [n + copies], prior + [v], n, copies + 1)
  {
    InjectiveSnoc(flat, n + copies);
  }

  lemma {:induction false} FlattenPrefix(cons: seq<Con>, ci: nat)
    requires AllCones(cons) && ci <= |cons|
    ensures Flatten(cons[..ci]) <= Flatten(cons)
    decreases |cons|
  {
    if ci < |cons| {
      var front := cons[..|cons| - 1];
      FlattenPrefix(front, ci);
      assert front[..ci] == cons[..ci];
    } else {
      assert cons[..ci] == cons;
    }
  }

  lemma {:induction false} InjectivePrefix(s: seq<int>, t: seq<int>)
    requires s <= t && Injective(t)
    ensures Injective(s)
  {
    forall k, l | 0 <= k < l < |s|
      ensures s[k] != s[l]
    {
      assert s[k] == t[k] && s[l] == t[l];
    }
  }

  predicate MembersReady(members: seq<int>, n: int, copies: int, lower: seq<Ext>, upper: seq<Ext>) {
    forall k | 0 <= k < |members| :: n <= members[k] < n + copies || BarrierReady(members[k], k, lower, upper)
  }

  predicate ConesReady(cons: seq<Con>, n: int, copies: int, lower: seq<Ext>, upper: seq<Ext>) {
    AllCones(cons) && forall i | 0 <= i < |cons| :: MembersReady(cons[i].vars, n, copies, lower, upper)
  }

  lemma {:induction false} ConesReadyMore(cons: seq<Con>, n: int, a: int, b: int, lower: seq<Ext>, upper: seq<Ext>)
    requires ConesReady(cons, n, a, lower, upper) && a <= b
    ensures ConesReady(cons, n, b, lower, upper)
  {
    forall i | 0 <= i < |cons|
      ensures MembersReady(cons[i].vars, n, b, lower, upper)
    {
      assert MembersReady(cons[i].vars, n, a, lower, upper);
    }
  }

  /** A member stays exactly when the barrier accepts it where it is. */
  predicate ReadyKept(members: seq<int>, cone: seq<int>, lower: seq<Ext>, upper: seq<Ext>) {
    |members| == |cone| && forall k | 0 <= k < |cone| :: members[k] == cone[k] <==> BarrierReady(cone[k], k, lower, upper)
  }

  lemma {:induction false} ReadyKeptSnoc(members: seq<int>, cone: seq<int>, lower: seq<Ext>, upper: seq<Ext>, w: int, v: int)
    requires ReadyKept(members, cone, lower, upper) && (w == v <==> BarrierReady(v, |cone|, lower, upper))
    ensures ReadyKept(members + [w], cone + [v], lower, upper)
  {
    hide BarrierReady;
  }

  predicate AllReadyKept(after: seq<Con>, cons: seq<Con>, lower: seq<Ext>, upper: seq<Ext>) {
    AllCones(cons) && AllCones(after) && |after| <= |cons|
    && forall i | 0 <= i < |after| :: ReadyKept(after[i].vars, cons[i].vars, lower, upper)
  }

  lemma {:induction false} AllReadyKeptSnoc(after: seq<Con>, cons: seq<Con>, lower: seq<Ext>, upper: seq<Ext>, members: seq<int>)
    requires AllReadyKept(after, cons, lower, upper) && |after| < |cons| && members != []
    requires ReadyKept(members, cons[|after|].vars, lower, upper)
    ensures AllReadyKept(after + [Cone(members)], cons, lower, upper)
  {
    hide ReadyKept;
  }

  lemma {:induction false} MembersReadySnoc(members: seq<int>, w: int, n: int, a: int, b: int, lower: seq<Ext>, upper: seq<Ext>)
    requires MembersReady(members, n, a, lower, upper) && a <= b
    requires n <= w < n + b || BarrierReady(w, |members|, lower, upper)
    ensures MembersReady(members + [w], n, b, lower, upper)
  {
  }

  /** Keep a member the barrier accepts, copy any other. */
  method SplitMember(v: int, k: nat, originals: seq<int>, n: nat, lower: seq<Ext>, upper: seq<Ext>,
                     ghost flat: seq<int>, ghost prior: seq<int>) returns (w: int, originals': seq<int>)
    requires Freshened(flat, prior, n, |originals|) && 0 <= v < n && Injective(prior + [v]) && ColsBelow(originals, n)
    ensures Freshened(flat + [w], prior + [v], n, |originals'|) && ColsBelow(originals', n)
    ensures originals <= originals' && IsCopyOf(w, v, originals', n)
    ensures n <= w < n + |originals'| || BarrierReady(w, k, lower, upper)
    ensures w == v <==> BarrierReady(v, k, lower, upper)
  {
    if BarrierReady(v, k, lower, upper) {
      FreshenedKeep(flat, prior, n, |originals|, v);
      return v, originals;
    }
    FreshenedCopy(flat, prior, n, |originals|, v);
    return n + |originals|, originals + [v];
  }

  /** The members of one cone, each kept or replaced by a free copy. */
  method SplitCone(cone: seq<int>, originals: seq<int>, n: nat, lower: seq<Ext>, upper: seq<Ext>,
                   ghost before: seq<int>, ghost prior: seq<int>) returns (members: seq<int>, originals': seq<int>)
    requires ColsBelow(cone, n) && ColsBelow(originals, n)
    requires Freshened(before, prior, n, |originals|) && Injective(prior + cone)
    ensures MembersCopied(members, cone, originals', n) && originals <= originals' && ColsBelow(originals', n)
    ensures Freshened(before + members, prior + cone, n, |originals'|)
    ensures MembersReady(members, n, |originals'|, lower, upper) && ReadyKept(members, cone, lower, upper) && |members| == |cone|
  {
    hide Freshened, BarrierReady, Injective;
    members, originals' := [], originals;
    assert before + members == before && prior + cone[..0] == prior;
    for k := 0 to |cone|
      invariant MembersCopied(members, cone[..k], originals', n) && originals <= originals' && ColsBelow(originals', n)
      invariant Freshened(before + members, prior + cone[..k], n, |originals'|)
      invariant MembersReady(members, n, |originals'|, lower, upper) && ReadyKept(members, cone[..k], lower, upper)
    {
      var v := cone[k];
      assert cone[..k] + [v] == cone[..k + 1];
      assert (prior + cone[..k]) + [v] == prior + cone[..k + 1] <= prior + cone;
      InjectivePrefix(prior + cone[..k + 1], prior + cone);
      var w, more := SplitMember(v, k, originals', n, lower, upper, before + members, prior + cone[..k]);
      MembersCopiedMore(members, cone[..k], originals', more, n);
      MembersReadySnoc(members, w, n, |originals'|, |more|, lower, upper);
      ReadyKeptSnoc(members, cone[..k], lower, upper, w, v);
      originals' := more;
      assert (before + members) + [w] == before + (members + [w]);
      members := members + [w];
    }
    assert cone[..|cone|] == cone;
  }

  /** A bounded member that is not a head in [0, inf) is replaced by a free copy. */
  method SplitBounded(cons: seq<Con>, n: nat, lower: seq<Ext>, upper: seq<Ext>) returns (after: seq<Con>, originals: seq<int>)
    requires AllCones(cons) && ConsBelow(cons, n) && Injective(Flatten(cons)) && |lower| == |upper| == n
    ensures ConesCopied(after, cons, originals, n) && ColsBelow(originals, n)
    ensures Injective(Flatten(after)) && ColsBelow(Flatten(after), n + |originals|)
    ensures ConesReady(after, n, |originals|, lower, upper) && DimsOf(after) == DimsOf(cons)
    ensures AllReadyKept(after, cons, lower, upper)
  {
    hide Freshened, Injective, Flatten, MembersReady, MembersCopied, ReadyKept;
    after, originals := [], [];
    FreshenedStart(n);
    FlattenEmpty();
    for ci := 0 to |cons|
      invariant ConesCopied(after, cons[..ci], originals, n)
      invariant ColsBelow(originals, n) && Freshened(Flatten(after), Flatten(cons[..ci]), n, |originals|)
      invariant ConesReady(after, n, |originals|, lower, upper)
      invariant AllReadyKept(after, cons, lower, upper) && |after| == ci
    {
      var cone := cons[ci].vars;
      assert ConBelow(cons[ci], n);
      assert cons[..ci] + [cons[ci]] == cons[..ci + 1];
      FlattenSnoc(cons[..ci], cons[ci]);
      FlattenPrefix(cons, ci + 1);
      ghost var before, prior := Flatten(after), Flatten(cons[..ci]);
      InjectivePrefix(prior + cone, Flatten(cons));
      var members, more := SplitCone(cone, originals, n, lower, upper, before, prior);
      ConesCopiedMore(after, cons[..ci], originals, more, n);
      ConesReadyMore(after, n, |originals|, |more|, lower, upper);
      AllReadyKeptSnoc(after, cons, lower, upper, members);
      originals := more;
      ConesCopiedSnoc(after, cons[..ci], members, cons[ci], originals, n);
      FlattenSnoc(after, Cone(members));
      MembersNonempty(members, cone, originals, n);
      after := after + [Cone(members)];
    }
    assert cons[..|cons|] == cons;
    CopiedDims(after, cons, originals, n);
    FreshenedEnd(Flatten(after), Flatten(cons), n, |originals|);
  }

  lemma {:induction false} MembersNonempty(members: seq<int>, cone: seq<int>, originals: seq<int>, n: int)
    requires MembersCopied(members, cone, originals, n) && cone != []
    ensures members != []
  {
  }

  lemma {:induction false} FreshenedStart(n: nat)
    ensures Freshened([], [], n, 0)
  {
  }

  lemma {:induction false} FreshenedEnd(flat: seq<int>, prior: seq<int>, n: nat, copies: nat)
    requires Freshened(flat, prior, n, copies)
    ensures Injective(flat) && ColsBelow(flat, n + copies)
  {
  }
}
