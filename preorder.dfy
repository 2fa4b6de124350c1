/** Document pre-order on positions of the content tree. A position is the
    path of indices from the root (section, subsection, rule); a node comes
    before everything nested under it, and siblings come in index order. */
module Preorder {

  /** p comes strictly before q: p is a proper prefix of q, or at the first
      index where they differ p holds the smaller number. */
  predicate Before(p: seq<nat>, q: seq<nat>)
    decreases |p|
  {
    q != [] && (p == [] || p[0] < q[0] || (p[0] == q[0] && Before(p[1..], q[1..])))
  }

  lemma {:induction false} BeforeIrreflexive(p: seq<nat>)
    ensures !Before(p, p)
    decreases |p|
  {
    if p != [] {
      BeforeIrreflexive(p[1..]);
    }
  }

  lemma {:induction false} BeforeAsymmetric(p: seq<nat>, q: seq<nat>)
    ensures !(Before(p, q) && Before(q, p))
    decreases |p|
  {
    if p != [] && q != [] && p[0] == q[0] {
      BeforeAsymmetric(p[1..], q[1..]);
    }
  }

  /** Two positions that agree on their first n indices and differ at index
      n are ordered by that index. */
  lemma {:induction false} BeforeAt(p: seq<nat>, q: seq<nat>, n: nat)
    requires n < |p| && n < |q|
    requires p[..n] == q[..n] && p[n] < q[n]
    ensures Before(p, q)
    decreases n
  {
    if n > 0 {
      assert p[0] == p[..n][0] == q[..n][0] == q[0];
      assert p[1..][..n - 1] == p[1..n] == q[1..n] == q[1..][..n - 1];
      BeforeAt(p[1..], q[1..], n - 1);
    }
  }

  /** A node comes before every position nested under it. */
  lemma {:induction false} BeforeExtension(p: seq<nat>, q: seq<nat>)
    requires |p| < |q| && q[..|p|] == p
    ensures Before(p, q)
    decreases |p|
  {
    if p != [] {
      assert p[0] == q[0];
      assert q[1..][..|p| - 1] == p[1..];
      BeforeExtension(p[1..], q[1..]);
    }
  }

  /** A listing of positions strictly increasing in pre-order; such a
      listing has no position twice. */
  ghost predicate Increasing(ps: seq<seq<nat>>)
  {
    forall a, b | 0 <= a < b < |ps| :: Before(ps[a], ps[b])
  }

  lemma IncreasingDistinct(ps: seq<seq<nat>>, a: nat, b: nat)
    requires Increasing(ps)
    requires a < |ps| && b < |ps| && a != b
    ensures ps[a] != ps[b]
  {
    if a < b {
      BeforeIrreflexive(ps[a]);
    } else {
      BeforeIrreflexive(ps[b]);
    }
  }

  lemma IncreasingConcat(xs: seq<seq<nat>>, ys: seq<seq<nat>>)
    requires Increasing(xs) && Increasing(ys)
    requires forall a, b | 0 <= a < |xs| && 0 <= b < |ys| :: Before(xs[a], ys[b])
    ensures Increasing(xs + ys)
  {
    var zs := xs + ys;
    forall a, b | 0 <= a < b < |zs| ensures Before(zs[a], zs[b]) {
      if b < |xs| {
        assert zs[a] == xs[a] && zs[b] == xs[b];
      } else if a < |xs| {
        assert zs[a] == xs[a] && zs[b] == ys[b - |xs|];
      } else {
        assert zs[a] == ys[a - |xs|] && zs[b] == ys[b - |xs|];
      }
    }
  }

  lemma IncreasingTail(ps: seq<seq<nat>>, p: seq<nat>)
    requires Increasing(ps) && ps != []
    ensures p in ps[1..] <==> p in ps && p != ps[0]
  {
    if p in ps[1..] {
      var b :| 0 <= b < |ps[1..]| && ps[1..][b] == p;
      IncreasingDistinct(ps, 0, b + 1);
    }
    if p in ps && p != ps[0] {
      var b :| 0 <= b < |ps| && ps[b] == p;
      assert ps[1..][b - 1] == p;
    }
  }

  lemma FirstIsMember(ps: seq<seq<nat>>)
    ensures ps != [] ==> ps[0] in ps
  {
  }

  /** A set of positions has only one increasing listing. */
  lemma {:induction false} IncreasingUnique(xs: seq<seq<nat>>, ys: seq<seq<nat>>)
    requires Increasing(xs) && Increasing(ys)
    requires forall p :: p in xs <==> p in ys
    ensures xs == ys
    decreases |xs|
  {
    FirstIsMember(xs);
    FirstIsMember(ys);
    if xs != [] && ys != [] {
      var m :| 0 <= m < |ys| && ys[m] == xs[0];
      var l :| 0 <= l < |xs| && xs[l] == ys[0];
      BeforeIrreflexive(xs[0]);
      BeforeAsymmetric(xs[0], xs[l]);
      assert m == 0;
      forall p ensures p in xs[1..] <==> p in ys[1..] {
        IncreasingTail(xs, p);
        IncreasingTail(ys, p);
      }
      IncreasingUnique(xs[1..], ys[1..]);
      assert xs == [xs[0]] + xs[1..];
      assert ys == [ys[0]] + ys[1..];
    }
  }
}
