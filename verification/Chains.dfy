/**
 Singly linked lists threaded through one link member of the linked records.
 Records are named by their address; 0 is NULL. A link member is a map from address to
 link, and an address it does not hold has an all-zero (NULL) link.
 */
module Chains {

  type Ptr = nat

  const NULL: Ptr := 0

  function Load(next: map<Ptr, Ptr>, p: Ptr): Ptr {
    if p in next then next[p] else NULL
  }

  function At(s: seq<Ptr>, i: nat): Ptr {
    if i < |s| then s[i] else NULL
  }

  function Last(s: seq<Ptr>): Ptr {
    if s == [] then NULL else s[|s| - 1]
  }

  ghost predicate Distinct(s: seq<Ptr>) {
    forall i, j :: 0 <= i < j < |s| ==> s[i] != s[j]
  }

  /** Following the links from head visits exactly s, in order, and then ends. */
  ghost predicate Chain(next: map<Ptr, Ptr>, head: Ptr, s: seq<Ptr>) {
    && NULL !in s
    && Distinct(s)
    && head == At(s, 0)
    && forall i :: 0 <= i < |s| ==> Load(next, s[i]) == At(s, i + 1)
  }

  /** A chain is acyclic, so its contents are determined by the links alone. */
  lemma {:induction false} ChainUnique(next: map<Ptr, Ptr>, head: Ptr, s: seq<Ptr>, t: seq<Ptr>)
    requires Chain(next, head, s) && Chain(next, head, t)
    ensures s == t
    decreases |s|
  {
    if s != [] {
      var head' := Load(next, s[0]);
      assert s[0] == t[0];
      assert Chain(next, head', s[1..]) by { ChainTail(next, head, s); }
      assert Chain(next, head', t[1..]) by { ChainTail(next, head, t); }
      ChainUnique(next, head', s[1..], t[1..]);
      assert s == [s[0]] + s[1..] && t == [t[0]] + t[1..];
    }
  }

  lemma ChainTail(next: map<Ptr, Ptr>, head: Ptr, s: seq<Ptr>)
    requires Chain(next, head, s) && s != []
    ensures Chain(next, Load(next, s[0]), s[1..])
  {
    forall i | 0 <= i < |s[1..]| ensures Load(next, s[1..][i]) == At(s[1..], i + 1) {
      assert Load(next, s[i + 1]) == At(s, i + 2);
    }
  }

  /** Writing links of records off the chain leaves the chain alone. */
  lemma ChainFrame(next: map<Ptr, Ptr>, next': map<Ptr, Ptr>, head: Ptr, s: seq<Ptr>)
    requires Chain(next, head, s)
    requires forall p :: p in s ==> Load(next', p) == Load(next, p)
    ensures Chain(next', head, s)
  {
  }

  lemma DistinctConcat(s: seq<Ptr>, t: seq<Ptr>)
    requires Distinct(s) && Distinct(t) && forall p :: p in s ==> p !in t
    ensures Distinct(s + t)
  {
    var u := s + t;
    forall i, j | 0 <= i < j < |u| ensures u[i] != u[j] {
      assert i < |s| ==> u[i] in s;
      assert j >= |s| ==> u[j] == t[j - |s|];
    }
  }

  /** Pointing the last record of one chain at the head of another joins them. */
  lemma ChainJoin(next: map<Ptr, Ptr>, head: Ptr, s: seq<Ptr>, head': Ptr, t: seq<Ptr>)
    requires Chain(next, head, s) && Chain(next, head', t) && s != []
    requires forall p :: p in s ==> p !in t
    ensures Chain(next[Last(s) := head'], head, s + t)
  {
    var next', u := next[Last(s) := head'], s + t;
    DistinctConcat(s, t);
    forall i | 0 <= i < |u| ensures Load(next', u[i]) == At(u, i + 1) {
      if i < |s| {
        assert Load(next, s[i]) == At(s, i + 1);
      } else {
        assert u[i] == t[i - |s|] && Last(s) in s;
        assert Load(next, t[i - |s|]) == At(t, i - |s| + 1);
      }
    }
  }

  lemma DistinctInsert(s: seq<Ptr>, i: nat, p: Ptr)
    requires Distinct(s) && i <= |s| && p !in s
    ensures Distinct(s[..i] + [p] + s[i..])
  {
    var u := s[..i] + [p] + s[i..];
    assert forall k :: 0 <= k < |u| ==> u[k] == if k < i then s[k] else if k == i then p else s[k - 1];
  }

  /** Splicing a fresh record in behind position i. */
  lemma ChainInsertAfter(next: map<Ptr, Ptr>, head: Ptr, s: seq<Ptr>, i: nat, p: Ptr)
    requires Chain(next, head, s) && i < |s| && p != NULL && p !in s
    ensures Chain(next[p := At(s, i + 1)][s[i] := p], head, s[..i + 1] + [p] + s[i + 1..])
  {
    var next', u := next[p := At(s, i + 1)][s[i] := p], s[..i + 1] + [p] + s[i + 1..];
    DistinctInsert(s, i + 1, p);
    forall k | 0 <= k < |u| ensures u[k] != NULL && Load(next', u[k]) == At(u, k + 1) {
      LinkAfter(next, head, s, i, p, k);
    }
    hide Load, Distinct;
  }

  lemma LinkAfter(next: map<Ptr, Ptr>, head: Ptr, s: seq<Ptr>, i: nat, p: Ptr, k: nat)
    requires Chain(next, head, s) && i < |s| && p != NULL && p !in s && k <= |s|
    ensures var next' := next[p := At(s, i + 1)][s[i] := p];
      var at, to := if k <= i then s[k] else if k == i + 1 then p else s[k - 1], if k < i then s[k + 1] else if k == i then p else At(s, k);
      at != NULL && Load(next', at) == to
  {
    if k <= i {
      assert Load(next, s[k]) == At(s, k + 1) && s[k] != NULL;
    } else if k > i + 1 {
      assert Load(next, s[k - 1]) == At(s, k) && s[k - 1] != NULL;
      SpliceApart(s, i, k - 1);
    }
  }

  lemma SpliceApart(s: seq<Ptr>, i: nat, j: nat)
    requires Distinct(s) && i < j < |s|
    ensures s[j] != s[i]
  {
  }
}
