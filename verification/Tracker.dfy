/**
 The rabit tracker: the binary tree over the slaves, the ring that shares nodes
 with it, the relabelling that makes ring neighbours consecutive, and the
 accounting of links while ranks are handed out.
 */
module Tracker {
  import opened Finite
  import Bits
  import opened Arith
  import opened Wrappers

  // ----- The tree

  function Parent(r: int): int {
    (r + 1) / 2 - 1
  }

  function GetNeighbor(rank: int, nslave: int): seq<int> {
    var k := rank + 1;
    (if k > 1 then [k / 2 - 1] else [])
    + (if k * 2 - 1 < nslave then [k * 2 - 1] else [])
    + (if k * 2 < nslave then [k * 2] else [])
  }

  /** The neighbours of a node are its parent and the nodes it is the parent of. */
  lemma Neighbours(r: int, n: int, x: int)
    requires 0 <= r < n
    ensures x in GetNeighbor(r, n) <==> (0 < r && x == Parent(r)) || (0 < x < n && Parent(x) == r)
  {
  }

  ghost predicate TreeAt(n: int, tree: map<int, seq<int>>, parent: map<int, int>, r: int) {
    && (r in tree <==> 0 <= r < n) && (r in parent <==> 0 <= r < n)
    && (0 <= r < n ==> tree[r] == GetNeighbor(r, n) && parent[r] == Parent(r))
  }

  ghost predicate IsTree(n: int, tree: map<int, seq<int>>, parent: map<int, int>) {
    forall r {:trigger TreeAt(n, tree, parent, r)} :: TreeAt(n, tree, parent, r)
  }

  method GetTree(nslave: int) returns (tree: map<int, seq<int>>, parent: map<int, int>)
    requires nslave >= 0
    ensures IsTree(nslave, tree, parent)
  {
    tree, parent := map[], map[];
    for r := 0 to nslave
      invariant forall x :: (x in tree <==> 0 <= x < r) && (x in parent <==> 0 <= x < r)
      invariant forall x :: 0 <= x < r ==> tree[x] == GetNeighbor(x, nslave) && parent[x] == Parent(x)
    {
      tree := tree[r := GetNeighbor(r, nslave)];
      parent := parent[r := Parent(r)];
    }
  }

  /** `x` is `a` or one of its descendants. */
  ghost predicate Under(a: int, x: int)
    requires 0 <= a
    decreases x
  {
    if x <= a then x == a else Under(a, Parent(x))
  }

  lemma {:induction false} UnderRoot(x: int)
    requires 0 <= x
    ensures Under(0, x)
    decreases x
  {
    if x > 0 { UnderRoot(Parent(x)); }
  }

  /** The proper descendants of a node are those of its two children. */
  lemma {:induction false} UnderSplits(r: int, x: int)
    requires 0 <= r < x
    ensures Under(r, x) <==> Under(2 * r + 1, x) || Under(2 * r + 2, x)
    decreases x
  {
    var p := Parent(x);
    if p > r {
      UnderSplits(r, p);
    } else if p < r {
      assert x < 2 * r + 1;
    }
  }

  lemma {:induction false} SiblingsApart(a: int, b: int, x: int)
    requires 0 < a < b && Parent(a) == Parent(b)
    ensures !(Under(a, x) && Under(b, x))
    decreases x
  {
    if x > b { SiblingsApart(a, b, Parent(x)); }
  }

  // ----- The ring

  /** `xs` lists the nodes below `n` under `r`, each once. */
  ghost predicate ListsSubtree(xs: seq<int>, r: int, n: int)
    requires 0 <= r
  {
    && Distinct(xs)
    && forall x {:trigger x in xs} :: x in xs <==> x < n && Under(r, x)
  }

  /** Starts at `r` and, if longer, ends at a child of `r`. */
  ghost predicate Closes(xs: seq<int>, r: int) {
    && |xs| >= 1 && xs[0] == r
    && (|xs| > 1 ==> 0 < xs[|xs| - 1] && Parent(xs[|xs| - 1]) == r)
  }

  function Reversed(xs: seq<int>): (ys: seq<int>)
    ensures |ys| == |xs| && forall i {:trigger ys[i]} :: 0 <= i < |ys| ==> ys[i] == xs[|xs| - 1 - i]
  {
    seq(|xs|, i requires 0 <= i < |xs| => xs[|xs| - 1 - i])
  }

  lemma ReversedLists(xs: seq<int>, r: int, n: int)
    requires 0 <= r && ListsSubtree(xs, r, n)
    ensures ListsSubtree(Reversed(xs), r, n)
  {
    var ys := Reversed(xs);
    forall x ensures x in ys <==> x in xs {
      if x in xs {
        var i :| 0 <= i < |xs| && xs[i] == x;
        assert ys[|xs| - 1 - i] == x;
      }
    }
  }

  /** The part of the subtree of `r` that hangs under the children in `done`. */
  ghost predicate Reached(done: set<int>, r: int, n: int, x: int)
    requires 0 <= r
  {
    x < n && ((2 * r + 1 in done && Under(2 * r + 1, x)) || (2 * r + 2 in done && Under(2 * r + 2, x)))
  }

  ghost predicate ListsPart(xs: seq<int>, done: set<int>, r: int, n: int)
    requires 0 <= r
  {
    && Distinct(xs)
    && forall x {:trigger x in xs} :: x in xs <==> x == r || Reached(done, r, n, x)
  }

  lemma PartGrows(xs: seq<int>, done: set<int>, r: int, n: int, v: int, ys: seq<int>)
    requires 0 <= r < n && ListsPart(xs, done, r, n) && v !in done && (v == 2 * r + 1 || v == 2 * r + 2)
    requires v < n && ListsSubtree(ys, v, n)
    ensures ListsPart(xs + ys, done + {v}, r, n)
  {
    forall x | x in xs ensures x !in ys {
      SiblingsApart(2 * r + 1, 2 * r + 2, x);
    }
    var zs := xs + ys;
    forall i, j | 0 <= i < j < |zs| ensures zs[i] != zs[j] {
      assert i < |xs| ==> zs[i] in xs;
      assert j >= |xs| ==> zs[j] in ys;
    }
  }

  lemma PartIsWhole(xs: seq<int>, done: set<int>, r: int, n: int)
    requires 0 <= r < n && ListsPart(xs, done, r, n)
    requires forall c :: c == 2 * r + 1 || c == 2 * r + 2 ==> (c in done <==> c < n)
    ensures ListsSubtree(xs, r, n)
  {
    forall x ensures x in xs <==> x < n && Under(r, x) {
      if x > r { UnderSplits(r, x); }
      assert Under(2 * r + 1, x) ==> 2 * r + 1 <= x;
      assert Under(2 * r + 2, x) ==> 2 * r + 2 <= x;
    }
  }

  lemma PartStarts(r: int, n: int)
    requires 0 <= r
    ensures ListsPart([r], {}, r, n)
  {
  }

  lemma ChildrenOnly(n: int, tree: map<int, seq<int>>, parent: map<int, int>, r: int)
    requires IsTree(n, tree, parent) && 0 <= r < n
    ensures r in tree && r in parent
    ensures forall x {:trigger x in tree[r]} ::
      x in tree[r] && x != parent[r] <==> x < n && (x == 2 * r + 1 || x == 2 * r + 2)
  {
    assert TreeAt(n, tree, parent, r);
    forall x ensures x in tree[r] && x != parent[r] <==> x < n && (x == 2 * r + 1 || x == 2 * r + 2) {
      Neighbours(r, n, x);
    }
  }

  method Pick(s: set<int>) returns (x: int)
    requires s != {}
    ensures x in s
  {
    assert (forall y :: y !in s) ==> s == {};
    x :| x in s;
  }

  /** The members of a set in some order, as iterating over it gives them. */
  method Listing(s: set<int>) returns (xs: seq<int>)
    ensures Distinct(xs) && forall x {:trigger x in xs} :: x in xs <==> x in s
  {
    xs := [];
    var todo := s;
    while todo != {}
      invariant Distinct(xs) && forall x :: x in s <==> x in xs || x in todo
      invariant forall x {:trigger x in todo} :: x in todo ==> x !in xs
      decreases |todo|
    {
      var v := Pick(todo);
      todo := todo - {v};
      xs := xs + [v];
    }
  }

  /** The children are visited in an arbitrary order; the list of the last one is reversed. */
  method FindShareRing(tree: map<int, seq<int>>, parent: map<int, int>, r: int, ghost n: int) returns (rlst: seq<int>)
    requires IsTree(n, tree, parent) && 0 <= r < n
    ensures ListsSubtree(rlst, r, n) && Closes(rlst, r)
    decreases n - r
  {
    hide ListsPart, ListsSubtree, GetNeighbor, IsTree;
    ChildrenOnly(n, tree, parent, r);
    var nset := set x | x in tree[r];
    var cset := nset - {parent[r]};
    forall x ensures x in cset <==> x in tree[r] && x != parent[r] {}
    var children := Listing(cset);
    rlst := [r];
    PartStarts(r, n);
    ghost var done: set<int> := {};
    for cnt := 0 to |children|
      invariant forall x :: x in done <==> x in children[..cnt]
      invariant |rlst| >= 1 && rlst[0] == r && ListsPart(rlst, done, r, n)
      invariant cnt == |children| > 0 ==> Closes(rlst, r)
      invariant cnt == 0 ==> rlst == [r]
    {
      var v := children[cnt];
      assert v in cset && v !in children[..cnt] by { assert v in children; }
      var vlst := FindShareRing(tree, parent, v, n);
      if cnt + 1 == |children| {
        ReversedLists(vlst, v, n);
        vlst := Reversed(vlst);
      }
      PartGrows(rlst, done, r, n, v, vlst);
      done := done + {v};
      rlst := rlst + vlst;
    }
    assert children[..|children|] == children;
    PartIsWhole(rlst, done, r, n);
  }

  // ----- The ring map and the relabelling

  ghost predicate Permutation(xs: seq<int>, n: int) {
    |xs| == n && Distinct(xs) && forall x {:trigger x in xs} :: x in xs <==> 0 <= x < n
  }

  lemma SubtreeOfRoot(xs: seq<int>, n: int)
    requires n >= 1 && ListsSubtree(xs, 0, n)
    ensures Permutation(xs, n)
  {
    forall x ensures x in xs <==> 0 <= x < n {
      if x >= 0 { UnderRoot(x); }
    }
    DistinctSize(xs);
    assert Elements(xs) == Finite.Below(n);
  }

  lemma TreeSize(n: int, tree: map<int, seq<int>>, parent: map<int, int>)
    requires IsTree(n, tree, parent) && n >= 0
    ensures |tree| == n
  {
    forall r ensures r in tree.Keys <==> r in Finite.Below(n) {
      assert TreeAt(n, tree, parent, r);
    }
    assert tree.Keys == Finite.Below(n);
  }

  function Prev(i: int, n: int): (r: int)
    requires 0 <= i < n
    ensures r == if i == 0 then n - 1 else i - 1
  {
    Wraps(i + n - 1, n);
    (i + n - 1) % n
  }

  function Next(i: int, n: int): (r: int)
    requires 0 <= i < n
    ensures r == if i == n - 1 then 0 else i + 1
  {
    Wraps(i + 1, n);
    (i + 1) % n
  }

  /** The entry of the node at place `i`. */
  ghost predicate RingEdge(ring: map<int, (int, int)>, lst: seq<int>, i: int)
    requires 0 <= i < |lst|
  {
    lst[i] in ring && ring[lst[i]] == (lst[Prev(i, |lst|)], lst[Next(i, |lst|)])
  }

  ghost predicate RingOver(ring: map<int, (int, int)>, lst: seq<int>, k: int)
    requires 0 <= k <= |lst|
  {
    && (forall x {:trigger x in ring} :: x in ring ==> x in lst)
    && forall i {:trigger RingEdge(ring, lst, i)} :: 0 <= i < k ==> RingEdge(ring, lst, i)
  }

  /** The ring is one cycle through all nodes that starts at the root and closes over one of its children. */
  method GetRing(tree: map<int, seq<int>>, parent: map<int, int>, ghost n: int)
    returns (ring: map<int, (int, int)>, ghost lst: seq<int>)
    requires IsTree(n, tree, parent) && n >= 1
    ensures Permutation(lst, n) && Closes(lst, 0) && RingOver(ring, lst, n)
    ensures forall x {:trigger Inverse(ring, n, x)} :: 0 <= x < n ==> Inverse(ring, n, x)
  {
    hide IsTree, ListsSubtree, RingOver, Prev, Next;
    var rlst := FindShareRing(tree, parent, 0, n);
    lst := rlst;
    SubtreeOfRoot(rlst, n);
    TreeSize(n, tree, parent);
    var nslave := |tree|;
    ring := map[];
    RingStarts(rlst);
    for r := 0 to nslave
      invariant RingOver(ring, rlst, r)
    {
      ghost var before := ring;
      ring := ring[rlst[r] := (rlst[Prev(r, nslave)], rlst[Next(r, nslave)])];
      RingGrows(before, rlst, r, n);
    }
    forall x | 0 <= x < n ensures Inverse(ring, n, x) {
      NextThenPrev(ring, rlst, n, x);
    }
  }

  /** The node after `x` has `x` before it. */
  ghost predicate Inverse(ring: map<int, (int, int)>, n: int, x: int) {
    x in ring && 0 <= ring[x].0 < n && 0 <= ring[x].1 < n && ring[x].1 in ring && ring[ring[x].1].0 == x
  }

  lemma NextThenPrev(ring: map<int, (int, int)>, lst: seq<int>, n: int, x: int)
    requires Permutation(lst, n) && RingOver(ring, lst, n) && 0 <= x < n
    ensures Inverse(ring, n, x)
  {
    InRange(lst, n);
    assert x in lst;
    var i :| 0 <= i < n && lst[i] == x;
    assert RingEdge(ring, lst, i) && RingEdge(ring, lst, Next(i, n));
  }

  lemma RingStarts(lst: seq<int>)
    ensures RingOver(map[], lst, 0)
  {
  }

  lemma RingGrows(ring: map<int, (int, int)>, lst: seq<int>, r: int, n: int)
    requires Permutation(lst, n) && 0 <= r < n && RingOver(ring, lst, r)
    ensures RingOver(ring[lst[r] := (lst[Prev(r, n)], lst[Next(r, n)])], lst, r + 1)
  {
    hide Prev, Next;
    var ring1 := ring[lst[r] := (lst[Prev(r, n)], lst[Next(r, n)])];
    forall i | 0 <= i < r + 1 ensures RingEdge(ring1, lst, i) {
      assert i < r ==> RingEdge(ring, lst, i) && lst[i] != lst[r];
    }
  }

  /** The node reached from `x` after `k` steps along the ring. */
  ghost function Follow(ring: map<int, (int, int)>, x: int, k: nat): int {
    if k == 0 then x
    else var y := Follow(ring, x, k - 1); if y in ring then ring[y].1 else -1
  }

  /** From the root the ring visits every node once and then comes back. */
  lemma {:induction false} OneCycle(ring: map<int, (int, int)>, lst: seq<int>, n: int, k: nat)
    requires Permutation(lst, n) && n >= 1 && lst[0] == 0 && RingOver(ring, lst, n) && k <= n
    ensures Follow(ring, 0, k) == if k < n then lst[k] else 0
  {
    if k > 0 {
      OneCycle(ring, lst, n, k - 1);
      assert RingEdge(ring, lst, k - 1);
    }
  }

  /** `rmap` gives each node its place on the ring. */
  ghost predicate PlaceOf(rmap: map<int, int>, lst: seq<int>, i: int)
    requires 0 <= i < |lst|
  {
    lst[i] in rmap && rmap[lst[i]] == i
  }

  ghost predicate Relabels(rmap: map<int, int>, lst: seq<int>, k: int)
    requires 0 <= k <= |lst|
  {
    forall i {:trigger PlaceOf(rmap, lst, i)} :: 0 <= i < k ==> PlaceOf(rmap, lst, i)
  }

  method WalkRing(ring: map<int, (int, int)>, nslave: int, ghost lst: seq<int>) returns (rmap: map<int, int>)
    requires nslave >= 1 && Permutation(lst, nslave) && lst[0] == 0 && RingOver(ring, lst, nslave)
    ensures Relabels(rmap, lst, nslave)
  {
    hide Prev, Next, Relabels;
    rmap := map[0 := 0];
    var k := 0;
    RelabelStarts(lst);
    for i := 0 to nslave - 1
      invariant k == lst[i] && Relabels(rmap, lst, i + 1)
    {
      assert RingEdge(ring, lst, i);
      k := ring[k].1;
      RelabelGrows(rmap, lst, i + 1, nslave);
      rmap := rmap[k := i + 1];
    }
  }

  lemma RelabelStarts(lst: seq<int>)
    requires |lst| >= 1 && lst[0] == 0
    ensures Relabels(map[0 := 0], lst, 1)
  {
  }

  lemma RelabelGrows(rmap: map<int, int>, lst: seq<int>, i: int, n: int)
    requires Permutation(lst, n) && 0 <= i < n && Relabels(rmap, lst, i)
    ensures Relabels(rmap[lst[i] := i], lst, i + 1)
  {
    var rmap1 := rmap[lst[i] := i];
    forall j | 0 <= j < i + 1 ensures PlaceOf(rmap1, lst, j) {
      assert j < i ==> PlaceOf(rmap, lst, j) && lst[j] != lst[i];
    }
  }

  /** Every node has a place. */
  lemma Placed(rmap: map<int, int>, lst: seq<int>, n: int, k: int)
    requires Permutation(lst, n) && Relabels(rmap, lst, n) && 0 <= k < n
    ensures k in rmap && 0 <= rmap[k] < n && lst[rmap[k]] == k
  {
    assert k in lst;
    var i :| 0 <= i < n && lst[i] == k;
    assert PlaceOf(rmap, lst, i);
  }

  ghost predicate RingLabel(ring: map<int, (int, int)>, n: int, i: int) {
    (i in ring <==> 0 <= i < n) && (0 <= i < n ==> ring[i] == (Prev(i, n), Next(i, n)))
  }

  /** Entry `i` is filled once the node at that place has been visited. */
  ghost predicate RingLabelled(ring: map<int, (int, int)>, lst: seq<int>, k: int, i: int) {
    && (i in ring <==> 0 <= i < |lst| && lst[i] < k)
    && (i in ring ==> ring[i] == (Prev(i, |lst|), Next(i, |lst|)))
  }

  /** After relabelling, ring neighbours are the numbers before and after. */
  method RelabelRing(ring: map<int, (int, int)>, rmap: map<int, int>, nslave: int, ghost lst: seq<int>)
    returns (r: map<int, (int, int)>)
    requires nslave >= 1 && Permutation(lst, nslave) && RingOver(ring, lst, nslave) && Relabels(rmap, lst, nslave)
    ensures forall i {:trigger RingLabel(r, nslave, i)} :: RingLabel(r, nslave, i)
  {
    hide Prev, Next, Permutation;
    r := map[];
    InRange(lst, nslave);
    for k := 0 to nslave
      invariant forall i {:trigger RingLabelled(r, lst, k, i)} :: RingLabelled(r, lst, k, i)
    {
      Placed(rmap, lst, nslave, k);
      ghost var i, before, done := rmap[k], r, k + 1;
      assert RingEdge(ring, lst, i);
      var v := ring[k];
      assert PlaceOf(rmap, lst, Prev(i, nslave)) && PlaceOf(rmap, lst, Next(i, nslave));
      r := r[rmap[k] := (rmap[v.0], rmap[v.1])];
      forall j ensures RingLabelled(r, lst, done, j) {
        assert RingLabelled(before, lst, k, j);
        OnlyPlace(lst, nslave, i, j);
      }
    }
    forall i ensures RingLabel(r, nslave, i) {
      assert RingLabelled(r, lst, nslave, i);
    }
  }

  lemma InRange(lst: seq<int>, n: int)
    requires Permutation(lst, n)
    ensures |lst| == n && forall i {:trigger lst[i]} :: 0 <= i < n ==> 0 <= lst[i] < n
  {
    forall i | 0 <= i < n ensures 0 <= lst[i] < n {
      assert lst[i] in lst;
    }
  }

  lemma OnlyPlace(lst: seq<int>, n: int, i: int, j: int)
    requires Permutation(lst, n) && 0 <= i < n
    ensures 0 <= j < n && lst[i] == lst[j] ==> i == j
  {
  }

  /** Places `ys` name the nodes `xs`. */
  ghost predicate Names(lst: seq<int>, ys: seq<int>, xs: seq<int>) {
    |ys| == |xs| && forall j {:trigger ys[j]} :: 0 <= j < |ys| ==> 0 <= ys[j] < |lst| && lst[ys[j]] == xs[j]
  }

  method RelabelList(rmap: map<int, int>, v: seq<int>, ghost lst: seq<int>, ghost n: int) returns (r: seq<int>)
    requires Permutation(lst, n) && Relabels(rmap, lst, n)
    requires forall j :: 0 <= j < |v| ==> 0 <= v[j] < n
    ensures Names(lst, r, v)
  {
    hide Permutation, Relabels;
    r := [];
    for j := 0 to |v|
      invariant Names(lst, r, v[..j])
    {
      Placed(rmap, lst, n, v[j]);
      assert |lst| == n by { InRange(lst, n); }
      r := r + [rmap[v[j]]];
    }
    assert v[..|v|] == v;
  }

  /** The tree over places is the tree over nodes: isomorphic under `lst`. */
  ghost predicate TreeLabel(tree: map<int, seq<int>>, parent: map<int, int>, lst: seq<int>, i: int) {
    && (i in tree <==> 0 <= i < |lst|) && (i in parent <==> 0 <= i < |lst|)
    && (0 <= i < |lst| ==>
          && Names(lst, tree[i], GetNeighbor(lst[i], |lst|))
          && if lst[i] == 0 then parent[i] == -1 else 0 <= parent[i] < |lst| && lst[parent[i]] == Parent(lst[i]))
  }

  /** Entry `i` is filled once the node at that place has been visited. */
  ghost predicate TreeLabelled(tree: map<int, seq<int>>, lst: seq<int>, k: int, i: int) {
    && (i in tree <==> 0 <= i < |lst| && lst[i] < k)
    && (i in tree ==> Names(lst, tree[i], GetNeighbor(lst[i], |lst|)))
  }

  method RelabelTree(tree: map<int, seq<int>>, ghost parent: map<int, int>, rmap: map<int, int>, nslave: int, ghost lst: seq<int>)
    returns (t: map<int, seq<int>>)
    requires nslave >= 1 && IsTree(nslave, tree, parent) && Permutation(lst, nslave) && Relabels(rmap, lst, nslave)
    ensures forall i {:trigger TreeLabelled(t, lst, nslave, i)} :: TreeLabelled(t, lst, nslave, i)
  {
    hide Permutation, Relabels, Names, GetNeighbor;
    t := map[];
    InRange(lst, nslave);
    for k := 0 to nslave
      invariant forall i {:trigger TreeLabelled(t, lst, k, i)} :: TreeLabelled(t, lst, k, i)
    {
      assert TreeAt(nslave, tree, parent, k);
      NeighboursInRange(k, nslave);
      Placed(rmap, lst, nslave, k);
      var v := RelabelList(rmap, tree[k], lst, nslave);
      ghost var i, before, done := rmap[k], t, k + 1;
      t := t[rmap[k] := v];
      forall j ensures TreeLabelled(t, lst, done, j) {
        assert TreeLabelled(before, lst, k, j);
        OnlyPlace(lst, nslave, i, j);
      }
    }
  }

  lemma NeighboursInRange(r: int, n: int)
    requires 0 <= r < n
    ensures forall j {:trigger GetNeighbor(r, n)[j]} :: 0 <= j < |GetNeighbor(r, n)| ==> 0 <= GetNeighbor(r, n)[j] < n
  {
  }

  ghost predicate ParentLabelled(parent: map<int, int>, lst: seq<int>, k: int, i: int) {
    && (i in parent <==> 0 <= i < |lst| && lst[i] < k)
    && (i in parent ==>
          if lst[i] == 0 then parent[i] == -1 else 0 <= parent[i] < |lst| && lst[parent[i]] == Parent(lst[i]))
  }

  method RelabelParent(ghost tree: map<int, seq<int>>, parent: map<int, int>, rmap: map<int, int>, nslave: int, ghost lst: seq<int>)
    returns (p: map<int, int>)
    requires nslave >= 1 && IsTree(nslave, tree, parent) && Permutation(lst, nslave) && Relabels(rmap, lst, nslave)
    ensures forall i {:trigger ParentLabelled(p, lst, nslave, i)} :: ParentLabelled(p, lst, nslave, i)
  {
    hide Permutation, Relabels, GetNeighbor;
    p := map[];
    InRange(lst, nslave);
    for k := 0 to nslave
      invariant forall i {:trigger ParentLabelled(p, lst, k, i)} :: ParentLabelled(p, lst, k, i)
    {
      assert TreeAt(nslave, tree, parent, k);
      Placed(rmap, lst, nslave, k);
      ghost var i, before, done := rmap[k], p, k + 1;
      if k != 0 {
        Placed(rmap, lst, nslave, parent[k]);
        p := p[rmap[k] := rmap[parent[k]]];
      } else {
        p := p[rmap[k] := -1];
      }
      forall j ensures ParentLabelled(p, lst, done, j) {
        assert ParentLabelled(before, lst, k, j);
        OnlyPlace(lst, nslave, i, j);
      }
    }
  }

  /**
   `lst` is the ring of nodes: place `i` of the result stands for node `lst[i]`.
   Ring neighbours are consecutive places, tree and parents are those of the nodes.
   */
  method GetLinkMap(nslave: int)
    returns (tree: map<int, seq<int>>, parent: map<int, int>, ring: map<int, (int, int)>, ghost lst: seq<int>)
    requires nslave >= 1
    ensures Permutation(lst, nslave) && Closes(lst, 0)
    ensures forall i {:trigger RingLabel(ring, nslave, i)} :: RingLabel(ring, nslave, i)
    ensures forall i {:trigger TreeLabel(tree, parent, lst, i)} :: TreeLabel(tree, parent, lst, i)
  {
    hide IsTree, RingOver, Relabels, Names;
    var tree0, parent0 := GetTree(nslave);
    var ring0;
    ring0, lst := GetRing(tree0, parent0, nslave);
    var rmap := WalkRing(ring0, nslave, lst);
    ring := RelabelRing(ring0, rmap, nslave, lst);
    tree := RelabelTree(tree0, parent0, rmap, nslave, lst);
    parent := RelabelParent(tree0, parent0, rmap, nslave, lst);
    forall i ensures TreeLabel(tree, parent, lst, i) {
      assert TreeLabelled(tree, lst, nslave, i) && ParentLabelled(parent, lst, nslave, i);
      InRange(lst, nslave);
    }
  }

  // ----- Links

  /** The link set of assign_rank: tree neighbours and the two ring neighbours, if they are others. */
  function LinkSet(tree: map<int, seq<int>>, ring: map<int, (int, int)>, rank: int): set<int>
    requires rank in tree && rank in ring
  {
    (set x | x in tree[rank])
    + (if ring[rank].0 != -1 && ring[rank].0 != rank then {ring[rank].0} else {})
    + (if ring[rank].1 != -1 && ring[rank].1 != rank then {ring[rank].1} else {})
  }

  lemma NamesMember(lst: seq<int>, ys: seq<int>, xs: seq<int>, y: int)
    requires Names(lst, ys, xs) && Distinct(lst)
    ensures y in ys <==> 0 <= y < |lst| && lst[y] in xs
  {
    if 0 <= y < |lst| && lst[y] in xs {
      var j :| 0 <= j < |xs| && xs[j] == lst[y];
      assert lst[ys[j]] == lst[y];
    }
  }

  /** Links are symmetric, never to itself, and stay among the ranks. */
  lemma LinksSymmetric(tree: map<int, seq<int>>, parent: map<int, int>, ring: map<int, (int, int)>, lst: seq<int>, n: int, x: int, y: int)
    requires n >= 1 && Permutation(lst, n)
    requires forall i {:trigger RingLabel(ring, n, i)} :: RingLabel(ring, n, i)
    requires forall i {:trigger TreeLabel(tree, parent, lst, i)} :: TreeLabel(tree, parent, lst, i)
    requires 0 <= x < n
    ensures x in tree && x in ring
    ensures y in LinkSet(tree, ring, x) ==>
      && 0 <= y < n && y != x && y in tree && y in ring && x in LinkSet(tree, ring, y)
  {
    hide GetNeighbor, Names, Parent, Permutation;
    InRange(lst, n);
    assert RingLabel(ring, n, x) && TreeLabel(tree, parent, lst, x);
    assert RingLabel(ring, n, y) && TreeLabel(tree, parent, lst, y);
    if y in tree[x] {
      TreeLinkSymmetric(tree, parent, lst, n, x, y);
    }
  }

  lemma TreeLinkSymmetric(tree: map<int, seq<int>>, parent: map<int, int>, lst: seq<int>, n: int, x: int, y: int)
    requires Permutation(lst, n) && 0 <= x < n
    requires TreeLabel(tree, parent, lst, x) && TreeLabel(tree, parent, lst, y)
    requires y in tree[x]
    ensures 0 <= y < n && y != x && x in tree[y]
  {
    InRange(lst, n);
    NamesMember(lst, tree[x], GetNeighbor(lst[x], n), y);
    NamesMember(lst, tree[y], GetNeighbor(lst[y], n), x);
    Neighbours(lst[x], n, lst[y]);
    Neighbours(lst[y], n, lst[x]);
  }

  /** Two places are tree neighbours exactly when their nodes are. */
  lemma TreeIsomorphic(tree: map<int, seq<int>>, parent: map<int, int>, lst: seq<int>, n: int, x: int, y: int)
    requires Permutation(lst, n) && 0 <= x < n && 0 <= y < n && TreeLabel(tree, parent, lst, x)
    ensures y in tree[x] <==> lst[y] in GetNeighbor(lst[x], n)
    ensures parent[x] == y <==> 0 < lst[x] && Parent(lst[x]) == lst[y]
  {
    InRange(lst, n);
    NamesMember(lst, tree[x], GetNeighbor(lst[x], n), y);
  }

  // ----- Handing out ranks

  ghost predicate Symmetric(links: seq<set<int>>) {
    forall x, y {:trigger y in links[x]} :: 0 <= x < |links| && y in links[x] ==>
      0 <= y < |links| && y != x && x in links[y]
  }

  /** The links of `r` to ranks not yet handed out. */
  ghost function Later(links: seq<set<int>>, r: int, t: int): set<int>
    requires 0 <= r < |links|
  {
    set y | y in links[r] && y >= t
  }

  ghost predicate EntryOk(wait: map<int, int>, links: seq<set<int>>, t: int, r: int)
    requires 0 <= t <= |links|
  {
    && (r in wait <==> 0 <= r < t && Later(links, r, t) != {})
    && (r in wait ==> wait[r] == |Later(links, r, t)|)
  }

  /** After ranks below `t`: exactly those with a later link wait, for as many as they have. */
  ghost predicate Accounts(wait: map<int, int>, links: seq<set<int>>, t: int) {
    0 <= t <= |links| && forall r {:trigger EntryOk(wait, links, t, r)} :: EntryOk(wait, links, t, r)
  }

  /** The links that the new rank can dial are those to earlier ranks. */
  lemma DialledAreEarlier(wait: map<int, int>, links: seq<set<int>>, t: int, r: int)
    requires Symmetric(links) && Accounts(wait, links, t) && t < |links| && r in links[t]
    ensures 0 <= r < |links| && (r in wait <==> r < t)
  {
    assert EntryOk(wait, links, t, r) && t in links[r];
    assert r < t ==> t in Later(links, r, t);
  }

  lemma LaterShrinks(links: seq<set<int>>, r: int, t: int)
    requires 0 <= r < |links|
    ensures t in links[r] ==> |Later(links, r, t)| == |Later(links, r, t + 1)| + 1
    ensures t !in links[r] ==> Later(links, r, t) == Later(links, r, t + 1)
  {
    if t in links[r] {
      assert Later(links, r, t) == Later(links, r, t + 1) + {t};
    }
  }

  lemma EarlierOrLater(links: seq<set<int>>, t: int, dialled: set<int>)
    requires Symmetric(links) && 0 <= t < |links|
    requires forall r {:trigger r in dialled} :: r in dialled <==> r in links[t] && r < t
    ensures |links[t]| - |dialled| == |Later(links, t, t + 1)|
  {
    var later := Later(links, t, t + 1);
    forall y ensures y in links[t] <==> y in dialled || y in later {
      assert y in dialled <==> y in links[t] && y < t;
    }
    assert links[t] == dialled + later;
  }

  /** What one rank does to the table of waiting ranks. */
  ghost predicate EntryAfter(before: map<int, int>, after: map<int, int>, dialled: seq<int>, r: int) {
    && (r in after <==> r in before && (r in dialled ==> before[r] != 1))
    && (r in after ==> after[r] == if r in dialled then before[r] - 1 else before[r])
  }

  /** One more rank: it dials exactly its earlier links, and the table accounts for the rest. */
  lemma RankKeeps(before: map<int, int>, after: map<int, int>, links: seq<set<int>>, t: int, conset: seq<int>, w: int)
    requires Symmetric(links) && Accounts(before, links, t) && t < |links|
    requires Distinct(conset) && w == |links[t]| - |conset|
    requires forall r {:trigger r in conset} :: r in conset <==> r in links[t] && r in before
    requires forall r {:trigger EntryAfter(before, after, conset, r)} :: EntryAfter(before, after, conset, r)
    ensures forall r {:trigger r in conset} :: r in conset <==> r in links[t] && r < t
    ensures Accounts(if w > 0 then after[t := w] else after, links, t + 1)
  {
    hide Later;
    forall r ensures r in conset <==> r in links[t] && r < t {
      if r in links[t] { DialledAreEarlier(before, links, t, r); }
    }
    assert w == |Later(links, t, t + 1)| by {
      DistinctSize(conset);
      EarlierOrLater(links, t, Elements(conset));
    }
    var wait, t1 := if w > 0 then after[t := w] else after, t + 1;
    forall r ensures EntryOk(wait, links, t1, r) {
      assert EntryOk(before, links, t, r) && EntryAfter(before, after, conset, r);
      if 0 <= r < t {
        LaterShrinks(links, r, t);
        EntryStep(links, t, conset, r);
      }
    }
  }

  /**
   When the slave reports links it already has, because an earlier attempt failed half way,
   the accounting is right exactly when there are none: a rank it keeps a link to goes on
   waiting for it, and a later rank it counts as linked is not waited for.
   */
  lemma AccountsIffNoneKept(before: map<int, int>, after: map<int, int>, links: seq<set<int>>, t: int, good: set<int>,
                            conset: seq<int>, w: int)
    requires Symmetric(links) && Accounts(before, links, t) && t < |links| && good <= links[t]
    requires Distinct(conset) && w == |links[t] - good| - |conset|
    requires forall r {:trigger r in conset} :: r in conset <==> r in links[t] - good && r in before
    requires forall r {:trigger EntryAfter(before, after, conset, r)} :: EntryAfter(before, after, conset, r)
    ensures Accounts(if w > 0 then after[t := w] else after, links, t + 1) <==> good == {}
  {
    if good == {} {
      assert links[t] - good == links[t];
      RankKeeps(before, after, links, t, conset, w);
    } else {
      assert (forall y :: y !in good) ==> good == {};
      var x :| x in good;
      KeptLinkBreaks(before, after, links, t, good, conset, w, x);
    }
  }

  lemma KeptLinkBreaks(before: map<int, int>, after: map<int, int>, links: seq<set<int>>, t: int, good: set<int>,
                       conset: seq<int>, w: int, x: int)
    requires Symmetric(links) && Accounts(before, links, t) && t < |links| && good <= links[t] && x in good
    requires Distinct(conset) && w == |links[t] - good| - |conset|
    requires forall r {:trigger r in conset} :: r in conset <==> r in links[t] - good && r in before
    requires forall r {:trigger EntryAfter(before, after, conset, r)} :: EntryAfter(before, after, conset, r)
    ensures !Accounts(if w > 0 then after[t := w] else after, links, t + 1)
  {
    hide Later;
    var wait, t1 := if w > 0 then after[t := w] else after, t + 1;
    DialledAreEarlier(before, links, t, x);
    assert EntryOk(before, links, t, x) && EntryAfter(before, after, conset, x);
    assert t in links[x];
    assert x !in conset;
    if x < t {
      LaterShrinks(links, x, t);
      assert !EntryOk(wait, links, t1, x);
    } else {
      assert EntryOk(before, links, t, t) && EntryAfter(before, after, conset, t);
      TooFewLater(before, links, t, good, conset, x);
      assert x in Later(links, t, t1) by { IsLater(links, t, x); }
      assert !EntryOk(wait, links, t1, t);
    }
  }

  lemma IsLater(links: seq<set<int>>, t: int, x: int)
    requires 0 <= t < |links| && x in links[t] && x > t
    ensures x in Later(links, t, t + 1)
  {
  }

  lemma TooFewLater(before: map<int, int>, links: seq<set<int>>, t: int, good: set<int>, conset: seq<int>, x: int)
    requires Symmetric(links) && Accounts(before, links, t) && t < |links| && x in good && x in links[t] && x > t
    requires Distinct(conset) && forall r {:trigger r in conset} :: r in conset <==> r in links[t] - good && r in before
    ensures |links[t] - good| - |conset| < |Later(links, t, t + 1)|
  {
    DistinctSize(conset);
    var later := Later(links, t, t + 1);
    var some := links[t] - good - Elements(conset);
    forall y | y in some ensures y in later {
      DialledAreEarlier(before, links, t, y);
      assert y in conset <==> y in links[t] - good && y in before;
    }
    forall y | y in Elements(conset) ensures y in links[t] - good {
      assert y in conset;
    }
    assert links[t] - good == some + Elements(conset);
    assert x in later && x !in some;
    SubsetSize(some, later - {x});
  }

  lemma EntryStep(links: seq<set<int>>, t: int, conset: seq<int>, r: int)
    requires Symmetric(links) && 0 <= r < t < |links|
    requires forall r {:trigger r in conset} :: r in conset <==> r in links[t] && r < t
    ensures r in conset <==> t in links[r]
  {
  }

  lemma AccountsAtStart(links: seq<set<int>>)
    ensures Accounts(map[], links, 0)
  {
  }

  lemma NobodyWaits(wait: map<int, int>, links: seq<set<int>>)
    requires Symmetric(links) && Accounts(wait, links, |links|)
    ensures wait == map[]
  {
    forall r ensures r !in wait {
      assert EntryOk(wait, links, |links|, r);
      assert 0 <= r < |links| ==> Later(links, r, |links|) == {};
    }
  }

  /** What a slave reports in one round: the links it has, and how many it failed to make. */
  datatype Attempt = Attempt(good: set<int>, nerr: int)

  /** Refused: a reported link is none, or the slave never gets done. */
  datatype Assignment = Assigned(conset: seq<int>, waitAccept: int) | Refused

  /** The links reported in the first round without errors. */
  ghost function Decided(links: set<int>, attempts: seq<Attempt>): Option<set<int>> {
    if attempts == [] || !(attempts[0].good <= links) then None
    else if attempts[0].nerr == 0 then Some(attempts[0].good)
    else Decided(links, attempts[1..])
  }

  /** Round `k` is the first without errors, and no link reported up to then is a stranger. */
  ghost predicate FirstClean(links: set<int>, attempts: seq<Attempt>, k: int) {
    && 0 <= k < |attempts| && attempts[k].nerr == 0
    && (forall j {:trigger attempts[j]} :: 0 <= j <= k ==> attempts[j].good <= links && (j < k ==> attempts[j].nerr != 0))
  }

  lemma {:induction false} DecidedIff(links: set<int>, attempts: seq<Attempt>, good: set<int>) returns (k: int)
    ensures Decided(links, attempts) == Some(good) <==> FirstClean(links, attempts, k) && attempts[k].good == good
    ensures Decided(links, attempts).None? ==> forall j {:trigger FirstClean(links, attempts, j)} :: !FirstClean(links, attempts, j)
  {
    k := 0;
    if attempts != [] && attempts[0].good <= links && attempts[0].nerr != 0 {
      var rest := attempts[1..];
      k := DecidedIff(links, rest, good);
      assert forall j {:trigger attempts[j]} :: 0 < j < |attempts| ==> attempts[j] == rest[j - 1];
      forall j ensures FirstClean(links, attempts, j) <==> FirstClean(links, rest, j - 1) {
        assert FirstClean(links, attempts, j) ==> forall i {:trigger rest[i]} :: 0 <= i <= j - 1 ==> rest[i] == attempts[i + 1];
      }
      k := k + 1;
    }
  }

  /** The slave gets done, and in no round does it have a link already. */
  ghost predicate FreshDial(attempts: seq<Attempt>) {
    && (forall k {:trigger attempts[k]} :: 0 <= k < |attempts| ==> attempts[k].good == {})
    && exists k {:trigger attempts[k]} :: 0 <= k < |attempts| && attempts[k].nerr == 0
  }

  lemma {:induction false} FreshDecides(links: set<int>, attempts: seq<Attempt>)
    requires FreshDial(attempts)
    ensures Decided(links, attempts) == Some({})
    decreases |attempts|
  {
    if attempts[0].nerr != 0 {
      var k :| 0 <= k < |attempts| && attempts[k].nerr == 0;
      assert attempts[1..][k - 1] == attempts[k];
      FreshDecides(links, attempts[1..]);
    }
  }

  class RabitTracker {
    var waitConn: map<int, int>          // rank -> links it still has to accept
    var todoNodes: seq<int>
    var jobMap: map<string, int>

    constructor (nslave: int)
      requires nslave >= 0
      ensures waitConn == map[] && jobMap == map[] && todoNodes == seq(nslave, i => i)
    {
      waitConn, jobMap, todoNodes := map[], map[], seq(nslave, i => i);
    }

    /** The waiting ranks among the links still to be made. */
    method DialSet(badset: set<int>) returns (conset: seq<int>)
      ensures Distinct(conset) && forall r {:trigger r in conset} :: r in conset <==> r in badset && r in waitConn
    {
      var order := Listing(badset);
      conset := [];
      for i := 0 to |order|
        invariant Distinct(conset)
        invariant forall r {:trigger r in conset} :: r in conset <==> r in order[..i] && r in waitConn
      {
        var v := order[i];
        assert order[..i + 1] == order[..i] + [v] && v !in order[..i];
        if v in waitConn {
          assert v !in conset;
          conset := conset + [v];
        }
      }
      assert order[..|order|] == order;
    }

    /**
     The new rank dials the waiting ranks among the links it does not have yet and waits for
     the others; nothing changes before an attempt without errors.
     */
    method AssignRank(links: set<int>, attempts: seq<Attempt>) returns (r: Assignment)
      modifies this`waitConn
      ensures r.Assigned? <==> Decided(links, attempts).Some?
      ensures !r.Assigned? ==> waitConn == old(waitConn)
      ensures r.Assigned? ==>
        var bad := links - Decided(links, attempts).value;
        && Distinct(r.conset) && (forall x {:trigger x in r.conset} :: x in r.conset <==> x in bad && x in old(waitConn))
        && r.waitAccept == |bad| - |r.conset|
        && forall x {:trigger EntryAfter(old(waitConn), waitConn, r.conset, x)} :: EntryAfter(old(waitConn), waitConn, r.conset, x)
    {
      for k := 0 to |attempts|
        invariant waitConn == old(waitConn) && Decided(links, attempts) == Decided(links, attempts[k..])
      {
        if !(attempts[k].good <= links) {
          return Refused;
        }
        var badset := links - attempts[k].good;
        var conset := DialSet(badset);
        if attempts[k].nerr == 0 {
          var rmset := CountDown(conset);
          Forget(rmset);
          forall x ensures EntryAfter(old(waitConn), waitConn, conset, x) {}
          return Assigned(conset, |badset| - |conset|);
        }
      }
      r := Refused;
    }

    /**
     The batch assignment of ranks: every slave dials exactly its links to earlier
     ranks, the table is as `Accounts` says after each rank, and nobody is left waiting.
     */
    method StartAll(pending: seq<string>, reports: seq<seq<Attempt>>, tree: map<int, seq<int>>, ring: map<int, (int, int)>,
                    ghost links: seq<set<int>>)
      returns (dialled: seq<seq<int>>)
      requires waitConn == map[] && jobMap == map[] && |links| == |pending| && todoNodes == seq(|pending|, i => i)
      requires Symmetric(links)
      requires |reports| == |pending| && forall t {:trigger reports[t]} :: 0 <= t < |reports| ==> FreshDial(reports[t])
      requires forall r {:trigger links[r]} :: 0 <= r < |links| ==> r in tree && r in ring && links[r] == LinkSet(tree, ring, r)
      modifies this
      ensures waitConn == map[] && todoNodes == [] && |dialled| == |links|
      ensures forall t {:trigger dialled[t]} :: 0 <= t < |links| ==>
        Distinct(dialled[t]) && forall r :: r in dialled[t] <==> r in links[t] && r < t
      ensures forall j {:trigger jobMap[j]} :: j in jobMap ==> 0 <= jobMap[j] < |pending| && pending[jobMap[j]] == j != "NULL"
      ensures forall i {:trigger pending[i]} :: 0 <= i < |pending| && pending[i] != "NULL" ==>
        pending[i] in jobMap && i <= jobMap[pending[i]]
    {
      hide LinkSet, Symmetric, Accounts, EntryAfter, FreshDial, Decided;
      dialled := [];
      AccountsAtStart(links);
      for t := 0 to |pending|
        invariant |todoNodes| == |pending| - t && forall i {:trigger todoNodes[i]} :: 0 <= i < |todoNodes| ==> todoNodes[i] == t + i
        invariant Accounts(waitConn, links, t) && |dialled| == t
        invariant forall i {:trigger dialled[i]} :: 0 <= i < t ==>
          Distinct(dialled[i]) && forall r :: r in dialled[i] <==> r in links[i] && r < i
        invariant forall j {:trigger jobMap[j]} :: j in jobMap ==> 0 <= jobMap[j] < t && pending[jobMap[j]] == j != "NULL"
        invariant forall i {:trigger pending[i]} :: 0 <= i < t && pending[i] != "NULL" ==>
          pending[i] in jobMap && i <= jobMap[pending[i]]
      {
        var rank := todoNodes[0];
        todoNodes := todoNodes[1..];
        if pending[t] != "NULL" {
          jobMap := jobMap[pending[t] := rank];
        }
        ghost var before := waitConn;
        ghost var linked := links[rank];
        FreshDecides(linked, reports[t]);
        assert linked - {} == linked;
        var got := AssignRank(LinkSet(tree, ring, rank), reports[t]);
        RankKeeps(before, waitConn, links, t, got.conset, got.waitAccept);
        if got.waitAccept > 0 {
          waitConn := waitConn[rank := got.waitAccept];
        }
        dialled := dialled + [got.conset];
      }
      NobodyWaits(waitConn, links);
    }

    method CountDown(conset: seq<int>) returns (rmset: seq<int>)
      requires Distinct(conset) && forall r {:trigger r in conset} :: r in conset ==> r in waitConn
      modifies this`waitConn
      ensures forall r {:trigger r in waitConn} :: r in waitConn <==> r in old(waitConn)
      ensures forall r {:trigger waitConn[r]} :: r in waitConn ==>
        waitConn[r] == if r in conset then old(waitConn)[r] - 1 else old(waitConn)[r]
      ensures forall r {:trigger r in rmset} :: r in rmset <==> r in conset && old(waitConn)[r] == 1
    {
      rmset := [];
      for i := 0 to |conset|
        invariant forall r {:trigger r in waitConn} :: r in waitConn <==> r in old(waitConn)
        invariant forall r {:trigger waitConn[r]} :: r in waitConn ==>
          waitConn[r] == if r in conset[..i] then old(waitConn)[r] - 1 else old(waitConn)[r]
        invariant forall r {:trigger r in rmset} :: r in rmset <==> r in conset[..i] && r in old(waitConn) && old(waitConn)[r] == 1
      {
        var r := conset[i];
        assert r in conset && r !in conset[..i] && conset[..i + 1] == conset[..i] + [r];
        waitConn := waitConn[r := waitConn[r] - 1];
        if waitConn[r] == 0 {
          rmset := rmset + [r];
        }
      }
      assert conset[..|conset|] == conset;
    }

    method Forget(rmset: seq<int>)
      modifies this`waitConn
      ensures forall r {:trigger r in waitConn} :: r in waitConn <==> r in old(waitConn) && r !in rmset
      ensures forall r {:trigger waitConn[r]} :: r in waitConn ==> waitConn[r] == old(waitConn)[r]
    {
      for i := 0 to |rmset|
        invariant forall r {:trigger r in waitConn} :: r in waitConn <==> r in old(waitConn) && r !in rmset[..i]
        invariant forall r {:trigger waitConn[r]} :: r in waitConn ==> waitConn[r] == old(waitConn)[r]
      {
        assert rmset[..i + 1] == rmset[..i] + [rmset[i]];
        waitConn := waitConn - {rmset[i]};
      }
      assert rmset[..|rmset|] == rmset;
    }
  }

  /** The link sets of all ranks are symmetric. */
  lemma LinkSetsSymmetric(tree: map<int, seq<int>>, parent: map<int, int>, ring: map<int, (int, int)>, lst: seq<int>, n: int,
                          links: seq<set<int>>)
    requires n >= 1 && Permutation(lst, n)
    requires forall i {:trigger RingLabel(ring, n, i)} :: RingLabel(ring, n, i)
    requires forall i {:trigger TreeLabel(tree, parent, lst, i)} :: TreeLabel(tree, parent, lst, i)
    requires |links| == n
    requires forall r {:trigger links[r]} :: 0 <= r < n ==> r in tree && r in ring && links[r] == LinkSet(tree, ring, r)
    ensures Symmetric(links)
  {
    hide LinkSet, RingLabel, TreeLabel, Permutation;
    forall x, y {:trigger y in links[x]} | 0 <= x < n && y in links[x] ensures 0 <= y < n && y != x && x in links[y] {
      LinksSymmetric(tree, parent, ring, lst, n, x, y);
      assert links[x] == LinkSet(tree, ring, x);
      assert links[y] == LinkSet(tree, ring, y);
    }
  }

  ghost function LinkSets(tree: map<int, seq<int>>, ring: map<int, (int, int)>, n: int): (links: seq<set<int>>)
    requires n >= 0 && forall r {:trigger r in tree} :: 0 <= r < n ==> r in tree && r in ring
    ensures |links| == n
    ensures forall r {:trigger links[r]} :: 0 <= r < n ==> r in tree && r in ring && links[r] == LinkSet(tree, ring, r)
  {
    seq(n, r requires 0 <= r < n => LinkSet(tree, ring, r))
  }

  /** Places `x` and `y` are next to each other on the ring, or their nodes are tree neighbours. */
  ghost predicate Linked(lst: seq<int>, x: int, y: int)
    requires 0 <= x < |lst|
  {
    0 <= y < |lst| && y != x && (y == Prev(x, |lst|) || y == Next(x, |lst|) || lst[y] in GetNeighbor(lst[x], |lst|))
  }

  lemma LinkSetIs(tree: map<int, seq<int>>, parent: map<int, int>, ring: map<int, (int, int)>, lst: seq<int>, n: int, x: int, y: int)
    requires Permutation(lst, n) && 0 <= x < n && RingLabel(ring, n, x) && TreeLabel(tree, parent, lst, x)
    ensures y in LinkSet(tree, ring, x) <==> Linked(lst, x, y)
  {
    InRange(lst, n);
    NamesMember(lst, tree[x], GetNeighbor(lst[x], n), y);
    if y == x { Neighbours(lst[x], n, lst[x]); }
  }

  /**
   Start-up of `|pending|` slaves, none of which keeps a link over a failed attempt: every link is
   dialled once, from its later end, and nobody is left waiting.
   */
  method AcceptSlaves(pending: seq<string>, reports: seq<seq<Attempt>>)
    returns (tracker: RabitTracker, dialled: seq<seq<int>>, ghost lst: seq<int>)
    requires |pending| >= 1
    requires |reports| == |pending| && forall t {:trigger reports[t]} :: 0 <= t < |reports| ==> FreshDial(reports[t])
    ensures Permutation(lst, |pending|) && Closes(lst, 0) && |dialled| == |pending|
    ensures forall t {:trigger dialled[t]} :: 0 <= t < |pending| ==>
      Distinct(dialled[t]) && forall r :: r in dialled[t] <==> Linked(lst, t, r) && r < t
    ensures tracker.waitConn == map[] && tracker.todoNodes == []
  {
    hide LinkSet, Permutation, Symmetric, Linked, FreshDial;
    var n := |pending|;
    var tree, parent, ring;
    tree, parent, ring, lst := GetLinkMap(n);
    InRange(lst, n);
    forall r | 0 <= r < n ensures r in tree && r in ring {
      assert RingLabel(ring, n, r) && TreeLabel(tree, parent, lst, r);
    }
    ghost var links := LinkSets(tree, ring, n);
    LinkSetsSymmetric(tree, parent, ring, lst, n, links);
    tracker := new RabitTracker(n);
    dialled := tracker.StartAll(pending, reports, tree, ring, links);
    forall t, r | 0 <= t < n ensures r in links[t] <==> Linked(lst, t, r) {
      assert RingLabel(ring, n, t) && TreeLabel(tree, parent, lst, t);
      LinkSetIs(tree, parent, ring, lst, n, t, r);
    }
  }
}
