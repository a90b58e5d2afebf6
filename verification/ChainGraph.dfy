/**
 Chains of buckets as a graph: every occupied bucket has a successor (itself
 at the end of a chain), the main bucket its key hashes to, and the time at
 which it was linked.  A good graph is a set of disjoint chains: each starts at
 its main bucket, moves forward in time without skipping a bucket of the
 chain, and ends in a self-loop.  Each edit the hash map makes to its links
 (adding at a tail, moving a kicked-out bucket, unlinking) keeps it good.
 */
module ChainGraph {

  datatype Graph = Graph(next: map<int, int>, main: map<int, int>, rank: map<int, int>) {

    ghost predicate Shape() {
      main.Keys == next.Keys && rank.Keys == next.Keys
    }

    /** `b` and `c` are on one chain and `c` was linked after `b`. */
    ghost predicate After(b: int, c: int)
      requires Shape()
    {
      b in next && c in next && main[b] == main[c] && rank[b] < rank[c]
    }

    /** The link of `b` leads to the bucket linked next, or loops at the tail. */
    ghost predicate Step(b: int)
      requires Shape() && b in next
    {
      && (next[b] == b || After(b, next[b]))
      && forall c {:trigger After(b, c)} :: After(b, c) ==> next[b] != b && rank[next[b]] <= rank[c]
    }

    /** The main bucket of `b` is the first of its chain. */
    ghost predicate Head(b: int)
      requires Shape() && b in next
    {
      main[b] in next && main[main[b]] == main[b] && (main[b] == b || After(main[b], b))
    }

    ghost predicate SameTime(b: int, c: int)
      requires Shape()
    {
      b in next && c in next && rank[b] == rank[c]
    }

    ghost predicate Good(tick: int) {
      && Shape()
      && (forall b {:trigger Step(b)} :: b in next ==> Step(b))
      && (forall b {:trigger Head(b)} :: b in next ==> Head(b))
      && (forall b {:trigger rank[b]} :: b in next ==> rank[b] < tick)
      && (forall b, c {:trigger SameTime(b, c)} :: SameTime(b, c) ==> b == c)
    }
  }

  // ----- Edits

  /** Start a chain at its main bucket `b`. */
  ghost function AddHead(g: Graph, b: int, tick: int): Graph {
    Graph(g.next[b := b], g.main[b := b], g.rank[b := tick])
  }

  /** Link `b` behind the tail `p`. */
  ghost function AddTail(g: Graph, p: int, b: int, tick: int): Graph
    requires p in g.main
  {
    Graph(g.next[p := b][b := b], g.main[b := g.main[p]], g.rank[b := tick])
  }

  /** Bucket `b`, reached from `p`, moves to `e` with its place in the chain. */
  ghost function Move(g: Graph, p: int, b: int, e: int): Graph
    requires g.Shape() && b in g.next
  {
    Graph(g.next[e := if g.next[b] == b then e else g.next[b]][p := e] - {b},
          g.main[e := g.main[b]] - {b},
          g.rank[e := g.rank[b]] - {b})
  }

  /** Unlink `b`, reached from `p`. */
  ghost function Unlink(g: Graph, p: int, b: int): Graph
    requires b in g.next
  {
    Graph(g.next[p := if g.next[b] == b then p else g.next[b]] - {b}, g.main - {b}, g.rank - {b})
  }

  /** Remove a bucket that is a whole chain. */
  ghost function Drop(g: Graph, b: int): Graph {
    Graph(g.next - {b}, g.main - {b}, g.rank - {b})
  }

  lemma AddHeadKeeps(g: Graph, b: int, tick: int)
    requires g.Good(tick) && b !in g.next
    ensures AddHead(g, b, tick).Good(tick + 1)
  {
    var h := AddHead(g, b, tick);
    forall c | c in h.next ensures h.Head(c) && h.Step(c) {
      if c != b {
        assert g.Head(c) && g.Step(c);
      }
      forall d | h.After(c, d) ensures c != b && d != b && g.After(c, d) {
        if d != b { assert g.Head(d); }
      }
    }
    forall c, d | h.SameTime(c, d) ensures c == d {
      if c != b && d != b { assert g.SameTime(c, d); }
    }
  }

  lemma AddTailKeeps(g: Graph, p: int, b: int, tick: int)
    requires g.Good(tick) && b !in g.next && p in g.next && g.next[p] == p
    ensures AddTail(g, p, b, tick).Good(tick + 1)
  {
    var h := AddTail(g, p, b, tick);
    forall c | c in h.next ensures h.Head(c) {
      assert g.Head(if c == b then p else c);
    }
    forall c | c in h.next ensures h.Step(c) {
      assert g.Step(p);
      if c != b {
        assert g.Step(c);
        forall d | h.After(c, d) ensures h.next[c] != c && h.rank[h.next[c]] <= h.rank[d] {
          if d != b {
            assert g.After(c, d);
          } else if c != p {
            assert !g.After(p, c) && !g.SameTime(p, c);
            assert g.After(c, p);
          }
        }
      }
    }
    forall c, d | h.SameTime(c, d) ensures c == d {
      if c != b && d != b { assert g.SameTime(c, d); }
    }
  }

  /** Links do not merge: a bucket is entered from one other bucket only. */
  lemma OnePredecessor(g: Graph, p: int, q: int, b: int, tick: int)
    requires g.Good(tick) && p in g.next && q in g.next
    requires g.next[p] == b == g.next[q] && p != b && q != b
    ensures p == q
  {
    assert g.Step(p) && g.Step(q);
    assert !g.After(p, q) && !g.After(q, p);
    assert g.SameTime(p, q);
  }

  lemma MoveKeeps(g: Graph, p: int, b: int, e: int, tick: int)
    requires g.Good(tick) && e !in g.next
    requires p in g.next && b in g.next && p != b && g.next[p] == b && g.main[b] != b
    ensures Move(g, p, b, e).Good(tick)
  {
    var h := Move(g, p, b, e);
    forall c | c in h.next ensures h.Head(c) {
      var c' := if c == e then b else c;
      assert g.Head(c') && g.Head(b);
    }
    forall c | c in h.next ensures h.Step(c) {
      var c' := if c == e then b else c;
      assert g.Step(c');
      if c != p && c != e && g.next[c] == b { OnePredecessor(g, p, c, b, tick); }
      forall d | h.After(c, d) ensures h.next[c] != c && h.rank[h.next[c]] <= h.rank[d] {
        assert g.After(c', if d == e then b else d);
      }
    }
    forall c, d | h.SameTime(c, d) ensures c == d {
      assert g.SameTime(if c == e then b else c, if d == e then b else d);
    }
  }

  lemma UnlinkKeeps(g: Graph, p: int, b: int, tick: int)
    requires g.Good(tick)
    requires p in g.next && b in g.next && p != b && g.next[p] == b
    ensures Unlink(g, p, b).Good(tick)
  {
    var h := Unlink(g, p, b);
    assert g.Step(p) && g.Head(p) && g.Step(b);
    forall c | c in h.next ensures h.Head(c) {
      assert g.Head(c);
    }
    forall c | c in h.next ensures h.Step(c) {
      assert g.Step(c);
      if c != p && g.next[c] == b { OnePredecessor(g, p, c, b, tick); }
      forall d | h.After(c, d) ensures h.next[c] != c && h.rank[h.next[c]] <= h.rank[d] {
        assert g.After(c, d);
        if c == p {
          assert !g.SameTime(b, d);
          assert g.After(b, d);
        }
      }
    }
    forall c, d | h.SameTime(c, d) ensures c == d {
      assert g.SameTime(c, d);
    }
  }

  lemma DropKeeps(g: Graph, b: int, tick: int)
    requires g.Good(tick) && b in g.next && g.main[b] == b == g.next[b]
    ensures Drop(g, b).Good(tick)
  {
    var h := Drop(g, b);
    assert g.Step(b);
    forall c | c in h.next ensures h.Head(c) && h.Step(c) {
      assert g.Head(c) && g.Step(c);
      assert !g.After(b, c);
      assert g.next[c] != b;
      forall d | h.After(c, d) ensures h.next[c] != c && h.rank[h.next[c]] <= h.rank[d] {
        assert g.After(c, d);
      }
    }
    forall c, d | h.SameTime(c, d) ensures c == d {
      assert g.SameTime(c, d);
    }
  }

  // ----- Walking a chain

  /** The buckets met from `b` on, following links up to the self-loop. */
  ghost function Walk(g: Graph, b: int, tick: int): seq<int>
    requires g.Good(tick) && b in g.next
    decreases tick - g.rank[b]
  {
    assert g.Step(b);
    [b] + if g.next[b] == b then [] else Walk(g, g.next[b], tick)
  }

  lemma {:induction false} WalkVisits(g: Graph, b: int, tick: int)
    requires g.Good(tick) && b in g.next
    ensures var w := Walk(g, b, tick);
            && w[0] == b && (var z := w[|w| - 1]; z in g.next && g.next[z] == z)
            && (forall c :: c in w <==> c == b || g.After(b, c))
            && (forall i, j :: 0 <= i < j < |w| ==> g.After(w[i], w[j]))
    decreases tick - g.rank[b]
  {
    var n := g.next[b];
    assert g.Step(b);
    if n != b {
      WalkVisits(g, n, tick);
      var w := Walk(g, n, tick);
      assert Walk(g, b, tick) == [b] + w;
      forall c | g.After(b, c) ensures c == n || g.After(n, c) {
        if g.rank[c] == g.rank[n] { assert g.SameTime(c, n); }
      }
      assert forall i :: 0 <= i < |w| ==> w[i] in w;
    }
  }

  /**
   The walk from a main bucket lists exactly the buckets whose keys hash there,
   each once, and ends in a self-loop; so distinct main buckets have disjoint walks.
   */
  lemma ChainOfMain(g: Graph, m: int, tick: int)
    requires g.Good(tick) && m in g.next && g.main[m] == m
    ensures var w := Walk(g, m, tick);
            && w[0] == m && (var z := w[|w| - 1]; z in g.next && g.next[z] == z)
            && (forall c :: c in w <==> c in g.next && g.main[c] == m)
            && (forall i, j :: 0 <= i < j < |w| ==> w[i] != w[j])
  {
    WalkVisits(g, m, tick);
    forall c | c in g.next && g.main[c] == m ensures c == m || g.After(m, c) {
      assert g.Head(c);
    }
  }
}
