/** Directed graphs as adjacency sets, paths and reachability. */
module Reachability {

  type Adj = seq<set<nat>>

  /** `p` walks along edges of `adj`. */
  ghost predicate IsPath(adj: Adj, p: seq<nat>) {
    && p != []
    && (forall i :: 0 <= i < |p| ==> p[i] < |adj|)
    && (forall i :: 0 <= i < |p| - 1 ==> p[i + 1] in adj[p[i]])
  }

  ghost predicate PathBetween(adj: Adj, p: seq<nat>, a: nat, b: nat) {
    IsPath(adj, p) && p[0] == a && p[|p| - 1] == b
  }

  ghost predicate Reaches(adj: Adj, a: nat, b: nat) {
    exists p :: PathBetween(adj, p, a, b)
  }

  /** `s` cannot be left along an edge. */
  ghost predicate Closed(adj: Adj, s: set<nat>) {
    forall v, x :: v in s && v < |adj| && x in adj[v] ==> x in s
  }

  /** Every node in `nodes` reaches every other. */
  ghost predicate Connected(adj: Adj, nodes: set<nat>) {
    forall a, b :: a in nodes && b in nodes ==> Reaches(adj, a, b)
  }

  ghost predicate Symmetric(adj: Adj) {
    forall a, b :: 0 <= a < |adj| && 0 <= b < |adj| && b in adj[a] ==> a in adj[b]
  }

  lemma ReachesSelf(adj: Adj, a: nat)
    requires a < |adj|
    ensures Reaches(adj, a, a)
  {
    assert PathBetween(adj, [a], a, a);
  }

  lemma ReachesEdge(adj: Adj, a: nat, b: nat, c: nat)
    requires Reaches(adj, a, b) && b < |adj| && c in adj[b] && c < |adj|
    ensures Reaches(adj, a, c)
  {
    var p :| PathBetween(adj, p, a, b);
    assert PathBetween(adj, p + [c], a, c);
  }

  lemma EdgeReaches(adj: Adj, a: nat, b: nat, c: nat)
    requires a < |adj| && b in adj[a] && Reaches(adj, b, c)
    ensures Reaches(adj, a, c)
  {
    var p :| PathBetween(adj, p, b, c);
    assert PathBetween(adj, [a] + p, a, c);
  }

  lemma ReachesVia(adj: Adj, a: nat, b: nat, c: nat)
    requires Reaches(adj, a, b) && Reaches(adj, b, c)
    ensures Reaches(adj, a, c)
  {
    var p :| PathBetween(adj, p, a, b);
    var q :| PathBetween(adj, q, b, c);
    assert PathBetween(adj, p + q[1..], a, c);
  }

  /** A graph with more nodes and edges keeps every path. */
  lemma ReachesGrows(small: Adj, big: Adj, a: nat, b: nat)
    requires |small| <= |big|
    requires forall v :: 0 <= v < |small| ==> small[v] <= big[v]
    requires Reaches(small, a, b)
    ensures Reaches(big, a, b)
  {
    var p :| PathBetween(small, p, a, b);
    assert PathBetween(big, p, a, b);
  }

  /** A closed set holding `a` holds everything `a` reaches. */
  lemma ClosedHoldsReachable(adj: Adj, s: set<nat>, a: nat, b: nat)
    requires Closed(adj, s) && a in s && Reaches(adj, a, b)
    ensures b in s
  {
    var p :| PathBetween(adj, p, a, b);
    for i := 0 to |p| - 1
      invariant p[i] in s
    {
      assert p[i + 1] in adj[p[i]];
    }
  }

  /** Linking a new node to and from some members of a connected set connects it too. */
  lemma LinkedNodeConnects(small: Adj, big: Adj, nodes: set<nat>, q: nat, links: set<nat>)
    requires |small| <= |big| && q < |big|
    requires forall v :: 0 <= v < |small| ==> small[v] <= big[v]
    requires Connected(small, nodes)
    requires links != {} && links <= nodes
    requires links <= big[q]
    requires forall v :: v in links ==> v < |big| && q in big[v]
    ensures Connected(big, nodes + {q})
  {
    var hub :| hub in links;
    forall a | a in nodes + {q} ensures Reaches(big, a, hub) && Reaches(big, hub, a) {
      ReachesSelf(big, hub);
      if a == q {
        EdgeReaches(big, q, hub, hub);
        ReachesEdge(big, hub, hub, q);
      } else {
        ReachesGrows(small, big, a, hub);
        ReachesGrows(small, big, hub, a);
      }
    }
    forall a, b | a in nodes + {q} && b in nodes + {q} ensures Reaches(big, a, b) {
      ReachesVia(big, a, hub, b);
    }
  }
}
