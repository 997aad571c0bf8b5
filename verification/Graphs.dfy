/** Reachability over a relation on module ids, shared by the loader and the bundler. */
module Graphs {

  type Rel = (nat, nat) -> bool

  /** A path has at least one edge. */
  ghost predicate IsPath(e: Rel, p: seq<nat>) {
    |p| >= 2 && e(p[0], p[1]) && (|p| == 2 || IsPath(e, p[1..]))
  }

  ghost predicate Reach(e: Rel, a: nat, b: nat) {
    exists p :: IsPath(e, p) && p[0] == a && p[|p| - 1] == b
  }

  ghost predicate Acyclic(e: Rel) {
    forall x :: !Reach(e, x, x)
  }

  ghost predicate Within(e: Rel, f: Rel) {
    forall a, b :: e(a, b) ==> f(a, b)
  }

  lemma ReachEdge(e: Rel, a: nat, b: nat)
    requires e(a, b)
    ensures Reach(e, a, b)
  {
    assert IsPath(e, [a, b]);
  }

  lemma ReachCons(e: Rel, a: nat, b: nat, c: nat)
    requires e(a, b) && Reach(e, b, c)
    ensures Reach(e, a, c)
  {
    var p :| IsPath(e, p) && p[0] == b && p[|p| - 1] == c;
    var q := [a] + p;
    assert q[1..] == p;
    assert IsPath(e, q);
  }

  lemma {:induction false} PathTrans(e: Rel, p: seq<nat>, c: nat)
    requires IsPath(e, p) && Reach(e, p[|p| - 1], c)
    ensures Reach(e, p[0], c)
    decreases |p|
  {
    if |p| == 2 {
      ReachCons(e, p[0], p[1], c);
    } else {
      PathTrans(e, p[1..], c);
      ReachCons(e, p[0], p[1], c);
    }
  }

  lemma ReachTrans(e: Rel, a: nat, b: nat, c: nat)
    requires Reach(e, a, b) && Reach(e, b, c)
    ensures Reach(e, a, c)
  {
    var p :| IsPath(e, p) && p[0] == a && p[|p| - 1] == b;
    PathTrans(e, p, c);
  }

  lemma ReachSnoc(e: Rel, a: nat, b: nat, c: nat)
    requires (a == b || Reach(e, a, b)) && e(b, c)
    ensures Reach(e, a, c)
  {
    ReachEdge(e, b, c);
    if a != b { ReachTrans(e, a, b, c); }
  }

  /** The first step of a path, and the path that remains. */
  lemma ReachFirst(e: Rel, a: nat, c: nat) returns (b: nat)
    requires Reach(e, a, c)
    ensures e(a, b) && (b == c || Reach(e, b, c))
  {
    var p :| IsPath(e, p) && p[0] == a && p[|p| - 1] == c;
    b := p[1];
    if |p| > 2 {
      var q := p[1..];
      assert IsPath(e, q) && q[0] == b && q[|q| - 1] == c;
    }
  }

  lemma {:induction false} PathMono(e: Rel, f: Rel, p: seq<nat>)
    requires Within(e, f) && IsPath(e, p)
    ensures IsPath(f, p)
    decreases |p|
  {
    if |p| > 2 { PathMono(e, f, p[1..]); }
  }

  lemma ReachMono(e: Rel, f: Rel, a: nat, b: nat)
    requires Within(e, f) && Reach(e, a, b)
    ensures Reach(f, a, b)
  {
    var p :| IsPath(e, p) && p[0] == a && p[|p| - 1] == b;
    PathMono(e, f, p);
  }

  lemma AcyclicMono(e: Rel, f: Rel)
    requires Within(e, f) && Acyclic(f)
    ensures Acyclic(e)
  {
    forall x | Reach(e, x, x) ensures false { ReachMono(e, f, x, x); }
  }

  /** A path in a graph with one more edge m -> d either avoids that edge or runs through it. */
  lemma {:induction false} PathSplit(e: Rel, f: Rel, m: nat, d: nat, p: seq<nat>)
    requires forall a, b :: f(a, b) ==> e(a, b) || (a == m && b == d)
    requires IsPath(f, p)
    ensures
      var a, b := p[0], p[|p| - 1];
      || Reach(e, a, b)
      || ((a == m || Reach(e, a, m)) && (b == d || Reach(e, d, b)))
    decreases |p|
  {
    var a, b := p[0], p[|p| - 1];
    if e(a, p[1]) {
      ReachEdge(e, a, p[1]);
    }
    if |p| > 2 {
      PathSplit(e, f, m, d, p[1..]);
      if e(a, p[1]) {
        if Reach(e, p[1], b) {
          ReachCons(e, a, p[1], b);
        } else if p[1] != m {
          ReachCons(e, a, p[1], m);
        }
      }
    }
  }

  /** Adding m -> d to an acyclic graph closes no cycle when nothing led from d to m. */
  lemma AcyclicAdd(e: Rel, f: Rel, m: nat, d: nat)
    requires forall a, b :: f(a, b) ==> e(a, b) || (a == m && b == d)
    requires Acyclic(e) && d != m && !Reach(e, d, m)
    ensures Acyclic(f)
  {
    forall x | Reach(f, x, x) ensures false {
      var p :| IsPath(f, p) && p[0] == x && p[|p| - 1] == x;
      PathSplit(e, f, m, d, p);
      if x != m && x != d { ReachTrans(e, d, x, m); }
    }
  }

  ghost predicate HasSuccessorIn(e: Rel, s: set<nat>, x: nat) {
    exists y :: y in s && e(x, y)
  }

  ghost function ReachedIn(e: Rel, s: set<nat>, x: nat): set<nat> {
    set y | y in s && Reach(e, x, y)
  }

  lemma ReachedHasSuccessor(e: Rel, s: set<nat>, x: nat, u: nat)
    requires HasSuccessorIn(e, s, u) && (u == x || Reach(e, x, u))
    ensures HasSuccessorIn(e, ReachedIn(e, s, x), u)
  {
    var v :| v in s && e(u, v);
    ReachSnoc(e, x, u, v);
  }

  /** A non-empty finite set in which every node has a successor contains a cycle. */
  lemma {:induction false} NoSinkHasCycle(e: Rel, s: set<nat>)
    requires s != {}
    requires forall x {:trigger HasSuccessorIn(e, s, x)} :: x in s ==> HasSuccessorIn(e, s, x)
    ensures !Acyclic(e)
    decreases s
  {
    var x :| x in s;
    var t := ReachedIn(e, s, x);
    if Reach(e, x, x) {
      return;
    }
    assert x !in t && t <= s;
    ReachedHasSuccessor(e, s, x, x);
    assert t != {};
    forall u | u in t ensures HasSuccessorIn(e, t, u) {
      ReachedHasSuccessor(e, s, x, u);
    }
    NoSinkHasCycle(e, t);
  }

  /** A path that starts in a set closed under the relation ends in it. */
  lemma {:induction false} ClosedReach(e: Rel, s: set<nat>, p: seq<nat>)
    requires IsPath(e, p) && p[0] in s
    requires forall a, b :: a in s && e(a, b) ==> b in s
    ensures p[|p| - 1] in s
    decreases |p|
  {
    if |p| > 2 { ClosedReach(e, s, p[1..]); }
  }
}
