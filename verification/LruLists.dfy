/** Lists of names ordered by last use: touching, dropping, and how many touches a name survives. */
module LruLists {

  import opened Common

  const KEEP_LRU := 5

  function Without(l: seq<string>, name: string): (r: seq<string>)
    ensures forall x :: x in r <==> x in l && x != name
    ensures |r| <= |l| && (name !in l ==> r == l)
  {
    if l == [] then []
    else
      assert l == [l[0]] + l[1..];
      if l[0] == name then Without(l[1..], name) else [l[0]] + Without(l[1..], name)
  }

  /** The names are ordered by when they were last touched, latest first. */
  ghost predicate Recent(l: seq<string>, touched: map<string, int>) {
    && (forall i :: 0 <= i < |l| ==> l[i] in touched)
    && (forall i, j :: 0 <= i < j < |l| ==> touched[l[i]] > touched[l[j]])
  }

  lemma {:induction false} WithoutRecent(l: seq<string>, name: string, touched: map<string, int>)
    requires Recent(l, touched)
    ensures Recent(Without(l, name), touched)
    decreases |l|
  {
    if l != [] {
      assert l == [l[0]] + l[1..];
      WithoutRecent(l[1..], name, touched);
      var rest := Without(l[1..], name);
      forall j | 0 <= j < |rest| ensures touched[l[0]] > touched[rest[j]] {
        assert rest[j] in l[1..];
      }
    }
  }

  /** A list in the order of its last touches has no duplicates. */
  lemma RecentIsDistinct(l: seq<string>, touched: map<string, int>)
    requires Recent(l, touched)
    ensures NoDuplicates(l)
  {
  }

  /** The name in front, and the others behind it. */
  function Front(l: seq<string>, name: string): (r: seq<string>)
    ensures |r| >= 1 && r[0] == name && forall x :: x in r <==> x in l || x == name
  {
    [name] + Without(l, name)
  }

  /** The name moves to the front; the last name goes if there are too many and it can be evicted. */
  function Touched(l: seq<string>, name: string, evict: bool): seq<string> {
    var front := Front(l, name);
    if |front| > KEEP_LRU && evict then front[..|front| - 1] else front
  }

  lemma TouchedRecent(l: seq<string>, name: string, evict: bool, touched: map<string, int>, clock: int)
    requires Recent(l, touched) && (forall x :: x in touched ==> touched[x] < clock)
    ensures Recent(Touched(l, name, evict), touched[name := clock])
  {
    WithoutRecent(l, name, touched);
  }

  /** With eviction the list never grows beyond five, or beyond what it was. */
  lemma TouchedIsBounded(l: seq<string>, name: string)
    ensures |Touched(l, name, true)| <= KEEP_LRU || |Touched(l, name, true)| <= |l|
  {
  }

  lemma FrontIsDistinct(l: seq<string>, name: string)
    requires NoDuplicates(l)
    ensures NoDuplicates(Front(l, name))
  {
    WithoutIsDistinct(l, name);
  }

  lemma {:induction false} WithoutIsDistinct(l: seq<string>, name: string)
    requires NoDuplicates(l)
    ensures NoDuplicates(Without(l, name))
    decreases |l|
  {
    if l != [] {
      assert l == [l[0]] + l[1..];
      WithoutIsDistinct(l[1..], name);
      var rest := Without(l[1..], name);
      assert forall j :: 0 <= j < |rest| ==> rest[j] in l[1..];
    }
  }

  /** An evicted name is gone, and no other name is. */
  lemma TouchedLoses(l: seq<string>, name: string, evict: bool, x: string)
    requires NoDuplicates(l)
    ensures
      var front := Front(l, name);
      x in Touched(l, name, evict) <==> x in front && !(|front| > KEEP_LRU && evict && x == front[|front| - 1])
    ensures |Front(l, name)| > 1 ==> Front(l, name)[|Front(l, name)| - 1] in l
    ensures name in Touched(l, name, evict)
  {
    hide Front;
    FrontIsDistinct(l, name);
    var front := Front(l, name);
    var n := |front| - 1;
    assert front == front[..n] + [front[n]];
    assert front[n] in front && (n > 0 ==> front[n] != front[0]);
  }

  // ---- what stands in front of a name ----

  lemma {:induction false} WithoutAppend(a: seq<string>, b: seq<string>, name: string)
    ensures Without(a + b, name) == Without(a, name) + Without(b, name)
    decreases |a|
  {
    if a == [] {
      assert a + b == b;
    } else {
      assert (a + b)[1..] == a[1..] + b;
      WithoutAppend(a[1..], b, name);
    }
  }

  ghost function Names(l: seq<string>): set<string> {
    set x | x in l
  }

  lemma {:induction false} NamesCount(l: seq<string>)
    requires NoDuplicates(l)
    ensures |Names(l)| == |l|
    decreases |l|
  {
    if l != [] {
      var n := |l| - 1;
      NamesCount(l[..n]);
      assert l == l[..n] + [l[n]];
      assert Names(l) == Names(l[..n]) + {l[n]} && l[n] !in l[..n];
    }
  }

  /** The name is in the list, behind exactly these others. */
  ghost predicate Behind(l: seq<string>, name: string, ahead: set<string>) {
    exists i :: 0 <= i < |l| && l[i] == name && Names(l[..i]) == ahead
  }

  lemma BehindFacts(l: seq<string>, name: string, ahead: set<string>) returns (i: nat)
    requires NoDuplicates(l) && Behind(l, name, ahead)
    ensures i == |ahead| < |l| && l[i] == name && Names(l[..i]) == ahead && name !in ahead && name in l
  {
    i :| 0 <= i < |l| && l[i] == name && Names(l[..i]) == ahead;
    NamesCount(l[..i]);
  }

  lemma BehindAt(a: seq<string>, name: string, b: seq<string>)
    ensures Behind(a + [name] + b, name, Names(a))
  {
    var l := a + [name] + b;
    assert l[..|a|] == a && l[|a|] == name;
  }

  lemma BehindSplit(l: seq<string>, name: string, ahead: set<string>) returns (a: seq<string>, b: seq<string>)
    requires NoDuplicates(l) && Behind(l, name, ahead)
    ensures l == a + [name] + b && Names(a) == ahead
  {
    var i := BehindFacts(l, name, ahead);
    a, b := l[..i], l[i + 1..];
  }

  lemma WithoutSplit(a: seq<string>, name: string, b: seq<string>, other: string)
    requires other != name
    ensures Without(a + [name] + b, other) == Without(a, other) + [name] + Without(b, other)
    ensures Names(Without(a, other)) == Names(a) - {other}
  {
    WithoutAppend(a + [name], b, other);
    WithoutAppend(a, [name], other);
    assert [name][1..] == [];
  }

  /** Dropping another name takes it away from the front and changes nothing else there. */
  lemma DropKeepsBehind(l: seq<string>, other: string, name: string, ahead: set<string>)
    requires NoDuplicates(l) && other != name && Behind(l, name, ahead)
    ensures Behind(Without(l, other), name, ahead - {other})
  {
    hide Behind, Without, Names;
    var a, b := BehindSplit(l, name, ahead);
    WithoutSplit(a, name, b, other);
    BehindAt(Without(a, other), name, Without(b, other));
  }

  /** Moving another name to the front puts it ahead and changes nothing else there. */
  lemma FrontBehind(l: seq<string>, other: string, name: string, ahead: set<string>)
    requires NoDuplicates(l) && other != name && Behind(l, name, ahead)
    ensures Behind(Front(l, other), name, ahead + {other})
  {
    hide Behind, Without, Names;
    var a, b := BehindSplit(l, name, ahead);
    WithoutSplit(a, name, b, other);
    var front := [other] + Without(a, other);
    assert Front(l, other) == front + [name] + Without(b, other);
    BehindAt(front, name, Without(b, other));
    NamesCons(other, Without(a, other));
    assert ahead + {other} == ahead - {other} + {other};
  }

  lemma NamesCons(x: string, l: seq<string>)
    ensures Names([x] + l) == Names(l) + {x}
  {
  }

  lemma FrontNotLast(l: seq<string>, name: string, ahead: set<string>)
    requires NoDuplicates(l) && Behind(l, name, ahead) && |ahead| < |l| - 1
    ensures Behind(l[..|l| - 1], name, ahead)
  {
    var i := BehindFacts(l, name, ahead);
    assert l[..|l| - 1][..i] == l[..i] && l[..|l| - 1][i] == name;
  }

  /** A name with fewer than five ahead survives every touch of another one, whatever the length of the list. */
  lemma TouchKeepsBehind(l: seq<string>, other: string, evict: bool, name: string, ahead: set<string>)
    requires NoDuplicates(l) && other != name && Behind(l, name, ahead) && |ahead + {other}| < KEEP_LRU
    ensures Behind(Touched(l, other, evict), name, ahead + {other})
  {
    hide Behind, Front;
    FrontBehind(l, other, name, ahead);
    FrontIsDistinct(l, other);
    if |Front(l, other)| > KEEP_LRU { FrontNotLast(Front(l, other), name, ahead + {other}); }
  }

  /** In a list of at most five names, a name with five ahead is evicted. */
  lemma TouchEvicts(l: seq<string>, other: string, name: string, ahead: set<string>)
    requires NoDuplicates(l) && |l| <= KEEP_LRU && other != name && Behind(l, name, ahead) && |ahead + {other}| >= KEEP_LRU
    ensures name !in Touched(l, other, true)
  {
    hide Behind;
    FrontBehind(l, other, name, ahead);
    FrontIsDistinct(l, other);
    var i := BehindFacts(Front(l, other), name, ahead + {other});
    TouchedLoses(l, other, true, name);
  }

  lemma TouchPutsFirst(l: seq<string>, name: string, evict: bool)
    ensures Behind(Touched(l, name, evict), name, {})
  {
    var t := Touched(l, name, evict);
    assert t[0] == name && Names(t[..0]) == {};
  }
}
