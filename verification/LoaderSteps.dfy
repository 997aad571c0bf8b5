/** What the module manager is asked to do, and what each of its steps keeps. */
module LoaderSteps {

  import opened Common
  import opened Graphs
  import opened LoaderState

  /** What the script loader does, before returning, when it is asked for a dependency: the scripts it runs make define
      calls, and it may report that the last one failed. A loader that answers later does neither. */
  datatype Response = Response(calls: seq<Definition>, failed: bool)

  /** One define call; `responses[i]` answers the request for the i-th dependency, should there be one. */
  datatype Definition = Definition(id: nat, decl: Declaration, responses: seq<Response>)

  datatype Event = Define(def: Definition) | LoadFailed(id: nat)

  ghost predicate RecordGrows(x: Module, y: Module) {
    (x.complete ==> y.complete) && (x.error.Some? ==> y.error.Some?)
  }

  /** What no call ever takes back. */
  ghost predicate Grows(s: State, t: State) {
    && DeclaredGrows(s, t)
    && s.completed <= t.completed && s.invoked <= t.invoked && s.requests <= t.requests
    && s.known <= t.known && s.cuts <= t.cuts && s.raised <= t.raised
    && (forall m :: m in s.modules ==> m in t.modules && RecordGrows(s.modules[m], t.modules[m]))
  }

  ghost predicate Failed(s: State, x: nat) {
    x in s.modules && s.modules[x].error.Some?
  }

  // ---- what the loader answered, and that it was carried out ----

  function ResponseAt(def: Definition, i: nat): Response {
    if i < |def.responses| then def.responses[i] else Response([], false)
  }

  /** x is def or is defined, at any depth, by the scripts that answer its requests. */
  ghost predicate PartOf(def: Definition, x: Definition) {
    x == def || exists i, k :: 0 <= i < |def.responses| && 0 <= k < |def.responses[i].calls| && PartOf(def.responses[i].calls[k], x)
  }

  /** A request for the i-th dependency of a definition, and so the answer to it. */
  datatype Answer = Answer(asker: Definition, i: nat)

  ghost predicate Asks(a: Answer, d: nat) {
    a.i < |a.asker.decl.deps| && a.asker.decl.deps[a.i] == Regular(d)
  }

  /** The calls of the answer were made, and its failure, if any, was recorded. */
  ghost predicate Obeyed(t: State, a: Answer, d: nat) {
    var r := ResponseAt(a.asker, a.i);
    && (forall k :: 0 <= k < |r.calls| ==> r.calls[k].id in t.modules)
    && (r.failed ==> LoadingFailed(d) in t.raised && Failed(t, d))
  }

  ghost predicate Paired(answers: seq<Answer>, requests: seq<nat>) {
    |answers| == |requests| && forall j :: 0 <= j < |answers| ==> Asks(answers[j], requests[j])
  }

  const PLACEHOLDER := Declaration([], Factory, false)

  ghost predicate FailsFor(x: Definition, m: nat) {
    exists i :: 0 <= i < |x.decl.deps| && x.decl.deps[i] == Regular(m) && ResponseAt(x, i).failed
  }

  /** The declaration of m is x's own, or stands in for a script that failed when x asked for it. */
  ghost predicate Supplies(x: Definition, m: nat, decl: Declaration) {
    (x.id == m && decl == x.decl) || (FailsFor(x, m) && decl == PLACEHOLDER)
  }

  ghost predicate SuppliedIn(def: Definition, m: nat, decl: Declaration) {
    exists x :: PartOf(def, x) && Supplies(x, m, decl)
  }

  /** From s to t, everything new in the table comes from def, every request is one of def's definitions', and every answer
      has been carried out. */
  ghost predicate CarriesOut(def: Definition, s: State, a: seq<Answer>, t: State, b: seq<Answer>) {
    && a <= b && Paired(b, t.requests)
    && (forall j :: |a| <= j < |b| ==> PartOf(def, b[j].asker) && Obeyed(t, b[j], t.requests[j]))
    && (forall m :: m in t.modules && m !in s.modules ==> m in t.declared && SuppliedIn(def, m, t.declared[m]))
  }

  lemma ObeyedStays(t: State, u: State, a: Answer, d: nat)
    requires Obeyed(t, a, d) && Grows(t, u)
    ensures Obeyed(u, a, d)
  {
  }

  lemma CarriesTrans(def: Definition, s: State, a: seq<Answer>, t: State, b: seq<Answer>, u: State, c: seq<Answer>)
    requires CarriesOut(def, s, a, t, b) && CarriesOut(def, t, b, u, c) && Grows(t, u)
    ensures CarriesOut(def, s, a, u, c)
  {
    hide PartOf, Obeyed, SuppliedIn, Asks;
    forall j | |a| <= j < |c| ensures PartOf(def, c[j].asker) && Obeyed(u, c[j], u.requests[j]) {
      if j < |b| { ObeyedStays(t, u, b[j], t.requests[j]); }
    }
  }

  lemma CarriesNothing(def: Definition, s: State, t: State, a: seq<Answer>)
    requires t.modules.Keys == s.modules.Keys && t.requests == s.requests && Paired(a, s.requests)
    ensures CarriesOut(def, s, a, t, a)
  {
  }

  lemma CarriesDefinition(def: Definition, s: State, t: State, a: seq<Answer>)
    requires Defines(s, t, def.id, def.decl) && Paired(a, s.requests)
    ensures CarriesOut(def, s, a, t, a)
  {
    assert PartOf(def, def) && Supplies(def, def.id, def.decl);
  }

  lemma CallIsWithin(def: Definition, i: nat, k: nat)
    requires i < |def.responses| && k < |def.responses[i].calls|
    ensures forall x :: PartOf(def.responses[i].calls[k], x) ==> PartOf(def, x)
  {
  }

  lemma CarriesCall(def: Definition, i: nat, k: nat, s: State, a: seq<Answer>, t: State, b: seq<Answer>)
    requires i < |def.responses| && k < |def.responses[i].calls| && CarriesOut(def.responses[i].calls[k], s, a, t, b)
    ensures CarriesOut(def, s, a, t, b)
  {
    hide PartOf, Obeyed, Supplies, Asks;
    CallIsWithin(def, i, k);
    forall m | m in t.modules && m !in s.modules ensures SuppliedIn(def, m, t.declared[m]) {
      var x :| PartOf(def.responses[i].calls[k], x) && Supplies(x, m, t.declared[m]);
    }
  }

  /** The k-th call is the first that can supply its id. */
  ghost predicate FirstFor(calls: seq<Definition>, k: nat, s: State)
    requires k < |calls|
  {
    calls[k].id !in s.modules && forall j, decl :: 0 <= j < k ==> !SuppliedIn(calls[j], calls[k].id, decl)
  }

  ghost predicate SuppliedBefore(calls: seq<Definition>, k: nat, s: State, t: State)
    requires k <= |calls|
  {
    forall m :: m in t.modules && m !in s.modules ==>
      m in t.declared && exists j :: 0 <= j < k && SuppliedIn(calls[j], m, t.declared[m])
  }

  lemma SuppliedStep(calls: seq<Definition>, k: nat, s: State, t: State, a: seq<Answer>, u: State, b: seq<Answer>)
    requires k < |calls| && SuppliedBefore(calls, k, s, t) && Grows(t, u) && CarriesOut(calls[k], t, a, u, b)
    ensures SuppliedBefore(calls, k + 1, s, u)
  {
    hide SuppliedIn, PartOf, Obeyed, Paired;
    forall m | m in u.modules && m !in s.modules
      ensures m in u.declared && exists j :: 0 <= j < k + 1 && SuppliedIn(calls[j], m, u.declared[m])
    {
      if m in t.modules {
        var j :| 0 <= j < k && SuppliedIn(calls[j], m, t.declared[m]);
      } else {
        assert SuppliedIn(calls[k], m, u.declared[m]);
      }
    }
  }

  /** Every wait that is new is one of m's, on something that had not failed. */
  ghost predicate JoinsOnly(s: State, t: State, m: nat) {
    forall x, d :: x in Waiters(t.inverse, d) ==> x in Waiters(s.inverse, d) || (x == m && !Failed(s, d))
  }

  ghost predicate KeepsWaits(s: State, t: State) {
    forall x, d :: x in Waiters(s.inverse, d) ==> x in Waiters(t.inverse, d)
  }

  /** The walk of m's dependencies touches only m's record and the lists that m joins. */
  ghost predicate Walks(s: State, t: State, m: nat) {
    && t.modules.Keys == s.modules.Keys && t.completed == s.completed && t.raised == s.raised
    && (forall x :: x in s.modules && x != m ==> t.modules[x] == s.modules[x])
    && (Failed(s, m) ==> Failed(t, m))
    && JoinsOnly(s, t, m) && KeepsWaits(s, t)
  }

  lemma WalksTrans(s: State, t: State, u: State, m: nat)
    requires Walks(s, t, m) && Walks(t, u, m)
    ensures Walks(s, u, m)
  {
  }

  ghost predicate Open(s: State, m: nat) {
    m in s.modules && !s.modules[m].complete && s.modules[m].error.None?
  }

  /** Nothing is defined, no script fails, no module other than m gives up or starts to wait. */
  ghost predicate Steady(s: State, t: State, m: nat) {
    && t.modules.Keys == s.modules.Keys
    && (forall x :: x != m && Errored(t, x) ==> Errored(s, x))
    && (forall e :: e in t.raised && e.LoadingFailed? ==> e in s.raised)
    && JoinsOnly(s, t, m)
  }

  lemma WalksThenCompletes(s: State, t: State, u: State, m: nat)
    requires Walks(s, t, m) && CompletesOnly(t, u)
    ensures Steady(s, u, m)
  {
  }

  ghost function Incomplete(s: State): set<nat> {
    set m | m in s.modules && !s.modules[m].complete
  }

  /** x is the failed module or waits on it, directly or through others. */
  ghost predicate Affected(inverse: map<nat, seq<nat>>, id: nat, x: nat) {
    x == id || Reach(Waits(inverse), x, id)
  }

  lemma {:induction false} ClosedBackwards(e: Rel, seen: set<nat>, p: seq<nat>)
    requires IsPath(e, p) && p[|p| - 1] in seen
    requires forall m, d :: d in seen && e(m, d) ==> m in seen
    ensures p[0] in seen
    decreases |p|
  {
    if |p| > 2 { ClosedBackwards(e, seen, p[1..]); }
  }

  /** A search that never met the target and left no defined successor behind proves there is no path. */
  lemma {:induction false} SearchedAll(modules: map<nat, Module>, seen: set<nat>, p: seq<nat>, to: nat)
    requires IsPath(DependsOn(modules), p) && p[0] in seen && p[|p| - 1] == to
    requires forall a, b :: a in seen && DependsOn(modules)(a, b) ==> b != to && (b in modules ==> b in seen)
    ensures false
    decreases |p|
  {
    assert DependsOn(modules)(p[0], p[1]);
    if |p| > 2 {
      assert DependsOn(modules)(p[1], p[1..][1]);
      SearchedAll(modules, seen, p[1..], to);
    }
  }

  lemma WaiterAffected(inverse: map<nat, seq<nat>>, id: nat, d: nat, m: nat)
    requires Affected(inverse, id, d) && m in Waiters(inverse, d)
    ensures Affected(inverse, id, m)
  {
    if d == id { ReachEdge(Waits(inverse), m, id); } else { ReachCons(Waits(inverse), m, d, id); }
  }

  const EMPTY := State(map[], map[], {}, false, [], [], [], map[], {}, {})

  /** The k-th call left its module in the table, under its own declaration if it was the first to supply it. */
  ghost predicate CallMade(calls: seq<Definition>, k: nat, s: State, t: State)
    requires k < |calls|
  {
    calls[k].id in t.modules && (FirstFor(calls, k, s) ==> calls[k].id in t.declared && t.declared[calls[k].id] == calls[k].decl)
  }

  ghost predicate CallsMade(calls: seq<Definition>, s: State, t: State) {
    forall k :: 0 <= k < |calls| ==> CallMade(calls, k, s, t)
  }

  /** The failure of d, as the handlers saw it. */
  ghost predicate FailureTold(before: State, after: State, d: nat, notified: seq<nat>, errorbacks: seq<nat>, reported: seq<LoaderError>) {
    && FailureMarks(before, after, d)
    && NoDuplicates(notified) && (forall x :: x in notified <==> HasErrorback(before, d, x))
    && |notified| <= |errorbacks| && errorbacks[|errorbacks| - |notified|..] == notified
    && (notified == [] ==> reported != [] && reported[|reported| - 1] == LoadingFailed(d))
  }

  lemma PairedAppend(answers: seq<Answer>, requests: seq<nat>, a: Answer, d: nat)
    requires Paired(answers, requests) && Asks(a, d)
    ensures Paired(answers + [a], requests + [d])
  {
  }

  lemma CarriedIsPaired(def: Definition, s: State, a: seq<Answer>, t: State, b: seq<Answer>)
    requires CarriesOut(def, s, a, t, b)
    ensures Paired(b, t.requests)
  {
  }

  lemma NoCalls(t: State)
    ensures CallsMade([], t, t)
  {
  }

  lemma CallsMadeFrom(calls: seq<Definition>, s: State, t: State, u: State)
    requires CallsMade(calls, t, u) && t.modules == s.modules
    ensures CallsMade(calls, s, u)
  {
    hide SuppliedIn;
    forall k | 0 <= k < |calls| ensures CallMade(calls, k, s, u) {
      assert CallMade(calls, k, t, u) && (FirstFor(calls, k, s) ==> FirstFor(calls, k, t));
    }
  }

  lemma NothingSupplied(calls: seq<Definition>, s: State)
    ensures SuppliedBefore(calls, 0, s, s)
  {
  }

  lemma FirstIsNew(calls: seq<Definition>, k: nat, s: State, u: State)
    requires k < |calls| && SuppliedBefore(calls, k, s, u)
    ensures FirstFor(calls, k, s) ==> calls[k].id !in u.modules
  {
    hide SuppliedIn;
  }

  lemma CallStaysMade(calls: seq<Definition>, k: nat, s: State, u: State, t: State)
    requires k < |calls| && CallMade(calls, k, s, u) && Grows(u, t)
    ensures CallMade(calls, k, s, t)
  {
    hide FirstFor;
  }

  lemma WalkCarries(def: Definition, s: State, t: State, m: nat, a: seq<Answer>)
    requires Walks(s, t, m) && t.requests == s.requests && Paired(a, s.requests)
    ensures CarriesOut(def, s, a, t, a)
  {
    CarriesNothing(def, s, t, a);
  }

  lemma CompletionCarries(def: Definition, s: State, t: State, a: seq<Answer>)
    requires CompletesOnly(s, t) && Paired(a, s.requests)
    ensures CarriesOut(def, s, a, t, a)
  {
    CarriesNothing(def, s, t, a);
  }

  lemma PathStartsDefined(modules: map<nat, Module>, d: nat, m: nat)
    requires Reach(DependsOn(modules), d, m)
    ensures d in modules
  {
    var x := ReachFirst(DependsOn(modules), d, m);
  }

  /** A failure that answers a request supplies at most the record of the module that was asked for. */
  lemma CarriesFailure(def: Definition, i: nat, d: nat, s: State, a: seq<Answer>, t: State, u: State, b: seq<Answer>)
    requires CarriesOut(def, s, a, t, b) && FailureMarks(t, u, d) && Grows(t, u)
    requires Asks(Answer(def, i), d) && ResponseAt(def, i).failed
    ensures CarriesOut(def, s, a, u, b)
  {
    hide Obeyed, Affected;
    assert PartOf(def, def);
    assert d !in t.modules ==> Supplies(def, d, u.declared[d]);
    forall j | |a| <= j < |b| ensures Obeyed(u, b[j], u.requests[j]) { ObeyedStays(t, u, b[j], t.requests[j]); }
  }

  /** The request itself, and then everything its answer brought. */
  lemma CarriesAnswer(def: Definition, i: nat, d: nat, s: State, a: seq<Answer>, t: State, before: State, u: State, b: seq<Answer>)
    requires t == s.(known := t.known, requests := s.requests + [d]) && Paired(a, s.requests) && Asks(Answer(def, i), d)
    requires CarriesOut(def, t, a + [Answer(def, i)], u, b) && Grows(t, u)
    requires CallsMade(ResponseAt(def, i).calls, s, before) && Grows(before, u)
    requires ResponseAt(def, i).failed ==> FailureMarks(before, u, d)
    ensures CarriesOut(def, s, a, u, b) && |a| < |b| && b[|a|] == Answer(def, i)
  {
    hide SuppliedIn, FirstFor;
    AnswerObeyed(def, i, d, s, before, u);
    assert PartOf(def, def);
    assert b[|a|] == (a + [Answer(def, i)])[|a|] && u.requests[|a|] == t.requests[|a|];
  }

  lemma AnswerObeyed(def: Definition, i: nat, d: nat, s: State, before: State, u: State)
    requires CallsMade(ResponseAt(def, i).calls, s, before) && Grows(before, u)
    requires ResponseAt(def, i).failed ==> FailureMarks(before, u, d)
    ensures Obeyed(u, Answer(def, i), d)
  {
    hide FirstFor;
    var calls := ResponseAt(def, i).calls;
    forall k | 0 <= k < |calls| ensures calls[k].id in u.modules { assert CallMade(calls, k, s, before); }
    if ResponseAt(def, i).failed { assert Affected(before.inverse, d, d); }
  }

  /** With a loader that answers later, a define call adds one module and makes no other module give up. */
  ghost predicate DefinesOnly(s: State, t: State, m: nat) {
    && t.modules.Keys == s.modules.Keys + {m}
    && (forall x :: x != m && Errored(t, x) ==> Errored(s, x))
    && (forall e :: e in t.raised && e.LoadingFailed? ==> e in s.raised)
    && JoinsOnly(s, t, m)
  }

  lemma DefinesNothing(s: State, m: nat)
    requires m in s.modules
    ensures DefinesOnly(s, s, m)
  {
  }

  lemma DefineSteady(s: State, t: State, u: State, m: nat, decl: Declaration)
    requires Defines(s, t, m, decl) && Steady(t, u, m)
    ensures DefinesOnly(s, u, m)
  {
  }

  /** The dependency is complete and carries an error. */
  ghost predicate FailedDependency(s: State, dep: Dependency) {
    dep.Regular? && dep.id in s.modules && s.modules[dep.id].complete && s.modules[dep.id].error.Some?
  }

  ghost predicate AnyFailed(s: State, deps: seq<Dependency>) {
    exists j :: 0 <= j < |deps| && FailedDependency(s, deps[j])
  }

  lemma FailedDependencyStays(s: State, t: State, dep: Dependency)
    requires Grows(s, t)
    ensures FailedDependency(s, dep) ==> FailedDependency(t, dep)
  {
  }

  /** A definition fails no dependency. */
  lemma DefineFailed(s: State, t: State, m: nat, decl: Declaration)
    requires Defines(s, t, m, decl)
    ensures Open(t, m) && (AnyFailed(t, decl.deps) <==> AnyFailed(s, decl.deps))
    ensures forall u :: KeepsWaits(t, u) ==> KeepsWaits(s, u)
  {
    forall j | 0 <= j < |decl.deps| ensures FailedDependency(t, decl.deps[j]) <==> FailedDependency(s, decl.deps[j]) {
    }
  }

  lemma NoneFailed(s: State, deps: seq<Dependency>)
    requires forall j :: 0 <= j < |deps| ==> !FailedDependency(s, deps[j])
    ensures !AnyFailed(s, deps)
  {
  }

  /** m met a failed dependency, which had failed before the walk. */
  lemma GaveUp(s: State, t: State, u: State, m: nat, deps: seq<Dependency>, i: nat)
    requires Walks(s, t, m) && Walks(s, u, m) && i < |deps| && FailedDependency(t, deps[i])
    ensures Steady(s, u, m) && KeepsWaits(s, u)
    ensures Open(s, m) && Open(t, m) ==> AnyFailed(s, deps)
  {
    if Open(s, m) && Open(t, m) {
      assert FailedDependency(s, deps[i]);
    }
  }

  lemma Resolved(s: State, t: State, u: State, m: nat)
    requires Walks(s, t, m) && CompletesOnly(t, u)
    ensures Steady(s, u, m) && (Open(t, m) ==> !Errored(u, m))
  {
    WalksThenCompletes(s, t, u, m);
  }

  lemma CompletesOnlySelf(s: State)
    ensures CompletesOnly(s, s)
  {
  }

  lemma GrowsSelf(s: State)
    ensures Grows(s, s) && forall m :: Walks(s, s, m)
  {
  }

  lemma GrowsKnown(s: State, t: State, d: nat)
    requires Grows(s, t) && d in s.known
    ensures d in t.known
  {
  }

  lemma GrowsModule(s: State, t: State, m: nat)
    requires Grows(s, t) && m in s.declared && m in s.modules
    ensures m in t.modules && m in t.declared && t.declared[m] == s.declared[m]
  {
  }

  lemma CompletesOnlyGrows(s: State, t: State)
    requires CompletesOnly(s, t)
    ensures Grows(s, t)
  {
  }

  lemma KnownKeeps(s: State, owed: multiset<nat>, frames: Frames, d: nat)
    requires Unrequested(s, owed, frames, d)
    requires d in s.modules || d in s.known
    ensures Ok(s, owed, frames) && Grows(s, s) && (forall m :: Walks(s, s, m))
  {
  }

  lemma PlaceholderKeeps(s: State, t: State, owed: multiset<nat>, frames: Frames, id: nat)
    requires Ok(s, owed, frames) && Defines(s, t, id, Declaration([], Factory, false))
    ensures Almost(t, owed, frames, {id})
  {
    hide Inv, BlameOk;
    WaitersAreDefined(s, owed, frames);
    DefineKeeps(s, t, owed, frames, id, Declaration([], Factory, false));
    UndefinedIsUntouched(s, owed, frames, id);
    EndFrameKeeps(t, owed[id := 0], frames[id := 0], id);
    BlameKeeps(s, t);
    assert owed[id := 0] == owed && frames[id := 0] - {id} == frames;
  }

  // ---- completion ----

  /** Only completions happen between s and t. */
  ghost predicate CompletesOnly(s: State, t: State) {
    && t == s.(modules := t.modules, inverse := t.inverse, completed := t.completed, invoked := t.invoked, raised := t.raised)
    && s.raised <= t.raised && (forall e :: e in t.raised && e.LoadingFailed? ==> e in s.raised)
    && t.modules.Keys == s.modules.Keys
    && s.completed <= t.completed && s.invoked <= t.invoked
    && (forall x :: x in s.modules ==> RecordGrows(s.modules[x], t.modules[x]))
    && (forall x :: Errored(t, x) ==> Errored(s, x))
    && (forall x, d :: x in Waiters(t.inverse, d) ==> x in Waiters(s.inverse, d))
  }

  lemma CompletesOnlyTrans(s: State, t: State, u: State)
    requires CompletesOnly(s, t) && CompletesOnly(t, u)
    ensures CompletesOnly(s, u)
  {
  }

  lemma CompletesOnlyShrinks(s: State, t: State)
    requires CompletesOnly(s, t)
    ensures Incomplete(t) <= Incomplete(s)
  {
  }

  lemma OwedSplit(owed: multiset<nat>, list: seq<nat>, i: nat)
    requires i < |list|
    ensures owed + multiset(list[i..]) == owed + multiset(list[i + 1..]) + multiset{list[i]}
  {
    assert list[i..] == [list[i]] + list[i + 1..];
  }

  lemma OwedEnds(owed: multiset<nat>, list: seq<nat>)
    ensures owed + multiset(list[0..]) == owed + multiset(list) && owed + multiset(list[|list|..]) == owed
  {
  }

  lemma CompletableRecord(s: State, owed: multiset<nat>, frames: Frames, m: nat)
    requires Almost(s, owed, frames, {m}) && Completable(s, frames, m)
    ensures m in s.modules && m in s.declared && s.modules[m].callback == s.declared[m].callback && s.modules[m].error.None?
  {
    assert RecordOk(s, owed, m);
  }

  /** The updates of a completion, one field at a time. */
  lemma CompletesBy(s: State, t: State, m: nat, error: Option<LoaderError>)
    requires m in s.modules && m in s.declared && (error.None? || error == Some(FactoryThrew(m)))
    requires t.modules == s.modules[m := Finished(s.modules[m], error)]
    requires t.completed == s.completed + [m] && t.inverse == s.inverse - {m}
    requires t.invoked == if s.declared[m].callback == Factory then s.invoked + [m] else s.invoked
    requires t.raised == if error.Some? then s.raised + {error.value} else s.raised
    requires t == s.(modules := t.modules, completed := t.completed, inverse := t.inverse, invoked := t.invoked, raised := t.raised)
    ensures Completes(s, t, m, error)
  {
  }

  /** What the frames need is covered by `owed` alone. */
  ghost predicate Covered(declared: map<nat, Declaration>, owed: multiset<nat>, frames: Frames) {
    forall m :: m in frames ==> m in declared && owed[m] >= |declared[m].deps| - frames[m]
  }

  lemma OkIsCovered(s: State, owed: multiset<nat>, frames: Frames)
    requires Inv(s, owed, frames)
    ensures Covered(s.declared, owed, frames)
  {
  }

  lemma AlmostIsOk(s: State, owed: multiset<nat>, frames: Frames, m: nat)
    requires Almost(s, owed, frames, {m}) && m in s.modules && s.modules[m].complete
    ensures Ok(s, owed, frames)
  {
  }

  lemma OwedIsDefined(s: State, owed: multiset<nat>, frames: Frames, x: nat)
    requires Ok(s, owed + multiset{x}, frames)
    ensures x in s.modules
  {
  }

  lemma StartCompletion(s: State, t: State, owed: multiset<nat>, frames: Frames, m: nat, error: Option<LoaderError>)
    requires Almost(s, owed, frames, {m}) && Completable(s, frames, m) && Completes(s, t, m, error)
    ensures Ok(t, owed + multiset(Waiters(s.inverse, m)), frames) && CompletesOnly(s, t)
    ensures Incomplete(t) < Incomplete(s)
  {
    hide Inv, BlameOk;
    CompleteKeeps(s, t, owed, frames, m, error);
    CompletableRecord(s, owed, frames, m);
    CompleteBlame(s, t, m, error);
    assert m in Incomplete(s) && m !in Incomplete(t);
  }

  lemma EntryOk(s: State, owed: multiset<nat>, frames: Frames, x: nat)
    requires Inv(s, owed, frames) && x in s.modules
    ensures x in s.declared && RecordOk(s, owed, x) && (x in frames ==> FrameOk(s, owed, frames, x))
  {
  }

  lemma DeliverCompletesOnly(s: State, t: State, x: nat)
    requires Delivers(s, t, x)
    ensures CompletesOnly(s, t)
  {
  }

  lemma DeliverOne(s: State, t: State, owed: multiset<nat>, frames: Frames, x: nat)
    requires Ok(s, owed + multiset{x}, frames) && Covered(s.declared, owed, frames) && Delivers(s, t, x)
    ensures Almost(t, owed, frames, {x}) && CompletesOnly(s, t)
    ensures t.modules[x].unresolved != 0 ==> Ok(t, owed, frames)
    ensures t.modules[x].unresolved == 0 && !t.modules[x].complete ==> Completable(t, frames, x)
  {
    hide Inv, BlameOk, CompletesOnly;
    DeliverKeeps(s, t, owed, frames, x);
    BlameKeeps(s, t);
    DeliverCompletesOnly(s, t, x);
    EntryOk(t, owed, frames, x);
  }

  // ---- walking a dependency list ----

  /** The first i dependencies of m have been handled; m may sit at zero. */
  ghost predicate Walked(s: State, owed: multiset<nat>, frames: Frames, m: nat, i: nat) {
    && m in s.modules && m in s.declared && i <= |s.declared[m].deps| && m !in frames && m !in owed
    && Almost(s, owed[m := |s.declared[m].deps| - i], frames[m := i], {m})
  }

  lemma WalkedFacts(s: State, owed: multiset<nat>, frames: Frames, m: nat, i: nat)
    requires Walked(s, owed, frames, m, i)
    ensures m in s.modules && m in s.declared && i <= |s.declared[m].deps| && m !in frames && m !in owed
  {
  }

  lemma WalkStarts(s: State, t: State, owed: multiset<nat>, frames: Frames, m: nat, decl: Declaration)
    requires Ok(s, owed, frames) && Defines(s, t, m, decl)
    ensures Walked(t, owed, frames, m, 0) && Grows(s, t)
  {
    hide Inv, BlameOk;
    WaitersAreDefined(s, owed, frames);
    UndefinedIsUntouched(s, owed, frames, m);
    DefineKeeps(s, t, owed, frames, m, decl);
    BlameKeeps(s, t);
  }

  lemma WalkNext(owed: multiset<nat>, frames: Frames, m: nat, n: nat, i: nat)
    requires m !in owed && i < n
    ensures owed[m := n - i] - multiset{m} == owed[m := n - (i + 1)]
    ensures frames[m := i][m := i + 1] == frames[m := i + 1]
  {
  }

  /** A dependency that needs no waiting. */
  lemma WalkAdvances(s: State, t: State, owed: multiset<nat>, frames: Frames, m: nat, i: nat)
    requires Walked(s, owed, frames, m, i) && i < |s.declared[m].deps|
    requires Advances(s, t, owed[m := |s.declared[m].deps| - i], frames[m := i], m) && CutsOk(t)
    requires t.known == s.known && t.requests == s.requests && t.raised == s.raised
    ensures Walked(t, owed, frames, m, i + 1) && Grows(s, t) && Walks(s, t, m)
  {
    hide LogOk, CutsOk, WaitersOk, Reach, RecordsOk, SettledOk;
    WalkNext(owed, frames, m, |s.declared[m].deps|, i);
    AdvanceKeeps(s, t, owed[m := |s.declared[m].deps| - i], frames[m := i], m);
    BlameKeeps(s, t);
  }

  lemma WalkSettles(s: State, t: State, owed: multiset<nat>, frames: Frames, m: nat, i: nat)
    requires Walked(s, owed, frames, m, i) && i < |s.declared[m].deps| && Settled(s, m, s.declared[m].deps[i])
    requires t == s.(modules := s.modules[m := s.modules[m].(unresolved := s.modules[m].unresolved - 1)])
    ensures Walked(t, owed, frames, m, i + 1) && Grows(s, t) && Walks(s, t, m)
  {
    hide LogOk, WaitersOk, Reach, RecordsOk, SettledOk;
    CutsKeep(s, t);
    WalkAdvances(s, t, owed, frames, m, i);
  }

  lemma WalkContinues(s: State, owed: multiset<nat>, frames: Frames, m: nat, i: nat, o: multiset<nat>, f: Frames)
    requires m in s.modules && m in s.declared && i <= |s.declared[m].deps| && m !in frames && m !in owed
    requires o == owed[m := |s.declared[m].deps| - i] && f == frames[m := i] && Ok(s, o, f)
    ensures Walked(s, owed, frames, m, i)
  {
    hide Inv, BlameOk, RequestsOk;
  }

  /** While dependencies remain, m has not completed normally and its list is intact. */
  lemma WalkerIsOpen(s: State, owed: multiset<nat>, frames: Frames, m: nat, i: nat)
    requires Walked(s, owed, frames, m, i) && i < |s.declared[m].deps|
    ensures m !in s.completed && s.modules[m].deps == Some(s.declared[m].deps)
    ensures s.modules[m].errorback == s.declared[m].errorback
  {
  }

  lemma WalkCompleteWithoutError(s: State, owed: multiset<nat>, frames: Frames, m: nat, i: nat, d: nat)
    requires Walked(s, owed, frames, m, i) && d in s.modules && s.modules[d].complete && s.modules[d].error.None?
    ensures d in s.completed
  {
  }

  lemma IncompleteIsNotLogged(s: State, owed: multiset<nat>, frames: Frames, d: nat)
    requires Inv(s, owed, frames) && (d in s.modules ==> !s.modules[d].complete)
    ensures d !in s.completed && !Failed(s, d)
  {
    if d in s.modules {
      assert RecordOk(s, owed, d);
    } else if d in s.completed {
      CompletedIsDefined(s, d);
    }
  }

  lemma SelfDependency(s: State, owed: multiset<nat>, frames: Frames, m: nat, i: nat)
    requires Walked(s, owed, frames, m, i) && i < |s.declared[m].deps| && s.declared[m].deps[i] == Regular(m)
    ensures Reach(DependsOn(s.modules), m, m)
  {
    WalkerIsOpen(s, owed, frames, m, i);
    assert s.declared[m].deps[i] in s.declared[m].deps;
    ReachEdge(DependsOn(s.modules), m, m);
  }

  lemma WalkCuts(s: State, t: State, owed: multiset<nat>, frames: Frames, m: nat, i: nat, d: nat)
    requires Walked(s, owed, frames, m, i) && i < |s.declared[m].deps| && s.declared[m].deps[i] == Regular(d)
    requires Reach(DependsOn(s.modules), d, m)
    requires t == s.(modules := s.modules[m := s.modules[m].(unresolved := s.modules[m].unresolved - 1)],
                     hasCycle := true, cuts := s.cuts + {(m, d)})
    ensures Walked(t, owed, frames, m, i + 1) && Grows(s, t) && Walks(s, t, m)
  {
    hide LogOk, CutsOk, WaitersOk, Reach, SettledOk, RecordsOk;
    var o := owed[m := |s.declared[m].deps| - i];
    assert s.declared[m].deps[i] in s.declared[m].deps;
    CutKeeps(s, t, o, m, d);
    WalkAdvances(s, t, owed, frames, m, i);
  }

  /** The invariant inside a call, except that d may be waited on without having been requested. */
  ghost predicate Unrequested(s: State, owed: multiset<nat>, frames: Frames, d: nat) {
    Inv(s, owed, frames) && Live(s, {}) && RequestsOk(s, {d}) && BlameOk(s)
  }

  /** m is now in d's list; d still has to be requested. */
  lemma WalkWaits(s: State, t: State, owed: multiset<nat>, frames: Frames, m: nat, i: nat, d: nat)
    requires Walked(s, owed, frames, m, i) && i < |s.declared[m].deps| && s.declared[m].deps[i] == Regular(d)
    requires !Reach(DependsOn(s.modules), d, m) && (d in s.modules ==> !s.modules[d].complete)
    requires t == s.(inverse := s.inverse[d := Waiters(s.inverse, d) + [m]])
    ensures Unrequested(t, owed[m := |s.declared[m].deps| - (i + 1)], frames[m := i + 1], d) && Grows(s, t) && Walks(s, t, m)
  {
    hide LogOk, CutsOk, WaitersOk, SettledOk, BlameOk, RecordsOk, RequestsOk, Live, Reach, Walks;
    var n := |s.declared[m].deps|;
    var o, f := owed[m := n - i], frames[m := i];
    if d == m { SelfDependency(s, owed, frames, m, i); }
    IncompleteIsNotLogged(s, o, f, d);
    WalkNext(owed, frames, m, n, i);
    WaitKeeps(s, t, o, f, m, d);
    BlameKeeps(s, t);
    WaitWalks(s, t, m, d);
    WaitLive(s, t, o, f, m, d);
    WaitRequests(s, t, m, d);
  }

  lemma WaitWalks(s: State, t: State, m: nat, d: nat)
    requires !Failed(s, d) && t == s.(inverse := s.inverse[d := Waiters(s.inverse, d) + [m]])
    ensures Walks(s, t, m)
  {
  }

  lemma WaitLive(s: State, t: State, o: multiset<nat>, f: Frames, m: nat, d: nat)
    requires Live(s, {m}) && t == s.(inverse := s.inverse[d := Waiters(s.inverse, d) + [m]])
    requires m in f && m in s.modules && Inv(t, o - multiset{m}, f[m := f[m] + 1])
    ensures Live(t, {})
  {
    assert m in Waiters(t.inverse, d);
    OccurrencesPositive(t.inverse, d, m);
    assert RecordOk(t, o - multiset{m}, m);
  }

  lemma WaitRequests(s: State, t: State, m: nat, d: nat)
    requires RequestsOk(s, {}) && t == s.(inverse := s.inverse[d := Waiters(s.inverse, d) + [m]])
    ensures RequestsOk(t, {d})
  {
  }

  lemma WalkAbandons(s: State, t: State, owed: multiset<nat>, frames: Frames, m: nat, i: nat, d: nat)
    requires Walked(s, owed, frames, m, i) && i < |s.declared[m].deps| && s.declared[m].deps[i] == Regular(d)
    requires d in s.modules && s.modules[d].error.Some?
    requires t == s.(modules := s.modules[m := Mark(s.modules[m], s.modules[d].error.value)])
    ensures Ok(t, owed, frames) && Grows(s, t) && Walks(s, t, m) && Errored(t, m)
  {
    hide LogOk, CutsOk, WaitersOk, Reach, RecordsOk, BlameOk;
    var n := |s.declared[m].deps|;
    var o, f := owed[m := n - i], frames[m := i];
    WalkerIsOpen(s, owed, frames, m, i);
    AbandonKeeps(s, t, o, f, m, s.modules[d].error.value);
    assert Forgiven(s, o, f, m) == owed && f - {m} == frames;
    assert s.declared[m].deps[i] in s.declared[m].deps;
    AbandonBlame(s, t, o, f, m, Regular(d));
  }

  lemma WalkEnds(s: State, owed: multiset<nat>, frames: Frames, m: nat)
    requires m in s.declared && Walked(s, owed, frames, m, |s.declared[m].deps|)
    ensures Almost(s, owed, frames, {m})
    ensures s.modules[m].unresolved == 0 && !s.modules[m].complete ==> Completable(s, frames, m)
    ensures s.modules[m].unresolved != 0 ==> Ok(s, owed, frames)
  {
    hide LogOk, CutsOk, WaitersOk, Reach, BlameOk, SettledOk;
    var n := |s.declared[m].deps|;
    assert RecordOk(s, owed[m := 0], m);
    EndFrameKeeps(s, owed[m := 0], frames[m := n], m);
    assert owed[m := 0] == owed && frames[m := n] - {m} == frames;
  }

  /** Requests and raised errors play no part in the invariant of the tables. */
  lemma BookkeepingKeeps(s: State, t: State, owed: multiset<nat>, frames: Frames)
    requires Inv(s, owed, frames) && t == s.(known := t.known, requests := t.requests, raised := t.raised)
    ensures Inv(t, owed, frames)
  {
    hide WaitersOk, LogOk, Reach;
    assert RecordsOk(t, owed) by {
      forall x | x in t.modules ensures RecordOk(t, owed, x) { assert RecordOk(s, owed, x); }
    }
    assert SettledOk(t, owed, frames) by {
      forall x | x in frames ensures FrameOk(t, owed, frames, x) { assert FrameOk(s, owed, frames, x); }
      forall x | x in t.modules && !t.modules[x].complete ensures SettledAt(t, frames, x) { assert SettledAt(s, frames, x); }
    }
    CutsKeep(s, t);
    LocalKeeps(s, t, owed, frames, owed, frames);
  }

  lemma RequestKeeps(s: State, t: State, owed: multiset<nat>, frames: Frames, d: nat)
    requires Unrequested(s, owed, frames, d)
    requires d !in s.known && t == s.(known := s.known + {d}, requests := s.requests + [d])
    ensures Ok(t, owed, frames) && Grows(s, t) && (forall m :: Walks(s, t, m))
  {
    hide Inv, BlameOk;
    assert RequestsOk(t, {});
    BlameKeeps(s, t);
    BookkeepingKeeps(s, t, owed, frames);
  }

  lemma GrowsTrans(s: State, t: State, u: State)
    requires Grows(s, t) && Grows(t, u)
    ensures Grows(s, u)
  {
  }

  lemma WaitersAreDefined(s: State, owed: multiset<nat>, frames: Frames)
    requires Inv(s, owed, frames)
    ensures s.declared.Keys == s.modules.Keys
    ensures forall d, m :: m in Waiters(s.inverse, d) ==> m in s.modules
  {
  }

  /** Exactly the affected modules take the error; the failed module gets a record; nothing else changes. */
  ghost predicate FailureMarks(s: State, t: State, id: nat) {
    && t.modules.Keys == s.modules.Keys + {id}
    && t == s.(modules := t.modules, declared := t.declared, raised := s.raised + {LoadingFailed(id)})
    && (forall x :: x in s.declared ==> x in t.declared && t.declared[x] == s.declared[x])
    && (id !in s.modules ==> id in t.declared && t.declared[id] == Declaration([], Factory, false))
    && (forall x :: x in t.modules && Affected(s.inverse, id, x)
          ==> t.modules[x].complete && t.modules[x].error == Some(LoadingFailed(id)))
    && (forall x :: x in s.modules && Affected(s.inverse, id, x) ==>
          t.modules[x] == s.modules[x].(complete := true, error := Some(LoadingFailed(id))))
    && (forall x :: x in s.modules && !Affected(s.inverse, id, x) ==> t.modules[x] == s.modules[x])
  }

  ghost predicate HasErrorback(s: State, id: nat, x: nat) {
    Affected(s.inverse, id, x) && x in s.modules && s.modules[x].errorback
  }

  /** The state in which the walk over the inverse lists starts. */
  ghost predicate WithRecord(s: State, s0: State, s1: State, id: nat) {
    && (if id in s.modules then s0 == s else Defines(s, s0, id, Declaration([], Factory, false)))
    && s1 == s0.(raised := s0.raised + {LoadingFailed(id)})
  }

  lemma WithRecordFacts(s: State, s0: State, s1: State, id: nat)
    requires WithRecord(s, s0, s1, id) && s.declared.Keys == s.modules.Keys
    ensures s1.modules.Keys == s.modules.Keys + {id}
    ensures s1 == s.(modules := s1.modules, declared := s1.declared, raised := s.raised + {LoadingFailed(id)})
    ensures forall x :: x in s.modules ==> s1.modules[x] == s.modules[x]
    ensures forall x :: x in s.declared ==> x in s1.declared && s1.declared[x] == s.declared[x]
    ensures id !in s.modules ==> !s1.modules[id].errorback && id in s1.declared && s1.declared[id] == Declaration([], Factory, false)
  {
  }

  lemma FailureMarksAffected(s: State, s0: State, s1: State, t: State, id: nat, reached: set<nat>)
    requires WithRecord(s, s0, s1, id) && s.declared.Keys == s.modules.Keys
    requires Marks(s1, t, reached, LoadingFailed(id))
    requires forall x :: x in reached <==> Affected(s.inverse, id, x)
    ensures FailureMarks(s, t, id)
    ensures forall x :: HasErrorback(s, id, x) <==> x in reached && x in s1.modules && s1.modules[x].errorback
  {
    hide Affected, WithRecord;
    WithRecordFacts(s, s0, s1, id);
  }

  lemma FailureBlame(s: State, t: State, id: nat, owed: multiset<nat>, frames: Frames)
    requires Inv(s, owed, frames) && BlameOk(s) && FailureMarks(s, t, id) && t.declared.Keys == t.modules.Keys
    ensures BlameOk(t)
  {
    FailureGrows(s, t, id);
    forall x | x in t.modules && t.modules[x].error.Some? ensures Blamed(t, x) {
      if x != id {
        if Affected(s.inverse, id, x) {
          var d := ReachFirst(Waits(s.inverse), x, id);
          assert Regular(d) in s.declared[x].deps;
          AffectedIsDefined(s, id, owed, frames, x);
          AffectedIsDefined(s, id, owed, frames, d);
        } else {
          assert Blamed(s, x);
          BlamedStays(s, t, x);
        }
      }
    }
  }

  lemma AffectedIsDefined(s: State, id: nat, owed: multiset<nat>, frames: Frames, x: nat)
    requires Inv(s, owed, frames) && Affected(s.inverse, id, x)
    ensures x in s.modules || x == id
    ensures x in s.completed ==> x == id
  {
    if x != id {
      var d := ReachFirst(Waits(s.inverse), x, id);
      OccurrencesPositive(s.inverse, d, x);
      assert RecordOk(s, owed, x);
    }
  }

  lemma FailureKeeps(s: State, s0: State, s1: State, t: State, id: nat, owed: multiset<nat>, frames: Frames, reached: set<nat>)
    requires Ok(s, owed, frames) && WithRecord(s, s0, s1, id)
    requires Inv(s0, owed, frames) && RequestsOk(s0, {})
    requires Marks(s1, t, reached, LoadingFailed(id)) && FailureMarks(s, t, id)
    requires forall x :: x in reached <==> Affected(s.inverse, id, x)
    ensures Ok(t, owed, frames)
  {
    hide Inv, BlameOk;
    BookkeepingKeeps(s0, s1, owed, frames);
    MarkKeeps(s1, t, owed, frames, reached, LoadingFailed(id));
    WaitersAreDefined(t, owed, frames);
    assert id in reached;
    assert Live(t, {});
    FailureBlame(s, t, id, owed, frames);
  }

  lemma FailureGrows(s: State, t: State, id: nat)
    requires FailureMarks(s, t, id)
    ensures Grows(s, t)
  {
  }

  /** A module that completed normally and is not the failed one keeps its record. */
  lemma FailureSparesCompleted(s: State, t: State, id: nat, owed: multiset<nat>, frames: Frames, x: nat)
    requires Inv(s, owed, frames) && FailureMarks(s, t, id) && x in s.completed && x != id
    ensures x in s.modules && t.modules[x] == s.modules[x]
  {
    CompletedIsDefined(s, x);
    if Affected(s.inverse, id, x) { AffectedIsDefined(s, id, owed, frames, x); }
  }

  /** The breadth-first walk: `reached` is done, `queue` is next, nothing else has been seen. */
  ghost predicate Frontier(inverse: map<nat, seq<nat>>, defined: set<nat>, id: nat, seen: set<nat>, queue: seq<nat>, reached: set<nat>) {
    && id in seen && seen <= defined && NoDuplicates(queue)
    && (forall x :: x in seen <==> x in reached || x in queue)
    && (forall x :: x in queue ==> x !in reached)
    && (forall x :: x in seen ==> Affected(inverse, id, x))
    && (forall m, d :: d in reached && m in Waiters(inverse, d) ==> m in seen)
  }

  lemma FrontierStart(inverse: map<nat, seq<nat>>, defined: set<nat>, id: nat)
    requires id in defined
    ensures Frontier(inverse, defined, id, {id}, [id], {}) && NoDuplicates<nat>([])
  {
  }

  lemma NoDuplicatesAppend(s: seq<nat>, x: nat)
    requires NoDuplicates(s) && x !in s
    ensures NoDuplicates(s + [x])
  {
  }

  lemma MarksOneMore(s: State, t: State, u: State, reached: set<nat>, x: nat, err: LoaderError)
    requires Marks(s, t, reached, err) && x in t.modules && x !in reached
    requires u == t.(modules := t.modules[x := Mark(t.modules[x], err)])
    ensures Marks(s, u, reached + {x}, err)
  {
  }

  lemma FrontierDone(inverse: map<nat, seq<nat>>, defined: set<nat>, id: nat, seen: set<nat>, reached: set<nat>)
    requires Frontier(inverse, defined, id, seen, [], reached)
    ensures forall x :: x in reached <==> Affected(inverse, id, x)
  {
    forall x | Affected(inverse, id, x) ensures x in seen {
      if x != id {
        var p :| IsPath(Waits(inverse), p) && p[0] == x && p[|p| - 1] == id;
        ClosedBackwards(Waits(inverse), seen, p);
      }
    }
  }
}
