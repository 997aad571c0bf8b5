/** What the module manager guarantees between events, over every run. */
module LoaderTheorems {

  import opened Common
  import opened Graphs
  import opened LoaderState
  import opened LoaderSteps
  import opened Loader

  ghost predicate BetweenEvents(s: State) {
    Ok(s, multiset{}, map[])
  }

  ghost predicate EveryAwaitedIsDefined(s: State) {
    forall d :: Waiters(s.inverse, d) != [] ==> d in s.modules
  }

  /** The counter of an unfinished module is its number of occurrences over all inverse lists, and is positive. */
  lemma CounterIsOccurrences(s: State, m: nat)
    requires BetweenEvents(s) && Pending(s, m)
    ensures s.modules[m].unresolved == Occurrences(s.inverse, m) > 0
  {
  }

  /** Every awaited id is in the table or has been requested, and no id is requested twice. */
  lemma AwaitedIsRequestedOnce(s: State, d: nat)
    requires BetweenEvents(s) && Waiters(s.inverse, d) != [] && d !in s.modules
    ensures d in s.requests && forall i, j :: 0 <= i < j < |s.requests| ==> s.requests[i] != s.requests[j]
  {
  }

  /** A module waits on something unfinished, undefined or failed, never on something that completed. */
  lemma AwaitedIsNotCompleted(s: State, m: nat, d: nat)
    requires BetweenEvents(s) && m in Waiters(s.inverse, d)
    ensures d !in s.completed
  {
    if d in s.completed { CompletedHasNoWaiters(s, d); }
  }

  lemma CompletedHasNoWaiters(s: State, d: nat)
    requires BetweenEvents(s) && d in s.completed
    ensures Waiters(s.inverse, d) == []
  {
    CompletedIsDefined(s, d);
    assert RecordOk(s, multiset{}, d);
  }

  lemma PendingWaitsOn(s: State, m: nat) returns (d: nat)
    requires BetweenEvents(s) && Pending(s, m)
    ensures m in Waiters(s.inverse, d)
  {
    CounterIsOccurrences(s, m);
    d := OccurrencesWitness(s.inverse, m);
  }

  ghost predicate BehindError(s: State, m: nat) {
    exists x :: Errored(s, x) && Reach(Waits(s.inverse), m, x)
  }

  /** Once everything awaited is defined, a module is unfinished only behind a failed one: cycles never deadlock. */
  lemma UnfinishedIsBehindError(s: State, m: nat)
    requires BetweenEvents(s) && EveryAwaitedIsDefined(s) && Pending(s, m)
    ensures BehindError(s, m)
  {
    hide Inv, Live, RequestsOk, BlameOk;
    var e := Waits(s.inverse);
    if !BehindError(s, m) {
      var stuck := set y | y in s.modules && Pending(s, y) && (y == m || Reach(e, m, y));
      assert m in stuck;
      forall y | y in stuck ensures HasSuccessorIn(e, stuck, y) {
        var d := PendingWaitsOn(s, y);
        AwaitedIsNotCompleted(s, y, d);
        assert e(y, d);
        ReachSnoc(e, m, y, d);
        assert d in stuck;
      }
      NoSinkHasCycle(e, stuck);
      WaitsAreAcyclic(s);
    }
  }

  lemma WaitsAreAcyclic(s: State)
    requires BetweenEvents(s)
    ensures Acyclic(Waits(s.inverse))
  {
  }

  /** With everything awaited defined, exactly the modules that neither failed nor wait behind a failure completed. */
  lemma CompletedExactly(s: State, m: nat)
    requires BetweenEvents(s) && EveryAwaitedIsDefined(s) && m in s.modules
    ensures m in s.completed <==> !Errored(s, m) && !BehindError(s, m)
  {
    if Pending(s, m) {
      UnfinishedIsBehindError(s, m);
      assert RecordOk(s, multiset{}, m);
    } else if BehindError(s, m) {
      var x :| Errored(s, x) && Reach(Waits(s.inverse), m, x);
      var d := ReachFirst(Waits(s.inverse), m, x);
      OccurrencesPositive(s.inverse, d, m);
      assert RecordOk(s, multiset{}, m);
    }
  }

  lemma ErrorIsRaised(s: State, x: nat)
    requires BetweenEvents(s) && Errored(s, x)
    ensures s.modules[x].error.Some? && s.modules[x].error.value in s.raised
    ensures LoadingFailed(x) in s.raised || (x in s.declared && DependencyFailed(s, x))
  {
  }

  /** If nothing was ever raised and everything awaited is defined, every defined module has completed. */
  lemma ErrorFreeRunsFinish(s: State)
    requires BetweenEvents(s) && EveryAwaitedIsDefined(s) && s.raised == {}
    ensures forall m :: m in s.modules ==> m in s.completed
  {
    forall m | m in s.modules ensures m in s.completed {
      forall x | Errored(s, x) ensures false { ErrorIsRaised(s, x); }
      CompletedExactly(s, m);
    }
  }

  ghost predicate TopologicalOrder(log: seq<nat>, declared: map<nat, Declaration>) {
    forall k, dep :: 0 <= k < |log| && log[k] in declared && dep in declared[log[k]].deps && dep.Regular? ==> dep.id in log[..k]
  }

  /** A cycle is flagged only if the declarations contain one; without a flag, completion order is topological. */
  lemma CompletionOrder(s: State)
    requires BetweenEvents(s)
    ensures Acyclic(Declares(s.declared)) ==> !s.hasCycle
    ensures !s.hasCycle ==> TopologicalOrder(s.completed, s.declared)
  {
    if s.hasCycle {
      var c :| c in s.cuts;
      assert CutOk(s, c);
      assert Regular(c.1).Target() == c.1;
      ReachCons(Declares(s.declared), c.0, c.1, c.0);
    } else {
      forall k, dep | 0 <= k < |s.completed| && s.completed[k] in s.declared && dep in s.declared[s.completed[k]].deps && dep.Regular?
        ensures dep.id in s.completed[..k]
      {
        assert OrderedAt(s, k);
      }
    }
  }

  /** Factories run at most once, only for completed modules, and after every dependency that was not cut as cyclic. */
  lemma FactoriesRunOnce(s: State, i: nat)
    requires BetweenEvents(s) && i < |s.invoked|
    ensures forall j :: 0 <= j < i ==> s.invoked[j] != s.invoked[i]
    ensures exists k :: 0 <= k < |s.completed| && s.completed[k] == s.invoked[i] && OrderedAt(s, k)
  {
    var m := s.invoked[i];
    assert m in s.completed;
    var k :| 0 <= k < |s.completed| && s.completed[k] == m;
    assert OrderedAt(s, k);
  }

  // ---- the special dependencies ----

  /** Dependency edges on modules, leaving out `exports`, `module` and `require`. */
  ghost function DependsOnModules(modules: map<nat, Module>): Rel {
    (a: nat, b: nat) => a in modules && modules[a].deps.Some? && Regular(b) in modules[a].deps.value
  }

  lemma {:induction false} PathOverModules(modules: map<nat, Module>, p: seq<nat>)
    requires IsPath(DependsOn(modules), p) && p[|p| - 1] >= 3 && forall m :: m in modules ==> m >= 3
    ensures IsPath(DependsOnModules(modules), p)
    decreases |p|
  {
    assert DependsOn(modules)(p[0], p[1]);
    if |p| > 2 {
      assert DependsOn(modules)(p[1], p[2]);
      PathOverModules(modules, p[1..]);
      assert forall i :: 0 < i < |p| - 1 ==> p[i] == p[1..][i - 1] && p[i + 1] == p[1..][i];
    }
  }

  /** The ids 0, 1 and 2 are reserved for the special dependencies. As long as no module has one of them, the cycle search
      finds exactly the paths over modules. */
  lemma SpecialsLeadNowhere(modules: map<nat, Module>, a: nat, b: nat)
    requires b >= 3 && forall m :: m in modules ==> m >= 3
    ensures Reach(DependsOn(modules), a, b) <==> Reach(DependsOnModules(modules), a, b)
  {
    if Reach(DependsOn(modules), a, b) {
      var p :| IsPath(DependsOn(modules), p) && p[0] == a && p[|p| - 1] == b;
      PathOverModules(modules, p);
    }
    if Reach(DependsOnModules(modules), a, b) {
      forall x, y | DependsOnModules(modules)(x, y) ensures DependsOn(modules)(x, y) {
        assert Regular(y).Target() == y;
      }
      ReachMono(DependsOnModules(modules), DependsOn(modules), a, b);
    }
  }

  // ---- runs ----

  ghost predicate SuppliedByEvent(e: Event, m: nat, decl: Declaration) {
    match e
    case Define(def) => SuppliedIn(def, m, decl)
    case LoadFailed(id) => id == m && decl == PLACEHOLDER
  }

  ghost predicate SuppliedByEvents(events: seq<Event>, m: nat, decl: Declaration) {
    exists e :: 0 <= e < |events| && SuppliedByEvent(events[e], m, decl)
  }

  ghost predicate AskedByEvents(events: seq<Event>, x: Definition) {
    exists e :: 0 <= e < |events| && events[e].Define? && PartOf(events[e].def, x)
  }

  /** Everything in the table comes from the events, every request is one of their definitions', and whatever the loader
      answered to it has been carried out. */
  ghost predicate AllCarriedOut(events: seq<Event>, s: State, answers: seq<Answer>) {
    && Paired(answers, s.requests)
    && (forall j :: 0 <= j < |answers| ==> AskedByEvents(events, answers[j].asker) && Obeyed(s, answers[j], s.requests[j]))
    && (forall m :: m in s.modules ==> m in s.declared && SuppliedByEvents(events, m, s.declared[m]))
  }

  lemma MoreEvents(events: seq<Event>, more: Event, m: nat, decl: Declaration)
    ensures SuppliedByEvents(events, m, decl) ==> SuppliedByEvents(events + [more], m, decl)
    ensures SuppliedByEvent(more, m, decl) ==> SuppliedByEvents(events + [more], m, decl)
  {
    hide SuppliedByEvent;
    if SuppliedByEvents(events, m, decl) {
      var e :| 0 <= e < |events| && SuppliedByEvent(events[e], m, decl);
      assert SuppliedByEvent((events + [more])[e], m, decl);
    }
    if SuppliedByEvent(more, m, decl) { assert SuppliedByEvent((events + [more])[|events|], m, decl); }
  }

  lemma MoreAsked(events: seq<Event>, more: Event, x: Definition)
    ensures AskedByEvents(events, x) ==> AskedByEvents(events + [more], x)
    ensures more.Define? && PartOf(more.def, x) ==> AskedByEvents(events + [more], x)
  {
    hide PartOf;
    if AskedByEvents(events, x) {
      var e :| 0 <= e < |events| && events[e].Define? && PartOf(events[e].def, x);
      assert (events + [more])[e].Define?;
    }
    if more.Define? && PartOf(more.def, x) { assert (events + [more])[|events|].Define?; }
  }

  lemma DefineCarries(events: seq<Event>, def: Definition, s: State, a: seq<Answer>, t: State, b: seq<Answer>)
    requires AllCarriedOut(events, s, a) && Grows(s, t) && CarriesOut(def, s, a, t, b)
    ensures AllCarriedOut(events + [Define(def)], t, b)
  {
    hide PartOf, Obeyed, SuppliedIn, Asks, SuppliedByEvents, AskedByEvents;
    var all := events + [Define(def)];
    forall j | 0 <= j < |b| ensures AskedByEvents(all, b[j].asker) && Obeyed(t, b[j], t.requests[j]) {
      MoreAsked(events, Define(def), b[j].asker);
      if j < |a| { ObeyedStays(s, t, a[j], s.requests[j]); }
    }
    forall m | m in t.modules ensures m in t.declared && SuppliedByEvents(all, m, t.declared[m]) {
      MoreEvents(events, Define(def), m, t.declared[m]);
    }
  }

  lemma FailureCarries(events: seq<Event>, id: nat, s: State, a: seq<Answer>, t: State)
    requires AllCarriedOut(events, s, a) && FailureMarks(s, t, id) && Grows(s, t)
    ensures AllCarriedOut(events + [LoadFailed(id)], t, a)
  {
    hide PartOf, Obeyed, SuppliedIn, Asks, SuppliedByEvents, AskedByEvents, Affected;
    var all := events + [LoadFailed(id)];
    forall j | 0 <= j < |a| ensures AskedByEvents(all, a[j].asker) && Obeyed(t, a[j], t.requests[j]) {
      MoreAsked(events, LoadFailed(id), a[j].asker);
      ObeyedStays(s, t, a[j], s.requests[j]);
    }
    forall m | m in t.modules ensures m in t.declared && SuppliedByEvents(all, m, t.declared[m]) {
      MoreEvents(events, LoadFailed(id), m, t.declared[m]);
    }
  }

  lemma NothingCarriedOut()
    ensures AllCarriedOut([], EMPTY, [])
  {
  }

  /** After any sequence of define calls and load failures, whatever the loader answers: waits are acyclic, counters
      count, the log is in order, and what completes is known exactly once everything awaited is defined. */
  method Run(throws: nat -> bool, events: seq<Event>) returns (manager: ModuleManager)
    ensures manager.Valid() && BetweenEvents(manager.Snapshot())
    ensures Acyclic(Waits(manager.inverse))
    ensures forall m :: Pending(manager.Snapshot(), m) ==> manager.modules[m].unresolved == Occurrences(manager.inverse, m) > 0
    ensures EveryAwaitedIsDefined(manager.Snapshot()) ==> forall m :: m in manager.modules ==>
      (m in manager.completed <==> !Errored(manager.Snapshot(), m) && !BehindError(manager.Snapshot(), m))
    ensures !manager.hasDependencyCycle ==> TopologicalOrder(manager.completed, manager.declared)
    ensures Acyclic(Declares(manager.declared)) ==> !manager.hasDependencyCycle
    ensures NoDuplicates(manager.invoked) && NoDuplicates(manager.requests)
    ensures AllCarriedOut(events, manager.Snapshot(), manager.answers)
    ensures forall i :: 0 <= i < |events| && events[i].Define? ==> events[i].def.id in manager.modules
    ensures forall i :: 0 <= i < |events| && events[i].LoadFailed? ==> LoadingFailed(events[i].id) in manager.raised
  {
    hide Inv, Live, RequestsOk, BlameOk, FailureMarks, AllCarriedOut, CarriesOut, Grows, Paired, AnyFailed, KeepsWaits, DefinesOnly;
    manager := new ModuleManager(throws);
    NothingCarriedOut();
    assert events[..0] == [];
    for i := 0 to |events|
      invariant manager.Valid() && AllCarriedOut(events[..i], manager.Snapshot(), manager.answers)
      invariant forall j :: 0 <= j < i && events[j].Define? ==> events[j].def.id in manager.modules
      invariant forall j :: 0 <= j < i && events[j].LoadFailed? ==> LoadingFailed(events[j].id) in manager.raised
    {
      ghost var s, a := manager.Snapshot(), manager.answers;
      assert events[..i + 1] == events[..i] + [events[i]];
      match events[i] {
        case Define(def) =>
          manager.DefineModule(def, multiset{}, map[]);
          DefineCarries(events[..i], def, s, a, manager.Snapshot(), manager.answers);
          CarriedIsPaired(def, s, a, manager.Snapshot(), manager.answers);
        case LoadFailed(id) =>
          ghost var notified := manager.OnLoadError(id, multiset{}, map[]);
          FailureGrows(s, manager.Snapshot(), id);
          FailureRaises(s, manager.Snapshot(), id);
          FailureCarries(events[..i], id, s, a, manager.Snapshot());
      }
      GrownStays(s, manager.Snapshot());
    }
    assert events[..|events|] == events;
    Guarantees(manager.Snapshot());
  }

  /** The loader answered the request before returning: it failed, or a script defined the module asked for. */
  ghost predicate AnsweredAtOnce(a: Answer, d: nat) {
    var r := ResponseAt(a.asker, a.i);
    r.failed || exists k :: 0 <= k < |r.calls| && r.calls[k].id == d
  }

  /** A loader that always answers at once leaves nothing awaited undefined, and so what completes is known exactly. */
  lemma SynchronousLoader(events: seq<Event>, s: State, answers: seq<Answer>)
    requires BetweenEvents(s) && AllCarriedOut(events, s, answers)
    requires forall j :: 0 <= j < |answers| ==> AnsweredAtOnce(answers[j], s.requests[j])
    ensures EveryAwaitedIsDefined(s)
    ensures forall m :: m in s.modules ==> (m in s.completed <==> !Errored(s, m) && !BehindError(s, m))
  {
    hide Inv, Live, BlameOk, AskedByEvents, SuppliedByEvents, BehindError, Errored;
    forall j | 0 <= j < |answers| ensures s.requests[j] in s.modules {
      assert AnsweredAtOnce(answers[j], s.requests[j]) && Obeyed(s, answers[j], s.requests[j]);
    }
    assert forall d :: d in s.requests ==> d in s.modules;
    Guarantees(s);
  }

  lemma Guarantees(s: State)
    requires BetweenEvents(s)
    ensures Acyclic(Waits(s.inverse)) && NoDuplicates(s.invoked) && NoDuplicates(s.requests)
    ensures forall m :: Pending(s, m) ==> s.modules[m].unresolved == Occurrences(s.inverse, m) > 0
    ensures EveryAwaitedIsDefined(s) ==> forall m :: m in s.modules ==> (m in s.completed <==> !Errored(s, m) && !BehindError(s, m))
    ensures !s.hasCycle ==> TopologicalOrder(s.completed, s.declared)
    ensures Acyclic(Declares(s.declared)) ==> !s.hasCycle
  {
    forall m | Pending(s, m) ensures s.modules[m].unresolved == Occurrences(s.inverse, m) > 0 { CounterIsOccurrences(s, m); }
    if EveryAwaitedIsDefined(s) {
      forall m | m in s.modules ensures m in s.completed <==> !Errored(s, m) && !BehindError(s, m) { CompletedExactly(s, m); }
    }
    WaitsAreAcyclic(s);
    CompletionOrder(s);
  }

  lemma GrownStays(s: State, t: State)
    requires Grows(s, t)
    ensures (forall m :: m in s.modules ==> m in t.modules) && s.raised <= t.raised
  {
  }

  lemma FailureRaises(s: State, t: State, id: nat)
    requires FailureMarks(s, t, id)
    ensures LoadingFailed(id) in t.raised
  {
  }

  // ---- who gets stranded ----

  /** No unfinished module waits behind a failed one. */
  ghost predicate NobodyStranded(s: State) {
    forall m :: Pending(s, m) ==> !BehindError(s, m)
  }

  /** As long as nobody is stranded, every module ends once everything awaited is defined. */
  lemma EveryoneEnds(s: State, m: nat)
    requires BetweenEvents(s) && EveryAwaitedIsDefined(s) && NobodyStranded(s) && m in s.modules
    ensures m in s.completed || Errored(s, m)
  {
    hide Inv, Live, RequestsOk, BlameOk, BehindError;
    if Pending(s, m) { UnfinishedIsBehindError(s, m); }
  }

  /** The guard of the defect: a definition is about to give up while an unfinished module waits on it. */
  ghost predicate Strands(s: State, id: nat, deps: seq<Dependency>) {
    id !in s.modules && AnyFailed(s, deps) && exists x :: Pending(s, x) && x in Waiters(s.inverse, id)
  }

  lemma WaiterIsNotCompleted(s: State, m: nat, d: nat)
    requires BetweenEvents(s) && m in Waiters(s.inverse, d)
    ensures m in s.modules && m !in s.completed && (Pending(s, m) || Errored(s, m))
  {
    OccurrencesPositive(s.inverse, d, m);
    assert RecordOk(s, multiset{}, m);
  }

  lemma ErroredHasFailed(s: State, m: nat)
    requires BetweenEvents(s) && Errored(s, m)
    ensures Failed(s, m)
  {
    assert RecordOk(s, multiset{}, m);
  }

  /** What a define call with a loader that answers later leaves behind. */
  ghost predicate Defined(s: State, t: State, id: nat, deps: seq<Dependency>) {
    && id !in s.modules && DefinesOnly(s, t, id) && Grows(s, t)
    && (Errored(t, id) <==> AnyFailed(s, deps)) && (Errored(t, id) ==> KeepsWaits(s, t))
  }

  /** A wait of anyone but the new module was there before. */
  lemma OldWait(s: State, t: State, id: nat, deps: seq<Dependency>, m: nat, d: nat)
    requires BetweenEvents(s) && Defined(s, t, id, deps) && m in Waiters(t.inverse, d)
    ensures m != id ==> m in Waiters(s.inverse, d) && (Pending(s, m) || Errored(s, m))
    ensures m == id ==> !Failed(s, d)
  {
    hide Inv, Live, RequestsOk, BlameOk;
    if m in Waiters(s.inverse, d) { WaiterIsNotCompleted(s, m, d); }
  }

  lemma NotBehindOldError(s: State, t: State, id: nat, deps: seq<Dependency>, m: nat, d: nat)
    requires BetweenEvents(s) && NobodyStranded(s) && Defined(s, t, id, deps)
    requires (m == id || Pending(s, m)) && m in Waiters(t.inverse, d)
    ensures !Errored(s, d)
  {
    hide Inv, Live, RequestsOk, BlameOk, Defined, Reach;
    OldWait(s, t, id, deps, m, d);
    if Errored(s, d) {
      ErroredHasFailed(s, d);
      if m != id { ReachEdge(Waits(s.inverse), m, d); }
    }
  }

  /** No path from a module that was not stranded, or from the new one, leads to an old failure. */
  lemma {:induction false} NoWayToOldError(s: State, t: State, id: nat, deps: seq<Dependency>, p: seq<nat>)
    requires BetweenEvents(s) && NobodyStranded(s) && Defined(s, t, id, deps)
    requires IsPath(Waits(t.inverse), p) && (p[0] == id || Pending(s, p[0]))
    ensures !Errored(s, p[|p| - 1])
    decreases |p|
  {
    hide BetweenEvents, NobodyStranded, Defined;
    assert Waits(t.inverse)(p[0], p[1]);
    NotBehindOldError(s, t, id, deps, p[0], p[1]);
    if |p| > 2 {
      assert Waits(t.inverse)(p[1], p[2]);
      OldWait(s, t, id, deps, p[1], p[2]);
      NoWayToOldError(s, t, id, deps, p[1..]);
    }
  }

  /** A path to the new module enters it from an unfinished module that waited on it before. */
  lemma {:induction false} WayToNew(s: State, t: State, id: nat, deps: seq<Dependency>, p: seq<nat>) returns (x: nat)
    requires BetweenEvents(s) && NobodyStranded(s) && Defined(s, t, id, deps)
    requires IsPath(Waits(t.inverse), p) && p[|p| - 1] == id && Pending(s, p[0])
    ensures Pending(s, x) && x in Waiters(s.inverse, id)
    decreases |p|
  {
    hide BetweenEvents, NobodyStranded, Defined;
    assert Waits(t.inverse)(p[0], p[1]);
    assert p[0] != id by { PendingIsOld(s, t, id, deps, p[0]); }
    OldWait(s, t, id, deps, p[0], p[1]);
    if p[1] == id {
      return p[0];
    }
    assert |p| > 2 && Waits(t.inverse)(p[1], p[2]);
    NotBehindOldError(s, t, id, deps, p[0], p[1]);
    OldWait(s, t, id, deps, p[1], p[2]);
    x := WayToNew(s, t, id, deps, p[1..]);
  }

  lemma PendingIsOld(s: State, t: State, id: nat, deps: seq<Dependency>, m: nat)
    requires Defined(s, t, id, deps) && (Pending(s, m) || (Pending(t, m) && m != id))
    ensures m != id && Pending(s, m)
  {
  }

  /** A define call strands someone exactly when it gives up on a dependency that had already failed while an unfinished
      module waits on it. */
  lemma StrandedExactly(s: State, t: State, id: nat, deps: seq<Dependency>)
    requires BetweenEvents(s) && BetweenEvents(t) && NobodyStranded(s) && Defined(s, t, id, deps)
    ensures NobodyStranded(t) <==> !Strands(s, id, deps)
  {
    hide Inv, Live, RequestsOk, BlameOk, Reach, AnyFailed;
    if Strands(s, id, deps) {
      var x :| Pending(s, x) && x in Waiters(s.inverse, id);
      WaiterIsNotCompleted(t, x, id);
      ReachEdge(Waits(t.inverse), x, id);
      assert Pending(t, x) && BehindError(t, x);
    }
    forall m | Pending(t, m) && BehindError(t, m) ensures Strands(s, id, deps) {
      var x :| Errored(t, x) && Reach(Waits(t.inverse), m, x);
      StrandedBy(s, t, id, deps, m, x);
    }
  }

  lemma StrandedBy(s: State, t: State, id: nat, deps: seq<Dependency>, m: nat, x: nat)
    requires BetweenEvents(s) && NobodyStranded(s) && Defined(s, t, id, deps)
    requires Pending(t, m) && Errored(t, x) && Reach(Waits(t.inverse), m, x)
    ensures Strands(s, id, deps)
  {
    hide BetweenEvents, NobodyStranded, AnyFailed;
    var p :| IsPath(Waits(t.inverse), p) && p[0] == m && p[|p| - 1] == x;
    if m != id { PendingIsOld(s, t, id, deps, m); }
    NoWayToOldError(s, t, id, deps, p);
    assert x == id;
    var y := WayToNew(s, t, id, deps, p);
  }

  /** A load failure strands nobody: whoever is behind an error afterwards was behind one before. */
  lemma FailureStrandsNobody(s: State, t: State, id: nat, m: nat)
    requires FailureMarks(s, t, id) && Pending(t, m) && BehindError(t, m)
    ensures Pending(s, m) && BehindError(s, m)
  {
    hide Reach;
    var x :| Errored(t, x) && Reach(Waits(t.inverse), m, x);
    if Affected(s.inverse, id, x) && x != id { ReachTrans(Waits(s.inverse), m, x, id); }
    assert !Affected(s.inverse, id, m) && Errored(s, x);
  }

  /** A define call with a loader that answers later, from a state in which nobody is stranded. */
  method DefineAwaiting(manager: ModuleManager, def: Definition)
    requires manager.Valid() && def.responses == [] && NobodyStranded(manager.Snapshot())
    modifies manager
    ensures manager.Valid()
    ensures NobodyStranded(manager.Snapshot()) <==> !Strands(old(manager.Snapshot()), def.id, def.decl.deps)
  {
    hide Inv, Live, RequestsOk, BlameOk, NobodyStranded, AnyFailed, Grows, DefinesOnly, KeepsWaits;
    ghost var s := manager.Snapshot();
    manager.DefineModule(def, multiset{}, map[]);
    if def.id !in s.modules {
      StrandedExactly(s, manager.Snapshot(), def.id, def.decl.deps);
    }
  }

  /** Without the error-free condition the promise fails: 3 waits on 4; 9 failed; 4 depends on 9. 4 gives up without
      telling 3, so 3 stays unfinished although everything awaited is defined. */
  method StrandedByFailedDependency() returns (manager: ModuleManager)
    ensures manager.Valid() && EveryAwaitedIsDefined(manager.Snapshot()) && Pending(manager.Snapshot(), 3)
  {
    hide Inv, Live, RequestsOk, BlameOk, Grows, AnyFailed, EveryAwaitedIsDefined, Pending;
    manager := new ModuleManager(m => false);
    ghost var notified := manager.OnLoadError(9, multiset{}, map[]);
    ghost var s1 := manager.Snapshot();
    manager.DefineModule(Definition(3, Declaration([Regular(4)], Factory, false), []), multiset{}, map[]);
    ghost var s2 := manager.Snapshot();
    manager.DefineModule(Definition(4, Declaration([Regular(9)], Factory, false), []), multiset{}, map[]);
    Stranded(s1, s2, manager.Snapshot());
  }

  /** The facts the three calls leave behind. */
  ghost predicate Scenario(s1: State, s2: State, s3: State) {
    && BetweenEvents(s1) && BetweenEvents(s2) && BetweenEvents(s3)
    && FailureMarks(EMPTY, s1, 9)
    && DefinesOnly(s1, s2, 3) && Grows(s1, s2) && 3 in s2.declared && s2.declared[3].deps == [Regular(4)]
    && DefinesOnly(s2, s3, 4) && Grows(s2, s3) && 4 in s3.declared && s3.declared[4].deps == [Regular(9)]
    && (AnyFailed(s2, [Regular(9)]) ==> Errored(s3, 4))
  }

  lemma ScenarioTable(s1: State, s2: State, s3: State)
    requires Scenario(s1, s2, s3)
    ensures s2.modules.Keys == {9, 3} && s3.modules.Keys == {9, 3, 4} && s3.declared.Keys == {9, 3, 4}
    ensures s3.declared[9].deps == [] && s3.declared[3].deps == [Regular(4)] && s3.declared[4].deps == [Regular(9)]
    ensures forall e :: e in s2.raised && e.LoadingFailed? ==> e.id == 9
  {
    hide Live, RequestsOk, BlameOk, WaitersOk, SettledOk, LogOk, CutsOk, AnyFailed, RecordOk;
  }

  lemma ScenarioFailure(s1: State, s2: State, s3: State)
    requires Scenario(s1, s2, s3)
    ensures Errored(s3, 4)
  {
    hide Inv, Live, RequestsOk, BlameOk;
    assert Affected(EMPTY.inverse, 9, 9) && FailedDependency(s1, Regular(9));
    FailedDependencyStays(s1, s2, [Regular(9)][0]);
  }

  lemma ThreeHasNoError(s1: State, s2: State, s3: State)
    requires Scenario(s1, s2, s3)
    ensures !Errored(s3, 3)
  {
    hide Inv, Live, RequestsOk, BlameOk;
    ScenarioTable(s1, s2, s3);
    if Errored(s2, 3) { ErrorIsRaised(s2, 3); }
  }

  lemma NoPathFromFour(declared: map<nat, Declaration>)
    requires declared.Keys == {9, 3, 4} && declared[9].deps == [] && declared[4].deps == [Regular(9)]
    ensures !Reach(Declares(declared), 4, 3)
  {
    if Reach(Declares(declared), 4, 3) {
      var y := ReachFirst(Declares(declared), 4, 3);
      var z := ReachFirst(Declares(declared), y, 3);
    }
  }

  lemma ThreeIsNotCompleted(s1: State, s2: State, s3: State)
    requires Scenario(s1, s2, s3)
    ensures 3 !in s3.completed
  {
    hide Live, RequestsOk, BlameOk, RecordsOk, WaitersOk, SettledOk, Grows, DefinesOnly, FailureMarks, AnyFailed, Reach;
    ScenarioTable(s1, s2, s3);
    ScenarioFailure(s1, s2, s3);
    NoPathFromFour(s3.declared);
    forall k | 0 <= k < |s3.completed| ensures s3.completed[k] != 3 {
      assert OrderedAt(s3, k);
      assert (3, 4) in s3.cuts ==> CutOk(s3, (3, 4));
      assert Regular(4) in [Regular(4)];
    }
  }

  lemma Stranded(s1: State, s2: State, s3: State)
    requires Scenario(s1, s2, s3)
    ensures EveryAwaitedIsDefined(s3) && Pending(s3, 3)
  {
    hide Live, RequestsOk, BlameOk, SettledOk, LogOk, CutsOk, Grows, DefinesOnly, FailureMarks, AnyFailed, Reach;
    ScenarioTable(s1, s2, s3);
    ThreeHasNoError(s1, s2, s3);
    ThreeIsNotCompleted(s1, s2, s3);
    forall d | Waiters(s3.inverse, d) != [] ensures d in s3.modules {
      var m := Waiters(s3.inverse, d)[0];
      assert m in Waiters(s3.inverse, d);
      assert m in s3.declared && Regular(d) in s3.declared[m].deps;
    }
  }
}
