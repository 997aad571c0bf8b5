/** The AMD module manager: defining modules, waiting for their dependencies, cutting cycles, propagating failures. */
module Loader {

  import opened Common
  import opened Graphs
  import opened LoaderState
  import opened LoaderSteps

  /** Appends the ids not seen before, marking them seen. */
  method Enqueue(list: seq<nat>, queue: seq<nat>, seen: set<nat>) returns (queue': seq<nat>, seen': set<nat>)
    requires NoDuplicates(queue) && forall x :: x in queue ==> x in seen
    ensures seen' == seen + (set x | x in list)
    ensures NoDuplicates(queue') && queue <= queue'
    ensures forall x :: x in queue' <==> x in queue || (x in list && x !in seen)
  {
    queue', seen' := queue, seen;
    for i := 0 to |list|
      invariant seen' == seen + (set x | x in list[..i])
      invariant NoDuplicates(queue') && queue <= queue'
      invariant forall x :: x in queue' <==> x in queue || (x in list[..i] && x !in seen)
    {
      assert list[..i + 1] == list[..i] + [list[i]];
      if list[i] !in seen' {
        queue' := queue' + [list[i]];
        seen' := seen' + {list[i]};
      }
    }
    assert list[..|list|] == list;
  }

  class ModuleManager {
    const throws: nat -> bool          // whether a module's factory throws; it is called at most once
    var modules: map<nat, Module>
    var inverse: map<nat, seq<nat>>
    var known: set<nat>
    var hasDependencyCycle: bool
    ghost var requests: seq<nat>
    ghost var completed: seq<nat>
    ghost var invoked: seq<nat>
    ghost var declared: map<nat, Declaration>
    ghost var cuts: set<(nat, nat)>
    ghost var raised: set<LoaderError>
    ghost var errorbacks: seq<nat>        // modules whose errorback was called
    ghost var reported: seq<LoaderError>  // calls of the configured error handler
    ghost var answers: seq<Answer>        // for each request, whose dependency it was and what the loader answered

    ghost function Snapshot(): State reads this {
      State(modules, inverse, known, hasDependencyCycle, requests, completed, invoked, declared, cuts, raised)
    }

    ghost predicate ValidWithin(owed: multiset<nat>, frames: Frames) reads this {
      Ok(Snapshot(), owed, frames)
    }

    /** The invariant between events. */
    ghost predicate Valid() reads this {
      ValidWithin(multiset{}, map[]) && Paired(answers, requests)
    }

    constructor (throws: nat -> bool)
      ensures Valid() && Snapshot() == EMPTY && this.throws == throws && errorbacks == [] && reported == [] && answers == []
    {
      this.throws := throws;
      modules, inverse, known, hasDependencyCycle := map[], map[], {}, false;
      requests, completed, invoked, declared, cuts := [], [], [], map[], {};
      errorbacks, reported, answers, raised := [], [], [], {};
      new;
      forall x | Reach(Waits(map[]), x, x) ensures false { var y := ReachFirst(Waits(map[]), x, x); }
    }

    /** Breadth-first search for a dependency path; the target may be undefined, every earlier node is defined. */
    method HasDependencyPath(from: nat, to: nat) returns (found: bool)
      ensures found <==> Reach(DependsOn(modules), from, to)
    {
      ghost var e := DependsOn(modules);
      if from !in modules {
        if Reach(e, from, to) { var y := ReachFirst(e, from, to); }
        return false;
      }
      var queue := [from];
      var inQueue := {from};
      ghost var done: set<nat> := {};
      while queue != []
        invariant from in inQueue && inQueue <= modules.Keys
        invariant done !! (set x | x in queue) && inQueue == done + (set x | x in queue)
        invariant NoDuplicates(queue)
        invariant forall x :: x in inQueue ==> x == from || Reach(e, from, x)
        invariant forall a, b :: a in done && e(a, b) ==> b != to && (b in modules ==> b in inQueue)
        decreases modules.Keys - done
      {
        var element := queue[0];
        assert queue == [element] + queue[1..];
        queue := queue[1..];
        if modules[element].deps.Some? {
          var deps := modules[element].deps.value;
          for i := 0 to |deps|
            invariant element !in queue && element in inQueue && inQueue <= modules.Keys && from in inQueue
            invariant done !! (set x | x in queue) && inQueue == done + {element} + (set x | x in queue)
            invariant NoDuplicates(queue)
            invariant forall x :: x in inQueue ==> x == from || Reach(e, from, x)
            invariant forall a, b :: a in done && e(a, b) ==> b != to && (b in modules ==> b in inQueue)
            invariant forall j :: 0 <= j < i ==> deps[j].Target() != to && (deps[j].Target() in modules ==> deps[j].Target() in inQueue)
          {
            var target := deps[i].Target();
            assert e(element, target) by { assert deps[i] in deps; }
            ReachSnoc(e, from, element, target);
            if target == to {
              return true;
            }
            if target in modules && target !in inQueue {
              inQueue := inQueue + {target};
              queue := queue + [target];
            }
          }
        }
        done := done + {element};
      }
      forall p | IsPath(e, p) && p[0] == from && p[|p| - 1] == to ensures false {
        SearchedAll(modules, inQueue, p, to);
      }
      return false;
    }

    /** Walks the inverse lists breadth-first from a failed module, marking what it meets. */
    method PropagateError(id: nat, err: LoaderError) returns (someoneNotified: bool, ghost reached: set<nat>, ghost notified: seq<nat>)
      requires id in modules
      requires forall d, m :: m in Waiters(inverse, d) ==> m in modules
      modifies this`modules, this`errorbacks
      ensures reached <= old(modules.Keys)
      ensures forall x :: x in reached <==> Affected(old(inverse), id, x)
      ensures Marks(old(Snapshot()), Snapshot(), reached, err)
      ensures NoDuplicates(notified) && forall x :: x in notified <==> x in reached && old(modules)[x].errorback
      ensures someoneNotified <==> notified != []
      ensures errorbacks == old(errorbacks) + notified
    {
      hide Affected, NoDuplicates;
      ghost var s := Snapshot();
      var seen := {id};
      var queue := [id];
      FrontierStart(inverse, s.modules.Keys, id);
      someoneNotified := false;
      notified := [];
      reached := {};
      while queue != []
        invariant Frontier(inverse, s.modules.Keys, id, seen, queue, reached)
        invariant Marks(s, Snapshot(), reached, err)
        invariant NoDuplicates(notified) && forall x :: x in notified <==> x in reached && s.modules[x].errorback
        invariant someoneNotified <==> notified != []
        invariant errorbacks == old(errorbacks) + notified
        decreases s.modules.Keys - reached
      {
        var element := queue[0];
        assert element in queue;
        if modules[element].errorback {
          assert old(errorbacks) + (notified + [element]) == errorbacks + [element];
          NoDuplicatesAppend(notified, element);
          errorbacks := errorbacks + [element];
          notified := notified + [element];
          someoneNotified := true;
        }
        ghost var before := Snapshot();
        modules := modules[element := Mark(modules[element], err)];
        MarksOneMore(s, before, Snapshot(), reached, element, err);
        queue, seen, reached := Advance(s.modules.Keys, id, queue, seen, reached);
      }
      FrontierDone(inverse, s.modules.Keys, id, seen, reached);
    }

    /** Takes the first queued module out and queues those of its waiters not seen before. */
    method Advance(ghost defined: set<nat>, ghost id: nat, queue: seq<nat>, seen: set<nat>, ghost reached: set<nat>)
      returns (queue': seq<nat>, seen': set<nat>, ghost reached': set<nat>)
      requires queue != [] && Frontier(inverse, defined, id, seen, queue, reached)
      requires forall d, m :: m in Waiters(inverse, d) ==> m in defined
      ensures Frontier(inverse, defined, id, seen', queue', reached') && reached' == reached + {queue[0]}
    {
      var element := queue[0];
      assert queue == [element] + queue[1..];
      forall m | m in Waiters(inverse, element) ensures Affected(inverse, id, m) {
        WaiterAffected(inverse, id, element, m);
      }
      queue', seen' := Enqueue(Waiters(inverse, element), queue[1..], seen);
      reached' := reached + {element};
    }

    /** A failed script that never defined its module still gets a record to carry the error. */
    method AddPlaceholder(id: nat, ghost owed: multiset<nat>, ghost frames: Frames)
      requires ValidWithin(owed, frames) && id !in modules
      modifies this`modules, this`declared
      ensures Defines(old(Snapshot()), Snapshot(), id, Declaration([], Factory, false))
      ensures Almost(Snapshot(), owed, frames, {id})
    {
      ghost var s := Snapshot();
      var decl := Declaration([], Factory, false);
      modules := modules[id := NewModule(decl)];
      declared := declared[id := decl];
      PlaceholderKeeps(s, Snapshot(), owed, frames, id);
    }

    /** A module's script failed: every module waiting on it, directly or not, takes the error. */
    method OnLoadError(id: nat, ghost owed: multiset<nat>, ghost frames: Frames) returns (ghost notified: seq<nat>)
      requires ValidWithin(owed, frames)
      modifies `modules, `declared, `raised, `errorbacks, `reported
      ensures ValidWithin(owed, frames)
      ensures FailureMarks(old(Snapshot()), Snapshot(), id)
      ensures NoDuplicates(notified) && forall x :: x in notified <==> HasErrorback(old(Snapshot()), id, x)
      ensures errorbacks == old(errorbacks) + notified
      ensures reported == old(reported) + (if notified == [] then [LoadingFailed(id)] else [])
    {
      hide BlameOk, RequestsOk, Live, RecordsOk, SettledOk, LogOk, CutsOk, Reach, FailureMarks, Marks, WaitersOk, HasErrorback;
      ghost var s := Snapshot();
      var err := LoadingFailed(id);
      if id !in modules {
        AddPlaceholder(id, owed, frames);
      }
      ghost var s0 := Snapshot();
      raised := raised + {err};
      ghost var s1 := Snapshot();
      WaitersAreDefined(s, owed, frames);
      WaitersAreDefined(s0, owed, frames);
      var someoneNotified;
      ghost var reached;
      someoneNotified, reached, notified := PropagateError(id, err);
      if !someoneNotified {
        reported := reported + [err];
      }
      FailureMarksAffected(s, s0, s1, Snapshot(), id, reached);
      FailureKeeps(s, s0, s1, Snapshot(), id, owed, frames, reached);
    }

    /** Runs the factory, marks the module complete and takes its inverse list. */
    method Complete(m: nat, ghost owed: multiset<nat>, ghost frames: Frames) returns (list: seq<nat>)
      requires Almost(Snapshot(), owed, frames, {m}) && Completable(Snapshot(), frames, m)
      modifies `modules, `inverse, `completed, `invoked, `raised, `reported
      ensures ValidWithin(owed + multiset(list), frames) && CompletesOnly(old(Snapshot()), Snapshot())
      ensures m in modules && modules[m].complete && Incomplete(Snapshot()) < Incomplete(old(Snapshot()))
      ensures completed == old(completed) + [m] && list == Waiters(old(inverse), m)
      ensures modules[m].error == if old(modules)[m].callback == Factory && throws(m) then Some(FactoryThrew(m)) else None
      ensures m in old(modules) && modules == old(modules)[m := Module(None, old(modules)[m].unresolved, true, modules[m].error, Absent, false)]
      ensures reported == old(reported) + (if modules[m].error.Some? then [FactoryThrew(m)] else [])
    {
      hide Almost, Completable, Completes, Incomplete, CompletesOnly, Ok, Waiters;
      ghost var s := Snapshot();
      CompletableRecord(s, owed, frames, m);
      var error := RunFactory(m);
      list := Finish(m, error);
      CompletesBy(s, Snapshot(), m, error);
      StartCompletion(s, Snapshot(), owed, frames, m, error);
    }

    /** Runs the factory, if there is one, and reports its exception. */
    method RunFactory(m: nat) returns (error: Option<LoaderError>)
      requires m in modules
      modifies `invoked, `raised, `reported
      ensures error == if modules[m].callback == Factory && throws(m) then Some(FactoryThrew(m)) else None
      ensures invoked == if modules[m].callback == Factory then old(invoked) + [m] else old(invoked)
      ensures raised == if error.Some? then old(raised) + {error.value} else old(raised)
      ensures reported == old(reported) + (if error.Some? then [error.value] else [])
    {
      error := None;
      if modules[m].callback == Factory {
        invoked := invoked + [m];
        if throws(m) {
          error := Some(FactoryThrew(m));
          raised := raised + {error.value};
          reported := reported + [error.value];
        }
      }
    }

    /** Marks the record complete, drops what it no longer needs, and takes its inverse list. */
    method Finish(m: nat, error: Option<LoaderError>) returns (list: seq<nat>)
      requires m in modules
      modifies `modules, `inverse, `completed
      ensures modules == old(modules)[m := Finished(old(modules)[m], error)]
      ensures completed == old(completed) + [m] && inverse == old(inverse) - {m} && list == Waiters(old(inverse), m)
    {
      completed := completed + [m];
      modules := modules[m := Finished(modules[m], error)];
      list := Waiters(inverse, m);
      inverse := inverse - {m};
    }

    /** Gives one waiter its decrement and completes it when that was the last. */
    method Release(x: nat, ghost rest: multiset<nat>, ghost frames: Frames)
      requires ValidWithin(rest + multiset{x}, frames) && Covered(declared, rest, frames) && x in modules
      modifies `modules, `inverse, `completed, `invoked, `raised, `reported
      ensures ValidWithin(rest, frames) && CompletesOnly(old(Snapshot()), Snapshot()) && old(reported) <= reported
      decreases Incomplete(Snapshot()), 1
    {
      ghost var s := Snapshot();
      modules := modules[x := modules[x].(unresolved := modules[x].unresolved - 1)];
      ghost var t := Snapshot();
      DeliverOne(s, t, rest, frames, x);
      CompletesOnlyShrinks(s, t);
      if modules[x].unresolved == 0 {
        OnModuleComplete(x, rest, frames);
        CompletesOnlyTrans(s, t, Snapshot());
      }
    }

    /** Completes a module whose last dependency is resolved, then releases everyone waiting on it. */
    method OnModuleComplete(m: nat, ghost owed: multiset<nat>, ghost frames: Frames)
      requires Almost(Snapshot(), owed, frames, {m}) && m in modules
      requires !modules[m].complete ==> Completable(Snapshot(), frames, m)
      modifies `modules, `inverse, `completed, `invoked, `raised, `reported
      ensures ValidWithin(owed, frames) && CompletesOnly(old(Snapshot()), Snapshot())
      ensures m in modules && modules[m].complete && old(reported) <= reported
      decreases Incomplete(Snapshot()), 0
    {
      hide Inv, BlameOk, RequestsOk, Live, Incomplete;
      ghost var s := Snapshot();
      if modules[m].complete {
        AlmostIsOk(s, owed, frames, m);
        return;
      }
      OkIsCovered(s, owed, frames);
      var list := Complete(m, owed, frames);
      ghost var s1 := Snapshot();
      OwedEnds(owed, list);
      for i := 0 to |list|
        invariant ValidWithin(owed + multiset(list[i..]), frames)
        invariant CompletesOnly(s, Snapshot()) && CompletesOnly(s1, Snapshot()) && old(reported) <= reported
      {
        ghost var s2 := Snapshot();
        ghost var rest := owed + multiset(list[i + 1..]);
        OwedSplit(owed, list, i);
        OwedIsDefined(s2, rest, frames, list[i]);
        CompletesOnlyShrinks(s1, s2);
        Release(list[i], rest, frames);
        CompletesOnlyTrans(s, s2, Snapshot());
        CompletesOnlyTrans(s1, s2, Snapshot());
      }
    }

    /** Asks the script loader for a module, once. What the loader does before returning is carried out: its scripts' calls
        in order, then, if it reports one, the failure, for which `notified` are told in the state `before`. */
    method LoadModule(d: nat, def: Definition, i: nat, ghost owed: multiset<nat>, ghost frames: Frames)
      returns (ghost before: State, ghost notified: seq<nat>)
      requires Unrequested(Snapshot(), owed, frames, d) && Paired(answers, requests) && Asks(Answer(def, i), d)
      modifies this
      ensures ValidWithin(owed, frames) && Grows(old(Snapshot()), Snapshot())
      ensures d in modules || d in known
      ensures old(errorbacks) <= errorbacks && old(reported) <= reported
      ensures CarriesOut(def, old(Snapshot()), old(answers), Snapshot(), answers)
      ensures d in old(modules) || d in old(known) ==> Snapshot() == old(Snapshot()) && answers == old(answers)
      ensures d !in old(modules) && d !in old(known) ==>
        |old(answers)| < |answers| && answers[|old(answers)|] == Answer(def, i) && Grows(old(Snapshot()), before)
        && CallsMade(ResponseAt(def, i).calls, old(Snapshot()), before)
        && if ResponseAt(def, i).failed then FailureTold(before, Snapshot(), d, notified, errorbacks, reported) else Snapshot() == before
      ensures def.responses == [] ==> modules == old(modules) && forall m :: Walks(old(Snapshot()), Snapshot(), m)
      decreases def, 1
    {
      hide Inv, Live, BlameOk, RequestsOk, Grows, FailureMarks, Walks, CarriesOut, CallsMade, Paired, HasErrorback, SuppliedIn;
      ghost var s := Snapshot();
      before, notified := s, [];
      if d in modules || d in known {
        KnownKeeps(s, owed, frames, d);
        CarriesNothing(def, s, s, answers);
        return;
      }
      known := known + {d};
      requests := requests + [d];
      answers := answers + [Answer(def, i)];
      RequestKeeps(s, Snapshot(), owed, frames, d);
      PairedAppend(old(answers), s.requests, Answer(def, i), d);
      ghost var t, asked := Snapshot(), answers;
      if i < |def.responses| {
        RunScripts(def, i, owed, frames);
      } else {
        NoCalls(t);
        CarriesNothing(def, t, t, asked);
        GrowsSelf(t);
      }
      before := Snapshot();
      GrowsTrans(s, t, before);
      GrowsKnown(t, before, d);
      GrowsSelf(before);
      CallsMadeFrom(ResponseAt(def, i).calls, s, t, before);
      if i < |def.responses| && def.responses[i].failed {
        notified := OnLoadError(d, owed, frames);
        FailureGrows(before, Snapshot(), d);
        GrowsTrans(s, before, Snapshot());
        GrowsTrans(t, before, Snapshot());
        GrowsKnown(before, Snapshot(), d);
        CarriesFailure(def, i, d, t, asked, before, Snapshot(), answers);
      }
      CarriesAnswer(def, i, d, s, old(answers), t, before, Snapshot(), answers);
    }

    /** The scripts that answer a request make their define calls, in order. */
    method RunScripts(def: Definition, i: nat, ghost owed: multiset<nat>, ghost frames: Frames)
      requires ValidWithin(owed, frames) && Paired(answers, requests) && i < |def.responses|
      modifies this
      ensures ValidWithin(owed, frames) && Grows(old(Snapshot()), Snapshot())
      ensures old(errorbacks) <= errorbacks && old(reported) <= reported
      ensures CarriesOut(def, old(Snapshot()), old(answers), Snapshot(), answers)
      ensures CallsMade(def.responses[i].calls, old(Snapshot()), Snapshot())
      decreases def, 0
    {
      hide Ok, Grows, CarriesOut, Paired, SuppliedIn, DefinesOnly, AnyFailed, KeepsWaits, FirstFor, SuppliedBefore;
      ghost var s := Snapshot();
      GrowsSelf(s);
      CarriesNothing(def, s, s, answers);
      var calls := def.responses[i].calls;
      NothingSupplied(calls, s);
      for k := 0 to |calls|
        invariant ValidWithin(owed, frames) && Grows(s, Snapshot()) && Paired(answers, requests)
        invariant old(errorbacks) <= errorbacks && old(reported) <= reported
        invariant CarriesOut(def, s, old(answers), Snapshot(), answers) && SuppliedBefore(calls, k, s, Snapshot())
        invariant forall j :: 0 <= j < k ==> CallMade(calls, j, s, Snapshot())
      {
        ghost var u, b := Snapshot(), answers;
        DefineModule(calls[k], owed, frames);
        ghost var t := Snapshot();
        GrowsTrans(s, u, t);
        CarriesCall(def, i, k, u, b, t, answers);
        CarriesTrans(def, s, old(answers), u, b, t, answers);
        CarriedIsPaired(def, u, b, t, answers);
        FirstIsNew(calls, k, s, u);
        SuppliedStep(calls, k, s, u, b, t, answers);
        forall j | 0 <= j < k ensures CallMade(calls, j, s, t) { CallStaysMade(calls, j, s, u, t); }
      }
    }

    /** Handles the i-th dependency of m; `stop` says that m gave up on a failed dependency. */
    method ResolveDependency(m: nat, i: nat, def: Definition, ghost owed: multiset<nat>, ghost frames: Frames) returns (stop: bool)
      requires Walked(Snapshot(), owed, frames, m, i) && declared[m] == def.decl && i < |def.decl.deps| && Paired(answers, requests)
      modifies this
      ensures Grows(old(Snapshot()), Snapshot())
      ensures old(errorbacks) <= errorbacks && old(reported) <= reported
      ensures CarriesOut(def, old(Snapshot()), old(answers), Snapshot(), answers)
      ensures
        var dep := def.decl.deps[i];
        dep.Regular? && dep.id !in old(modules) && dep.id !in old(known) ==>
          |old(answers)| < |answers| && answers[|old(answers)|] == Answer(def, i)
      ensures stop ==> ValidWithin(owed, frames) && Errored(Snapshot(), m)
      ensures stop ==> errorbacks == old(errorbacks) + (if def.decl.errorback then [m] else [])
      ensures !stop ==> Walked(Snapshot(), owed, frames, m, i + 1)
      ensures FailedDependency(old(Snapshot()), def.decl.deps[i]) <==> stop
      ensures stop ==> m in modules && modules[m].error == old(modules)[def.decl.deps[i].id].error
      ensures def.responses == [] ==> Walks(old(Snapshot()), Snapshot(), m)
      ensures def.responses == [] && !stop && Open(old(Snapshot()), m) ==> Open(Snapshot(), m)
      decreases def, 3
    {
      hide Almost, Walked, Grows, Ok, Reach, Walks, Mark, CarriesOut, Paired;
      ghost var s := Snapshot();
      WalkedFacts(s, owed, frames, m, i);
      var dependency := def.decl.deps[i];
      if !dependency.Regular? {
        CountDown(m, i, owed, frames);
        WalkCarries(def, s, Snapshot(), m, answers);
        return false;
      }
      var d := dependency.id;
      if d in modules && modules[d].complete {
        if modules[d].error.Some? {
          GiveUp(m, i, d, owed, frames);
          WalkCarries(def, s, Snapshot(), m, answers);
          return true;
        }
        WalkCompleteWithoutError(s, owed, frames, m, i, d);
        CountDown(m, i, owed, frames);
        WalkCarries(def, s, Snapshot(), m, answers);
        return false;
      }
      var cyclic := HasDependencyPath(d, m);
      if cyclic {
        PathStartsDefined(modules, d, m);
        CutCycle(m, i, d, owed, frames);
        WalkCarries(def, s, Snapshot(), m, answers);
        return false;
      }
      WaitFor(m, i, d, def, owed, frames);
      return false;
    }

    /** The i-th dependency needs no waiting for. */
    method CountDown(m: nat, i: nat, ghost owed: multiset<nat>, ghost frames: Frames)
      requires Walked(Snapshot(), owed, frames, m, i) && i < |declared[m].deps| && Settled(Snapshot(), m, declared[m].deps[i])
      modifies `modules
      ensures Walked(Snapshot(), owed, frames, m, i + 1) && Grows(old(Snapshot()), Snapshot())
      ensures Walks(old(Snapshot()), Snapshot(), m) && (Open(old(Snapshot()), m) ==> Open(Snapshot(), m))
    {
      hide Almost, Walked, Grows, Walks, Settled;
      ghost var s := Snapshot();
      WalkedFacts(s, owed, frames, m, i);
      modules := modules[m := modules[m].(unresolved := modules[m].unresolved - 1)];
      WalkSettles(s, Snapshot(), owed, frames, m, i);
    }

    /** The i-th dependency has failed: m takes its error and tells its own errorback, but nobody who waits on m. */
    method GiveUp(m: nat, i: nat, d: nat, ghost owed: multiset<nat>, ghost frames: Frames)
      requires Walked(Snapshot(), owed, frames, m, i) && i < |declared[m].deps| && declared[m].deps[i] == Regular(d)
      requires d in modules && modules[d].error.Some?
      modifies `modules, `errorbacks
      ensures ValidWithin(owed, frames) && Errored(Snapshot(), m) && Grows(old(Snapshot()), Snapshot())
      ensures errorbacks == old(errorbacks) + (if declared[m].errorback then [m] else [])
      ensures Walks(old(Snapshot()), Snapshot(), m) && m in old(modules)
      ensures modules == old(modules)[m := old(modules)[m].(complete := true, error := old(modules)[d].error)]
    {
      hide Almost, Walked, Grows, Walks, Ok;
      ghost var s := Snapshot();
      WalkedFacts(s, owed, frames, m, i);
      WalkerIsOpen(s, owed, frames, m, i);
      if modules[m].errorback { errorbacks := errorbacks + [m]; }
      modules := modules[m := Mark(modules[m], modules[d].error.value)];
      WalkAbandons(s, Snapshot(), owed, frames, m, i, d);
    }

    /** The i-th dependency leads back to m: the edge is given up. */
    method CutCycle(m: nat, i: nat, d: nat, ghost owed: multiset<nat>, ghost frames: Frames)
      requires Walked(Snapshot(), owed, frames, m, i) && i < |declared[m].deps| && declared[m].deps[i] == Regular(d)
      requires Reach(DependsOn(modules), d, m)
      modifies `modules, `hasDependencyCycle, `cuts
      ensures Walked(Snapshot(), owed, frames, m, i + 1) && Grows(old(Snapshot()), Snapshot()) && hasDependencyCycle
      ensures Walks(old(Snapshot()), Snapshot(), m) && (Open(old(Snapshot()), m) ==> Open(Snapshot(), m))
    {
      hide Almost, Walked, Grows, Walks, Reach;
      ghost var s := Snapshot();
      WalkedFacts(s, owed, frames, m, i);
      hasDependencyCycle := true;
      cuts := cuts + {(m, d)};
      modules := modules[m := modules[m].(unresolved := modules[m].unresolved - 1)];
      WalkCuts(s, Snapshot(), owed, frames, m, i, d);
    }

    /** Records m in d's inverse list and asks for d. */
    method WaitFor(m: nat, i: nat, d: nat, def: Definition, ghost owed: multiset<nat>, ghost frames: Frames)
      requires Walked(Snapshot(), owed, frames, m, i) && declared[m] == def.decl
      requires i < |def.decl.deps| && def.decl.deps[i] == Regular(d)
      requires !Reach(DependsOn(modules), d, m) && (d in modules ==> !modules[d].complete) && Paired(answers, requests)
      modifies this
      ensures Grows(old(Snapshot()), Snapshot()) && Walked(Snapshot(), owed, frames, m, i + 1)
      ensures old(errorbacks) <= errorbacks && old(reported) <= reported
      ensures CarriesOut(def, old(Snapshot()), old(answers), Snapshot(), answers)
      ensures d !in old(modules) && d !in old(known) ==> |old(answers)| < |answers| && answers[|old(answers)|] == Answer(def, i)
      ensures def.responses == [] ==> modules == old(modules) && Walks(old(Snapshot()), Snapshot(), m)
      decreases def, 2
    {
      hide Almost, Walked, Grows, Unrequested, Ok, Reach, Walks, CarriesOut, Paired, CallsMade, FailureTold;
      ghost var s := Snapshot();
      WalkedFacts(s, owed, frames, m, i);
      ghost var o, f := owed[m := |declared[m].deps| - (i + 1)], frames[m := i + 1];
      inverse := inverse[d := Waiters(inverse, d) + [m]];
      ghost var t := Snapshot();
      WalkWaits(s, t, owed, frames, m, i, d);
      CarriesNothing(def, s, t, answers);
      ghost var before, notified := LoadModule(d, def, i, o, f);
      GrowsTrans(s, t, Snapshot());
      CarriesTrans(def, s, old(answers), t, old(answers), Snapshot(), answers);
      if def.responses == [] { WalksTrans(s, t, Snapshot(), m); }
      GrowsModule(s, Snapshot(), m);
      WalkContinues(Snapshot(), owed, frames, m, i + 1, o, f);
    }

    /** Walks the dependencies of a freshly defined module and completes it if nothing is left to wait for. */
    method Resolve(m: nat, def: Definition, ghost owed: multiset<nat>, ghost frames: Frames)
      requires Walked(Snapshot(), owed, frames, m, 0) && declared[m] == def.decl && Paired(answers, requests)
      modifies this
      ensures old(errorbacks) <= errorbacks && old(reported) <= reported
      ensures CarriesOut(def, old(Snapshot()), old(answers), Snapshot(), answers)
      ensures ValidWithin(owed, frames) && Grows(old(Snapshot()), Snapshot()) && m in modules
      ensures AnyFailed(old(Snapshot()), def.decl.deps) ==> Errored(Snapshot(), m)
      ensures def.responses == [] ==> Steady(old(Snapshot()), Snapshot(), m)
      ensures def.responses == [] && AnyFailed(old(Snapshot()), def.decl.deps) ==> KeepsWaits(old(Snapshot()), Snapshot())
      ensures def.responses == [] && Open(old(Snapshot()), m) && Errored(Snapshot(), m) ==> AnyFailed(old(Snapshot()), def.decl.deps)
      decreases def, 4
    {
      hide Almost, Grows, CompletesOnly, Steady, Walks, KeepsWaits, FailedDependency, AnyFailed, CarriesOut, Paired;
      ghost var s := Snapshot();
      GrowsSelf(s);
      CarriesNothing(def, s, s, answers);
      var n := |def.decl.deps|;
      for i := 0 to n
        invariant Walked(Snapshot(), owed, frames, m, i) && Grows(s, Snapshot()) && declared[m] == def.decl
        invariant forall j :: 0 <= j < i ==> !FailedDependency(s, def.decl.deps[j])
        invariant CarriesOut(def, s, old(answers), Snapshot(), answers) && Paired(answers, requests)
        invariant old(errorbacks) <= errorbacks && old(reported) <= reported
        invariant def.responses == [] ==> Walks(s, Snapshot(), m) && (Open(s, m) ==> Open(Snapshot(), m))
      {
        ghost var t, b := Snapshot(), answers;
        FailedDependencyStays(s, t, def.decl.deps[i]);
        var stop := ResolveDependency(m, i, def, owed, frames);
        GrowsTrans(s, t, Snapshot());
        CarriesTrans(def, s, old(answers), t, b, Snapshot(), answers);
        CarriedIsPaired(def, t, b, Snapshot(), answers);
        GrowsModule(t, Snapshot(), m);
        if def.responses == [] { WalksTrans(s, t, Snapshot(), m); }
        if stop {
          if def.responses == [] { GaveUp(s, t, Snapshot(), m, def.decl.deps, i); }
          return;
        }
      }
      NoneFailed(s, def.decl.deps);
      ghost var t := Snapshot();
      WalkEnds(t, owed, frames, m);
      CompletesOnlySelf(t);
      if modules[m].unresolved == 0 {
        OnModuleComplete(m, owed, frames);
        CompletesOnlyGrows(t, Snapshot());
        GrowsTrans(s, t, Snapshot());
        CompletionCarries(def, t, Snapshot(), answers);
        CarriesTrans(def, s, old(answers), t, answers, Snapshot(), answers);
      }
      if def.responses == [] { Resolved(s, t, Snapshot(), m); }
    }

    /** Defines a module, ignoring a second definition of the same id, and starts resolving it. */
    method DefineModule(def: Definition, ghost owed: multiset<nat>, ghost frames: Frames)
      requires ValidWithin(owed, frames) && Paired(answers, requests)
      modifies this
      ensures old(errorbacks) <= errorbacks && old(reported) <= reported
      ensures CarriesOut(def, old(Snapshot()), old(answers), Snapshot(), answers)
      ensures ValidWithin(owed, frames) && Grows(old(Snapshot()), Snapshot())
      ensures def.id in modules
      ensures def.id in old(modules) ==> Snapshot() == old(Snapshot())
      ensures def.id !in old(modules) ==> def.id in declared && declared[def.id] == def.decl
      ensures def.id !in old(modules) && AnyFailed(old(Snapshot()), def.decl.deps) ==> Errored(Snapshot(), def.id)
      ensures def.responses == [] ==> DefinesOnly(old(Snapshot()), Snapshot(), def.id)
      ensures def.responses == [] && def.id !in old(modules) ==>
        (Errored(Snapshot(), def.id) <==> AnyFailed(old(Snapshot()), def.decl.deps))
        && (Errored(Snapshot(), def.id) ==> KeepsWaits(old(Snapshot()), Snapshot()))
      decreases def, 5
    {
      hide Almost, Grows, AnyFailed, KeepsWaits, Steady, DefinesOnly, CarriesOut, Paired;
      ghost var s := Snapshot();
      if def.id in modules {
        GrowsSelf(s);
        DefinesNothing(s, def.id);
        CarriesNothing(def, s, s, answers);
        return;
      }
      modules := modules[def.id := NewModule(def.decl)];
      declared := declared[def.id := def.decl];
      ghost var t := Snapshot();
      WalkStarts(s, t, owed, frames, def.id, def.decl);
      DefineFailed(s, t, def.id, def.decl);
      CarriesDefinition(def, s, t, answers);
      Resolve(def.id, def, owed, frames);
      GrowsTrans(s, t, Snapshot());
      CarriesTrans(def, s, old(answers), t, old(answers), Snapshot(), answers);
      if def.responses == [] { DefineSteady(s, t, Snapshot(), def.id, def.decl); }
      GrowsModule(t, Snapshot(), def.id);
    }
  }
}
