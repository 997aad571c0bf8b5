/** The module manager's records, the invariant every call keeps, and what each kind of update does to it. */
module LoaderState {

  import opened Common
  import opened Graphs

  /** `exports`, `module` and `require` are the special dependencies; they occupy ids 0, 1 and 2. */
  datatype Dependency = Exports | ModuleObject | Require | Regular(id: nat) {
    function Target(): nat {
      match this
      case Exports => 0
      case ModuleObject => 1
      case Require => 2
      case Regular(id) => id
    }
  }

  datatype Callback = Factory | Value | Absent

  datatype LoaderError = LoadingFailed(id: nat) | FactoryThrew(id: nat)

  /** One entry of the module table. `deps` becomes None when the module completes normally. */
  datatype Module = Module(
    deps: Option<seq<Dependency>>,
    unresolved: int,
    complete: bool,
    error: Option<LoaderError>,
    callback: Callback,
    errorback: bool)

  /** What a definition asked for; kept for ever, unlike the fields of Module. */
  datatype Declaration = Declaration(deps: seq<Dependency>, callback: Callback, errorback: bool)

  datatype State = State(
    modules: map<nat, Module>,
    inverse: map<nat, seq<nat>>,
    known: set<nat>,
    hasCycle: bool,
    requests: seq<nat>,            // ids handed to the script loader
    completed: seq<nat>,           // modules that completed normally, in order
    invoked: seq<nat>,             // modules whose factory ran, in order
    declared: map<nat, Declaration>,
    cuts: set<(nat, nat)>,         // (module, dependency) edges given up as cyclic
    raised: set<LoaderError>)      // load failures and factory exceptions so far

  // ---- the two graphs ----

  ghost predicate Mentions(deps: seq<Dependency>, b: nat) {
    exists dep :: dep in deps && dep.Target() == b
  }

  /** Dependency edges that are still present in the table. */
  ghost function DependsOn(modules: map<nat, Module>): Rel {
    (a: nat, b: nat) => a in modules && modules[a].deps.Some? && Mentions(modules[a].deps.value, b)
  }

  /** All dependency edges ever declared. */
  ghost function Declares(declared: map<nat, Declaration>): Rel {
    (a: nat, b: nat) => a in declared && Mentions(declared[a].deps, b)
  }

  function Waiters(inverse: map<nat, seq<nat>>, d: nat): seq<nat> {
    if d in inverse then inverse[d] else []
  }

  /** m waits on d when m is in d's inverse list. */
  ghost function Waits(inverse: map<nat, seq<nat>>): Rel {
    (m: nat, d: nat) => m in Waiters(inverse, d)
  }

  // ---- counting occurrences over all inverse lists ----

  ghost function Occurrences(inverse: map<nat, seq<nat>>, m: nat): nat
    decreases |inverse|
  {
    if inverse == map[] then 0
    else
      var d :| d in inverse;
      multiset(inverse[d])[m] + Occurrences(inverse - {d}, m)
  }

  lemma {:induction false} OccurrencesRemove(inverse: map<nat, seq<nat>>, d: nat, m: nat)
    requires d in inverse
    ensures Occurrences(inverse, m) == multiset(inverse[d])[m] + Occurrences(inverse - {d}, m)
    decreases |inverse|
  {
    var e :| e in inverse && Occurrences(inverse, m) == multiset(inverse[e])[m] + Occurrences(inverse - {e}, m);
    if e != d {
      OccurrencesRemove(inverse - {e}, d, m);
      OccurrencesRemove(inverse - {d}, e, m);
      assert inverse - {e} - {d} == inverse - {d} - {e};
    }
  }

  lemma OccurrencesUpdate(inverse: map<nat, seq<nat>>, d: nat, list: seq<nat>, m: nat)
    ensures Occurrences(inverse[d := list], m) + multiset(Waiters(inverse, d))[m]
         == Occurrences(inverse, m) + multiset(list)[m]
  {
    var next := inverse[d := list];
    OccurrencesRemove(next, d, m);
    assert next - {d} == inverse - {d};
    if d in inverse {
      OccurrencesRemove(inverse, d, m);
    } else {
      assert inverse - {d} == inverse;
    }
  }

  lemma OccurrencesClear(inverse: map<nat, seq<nat>>, d: nat, m: nat)
    ensures Occurrences(inverse, m) == multiset(Waiters(inverse, d))[m] + Occurrences(inverse - {d}, m)
  {
    if d in inverse {
      OccurrencesRemove(inverse, d, m);
    } else {
      assert inverse - {d} == inverse;
    }
  }

  lemma {:induction false} OccurrencesWitness(inverse: map<nat, seq<nat>>, m: nat) returns (d: nat)
    requires Occurrences(inverse, m) > 0
    ensures m in Waiters(inverse, d)
    decreases |inverse|
  {
    var e :| e in inverse && Occurrences(inverse, m) == multiset(inverse[e])[m] + Occurrences(inverse - {e}, m);
    if multiset(inverse[e])[m] > 0 {
      d := e;
    } else {
      d := OccurrencesWitness(inverse - {e}, m);
    }
  }

  lemma OccurrencesPositive(inverse: map<nat, seq<nat>>, d: nat, m: nat)
    requires m in Waiters(inverse, d)
    ensures Occurrences(inverse, m) > 0
  {
  }

  // ---- the invariant ----

  /** Decrements a module is still entitled to: recorded occurrences plus those some running call has in hand. */
  ghost function Outstanding(s: State, owed: multiset<nat>, m: nat): nat {
    Occurrences(s.inverse, m) + owed[m]
  }

  ghost predicate RecordOk(s: State, owed: multiset<nat>, m: nat)
    requires m in s.modules && m in s.declared
  {
    var x := s.modules[m];
    if m in s.completed then
      x.complete && x.deps.None? && !x.errorback && Outstanding(s, owed, m) == 0 && Waiters(s.inverse, m) == []
    else
      && x.deps == Some(s.declared[m].deps)
      && x.callback == s.declared[m].callback
      && x.errorback == s.declared[m].errorback
      && x.complete == x.error.Some?
      && (if x.complete then x.unresolved >= Outstanding(s, owed, m) else x.unresolved == Outstanding(s, owed, m))
  }

  ghost predicate RecordsOk(s: State, owed: multiset<nat>) {
    && s.declared.Keys == s.modules.Keys
    && (forall m :: m in s.modules ==> RecordOk(s, owed, m))
    && (forall m :: m in owed ==> m in s.modules)
  }

  ghost predicate WaitersOk(s: State) {
    && (forall d, m :: m in Waiters(s.inverse, d) ==> m in s.declared && Regular(d) in s.declared[m].deps)
    && Acyclic(Waits(s.inverse))
  }

  ghost predicate Settled(s: State, m: nat, dep: Dependency) {
    dep.Regular? ==> dep.id in s.completed || (m, dep.id) in s.cuts || m in Waiters(s.inverse, dep.id)
  }

  /** Modules whose dependency list is being walked, with the number of entries already handled. */
  type Frames = map<nat, nat>

  ghost function Handled(s: State, frames: Frames, m: nat): nat
    requires m in s.declared
  {
    if m in frames then frames[m] else |s.declared[m].deps|
  }

  ghost predicate FrameOk(s: State, owed: multiset<nat>, frames: Frames, m: nat)
    requires m in frames
  {
    && m in s.declared
    && frames[m] <= |s.declared[m].deps|
    && (m in s.completed ==> frames[m] == |s.declared[m].deps|)
    && owed[m] >= |s.declared[m].deps| - frames[m]
  }

  ghost predicate SettledAt(s: State, frames: Frames, m: nat)
    requires m in s.declared
  {
    forall j :: 0 <= j < |s.declared[m].deps| && j < Handled(s, frames, m) ==> Settled(s, m, s.declared[m].deps[j])
  }

  ghost predicate SettledOk(s: State, owed: multiset<nat>, frames: Frames)
    requires s.declared.Keys == s.modules.Keys
  {
    && (forall m :: m in frames ==> FrameOk(s, owed, frames, m))
    && (forall m :: m in s.modules && !s.modules[m].complete ==> SettledAt(s, frames, m))
  }

  /** Every dependency of the k-th completed module completed before it or was cut. */
  ghost predicate OrderedAt(s: State, k: nat)
    requires k < |s.completed|
  {
    var m := s.completed[k];
    m in s.declared &&
    forall dep :: dep in s.declared[m].deps && dep.Regular?
      ==> dep.id in s.completed[..k] || (m, dep.id) in s.cuts
  }

  ghost predicate LogOk(s: State) {
    && NoDuplicates(s.completed)
    && (forall k :: 0 <= k < |s.completed| ==> OrderedAt(s, k))
    && NoDuplicates(s.invoked)
    && (forall m :: m in s.invoked <==> m in s.completed && m in s.declared && s.declared[m].callback == Factory)
  }

  ghost predicate CutOk(s: State, c: (nat, nat)) {
    && c.0 in s.declared
    && Regular(c.1) in s.declared[c.0].deps
    && Reach(Declares(s.declared), c.1, c.0)
  }

  ghost predicate CutsOk(s: State) {
    && (s.hasCycle <==> s.cuts != {})
    && (forall c :: c in s.cuts ==> CutOk(s, c))
  }

  ghost predicate RequestsOk(s: State, except: set<nat>) {
    && NoDuplicates(s.requests)
    && (forall d :: d in s.requests <==> d in s.known)
    && (forall d :: Waiters(s.inverse, d) != [] && d !in except ==> d in s.modules || d in s.known)
  }

  ghost predicate Inv(s: State, owed: multiset<nat>, frames: Frames) {
    && RecordsOk(s, owed)
    && WaitersOk(s)
    && SettledOk(s, owed, frames)
    && LogOk(s)
    && CutsOk(s)
  }

  /** No module sits at zero without having completed. */
  ghost predicate Live(s: State, except: set<nat>) {
    forall m :: m in s.modules && m !in except && !s.modules[m].complete ==> s.modules[m].unresolved > 0
  }

  ghost predicate DependencyFailed(s: State, m: nat)
    requires m in s.declared
  {
    exists dep :: dep in s.declared[m].deps && dep.Regular? && dep.id in s.modules && s.modules[dep.id].error.Some?
  }

  /** An error on m has a cause: m's own script or factory failed, or m gave up because of a failed dependency. */
  ghost predicate Blamed(s: State, m: nat)
    requires m in s.modules && s.modules[m].error.Some?
  {
    && s.modules[m].error.value in s.raised
    && m in s.declared
    && (LoadingFailed(m) in s.raised || (if m in s.completed then FactoryThrew(m) in s.raised else DependencyFailed(s, m)))
  }

  ghost predicate BlameOk(s: State) {
    forall m :: m in s.modules && s.modules[m].error.Some? ==> Blamed(s, m)
  }

  /** The invariant inside a call, except that the modules in `except` may sit at zero. */
  ghost predicate Almost(s: State, owed: multiset<nat>, frames: Frames, except: set<nat>) {
    Inv(s, owed, frames) && Live(s, except) && RequestsOk(s, {}) && BlameOk(s)
  }

  /** The invariant inside a call: `owed` decrements are in hand and `frames` are being walked. */
  ghost predicate Ok(s: State, owed: multiset<nat>, frames: Frames) {
    Almost(s, owed, frames, {})
  }

  ghost predicate Pending(s: State, m: nat) {
    m in s.modules && !s.modules[m].complete
  }

  /** Marked complete by an error rather than by its factory having been reached. */
  ghost predicate Errored(s: State, m: nat) {
    m in s.modules && s.modules[m].complete && m !in s.completed
  }

  // ---- the updates ----

  lemma WaitsWithinDependsOn(s: State, owed: multiset<nat>)
    requires RecordsOk(s, owed) && WaitersOk(s)
    ensures Within(Waits(s.inverse), DependsOn(s.modules))
  {
    forall m, d | Waits(s.inverse)(m, d) ensures DependsOn(s.modules)(m, d) {
      OccurrencesPositive(s.inverse, d, m);
      assert RecordOk(s, owed, m);
      assert Regular(d).Target() == d;
    }
  }

  lemma DependsOnWithinDeclares(s: State, owed: multiset<nat>)
    requires RecordsOk(s, owed)
    ensures Within(DependsOn(s.modules), Declares(s.declared))
  {
  }

  function NewModule(decl: Declaration): Module {
    Module(Some(decl.deps), |decl.deps|, false, None, decl.callback, decl.errorback)
  }

  lemma UndefinedIsUntouched(s: State, owed: multiset<nat>, frames: Frames, m: nat)
    requires Inv(s, owed, frames) && m !in s.modules
    ensures m !in owed && m !in s.completed && m !in frames && Occurrences(s.inverse, m) == 0
  {
    forall k | 0 <= k < |s.completed| ensures s.completed[k] in s.declared { assert OrderedAt(s, k); }
    forall x | x in frames ensures x in s.declared { assert FrameOk(s, owed, frames, x); }
    if Occurrences(s.inverse, m) > 0 { var d := OccurrencesWitness(s.inverse, m); }
  }

  ghost predicate DeclaredGrows(s: State, t: State) {
    forall m :: m in s.declared ==> m in t.declared && t.declared[m] == s.declared[m]
  }

  /** Cut edges stay on declared cycles while declarations only grow. */
  lemma CutsKeep(s: State, t: State)
    requires CutsOk(s) && t.cuts == s.cuts && t.hasCycle == s.hasCycle && DeclaredGrows(s, t)
    ensures CutsOk(t)
  {
    assert Within(Declares(s.declared), Declares(t.declared));
    forall c | c in t.cuts ensures CutOk(t, c) {
      assert CutOk(s, c);
      ReachMono(Declares(s.declared), Declares(t.declared), c.1, c.0);
    }
  }

  lemma LogKeeps(s: State, t: State)
    requires LogOk(s) && t.completed == s.completed && t.invoked == s.invoked
    requires s.cuts <= t.cuts && DeclaredGrows(s, t)
    ensures LogOk(t)
  {
    forall k | 0 <= k < |t.completed| ensures OrderedAt(t, k) { assert OrderedAt(s, k); }
    forall m | m in t.completed ensures m in s.declared {
      var k :| 0 <= k < |t.completed| && t.completed[k] == m;
      assert OrderedAt(s, k);
    }
  }

  lemma CompletedIsDefined(s: State, m: nat)
    requires LogOk(s) && m in s.completed
    ensures m in s.declared
  {
    var k :| 0 <= k < |s.completed| && s.completed[k] == m;
    assert OrderedAt(s, k);
  }

  // A module enters the table: it is owed one decrement per dependency.

  ghost predicate Defines(s: State, t: State, m: nat, decl: Declaration) {
    && m !in s.modules
    && t == s.(modules := s.modules[m := NewModule(decl)], declared := s.declared[m := decl])
  }

  lemma DefineRecords(s: State, t: State, owed: multiset<nat>, frames: Frames, m: nat, decl: Declaration)
    requires Inv(s, owed, frames) && Defines(s, t, m, decl)
    ensures RecordsOk(t, owed[m := |decl.deps|])
  {
    UndefinedIsUntouched(s, owed, frames, m);
    forall x | x in t.modules ensures RecordOk(t, owed[m := |decl.deps|], x) {
      if x != m { assert RecordOk(s, owed, x); }
    }
  }

  /** What an update that leaves the inverse lists and the logs alone must still show. */
  lemma LocalKeeps(s: State, t: State, owed: multiset<nat>, frames: Frames, owed': multiset<nat>, frames': Frames)
    requires Inv(s, owed, frames)
    requires t.inverse == s.inverse && t.completed == s.completed && t.invoked == s.invoked
    requires DeclaredGrows(s, t) && s.cuts <= t.cuts
    requires RecordsOk(t, owed') && SettledOk(t, owed', frames') && CutsOk(t)
    ensures Inv(t, owed', frames')
  {
    LogKeeps(s, t);
  }

  lemma DefineSettled(s: State, t: State, owed: multiset<nat>, frames: Frames, m: nat, decl: Declaration)
    requires Inv(s, owed, frames) && Defines(s, t, m, decl)
    ensures SettledOk(t, owed[m := |decl.deps|], frames[m := 0])
  {
    var owed', frames' := owed[m := |decl.deps|], frames[m := 0];
    UndefinedIsUntouched(s, owed, frames, m);
    forall x | x in frames' ensures FrameOk(t, owed', frames', x) {
      if x != m { assert FrameOk(s, owed, frames, x); }
    }
    forall x | x in t.modules && !t.modules[x].complete ensures SettledAt(t, frames', x) {
      if x != m { assert SettledAt(s, frames, x); }
    }
  }

  lemma DefineKeeps(s: State, t: State, owed: multiset<nat>, frames: Frames, m: nat, decl: Declaration)
    requires Inv(s, owed, frames) && Defines(s, t, m, decl)
    ensures Inv(t, owed[m := |decl.deps|], frames[m := 0])
  {
    DefineRecords(s, t, owed, frames, m, decl);
    DefineSettled(s, t, owed, frames, m, decl);
    CutsKeep(s, t);
    LocalKeeps(s, t, owed, frames, owed[m := |decl.deps|], frames[m := 0]);
  }

  // One dependency of m is handled without waiting: special, already complete, or cut.

  ghost predicate Advances(s: State, t: State, owed: multiset<nat>, frames: Frames, m: nat) {
    && m in frames && m in s.modules && m in s.declared && frames[m] < |s.declared[m].deps|
    && t.modules == s.modules[m := s.modules[m].(unresolved := s.modules[m].unresolved - 1)]
    && t.inverse == s.inverse && t.completed == s.completed && t.invoked == s.invoked && t.declared == s.declared
    && s.cuts <= t.cuts
    && Settled(t, m, s.declared[m].deps[frames[m]])
  }

  lemma AdvanceRecords(s: State, t: State, owed: multiset<nat>, frames: Frames, m: nat)
    requires Inv(s, owed, frames) && Advances(s, t, owed, frames, m)
    ensures RecordsOk(t, owed - multiset{m})
  {
    assert FrameOk(s, owed, frames, m);
    forall x | x in t.modules ensures RecordOk(t, owed - multiset{m}, x) { assert RecordOk(s, owed, x); }
  }

  lemma AdvanceSettled(s: State, t: State, owed: multiset<nat>, frames: Frames, m: nat)
    requires Inv(s, owed, frames) && Advances(s, t, owed, frames, m)
    ensures SettledOk(t, owed - multiset{m}, frames[m := frames[m] + 1])
  {
    hide LogOk, CutsOk, WaitersOk, Reach;
    var owed', frames' := owed - multiset{m}, frames[m := frames[m] + 1];
    forall x | x in frames' ensures FrameOk(t, owed', frames', x) { assert FrameOk(s, owed, frames, x); }
    forall x | x in t.modules && !t.modules[x].complete ensures SettledAt(t, frames', x) {
      assert SettledAt(s, frames, x);
    }
  }

  lemma AdvanceKeeps(s: State, t: State, owed: multiset<nat>, frames: Frames, m: nat)
    requires Inv(s, owed, frames) && Advances(s, t, owed, frames, m) && CutsOk(t)
    ensures Inv(t, owed - multiset{m}, frames[m := frames[m] + 1])
  {
    AdvanceRecords(s, t, owed, frames, m);
    AdvanceSettled(s, t, owed, frames, m);
    LocalKeeps(s, t, owed, frames, owed - multiset{m}, frames[m := frames[m] + 1]);
  }

  /** The cut edge closes a declared cycle. */
  lemma CutKeeps(s: State, t: State, owed: multiset<nat>, m: nat, d: nat)
    requires RecordsOk(s, owed) && CutsOk(s) && m in s.declared && Regular(d) in s.declared[m].deps
    requires Reach(DependsOn(s.modules), d, m)
    requires t.declared == s.declared && t.hasCycle && t.cuts == s.cuts + {(m, d)}
    ensures CutsOk(t)
  {
    DependsOnWithinDeclares(s, owed);
    ReachMono(DependsOn(s.modules), Declares(s.declared), d, m);
    forall c | c in t.cuts ensures CutOk(t, c) {
      if c != (m, d) { assert CutOk(s, c); }
    }
  }

  // m starts waiting on d.

  ghost predicate StartsWaiting(s: State, t: State, owed: multiset<nat>, frames: Frames, m: nat, d: nat) {
    && m in frames && m in s.declared && frames[m] < |s.declared[m].deps| && s.declared[m].deps[frames[m]] == Regular(d)
    && d !in s.completed && !Reach(DependsOn(s.modules), d, m) && d != m
    && t == s.(inverse := s.inverse[d := Waiters(s.inverse, d) + [m]])
  }

  lemma WaitRecords(s: State, t: State, owed: multiset<nat>, frames: Frames, m: nat, d: nat)
    requires Inv(s, owed, frames) && StartsWaiting(s, t, owed, frames, m, d)
    ensures RecordsOk(t, owed - multiset{m})
  {
    assert FrameOk(s, owed, frames, m);
    forall x | x in t.modules ensures RecordOk(t, owed - multiset{m}, x) {
      assert RecordOk(s, owed, x);
      OccurrencesUpdate(s.inverse, d, Waiters(s.inverse, d) + [m], x);
    }
  }

  lemma WaitAcyclic(s: State, t: State, owed: multiset<nat>, frames: Frames, m: nat, d: nat)
    requires Inv(s, owed, frames) && StartsWaiting(s, t, owed, frames, m, d)
    ensures Acyclic(Waits(t.inverse))
  {
    hide RecordsOk, SettledOk, LogOk, CutsOk, Reach;
    WaitsWithinDependsOn(s, owed);
    if Reach(Waits(s.inverse), d, m) { ReachMono(Waits(s.inverse), DependsOn(s.modules), d, m); }
    AcyclicAdd(Waits(s.inverse), Waits(t.inverse), m, d);
  }

  lemma WaitWaiters(s: State, t: State, owed: multiset<nat>, frames: Frames, m: nat, d: nat)
    requires Inv(s, owed, frames) && StartsWaiting(s, t, owed, frames, m, d)
    ensures WaitersOk(t)
  {
    hide RecordsOk, LogOk, CutsOk, Reach;
    WaitAcyclic(s, t, owed, frames, m, d);
    assert s.declared[m].deps[frames[m]] in s.declared[m].deps;
    forall e, x | x in Waiters(t.inverse, e) ensures x in s.declared && Regular(e) in s.declared[x].deps {
      assert x in Waiters(s.inverse, e) || (x == m && e == d);
    }
  }

  lemma WaitSettled(s: State, t: State, owed: multiset<nat>, frames: Frames, m: nat, d: nat)
    requires Inv(s, owed, frames) && StartsWaiting(s, t, owed, frames, m, d)
    ensures SettledOk(t, owed - multiset{m}, frames[m := frames[m] + 1])
  {
    hide LogOk, CutsOk, WaitersOk, Reach;
    var owed', frames' := owed - multiset{m}, frames[m := frames[m] + 1];
    forall x | x in frames' ensures FrameOk(t, owed', frames', x) { assert FrameOk(s, owed, frames, x); }
    forall x | x in t.modules && !t.modules[x].complete ensures SettledAt(t, frames', x) {
      assert SettledAt(s, frames, x);
    }
  }

  lemma WaitKeeps(s: State, t: State, owed: multiset<nat>, frames: Frames, m: nat, d: nat)
    requires Inv(s, owed, frames) && StartsWaiting(s, t, owed, frames, m, d)
    ensures Inv(t, owed - multiset{m}, frames[m := frames[m] + 1])
  {
    WaitRecords(s, t, owed, frames, m, d);
    WaitWaiters(s, t, owed, frames, m, d);
    WaitSettled(s, t, owed, frames, m, d);
    LogKeeps(s, t);
    CutsKeep(s, t);
  }

  // The walk over m's dependencies ends.

  lemma EndFrameKeeps(s: State, owed: multiset<nat>, frames: Frames, m: nat)
    requires Inv(s, owed, frames) && m in frames && m in s.declared && frames[m] == |s.declared[m].deps|
    ensures Inv(s, owed, frames - {m})
  {
    var frames' := frames - {m};
    forall x | x in frames' ensures FrameOk(s, owed, frames', x) { assert FrameOk(s, owed, frames, x); }
    forall x | x in s.modules && !s.modules[x].complete ensures SettledAt(s, frames', x) {
      assert SettledAt(s, frames, x);
    }
  }

  function Mark(x: Module, err: LoaderError): Module {
    x.(complete := true, error := Some(err))
  }

  // The walk is abandoned: m takes over the error of a dependency and forgets what it was still owed.

  ghost predicate Abandons(s: State, t: State, owed: multiset<nat>, frames: Frames, m: nat, err: LoaderError) {
    && m in frames && m in s.modules && m in s.declared && m !in s.completed
    && t == s.(modules := s.modules[m := Mark(s.modules[m], err)])
    && frames[m] <= |s.declared[m].deps| && owed[m] >= |s.declared[m].deps| - frames[m]
  }

  ghost function Forgiven(s: State, owed: multiset<nat>, frames: Frames, m: nat): multiset<nat>
    requires m in frames && m in s.declared && frames[m] <= |s.declared[m].deps|
    requires owed[m] >= |s.declared[m].deps| - frames[m]
  {
    owed[m := owed[m] - (|s.declared[m].deps| - frames[m])]
  }

  lemma AbandonRecords(s: State, t: State, owed: multiset<nat>, frames: Frames, m: nat, err: LoaderError)
    requires Inv(s, owed, frames) && Abandons(s, t, owed, frames, m, err)
    ensures RecordsOk(t, Forgiven(s, owed, frames, m))
  {
    forall x | x in t.modules ensures RecordOk(t, Forgiven(s, owed, frames, m), x) { assert RecordOk(s, owed, x); }
  }

  lemma AbandonSettled(s: State, t: State, owed: multiset<nat>, frames: Frames, m: nat, err: LoaderError)
    requires Inv(s, owed, frames) && Abandons(s, t, owed, frames, m, err)
    ensures SettledOk(t, Forgiven(s, owed, frames, m), frames - {m})
  {
  }

  lemma AbandonKeeps(s: State, t: State, owed: multiset<nat>, frames: Frames, m: nat, err: LoaderError)
    requires Inv(s, owed, frames) && Abandons(s, t, owed, frames, m, err)
    ensures Inv(t, Forgiven(s, owed, frames, m), frames - {m})
  {
    hide RecordsOk, SettledOk, WaitersOk, LogOk;
    AbandonRecords(s, t, owed, frames, m, err);
    AbandonSettled(s, t, owed, frames, m, err);
    CutsKeep(s, t);
    LocalKeeps(s, t, owed, frames, Forgiven(s, owed, frames, m), frames - {m});
  }

  // m completes normally and takes its inverse list in hand.

  function Finished(x: Module, error: Option<LoaderError>): Module {
    x.(complete := true, error := error, deps := None, callback := Absent, errorback := false)
  }

  ghost predicate Completes(s: State, t: State, m: nat, error: Option<LoaderError>) {
    && m in s.modules && m in s.declared && (error.None? || error == Some(FactoryThrew(m)))
    && t == s.(
         modules := s.modules[m := Finished(s.modules[m], error)],
         completed := s.completed + [m],
         invoked := if s.declared[m].callback == Factory then s.invoked + [m] else s.invoked,
         inverse := s.inverse - {m},
         raised := if error.Some? then s.raised + {error.value} else s.raised)
  }

  ghost predicate Completable(s: State, frames: Frames, m: nat) {
    && m in s.modules && m in s.declared && !s.modules[m].complete && s.modules[m].unresolved == 0
    && Handled(s, frames, m) == |s.declared[m].deps|
  }

  lemma CompletableIsFree(s: State, owed: multiset<nat>, frames: Frames, m: nat)
    requires Inv(s, owed, frames) && Completable(s, frames, m)
    ensures m !in s.completed && owed[m] == 0 && Occurrences(s.inverse, m) == 0
    ensures forall d :: m !in Waiters(s.inverse, d)
    ensures forall dep :: dep in s.declared[m].deps && dep.Regular? ==> dep.id in s.completed || (m, dep.id) in s.cuts
  {
    assert RecordOk(s, owed, m);
    forall d | m in Waiters(s.inverse, d) ensures false { OccurrencesPositive(s.inverse, d, m); }
    assert SettledAt(s, frames, m);
    forall dep | dep in s.declared[m].deps && dep.Regular?
      ensures dep.id in s.completed || (m, dep.id) in s.cuts
    {
      var j :| 0 <= j < |s.declared[m].deps| && s.declared[m].deps[j] == dep;
      assert Settled(s, m, s.declared[m].deps[j]);
    }
  }

  lemma CompleteRecord(s: State, t: State, owed: multiset<nat>, frames: Frames, m: nat, error: Option<LoaderError>, x: nat)
    requires Inv(s, owed, frames) && Completable(s, frames, m) && Completes(s, t, m, error) && x in t.modules
    ensures RecordOk(t, owed + multiset(Waiters(s.inverse, m)), x)
  {
    CompletableIsFree(s, owed, frames, m);
    assert RecordOk(s, owed, x);
    OccurrencesClear(s.inverse, m, x);
    assert x in t.completed <==> x in s.completed || x == m;
  }

  lemma CompleteRecords(s: State, t: State, owed: multiset<nat>, frames: Frames, m: nat, error: Option<LoaderError>)
    requires Inv(s, owed, frames) && Completable(s, frames, m) && Completes(s, t, m, error)
    ensures RecordsOk(t, owed + multiset(Waiters(s.inverse, m)))
  {
    forall x | x in t.modules ensures RecordOk(t, owed + multiset(Waiters(s.inverse, m)), x) {
      CompleteRecord(s, t, owed, frames, m, error, x);
    }
  }

  lemma CompleteLog(s: State, t: State, owed: multiset<nat>, frames: Frames, m: nat, error: Option<LoaderError>)
    requires Inv(s, owed, frames) && Completable(s, frames, m) && Completes(s, t, m, error)
    ensures LogOk(t)
  {
    CompletableIsFree(s, owed, frames, m);
    forall k | 0 <= k < |t.completed| ensures OrderedAt(t, k) {
      if k < |s.completed| {
        assert OrderedAt(s, k);
        assert t.completed[..k] == s.completed[..k];
      } else {
        assert t.completed[..k] == s.completed;
      }
    }
  }

  lemma CompleteWaiters(s: State, t: State, m: nat, error: Option<LoaderError>)
    requires WaitersOk(s) && Completes(s, t, m, error)
    ensures WaitersOk(t)
  {
    forall d, x | x in Waiters(t.inverse, d) ensures x in Waiters(s.inverse, d) {}
    AcyclicMono(Waits(t.inverse), Waits(s.inverse));
  }

  lemma CompleteSettled(s: State, t: State, owed: multiset<nat>, frames: Frames, m: nat, error: Option<LoaderError>)
    requires Inv(s, owed, frames) && Completable(s, frames, m) && Completes(s, t, m, error)
    ensures SettledOk(t, owed + multiset(Waiters(s.inverse, m)), frames)
  {
    hide LogOk, CutsOk, WaitersOk, Reach;
    var owed' := owed + multiset(Waiters(s.inverse, m));
    CompletableIsFree(s, owed, frames, m);
    assert m in t.completed;
    forall x | x in frames ensures FrameOk(t, owed', frames, x) { assert FrameOk(s, owed, frames, x); }
    forall x | x in t.modules && !t.modules[x].complete ensures SettledAt(t, frames, x) {
      assert SettledAt(s, frames, x);
    }
  }

  lemma CompleteKeeps(s: State, t: State, owed: multiset<nat>, frames: Frames, m: nat, error: Option<LoaderError>)
    requires Inv(s, owed, frames) && Completable(s, frames, m) && Completes(s, t, m, error)
    ensures Inv(t, owed + multiset(Waiters(s.inverse, m)), frames)
  {
    CompleteRecords(s, t, owed, frames, m, error);
    CompleteLog(s, t, owed, frames, m, error);
    CompleteSettled(s, t, owed, frames, m, error);
    CompleteWaiters(s, t, m, error);
    CutsKeep(s, t);
  }

  // One waiter taken from a completed module's list gets its decrement.

  ghost predicate Delivers(s: State, t: State, m: nat) {
    && m in s.modules
    && t == s.(modules := s.modules[m := s.modules[m].(unresolved := s.modules[m].unresolved - 1)])
  }

  lemma DeliverRecords(s: State, t: State, owed: multiset<nat>, m: nat)
    requires RecordsOk(s, owed + multiset{m}) && Delivers(s, t, m)
    ensures RecordsOk(t, owed) && t.modules[m].unresolved >= 0
  {
    forall x | x in t.modules ensures RecordOk(t, owed, x) { assert RecordOk(s, owed + multiset{m}, x); }
  }

  /** Frames and settled dependencies survive any update that leaves lists, logs and cuts alone. */
  lemma SettledKeeps(s: State, t: State, owed: multiset<nat>, owed': multiset<nat>, frames: Frames)
    requires s.declared.Keys == s.modules.Keys && t.modules.Keys == s.modules.Keys && SettledOk(s, owed, frames)
    requires t.inverse == s.inverse && t.completed == s.completed && t.declared == s.declared && t.cuts == s.cuts
    requires forall x :: x in s.modules && s.modules[x].complete ==> t.modules[x].complete
    requires forall x :: x in frames && x in s.declared ==> owed'[x] >= |s.declared[x].deps| - frames[x]
    ensures SettledOk(t, owed', frames)
  {
  }

  lemma DeliverKeeps(s: State, t: State, owed: multiset<nat>, frames: Frames, m: nat)
    requires Inv(s, owed + multiset{m}, frames) && Delivers(s, t, m)
    requires forall x :: x in frames && x in s.declared ==> owed[x] >= |s.declared[x].deps| - frames[x]
    ensures Inv(t, owed, frames) && t.modules[m].unresolved >= 0
  {
    hide SettledOk, WaitersOk, LogOk;
    DeliverRecords(s, t, owed, m);
    SettledKeeps(s, t, owed + multiset{m}, owed, frames);
    CutsKeep(s, t);
    LocalKeeps(s, t, owed + multiset{m}, frames, owed, frames);
  }

  // A load failure marks a set of modules.

  ghost predicate Marks(s: State, t: State, reached: set<nat>, err: LoaderError) {
    && t == s.(modules := t.modules) && t.modules.Keys == s.modules.Keys
    && forall x :: x in s.modules ==> t.modules[x] == if x in reached then Mark(s.modules[x], err) else s.modules[x]
  }

  lemma MarkRecords(s: State, t: State, owed: multiset<nat>, reached: set<nat>, err: LoaderError)
    requires RecordsOk(s, owed) && Marks(s, t, reached, err)
    ensures RecordsOk(t, owed)
  {
  }

  lemma MarkKeeps(s: State, t: State, owed: multiset<nat>, frames: Frames, reached: set<nat>, err: LoaderError)
    requires Inv(s, owed, frames) && Marks(s, t, reached, err)
    ensures Inv(t, owed, frames)
  {
    hide WaitersOk, LogOk;
    assert s.declared.Keys == s.modules.Keys;
    MarkRecords(s, t, owed, reached, err);
    forall x | x in frames ensures owed[x] >= |s.declared[x].deps| - frames[x] { assert FrameOk(s, owed, frames, x); }
    SettledKeeps(s, t, owed, owed, frames);
    CutsKeep(s, t);
    LocalKeeps(s, t, owed, frames, owed, frames);
  }

  // ---- causes ----

  /** No error disappears and no new one appears. */
  ghost predicate SameErrors(s: State, t: State) {
    forall m :: m in t.modules && t.modules[m].error.Some? ==> m in s.modules && t.modules[m].error == s.modules[m].error
  }

  ghost predicate ErrorsStay(s: State, t: State) {
    forall m :: m in s.modules && s.modules[m].error.Some? ==> m in t.modules && t.modules[m].error.Some?
  }

  lemma BlamedStays(s: State, t: State, m: nat)
    requires m in s.modules && s.modules[m].error.Some? && Blamed(s, m)
    requires m in t.modules && t.modules[m].error.Some? && t.modules[m].error.value in t.raised
    requires ErrorsStay(s, t) && DeclaredGrows(s, t) && s.raised <= t.raised && (m in t.completed <==> m in s.completed)
    ensures Blamed(t, m)
  {
  }

  lemma BlameKeeps(s: State, t: State)
    requires BlameOk(s) && SameErrors(s, t) && ErrorsStay(s, t) && DeclaredGrows(s, t)
    requires s.raised <= t.raised && t.completed == s.completed
    ensures BlameOk(t)
  {
  }

  lemma AbandonBlame(s: State, t: State, owed: multiset<nat>, frames: Frames, m: nat, dep: Dependency)
    requires BlameOk(s) && m in s.declared && dep in s.declared[m].deps && dep.Regular?
    requires dep.id in s.modules && s.modules[dep.id].error.Some?
    requires Abandons(s, t, owed, frames, m, s.modules[dep.id].error.value)
    ensures BlameOk(t)
  {
  }

  lemma CompleteBlame(s: State, t: State, m: nat, error: Option<LoaderError>)
    requires BlameOk(s) && Completes(s, t, m, error) && s.modules[m].error.None?
    ensures BlameOk(t)
  {
  }
}
