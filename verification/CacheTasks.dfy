/** The download cache as tasks that overlap: only the update of the list is locked. */
module CacheTasks {

  import opened Common
  import opened LruLists

  const RENAME_ATTEMPTS := 20
  const STAGING_SUFFIX := ".staging"

  /** A call between two of its steps: what it does next. */
  datatype Task =
    | Touching(name: string)               // exists: found its folder
    | Removing(name: string)               // delete: found its folder
    | Dropping(name: string)               // delete: the folder is gone, the list is next
    | Staging(name: string)                // create: found no folder
    | Filling(name: string)                // create: the staging folder is there
    | Listing(name: string)                // create: the staging folder is filled
    | Renaming(name: string, attempt: nat) // create: the name is listed

  /** The list, the folders, and the calls under way. */
  datatype Cache = Cache(
    list: seq<string>,
    disk: set<string>,
    finished: set<string>,      // folders that a rename finished, or that were there at the start
    touched: map<string, int>,  // when each name was last touched
    clock: int,
    tasks: seq<Task>)

  /** One atomic step: a call up to its first wait, a file system operation, or a locked update. `k` names a task. */
  datatype Step =
    | CallExists(name: string)
    | CallDelete(name: string)
    | CallCreate(name: string)
    | Touch(k: nat, removeOk: bool)
    | RemoveFolder(k: nat, ok: bool)
    | Drop(k: nat)
    | Stage(k: nat, cleanOk: bool, makeOk: bool)
    | Fill(k: nat, ok: bool)
    | Rename(k: nat, ok: bool)

  predicate Enabled(s: Cache, step: Step) {
    match step
    case CallExists(_) => true
    case CallDelete(_) => true
    case CallCreate(_) => true
    case Touch(k, _) => k < |s.tasks| && (s.tasks[k].Touching? || s.tasks[k].Listing?)
    case RemoveFolder(k, _) => k < |s.tasks| && s.tasks[k].Removing?
    case Drop(k) => k < |s.tasks| && s.tasks[k].Dropping?
    case Stage(k, _, _) => k < |s.tasks| && s.tasks[k].Staging?
    case Fill(k, _) => k < |s.tasks| && s.tasks[k].Filling?
    case Rename(k, _) => k < |s.tasks| && s.tasks[k].Renaming?
  }

  function Start(s: Cache, task: Task): Cache {
    s.(tasks := s.tasks + [task])
  }

  function Continue(s: Cache, k: nat, task: Task): Cache
    requires k < |s.tasks|
  {
    s.(tasks := s.tasks[k := task])
  }

  function End(s: Cache, k: nat): Cache
    requires k < |s.tasks|
  {
    s.(tasks := s.tasks[..k] + s.tasks[k + 1..])
  }

  /** Whether the last name leaves the list: its folder is gone already, or can be removed. */
  function Evicts(s: Cache, name: string, removeOk: bool): bool {
    var front := Front(s.list, name);
    |front| <= KEEP_LRU || removeOk || front[|front| - 1] !in s.disk
  }

  /** The folder that an eviction removes. */
  function Lost(s: Cache, name: string, removeOk: bool): set<string> {
    var front := Front(s.list, name);
    if |front| > KEEP_LRU && Evicts(s, name, removeOk) then {front[|front| - 1]} else {}
  }

  /** The locked update of a touch. */
  function TouchList(s: Cache, name: string, removeOk: bool): Cache {
    s.(list := Touched(s.list, name, Evicts(s, name, removeOk)),
       disk := s.disk - Lost(s, name, removeOk),
       finished := s.finished - Lost(s, name, removeOk),
       touched := s.touched[name := s.clock],
       clock := s.clock + 1)
  }

  /** The locked update of a delete. */
  function DropName(s: Cache, name: string): Cache {
    s.(list := Without(s.list, name))
  }

  function RemoveDir(s: Cache, name: string): Cache {
    s.(disk := s.disk - {name}, finished := s.finished - {name})
  }

  function StageStep(s: Cache, k: nat, cleanOk: bool, makeOk: bool): Cache
    requires k < |s.tasks|
  {
    var temp := s.tasks[k].name + STAGING_SUFFIX;
    var cleaned := s.(disk := if cleanOk then s.disk - {temp} else s.disk, finished := s.finished - {temp});
    if makeOk then Continue(cleaned.(disk := cleaned.disk + {temp}), k, Filling(s.tasks[k].name)) else End(cleaned, k)
  }

  /** The staging folder becomes the finished one. */
  function Renamed(s: Cache, name: string): Cache {
    var temp := name + STAGING_SUFFIX;
    s.(disk := s.disk - {temp} + {name}, finished := s.finished - {temp} + {name})
  }

  function RenameStep(s: Cache, k: nat, ok: bool): Cache
    requires k < |s.tasks| && s.tasks[k].Renaming?
  {
    var Renaming(name, attempt) := s.tasks[k];
    if ok && name + STAGING_SUFFIX in s.disk then End(Renamed(s, name), k)
    else if attempt >= RENAME_ATTEMPTS then End(s, k)
    else Continue(s, k, Renaming(name, attempt + 1))
  }

  function Next(s: Cache, step: Step): Cache
    requires Enabled(s, step)
  {
    match step
    case CallExists(name) => if name in s.disk then Start(s, Touching(name)) else s
    case CallDelete(name) => Start(s, if name in s.disk then Removing(name) else Dropping(name))
    case CallCreate(name) => if name in s.disk then s else Start(s, Staging(name))
    case Touch(k, removeOk) =>
      var t := TouchList(s, s.tasks[k].name, removeOk);
      if s.tasks[k].Listing? then Continue(t, k, Renaming(s.tasks[k].name, 0)) else End(t, k)
    case RemoveFolder(k, ok) =>
      if ok && s.tasks[k].name in s.disk then Continue(RemoveDir(s, s.tasks[k].name), k, Dropping(s.tasks[k].name)) else End(s, k)
    case Drop(k) => End(DropName(s, s.tasks[k].name), k)
    case Stage(k, cleanOk, makeOk) => StageStep(s, k, cleanOk, makeOk)
    case Fill(k, ok) => if ok then Continue(s, k, Listing(s.tasks[k].name)) else End(s, k)
    case Rename(k, ok) => RenameStep(s, k, ok)
  }

  // ---- runs ----

  /** An interleaving: steps of any calls in any order, as long as each can happen when its turn comes. */
  ghost predicate IsRun(s: Cache, steps: seq<Step>)
    decreases |steps|
  {
    steps == [] || (Enabled(s, steps[0]) && IsRun(Next(s, steps[0]), steps[1..]))
  }

  ghost function After(s: Cache, steps: seq<Step>): Cache
    requires IsRun(s, steps)
    decreases |steps|
  {
    if steps == [] then s else After(Next(s, steps[0]), steps[1..])
  }

  lemma {:induction false} RunAppend(s: Cache, a: seq<Step>, b: seq<Step>)
    requires IsRun(s, a) && IsRun(After(s, a), b)
    ensures IsRun(s, a + b) && After(s, a + b) == After(After(s, a), b)
    decreases |a|
  {
    hide Next, Enabled;
    if a == [] {
      assert a + b == b;
    } else {
      assert (a + b)[1..] == a[1..] + b;
      RunAppend(Next(s, a[0]), a[1..], b);
    }
  }

  lemma RunSnoc(s: Cache, steps: seq<Step>, step: Step)
    requires IsRun(s, steps) && Enabled(After(s, steps), step)
    ensures IsRun(s, steps + [step]) && After(s, steps + [step]) == Next(After(s, steps), step)
  {
    hide Next, Enabled;
    var t := After(s, steps);
    assert [step][1..] == [] && IsRun(t, [step]) && After(t, [step]) == Next(t, step);
    RunAppend(s, steps, [step]);
  }

  /** Finished folders exist, and the list is ordered by last touch. */
  ghost predicate Inv(s: Cache) {
    s.finished <= s.disk && Recent(s.list, s.touched) && forall x :: x in s.touched ==> s.touched[x] < s.clock
  }

  lemma StepKeeps(s: Cache, step: Step)
    requires Inv(s) && Enabled(s, step)
    ensures Inv(Next(s, step))
  {
    hide Recent, Touched, Front;
    match step
    case Touch(k, removeOk) =>
      var name := s.tasks[k].name;
      TouchedRecent(s.list, name, Evicts(s, name, removeOk), s.touched, s.clock);
    case Drop(k) => WithoutRecent(s.list, s.tasks[k].name, s.touched);
    case _ =>
  }

  predicate RemovalWorks(step: Step) {
    step.Touch? ==> step.removeOk
  }

  lemma StepIsBounded(s: Cache, step: Step)
    requires Enabled(s, step) && RemovalWorks(step) && |s.list| <= KEEP_LRU
    ensures |Next(s, step).list| <= KEEP_LRU
  {
    hide Front;
    if step.Touch? { TouchedIsBounded(s.list, s.tasks[step.k].name); }
  }

  /** Over every interleaving, whatever fails: the list is ordered by last touch and free of duplicates, and it never
      exceeds five names if it did not at the start and the evictions' removals work. */
  lemma {:induction false} EveryInterleaving(s: Cache, steps: seq<Step>)
    requires Inv(s) && IsRun(s, steps)
    ensures Inv(After(s, steps)) && NoDuplicates(After(s, steps).list)
    ensures |s.list| <= KEEP_LRU && (forall i :: 0 <= i < |steps| ==> RemovalWorks(steps[i])) ==> |After(s, steps).list| <= KEEP_LRU
    decreases |steps|
  {
    hide Next, Enabled, Recent;
    if steps == [] {
      RecentIsDistinct(s.list, s.touched);
    } else {
      StepKeeps(s, steps[0]);
      if |s.list| <= KEEP_LRU && RemovalWorks(steps[0]) { StepIsBounded(s, steps[0]); }
      EveryInterleaving(Next(s, steps[0]), steps[1..]);
    }
  }

  // ---- which folders come and go ----

  /** The folder that a step takes away: the sixth in the list, the one being deleted, or a staging folder. */
  predicate TakesAway(s: Cache, step: Step, n: string)
    requires Enabled(s, step)
  {
    match step
    case Touch(k, removeOk) =>
      var front := Front(s.list, s.tasks[k].name);
      removeOk && |front| > 5 && n == front[|front| - 1]
    case RemoveFolder(k, ok) => ok && n == s.tasks[k].name
    case Stage(k, cleanOk, makeOk) => cleanOk && !makeOk && n == s.tasks[k].name + ".staging"
    case Rename(k, ok) => ok && n == s.tasks[k].name + ".staging"
    case _ => false
  }

  /** The folder that a step makes: a staging folder, or a finished one from its staging folder. */
  predicate Makes(s: Cache, step: Step, n: string)
    requires Enabled(s, step)
  {
    match step
    case Stage(k, _, makeOk) => makeOk && n == s.tasks[k].name + ".staging"
    case Rename(k, ok) => ok && n == s.tasks[k].name && n + ".staging" in s.disk
    case _ => false
  }

  /** A step touches no folder but those: in particular an eviction removes the last of more than five names and nothing
      else, and a failed operation removes nothing. */
  lemma FoldersExactly(s: Cache, step: Step, n: string)
    requires Inv(s) && Enabled(s, step)
    ensures n in s.disk ==> (n !in Next(s, step).disk <==> TakesAway(s, step, n))
    ensures n !in s.disk ==> (n in Next(s, step).disk <==> Makes(s, step, n))
    ensures n in Next(s, step).finished <==>
      (n in s.finished && n in Next(s, step).disk && !(step.Stage? && n == s.tasks[step.k].name + ".staging"))
      || (step.Rename? && Makes(s, step, n))
  {
    hide Front, Recent;
    if step.Stage? || step.Rename? {
      var name := s.tasks[step.k].name;
      assert |name + ".staging"| > |name|;
    }
  }

  // ---- when a finished folder is not listed ----

  /** A finished folder that the list does not know: nothing will ever evict it. */
  predicate Orphaned(s: Cache, n: string) {
    n in s.finished && n !in s.list
  }

  /** The two guards that fail: a delete drops the name of a folder finished since it removed its own, and a create
      renames to a name that others have pushed or dropped out of the list since it was listed. */
  predicate Orphans(s: Cache, step: Step, n: string) {
    match step
    case Drop(k) => k < |s.tasks| && s.tasks[k].name == n && n in s.finished
    case Rename(k, ok) =>
      k < |s.tasks| && s.tasks[k].name == n && ok && n + STAGING_SUFFIX in s.disk && n !in s.list
    case _ => false
  }

  /** A step orphans a folder exactly under one of the two guards; evictions never do. */
  lemma OrphanedExactly(s: Cache, step: Step, n: string)
    requires Inv(s) && Enabled(s, step) && !Orphaned(s, n)
    ensures Orphaned(Next(s, step), n) <==> Orphans(s, step, n)
  {
    hide Recent, Touched, Front;
    if step.Touch? {
      var name := s.tasks[step.k].name;
      RecentIsDistinct(s.list, s.touched);
      TouchedLoses(s.list, name, Evicts(s, name, step.removeOk), n);
    }
    if step.Stage? { assert n in Next(s, step).finished ==> n in s.finished; }
  }

  // ---- how many touches a name survives ----

  /** A locked update of the list. */
  datatype Update = Touches(name: string) | Drops(name: string)

  ghost function UpdateOf(s: Cache, step: Step): (u: seq<Update>)
    requires Enabled(s, step)
  {
    match step
    case Touch(k, _) => [Touches(s.tasks[k].name)]
    case Drop(k) => [Drops(s.tasks[k].name)]
    case _ => []
  }

  /** The locked updates of a run, in order. */
  ghost function Updates(s: Cache, steps: seq<Step>): seq<Update>
    requires IsRun(s, steps)
    decreases |steps|
  {
    if steps == [] then [] else UpdateOf(s, steps[0]) + Updates(Next(s, steps[0]), steps[1..])
  }

  /** What the updates alone say of a name: it is listed behind these others, or it is not. */
  datatype Place = Unlisted | Listed(ahead: set<string>)

  function Move(n: string, place: Place, u: Update): Place {
    match u
    case Touches(x) =>
      if x == n then Listed({})
      else if place.Unlisted? || |place.ahead + {x}| >= KEEP_LRU then Unlisted
      else Listed(place.ahead + {x})
    case Drops(x) =>
      if x == n || place.Unlisted? then Unlisted else Listed(place.ahead - {x})
  }

  function Moves(n: string, place: Place, us: seq<Update>): Place
    decreases |us|
  {
    if us == [] then place else Moves(n, Move(n, place, us[0]), us[1..])
  }

  lemma {:induction false} MovesAppend(n: string, place: Place, a: seq<Update>, b: seq<Update>)
    ensures Moves(n, place, a + b) == Moves(n, Moves(n, place, a), b)
    decreases |a|
  {
    if a == [] {
      assert a + b == b;
    } else {
      assert (a + b)[1..] == a[1..] + b;
      MovesAppend(n, Move(n, place, a[0]), a[1..], b);
    }
  }

  ghost predicate Safe(l: seq<string>, n: string, place: Place) {
    place.Listed? ==> Behind(l, n, place.ahead)
  }

  ghost predicate Exact(l: seq<string>, n: string, place: Place) {
    if place.Listed? then Behind(l, n, place.ahead) else n !in l
  }

  lemma TouchMoves(l: seq<string>, x: string, evict: bool, n: string, place: Place)
    requires NoDuplicates(l) && Safe(l, n, place)
    ensures Safe(Touched(l, x, evict), n, Move(n, place, Touches(x)))
    ensures |l| <= KEEP_LRU && evict && Exact(l, n, place) ==> Exact(Touched(l, x, evict), n, Move(n, place, Touches(x)))
  {
    hide Behind, Touched, Front;
    if x == n {
      TouchPutsFirst(l, n, evict);
    } else if place.Listed? {
      if |place.ahead + {x}| < KEEP_LRU {
        TouchKeepsBehind(l, x, evict, n, place.ahead);
      } else if |l| <= KEEP_LRU {
        TouchEvicts(l, x, n, place.ahead);
      }
    } else {
      TouchedLoses(l, x, evict, n);
    }
  }

  lemma DropMoves(l: seq<string>, x: string, n: string, place: Place)
    requires NoDuplicates(l) && Safe(l, n, place)
    ensures Safe(Without(l, x), n, Move(n, place, Drops(x)))
    ensures Exact(l, n, place) ==> Exact(Without(l, x), n, Move(n, place, Drops(x)))
  {
    hide Behind;
    if x != n && place.Listed? { DropKeepsBehind(l, x, n, place.ahead); }
  }

  lemma StepMoves(s: Cache, step: Step, n: string, place: Place)
    requires Inv(s) && Enabled(s, step) && Safe(s.list, n, place)
    ensures Safe(Next(s, step).list, n, Moves(n, place, UpdateOf(s, step)))
    ensures |s.list| <= KEEP_LRU && RemovalWorks(step) && Exact(s.list, n, place)
      ==> Exact(Next(s, step).list, n, Moves(n, place, UpdateOf(s, step)))
  {
    hide Safe, Exact, Recent, Touched, Front, Move;
    RecentIsDistinct(s.list, s.touched);
    if step.Touch? {
      var name := s.tasks[step.k].name;
      assert [Touches(name)][1..] == [];
      TouchMoves(s.list, name, Evicts(s, name, step.removeOk), n, place);
    } else if step.Drop? {
      var name := s.tasks[step.k].name;
      assert [Drops(name)][1..] == [];
      DropMoves(s.list, name, n, place);
    }
  }

  /** Over every interleaving, a name whose place the updates keep is listed; and if the list holds at most five names and
      the evictions' removals work, it is listed exactly then. */
  lemma {:induction false} ListedExactly(s: Cache, steps: seq<Step>, n: string, place: Place)
    requires Inv(s) && IsRun(s, steps) && Safe(s.list, n, place)
    ensures Moves(n, place, Updates(s, steps)).Listed? ==> n in After(s, steps).list
    ensures |s.list| <= KEEP_LRU && (forall i :: 0 <= i < |steps| ==> RemovalWorks(steps[i])) && Exact(s.list, n, place)
      ==> (Moves(n, place, Updates(s, steps)).Listed? <==> n in After(s, steps).list)
    decreases |steps|
  {
    hide Inv, Next, Enabled, UpdateOf, Move, Recent;
    if steps == [] {
      PlaceIsListed(s.list, n, place);
    } else {
      var t := Next(s, steps[0]);
      StepKeeps(s, steps[0]);
      StepMoves(s, steps[0], n, place);
      if |s.list| <= KEEP_LRU && RemovalWorks(steps[0]) { StepIsBounded(s, steps[0]); }
      MovesAppend(n, place, UpdateOf(s, steps[0]), Updates(t, steps[1..]));
      ListedExactly(t, steps[1..], n, Moves(n, place, UpdateOf(s, steps[0])));
    }
  }

  lemma PlaceIsListed(l: seq<string>, n: string, place: Place)
    requires Safe(l, n, place)
    ensures place.Listed? ==> n in l
    ensures Exact(l, n, place) ==> (place.Listed? <==> n in l)
  {
  }

  /** A create lists its name, other tasks run, then it renames: the finished folder is listed if the updates in between
      keep the name's place, and, with at most five names and working removals, only then. */
  lemma FinishedIsListedExactly(s: Cache, k: nat, removeOk: bool, steps: seq<Step>, j: nat)
    requires Inv(s) && k < |s.tasks| && s.tasks[k].Listing?
    requires IsRun(Next(s, Touch(k, removeOk)), steps)
    requires
      var u := After(Next(s, Touch(k, removeOk)), steps);
      j < |u.tasks| && u.tasks[j].Renaming? && u.tasks[j].name == s.tasks[k].name && u.tasks[j].name + STAGING_SUFFIX in u.disk
    ensures
      var n, t := s.tasks[k].name, Next(s, Touch(k, removeOk));
      var u := Next(After(t, steps), Rename(j, true));
      var kept := Moves(n, Listed({}), Updates(t, steps)).Listed?;
      && n in u.finished && (kept ==> n in u.list)
      && (|s.list| <= KEEP_LRU && removeOk && (forall i :: 0 <= i < |steps| ==> RemovalWorks(steps[i])) ==> (kept <==> n in u.list))
  {
    hide Touched, Front, Recent, IsRun, After, Updates, Moves;
    var n, t := s.tasks[k].name, Next(s, Touch(k, removeOk));
    StepKeeps(s, Touch(k, removeOk));
    TouchPutsFirst(s.list, n, Evicts(s, n, removeOk));
    if |s.list| <= KEEP_LRU && removeOk { StepIsBounded(s, Touch(k, removeOk)); }
    ListedExactly(t, steps, n, Listed({}));
  }

  /** The names that updates touch. */
  function TouchedNames(us: seq<Update>): set<string> {
    set i | 0 <= i < |us| && us[i].Touches? :: us[i].name
  }

  lemma TouchedNamesStep(us: seq<Update>)
    requires us != []
    ensures TouchedNames(us) == TouchedNames(us[1..]) + (if us[0].Touches? then {us[0].name} else {})
  {
    assert forall i :: 0 <= i < |us[1..]| ==> us[1..][i] == us[i + 1];
    forall x | x in TouchedNames(us) ensures x in TouchedNames(us[1..]) || (us[0].Touches? && x == us[0].name) {
      var i :| 0 <= i < |us| && us[i].Touches? && us[i].name == x;
      if i > 0 { assert us[1..][i - 1] == us[i]; }
    }
  }

  ghost predicate Others(n: string, us: seq<Update>) {
    forall i :: 0 <= i < |us| ==> us[i].name != n
  }

  ghost predicate OnlyTouches(us: seq<Update>) {
    forall i :: 0 <= i < |us| ==> us[i].Touches?
  }

  lemma OthersStep(n: string, us: seq<Update>)
    requires us != [] && Others(n, us)
    ensures us[0].name != n && Others(n, us[1..]) && (OnlyTouches(us) ==> us[0].Touches? && OnlyTouches(us[1..]))
  {
  }

  /** While nobody touches or drops the name itself, it keeps its place if fewer than five names are ahead of it or touched. */
  lemma {:induction false} FewOthers(n: string, ahead: set<string>, us: seq<Update>)
    requires Others(n, us) && |ahead + TouchedNames(us)| < KEEP_LRU
    ensures Moves(n, Listed(ahead), us).Listed?
    decreases |us|
  {
    hide TouchedNames, Others;
    if us != [] {
      OthersStep(n, us);
      TouchedNamesStep(us);
      var next := Move(n, Listed(ahead), us[0]);
      Larger((if us[0].Touches? then ahead + {us[0].name} else ahead), ahead + TouchedNames(us));
      Larger(next.ahead + TouchedNames(us[1..]), ahead + TouchedNames(us));
      FewOthers(n, next.ahead, us[1..]);
    }
  }

  /** Without any drop in between, five names ahead of it or touched take the place away: exactly five others matter. */
  lemma {:induction false} FiveOthers(n: string, ahead: set<string>, us: seq<Update>)
    requires Others(n, us) && OnlyTouches(us) && |ahead| < KEEP_LRU
    ensures Moves(n, Listed(ahead), us).Listed? <==> |ahead + TouchedNames(us)| < KEEP_LRU
    decreases |us|
  {
    hide TouchedNames, Others, OnlyTouches;
    if us == [] {
      NoneTouched();
      assert ahead + {} == ahead;
    } else {
      OthersStep(n, us);
      TouchedNamesStep(us);
      var more := ahead + {us[0].name};
      assert more + TouchedNames(us[1..]) == ahead + TouchedNames(us);
      if |more| < KEEP_LRU {
        FiveOthers(n, more, us[1..]);
      } else {
        Larger(more, ahead + TouchedNames(us));
        StaysUnlisted(n, us[1..]);
      }
    }
  }

  /** In particular: while others only touch their own names, the finished folder is listed exactly if they are fewer
      than five. */
  lemma FinishedUnlessFive(s: Cache, k: nat, steps: seq<Step>, j: nat)
    requires Inv(s) && |s.list| <= KEEP_LRU && k < |s.tasks| && s.tasks[k].Listing?
    requires IsRun(Next(s, Touch(k, true)), steps) && forall i :: 0 <= i < |steps| ==> RemovalWorks(steps[i])
    requires
      var t := Next(s, Touch(k, true));
      var u := After(t, steps);
      && Others(s.tasks[k].name, Updates(t, steps)) && OnlyTouches(Updates(t, steps))
      && j < |u.tasks| && u.tasks[j].Renaming? && u.tasks[j].name == s.tasks[k].name && u.tasks[j].name + STAGING_SUFFIX in u.disk
    ensures
      var t := Next(s, Touch(k, true));
      Orphaned(Next(After(t, steps), Rename(j, true)), s.tasks[k].name) <==> |TouchedNames(Updates(t, steps))| >= KEEP_LRU
  {
    hide IsRun, After, Updates, Moves, Others, OnlyTouches, TouchedNames, Inv;
    var us := Updates(Next(s, Touch(k, true)), steps);
    FinishedIsListedExactly(s, k, true, steps, j);
    FiveOthers(s.tasks[k].name, {}, us);
    assert {} + TouchedNames(us) == TouchedNames(us);
  }

  lemma NoneTouched()
    ensures TouchedNames([]) == {}
  {
  }

  lemma Larger(a: set<string>, b: set<string>)
    requires a <= b
    ensures |a| <= |b|
  {
    assert b == a + (b - a);
  }

  lemma {:induction false} StaysUnlisted(n: string, us: seq<Update>)
    requires Others(n, us)
    ensures Moves(n, Unlisted, us).Unlisted?
    decreases |us|
  {
    if us != [] {
      OthersStep(n, us);
      StaysUnlisted(n, us[1..]);
    }
  }

  // ---- two runs that orphan a folder, though every operation works ----

  /** A sequence of states, each a step from the one before, is a run. */
  lemma {:induction false} Follows(s: Cache, steps: seq<Step>, states: seq<Cache>)
    requires |states| == |steps| + 1 && states[0] == s
    requires forall i :: 0 <= i < |steps| ==> Enabled(states[i], steps[i]) && Next(states[i], steps[i]) == states[i + 1]
    ensures IsRun(s, steps) && After(s, steps) == states[|steps|]
    decreases |steps|
  {
    hide Next, Enabled;
    if steps != [] {
      var rest := states[1..];
      forall i | 0 <= i < |steps[1..]| ensures Enabled(rest[i], steps[1..][i]) && Next(rest[i], steps[1..][i]) == rest[i + 1] {
        assert rest[i] == states[i + 1] && rest[i + 1] == states[i + 2] && steps[1..][i] == steps[i + 1];
      }
      Follows(states[1], steps[1..], rest);
    }
  }

  /** A delete has removed its folder, and a create of the same name has filled its staging folder. */
  ghost predicate Overtaking(s: Cache) {
    && s.list == ["A"] && s.disk == {"A" + STAGING_SUFFIX} && s.tasks == [Dropping("A"), Listing("A")]
  }

  lemma Overtake(s: Cache) returns (steps: seq<Step>)
    requires s.list == ["A"] && s.disk == {"A"} && s.tasks == []
    ensures IsRun(s, steps) && Overtaking(After(s, steps))
  {
    hide IsRun, After;
    var s1 := Next(s, CallDelete("A"));
    var s2 := Next(s1, RemoveFolder(0, true));
    var s3 := Next(s2, CallCreate("A"));
    assert s3.tasks == [Dropping("A"), Staging("A")];
    var s4 := Next(s3, Stage(1, true, true));
    var s5 := Next(s4, Fill(1, true));
    steps := [CallDelete("A"), RemoveFolder(0, true), CallCreate("A"), Stage(1, true, true), Fill(1, true)];
    Follows(s, steps, [s, s1, s2, s3, s4, s5]);
  }

  lemma Overtaken(s: Cache) returns (steps: seq<Step>)
    requires Overtaking(s)
    ensures IsRun(s, steps) && Orphaned(After(s, steps), "A")
  {
    hide IsRun, After;
    assert Front(s.list, "A") == ["A"];
    var s1 := Next(s, Touch(1, true));
    assert s1.tasks == [Dropping("A"), Renaming("A", 0)];
    var s2 := Next(s1, Rename(1, true));
    assert s2.tasks == [Dropping("A")];
    var s3 := Next(s2, Drop(0));
    steps := [Touch(1, true), Rename(1, true), Drop(0)];
    Follows(s, steps, [s, s1, s2, s3]);
  }

  /** A delete that is overtaken by a create of the same name. */
  lemma OvertakenDelete(s: Cache) returns (steps: seq<Step>)
    requires s.list == ["A"] && s.disk == {"A"} && s.tasks == []
    ensures IsRun(s, steps) && Orphaned(After(s, steps), "A")
  {
    hide IsRun, After, Overtaking;
    var a := Overtake(s);
    var b := Overtaken(After(s, a));
    RunAppend(s, a, b);
    steps := a + b;
  }

  /** A new name, listed in front of at most five others, the last of which has no folder yet. */
  lemma ListNewName(s: Cache, name: string) returns (steps: seq<Step>)
    requires name !in s.disk && name !in s.list && |s.list| <= KEEP_LRU && s.disk !! Names(s.list)
    requires name + STAGING_SUFFIX !in s.list && name + STAGING_SUFFIX != name
    ensures IsRun(s, steps)
    ensures
      var t := After(s, steps);
      && t.list == [name] + (if |s.list| < KEEP_LRU then s.list else s.list[..KEEP_LRU - 1])
      && t.disk == s.disk + {name + STAGING_SUFFIX} && t.tasks == s.tasks + [Renaming(name, 0)]
  {
    hide IsRun, After;
    var temp, k := name + STAGING_SUFFIX, |s.tasks|;
    var s1 := Next(s, CallCreate(name));
    var s2 := Next(s1, Stage(k, true, true));
    var s3 := Next(s2, Fill(k, true));
    assert s3.tasks == s.tasks + [Listing(name)] && s3.disk == s.disk + {temp} && s3.list == s.list;
    var s4 := Next(s3, Touch(k, true));
    assert Front(s.list, name) == [name] + s.list;
    assert s4.disk == s3.disk && s4.tasks == s.tasks + [Renaming(name, 0)];
    steps := [CallCreate(name), Stage(k, true, true), Fill(k, true), Touch(k, true)];
    Follows(s, steps, [s, s1, s2, s3, s4]);
  }

  /** One-letter names are listed, only staging folders exist, and the create of A is about to rename. */
  ghost predicate Downloading(s: Cache, l: seq<string>) {
    && s.list == l && |l| <= KEEP_LRU && (forall x :: x in l ==> |x| == 1) && (forall x :: x in s.disk ==> |x| > 1)
    && s.tasks != [] && s.tasks[0] == Renaming("A", 0) && "A" + STAGING_SUFFIX in s.disk
  }

  lemma OneMore(s: Cache, steps: seq<Step>, l: seq<string>, name: string, l': seq<string>) returns (more: seq<Step>)
    requires IsRun(s, steps) && Downloading(After(s, steps), l) && |name| == 1 && name !in l
    requires l' == [name] + (if |l| < KEEP_LRU then l else l[..KEEP_LRU - 1])
    ensures IsRun(s, more) && Downloading(After(s, more), l')
  {
    hide IsRun, After;
    var t := After(s, steps);
    var next := ListNewName(t, name);
    RunAppend(s, steps, next);
    more := steps + next;
  }

  /** Six creates at once from an empty cache: when the first one renames, five others have pushed its name out. */
  lemma SixAtOnce(s: Cache) returns (steps: seq<Step>)
    requires s.list == [] && s.disk == {} && s.tasks == []
    ensures IsRun(s, steps) && Orphaned(After(s, steps), "A")
  {
    hide IsRun, After, Next, Downloading;
    steps := ListNewName(s, "A");
    assert Downloading(After(s, steps), ["A"]) by { FirstListed(After(s, steps)); }
    steps := OneMore(s, steps, ["A"], "B", ["B", "A"]);
    steps := OneMore(s, steps, ["B", "A"], "C", ["C", "B", "A"]);
    steps := OneMore(s, steps, ["C", "B", "A"], "D", ["D", "C", "B", "A"]);
    steps := OneMore(s, steps, ["D", "C", "B", "A"], "E", ["E", "D", "C", "B", "A"]);
    steps := OneMore(s, steps, ["E", "D", "C", "B", "A"], "F", ["F", "E", "D", "C", "B"]);
    RenameFirst(After(s, steps), ["F", "E", "D", "C", "B"]);
    RunSnoc(s, steps, Rename(0, true));
    steps := steps + [Rename(0, true)];
  }

  lemma FirstListed(s: Cache)
    requires s.list == ["A"] && s.disk == {"A" + STAGING_SUFFIX} && s.tasks == [Renaming("A", 0)]
    ensures Downloading(s, ["A"])
  {
  }

  lemma RenameFirst(s: Cache, l: seq<string>)
    requires Downloading(s, l)
    ensures Enabled(s, Rename(0, true)) && Next(s, Rename(0, true)).list == l && "A" in Next(s, Rename(0, true)).finished
  {
  }
}
