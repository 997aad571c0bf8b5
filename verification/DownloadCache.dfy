/** The download cache as a program: a persisted list, folders on disk, and calls that run to their end. */
module DownloadCaches {

  import opened Common
  import opened LruLists
  import opened CacheTasks

  /** A value that is persisted to a file. `file` is what a new process would parse; None if that fails. */
  class PersistedState<T> {
    const initial: T
    var state: Option<T>
    var file: Option<T>

    ghost function Current(): T reads this {
      if state.Some? then state.value else if file.Some? then file.value else initial
    }

    constructor (initial: T, file: Option<T>)
      ensures this.file == file && state == None && this.initial == initial
    {
      this.initial, this.file, state := initial, file, None;
    }

    method LoadOrGet() returns (s: T)
      modifies this`state
      ensures s == old(Current()) == Current() && state == Some(s)
    {
      if state.Some? {
        return state.value;
      }
      s := if file.Some? then file.value else initial;
      state := Some(s);
    }

    /** Keeps the value in memory even when writing it fails; a failed write leaves anything behind. */
    method Save(s: T, writeOk: bool, junk: Option<T>) returns (ok: bool)
      modifies this
      ensures Current() == s && ok == writeOk && (writeOk ==> file == Some(s))
    {
      state := Some(s);
      file := if writeOk then Some(s) else junk;
      ok := writeOk;
    }
  }

  predicate IsStaging(name: string) {
    |name| >= |STAGING_SUFFIX| && name[|name| - |STAGING_SUFFIX|..] == STAGING_SUFFIX
  }

  lemma StagingName(name: string)
    ensures IsStaging(name + STAGING_SUFFIX) && name + STAGING_SUFFIX != name
  {
    assert (name + STAGING_SUFFIX)[|name|..] == STAGING_SUFFIX;
  }

  /** Every finished folder is listed, and so is every folder that is not a staging one. */
  ghost predicate AllListed(s: Cache) {
    (forall n :: n in s.finished ==> n in s.list) && (forall n :: n in s.disk ==> n in s.list || IsStaging(n))
  }

  lemma TouchKeepsListed(s: Cache, name: string, removeOk: bool)
    requires Inv(s) && AllListed(s)
    ensures
      var t := TouchList(s, name, removeOk);
      && Inv(t) && AllListed(t) && name in t.list && t.list[0] == name && (name in t.disk <==> name in s.disk)
      && (removeOk && |s.list| <= KEEP_LRU ==> |t.list| <= KEEP_LRU)
  {
    hide Recent, Front, IsStaging;
    RecentIsDistinct(s.list, s.touched);
    var evict := Evicts(s, name, removeOk);
    TouchedRecent(s.list, name, evict, s.touched, s.clock);
    FrontIsDistinct(s.list, name);
    forall n ensures n in s.list && n !in Touched(s.list, name, evict) ==> n in Lost(s, name, removeOk) {
      TouchedLoses(s.list, name, evict, n);
    }
    TouchedLoses(s.list, name, evict, name);
    if removeOk { TouchedIsBounded(s.list, name); }
  }

  class DownloadCache {
    const state: PersistedState<seq<string>>
    var disk: set<string>           // folders under the cache path
    ghost var finished: set<string> // folders that a create call finished, or that were there at the start
    ghost var touched: map<string, int>
    ghost var clock: int

    ghost function List(): seq<string> reads this, state {
      state.Current()
    }

    /** The cache as the tasks see it, with these under way. */
    ghost function Seen(tasks: seq<Task>): Cache reads this, state {
      Cache(List(), disk, finished, touched, clock, tasks)
    }

    /** Between calls that do not overlap. */
    ghost predicate Valid() reads this, state {
      Inv(Seen([])) && AllListed(Seen([]))
    }

    /** Starts from what is on disk: a list without duplicates that covers the cache folders. */
    constructor (file: Option<seq<string>>, disk: set<string>, ghost finished: set<string>)
      requires finished <= disk
      requires file.Some? ==> NoDuplicates(file.value) && forall n :: n in disk && (n in finished || !IsStaging(n)) ==> n in file.value
      requires file.None? ==> finished == {} && forall n :: n in disk ==> IsStaging(n)
      ensures Valid() && fresh(state) && List() == (if file.Some? then file.value else []) && this.finished == finished
    {
      state := new PersistedState([], file);
      this.disk, this.finished := disk, finished;
      ghost var l := if file.Some? then file.value else [];
      clock := 1;
      touched := map n | n in l :: Stamp(l, n);
      new;
      forall i | 0 <= i < |l| ensures touched[l[i]] == -i { PositionIs(l, i); }
    }

    /** The locked update that marks a name as just used, evicting the least recently used one if there are more than five. */
    method Touch(name: string, removeOk: bool, writeOk: bool, junk: Option<seq<string>>) returns (ok: bool)
      modifies this, state
      ensures Seen([]) == TouchList(old(Seen([])), name, removeOk)
      ensures ok == writeOk && (writeOk ==> state.file == Some(List()))
    {
      hide Without;
      ghost var before := Seen([]);
      var l := state.LoadOrGet();
      l := Front(l, name);
      if |l| > KEEP_LRU {
        var last := l[|l| - 1];
        if last !in disk || removeOk {
          disk := disk - {last};
          finished := finished - {last};
          l := l[..|l| - 1];
        }
      }
      touched := touched[name := clock];
      clock := clock + 1;
      ok := state.Save(l, writeOk, junk);
    }

    /** Whether the folder exists; if so, it counts as used. */
    method Exists(name: string, removeOk: bool, writeOk: bool, junk: Option<seq<string>>) returns (found: bool, ghost steps: seq<Step>)
      requires Valid()
      modifies this, state
      ensures Valid() && found == (name in old(disk))
      ensures IsRun(old(Seen([])), steps) && Seen([]) == After(old(Seen([])), steps)
      ensures !found ==> List() == old(List()) && disk == old(disk)
      ensures found ==> name in List() && List()[0] == name && name in disk
      ensures removeOk && |old(List())| <= KEEP_LRU ==> |List()| <= KEEP_LRU
    {
      hide Inv, AllListed, IsRun, After, TouchList, Next;
      ghost var s := Seen([]);
      steps := [CallExists(name)];
      FollowsOne(s, CallExists(name));
      CallNext(s, name);
      if name !in disk {
        return false, steps;
      }
      TouchKeepsListed(s, name, removeOk);
      TouchTask(s, Touching(name), removeOk);
      RunSnoc(s, steps, Step.Touch(0, removeOk));
      var ok := Touch(name, removeOk, writeOk, junk);
      return true, steps + [Step.Touch(0, removeOk)];
    }

    /** Removes a folder and its name; a folder that cannot be removed keeps its name. */
    method Delete(name: string, removeOk: bool, writeOk: bool, junk: Option<seq<string>>) returns (ok: bool, ghost steps: seq<Step>)
      requires Valid()
      modifies this, state
      ensures Valid() && IsRun(old(Seen([])), steps) && Seen([]) == After(old(Seen([])), steps)
      ensures name in old(disk) && !removeOk ==> !ok && List() == old(List()) && disk == old(disk)
      ensures !(name in old(disk) && !removeOk) ==>
        ok == writeOk && List() == Without(old(List()), name) && disk == old(disk) - {name} && finished == old(finished) - {name}
      ensures |List()| <= |old(List())|
    {
      hide IsRun, After, Recent;
      ghost var s := Seen([]);
      steps := [CallDelete(name)];
      FollowsOne(s, CallDelete(name));
      if name in disk {
        RunSnoc(s, steps, RemoveFolder(0, removeOk));
        steps := steps + [RemoveFolder(0, removeOk)];
        if !removeOk {
          return false, steps;
        }
        disk := disk - {name};
        finished := finished - {name};
      }
      RunSnoc(s, steps, Drop(0));
      steps := steps + [Drop(0)];
      var l := state.LoadOrGet();
      WithoutRecent(l, name, touched);
      ok := state.Save(Without(l, name), writeOk, junk);
    }

    /** Fills a staging folder and renames it; the name is listed before the folder appears. */
    method Create(name: string, cleanOk: bool, makeOk: bool, fillOk: bool, removeOk: bool, writeOk: bool,
                  junk: Option<seq<string>>, renames: nat -> bool) returns (ok: bool, ghost steps: seq<Step>)
      requires Valid()
      modifies this, state
      ensures Valid() && IsRun(old(Seen([])), steps) && Seen([]) == After(old(Seen([])), steps)
      ensures ok <==> name in disk
      ensures name in old(disk) ==> ok
      ensures name !in old(disk) ==>
        (ok <==> makeOk && fillOk && (exists k :: 0 <= k <= 20 && renames(k)) && !EvictsStaging(old(List()), name, removeOk))
      ensures ok && name !in old(disk) ==> name in finished && name in List()
      ensures name in old(disk) ==> ok && List() == old(List()) && disk == old(disk)
      ensures !(makeOk && fillOk) && name !in old(disk) ==> !ok && List() == old(List())
      ensures makeOk && fillOk && name !in old(disk) ==>
        List() == Touched(old(List()), name, true) || List() == Touched(old(List()), name, false)
      ensures removeOk && |old(List())| <= KEEP_LRU ==> |List()| <= KEEP_LRU
    {
      hide IsRun, After, Touched, Front, Inv, AllListed, Next, TouchList, Renamed, EvictsStaging;
      ghost var s := Seen([]);
      steps := [CallCreate(name)];
      FollowsOne(s, CallCreate(name));
      CallNext(s, name);
      if name in disk {
        return true, steps;
      }
      ghost var more;
      ok, more := StageAndFill(name, cleanOk, makeOk, fillOk);
      RunAppend(s, steps, more);
      steps := steps + more;
      if !ok {
        return;
      }
      ghost var t := Seen([]);
      TouchKeepsListed(t, name, removeOk);
      TouchTask(t, Listing(name), removeOk);
      TouchedWays(t, name, removeOk);
      StagingStays(t, name, removeOk);
      RunSnoc(s, steps, Step.Touch(0, removeOk));
      steps := steps + [Step.Touch(0, removeOk)];
      var touchOk := Touch(name, removeOk, writeOk, junk);
      ghost var u := Seen([]);
      ok, more := RenameStaging(name, renames);
      RenameKeepsListed(u, name);
      RunAppend(s, steps, more);
      steps := steps + more;
    }

    /** Makes the staging folder anew and fills it. */
    method StageAndFill(name: string, cleanOk: bool, makeOk: bool, fillOk: bool) returns (ok: bool, ghost steps: seq<Step>)
      requires Valid()
      modifies this`disk, this`finished
      ensures ok == (makeOk && fillOk) && Valid() && (ok ==> disk == old(disk) + {name + ".staging"})
      ensures IsRun(old(Seen([Staging(name)])), steps)
      ensures After(old(Seen([Staging(name)])), steps) == Seen(if ok then [Listing(name)] else [])
      ensures name in disk <==> name in old(disk)
    {
      hide IsRun, After, Recent;
      var temp := name + STAGING_SUFFIX;
      StagingName(name);
      ghost var s := Seen([Staging(name)]);
      steps := [Stage(0, cleanOk, makeOk)];
      FollowsOne(s, Stage(0, cleanOk, makeOk));
      if temp in disk && cleanOk {
        disk := disk - {temp};
      }
      finished := finished - {temp};
      if !makeOk {
        return false, steps;
      }
      disk := disk + {temp};
      RunSnoc(s, steps, Fill(0, fillOk));
      return fillOk, steps + [Fill(0, fillOk)];
    }

    /** Retries the rename: the first attempt that works finishes the folder. */
    method RenameStaging(name: string, renames: nat -> bool) returns (ok: bool, ghost steps: seq<Step>)
      modifies this`disk, this`finished
      ensures IsRun(old(Seen([Renaming(name, 0)])), steps) && Seen([]) == After(old(Seen([Renaming(name, 0)])), steps)
      ensures ok <==> name + ".staging" in old(disk) && exists k :: 0 <= k <= 20 && renames(k)
      ensures Seen([]) == if ok then Renamed(old(Seen([])), name) else old(Seen([]))
    {
      hide IsRun, After;
      var temp := name + STAGING_SUFFIX;
      ghost var s := Seen([Renaming(name, 0)]);
      steps := [];
      FollowsNone(s);
      var attempt := 0;
      while true
        invariant 0 <= attempt <= RENAME_ATTEMPTS && disk == old(disk) && finished == old(finished)
        invariant IsRun(s, steps) && After(s, steps) == Seen([Renaming(name, attempt)])
        invariant temp in disk ==> forall k :: 0 <= k < attempt ==> !renames(k)
        decreases RENAME_ATTEMPTS - attempt
      {
        ok := temp in disk && renames(attempt);
        RunSnoc(s, steps, Rename(0, renames(attempt)));
        steps := steps + [Rename(0, renames(attempt))];
        if ok {
          disk := disk - {temp} + {name};
          finished := finished - {temp} + {name};
          return;
        }
        if attempt == RENAME_ATTEMPTS {
          return;
        }
        attempt := attempt + 1;
      }
    }
  }

  lemma FollowsNone(s: Cache)
    ensures IsRun(s, []) && After(s, []) == s
  {
  }

  lemma TouchTask(s: Cache, task: Task, removeOk: bool)
    requires s.tasks == [] && (task.Touching? || task.Listing?)
    ensures Enabled(s.(tasks := [task]), Step.Touch(0, removeOk))
    ensures Next(s.(tasks := [task]), Step.Touch(0, removeOk))
      == TouchList(s, task.name, removeOk).(tasks := if task.Listing? then [Renaming(task.name, 0)] else [])
  {
  }

  lemma CallNext(s: Cache, name: string)
    requires s.tasks == []
    ensures Next(s, CallExists(name)) == if name in s.disk then s.(tasks := [Touching(name)]) else s
    ensures Next(s, CallCreate(name)) == if name in s.disk then s else s.(tasks := [Staging(name)])
  {
  }

  lemma TouchedWays(s: Cache, name: string, removeOk: bool)
    ensures
      var l := TouchList(s, name, removeOk).list;
      l == Touched(s.list, name, true) || l == Touched(s.list, name, false)
  {
  }

  /** Listing the name would evict its own staging folder: a folder of that name is the sixth in the list. */
  predicate EvictsStaging(list: seq<string>, name: string, removeOk: bool) {
    var front := Front(list, name);
    removeOk && |front| > 5 && front[|front| - 1] == name + ".staging"
  }

  lemma StagingStays(s: Cache, name: string, removeOk: bool)
    requires name + ".staging" in s.disk
    ensures name + ".staging" in TouchList(s, name, removeOk).disk <==> !EvictsStaging(s.list, name, removeOk)
  {
  }

  lemma RenameKeepsListed(s: Cache, name: string)
    requires Inv(s) && AllListed(s) && name in s.list
    ensures
      var t := Renamed(s, name);
      Inv(t) && AllListed(t) && t.list == s.list && name in t.disk && name in t.finished
  {
  }

  lemma FollowsOne(s: Cache, step: Step)
    requires Enabled(s, step)
    ensures IsRun(s, [step]) && After(s, [step]) == Next(s, step)
  {
    assert [step][1..] == [];
  }

  ghost function Position(l: seq<string>, name: string): nat
    requires name in l
  {
    if l[0] == name then 0 else 1 + Position(l[1..], name)
  }

  ghost function Stamp(l: seq<string>, name: string): int
    requires name in l
  {
    -(Position(l, name) as int)
  }

  lemma {:induction false} PositionIs(l: seq<string>, i: nat)
    requires NoDuplicates(l) && i < |l|
    ensures Position(l, l[i]) == i
    decreases i
  {
    if i > 0 {
      assert l[1..][i - 1] == l[i];
      PositionIs(l[1..], i - 1);
    }
  }

  // ---- calls that do not overlap ----

  datatype Operation =
    | Exists(name: string, removeOk: bool, writeOk: bool, junk: Option<seq<string>>)
    | Delete(name: string, removeOk: bool, writeOk: bool, junk: Option<seq<string>>)
    | Create(name: string, cleanOk: bool, makeOk: bool, fillOk: bool, removeOk: bool, writeOk: bool,
             junk: Option<seq<string>>, renames: nat -> bool)

  /** As long as calls do not overlap, every finished folder stays listed whatever fails, the list stays ordered by last
      touch and free of duplicates, and if no removal fails it never exceeds five. Such a sequence of calls is one of the
      interleavings of their steps. */
  method Run(cache: DownloadCache, operations: seq<Operation>) returns (ghost steps: seq<Step>)
    requires cache.Valid()
    modifies cache, cache.state
    ensures cache.Valid() && NoDuplicates(cache.List()) && forall n :: n in cache.finished ==> n in cache.List()
    ensures |old(cache.List())| <= KEEP_LRU && (forall k :: 0 <= k < |operations| ==> operations[k].removeOk)
      ==> |cache.List()| <= KEEP_LRU
    ensures IsRun(old(cache.Seen([])), steps) && cache.Seen([]) == After(old(cache.Seen([])), steps)
  {
    hide Inv, AllListed, IsRun, After;
    ghost var s := cache.Seen([]);
    steps := [];
    FollowsNone(s);
    for i := 0 to |operations|
      invariant cache.Valid() && IsRun(s, steps) && cache.Seen([]) == After(s, steps)
      invariant |old(cache.List())| <= KEEP_LRU && (forall k :: 0 <= k < |operations| ==> operations[k].removeOk)
        ==> |cache.List()| <= KEEP_LRU
    {
      var ok;
      ghost var more;
      match operations[i] {
        case Exists(name, removeOk, writeOk, junk) =>
          ok, more := cache.Exists(name, removeOk, writeOk, junk);
        case Delete(name, removeOk, writeOk, junk) =>
          ok, more := cache.Delete(name, removeOk, writeOk, junk);
        case Create(name, cleanOk, makeOk, fillOk, removeOk, writeOk, junk, renames) =>
          ok, more := cache.Create(name, cleanOk, makeOk, fillOk, removeOk, writeOk, junk, renames);
      }
      RunAppend(s, steps, more);
      steps := steps + more;
    }
    ValidIsListed(cache.Seen([]));
  }

  lemma ValidIsListed(s: Cache)
    requires Inv(s) && AllListed(s)
    ensures NoDuplicates(s.list) && forall n :: n in s.finished ==> n in s.list
  {
    RecentIsDistinct(s.list, s.touched);
  }
}
