/** Normalising module ids: a rewriting loop over the text, and the one-pass stack machine it agrees with. */
module ModuleIds {

  import opened Slashes

  // ---- segments ----

  /** The segments between slashes; there is always at least one. */
  function Split(s: string): (segs: seq<string>)
    ensures |segs| >= 1
    decreases |s|
  {
    var i := IndexOfSlash(s);
    if i < 0 then [s] else [s[..i]] + Split(s[i + 1..])
  }

  function Unsplit(segs: seq<string>): string
    requires |segs| >= 1
  {
    if |segs| == 1 then segs[0] else segs[0] + "/" + Unsplit(segs[1..])
  }

  lemma {:induction false} UnsplitSplit(s: string)
    ensures Unsplit(Split(s)) == s
    decreases |s|
  {
    var i := IndexOfSlash(s);
    if i >= 0 {
      UnsplitSplit(s[i + 1..]);
      assert s == s[..i] + "/" + s[i + 1..];
    }
  }

  lemma SplitHead(head: string, rest: string)
    requires '/' !in head
    ensures Split(head + "/" + rest) == [head] + Split(rest)
  {
    var s := head + "/" + rest;
    assert s[..|head|] == head;
    IndexOfSlashIs(s, |head|);
    assert s[|head| + 1..] == rest;
  }

  lemma SplitWord(word: string)
    requires '/' !in word
    ensures Split(word) == [word]
  {
  }

  lemma SplitUnfold(r: string)
    ensures IndexOfSlash(r) < 0 ==> Split(r) == [r]
    ensures IndexOfSlash(r) >= 0 ==>
      var i := IndexOfSlash(r);
      '/' !in r[..i] && r == r[..i] + "/" + r[i + 1..] && Split(r) == [r[..i]] + Split(r[i + 1..])
  {
  }

  /** A slash separates the segments left and right of it. */
  lemma {:induction false} SplitAt(a: string, b: string)
    ensures Split(a + "/" + b) == Split(a) + Split(b)
    decreases |a|
  {
    hide Split, IndexOfSlash;
    SplitUnfold(a);
    var i := IndexOfSlash(a);
    if i < 0 {
      SplitHead(a, b);
    } else {
      var head, rest := a[..i], a[i + 1..];
      assert a + "/" + b == head + "/" + (rest + "/" + b);
      SplitHead(head, rest + "/" + b);
      SplitAt(rest, b);
    }
  }

  predicate Segments(segs: seq<string>) {
    forall i :: 0 <= i < |segs| ==> '/' !in segs[i]
  }

  lemma {:induction false} SplitIsSegments(s: string)
    ensures Segments(Split(s))
    decreases |s|
  {
    var i := IndexOfSlash(s);
    if i >= 0 { SplitIsSegments(s[i + 1..]); }
  }

  // ---- the stack machine ----

  /** A `..` does not cancel another `..`, nor the empty segment between two slashes. */
  predicate Stays(seg: string) {
    seg == ".." || seg == ""
  }

  function PushSegment(stack: seq<string>, seg: string): seq<string> {
    if seg == "." then stack
    else if seg == ".." && stack != [] && !Stays(stack[|stack| - 1]) then stack[..|stack| - 1]
    else stack + [seg]
  }

  function PushSegments(stack: seq<string>, segs: seq<string>): seq<string>
    decreases |segs|
  {
    if segs == [] then stack else PushSegments(PushSegment(stack, segs[0]), segs[1..])
  }

  /** All segments but the last go through the stack; the last names the module and stays. */
  function NormalSegments(segs: seq<string>): (r: seq<string>)
    requires |segs| >= 1
    ensures |r| >= 1
  {
    PushSegments([], segs[..|segs| - 1]) + [segs[|segs| - 1]]
  }

  function Normalize(id: string): string {
    Unsplit(NormalSegments(Split(id)))
  }

  lemma {:induction false} PushAppend(stack: seq<string>, a: seq<string>, b: seq<string>)
    ensures PushSegments(stack, a + b) == PushSegments(PushSegments(stack, a), b)
    decreases |a|
  {
    if a == [] {
      assert a + b == b;
    } else {
      assert (a + b)[1..] == a[1..] + b;
      PushAppend(PushSegment(stack, a[0]), a[1..], b);
    }
  }

  /** Segments that cancel each other can be left out, anywhere but at the end. */
  lemma LeaveOut(a: seq<string>, x: seq<string>, b: seq<string>)
    requires |b| >= 1
    requires PushSegments(PushSegments([], a), x) == PushSegments([], a)
    ensures NormalSegments(a + x + b) == NormalSegments(a + b)
  {
    var init := b[..|b| - 1];
    assert (a + x + b)[..|a + x + b| - 1] == a + x + init;
    assert (a + b)[..|a + b| - 1] == a + init;
    PushAppend([], a + x, init);
    PushAppend([], a, x);
    PushAppend([], a, init);
  }

  lemma LeaveOutHead(x: seq<string>, b: seq<string>)
    requires |b| >= 1 && PushSegments([], x) == []
    ensures NormalSegments(x + b) == NormalSegments(b)
  {
    hide PushSegment;
    var init := b[..|b| - 1];
    assert (x + b)[..|x + b| - 1] == x + init;
    PushAppend([], x, init);
  }

  lemma DotCancels(stack: seq<string>)
    ensures PushSegments(stack, ["."]) == stack
  {
  }

  lemma ParentCancels(stack: seq<string>, seg: string)
    requires seg != "." && !Stays(seg)
    ensures PushSegments(stack, [seg, ".."]) == stack
  {
    var pushed := stack + [seg];
    assert [seg, ".."][1..] == [".."] && [".."][1..] == [];
    assert pushed[..|pushed| - 1] == stack;
  }

  // ---- normal forms ----

  /** Segments in front of the last: no `.`, and a `..` only at the start, behind `..` or behind an empty segment. */
  ghost predicate IsNormal(segs: seq<string>) {
    && (forall i :: 0 <= i < |segs| ==> segs[i] != ".")
    && (forall i :: 0 < i < |segs| && segs[i] == ".." ==> Stays(segs[i - 1]))
  }

  lemma {:induction false} NormalIsKept(segs: seq<string>)
    requires IsNormal(segs)
    ensures PushSegments([], segs) == segs
    decreases |segs|
  {
    if segs != [] {
      var n := |segs| - 1;
      var init := segs[..n];
      assert forall i :: 0 <= i < n ==> init[i] == segs[i];
      NormalIsKept(init);
      assert segs == init + [segs[n]];
      PushAppend([], init, [segs[n]]);
      assert [segs[n]][1..] == [];
    }
  }

  lemma {:induction false} PushIsNormal(stack: seq<string>, segs: seq<string>)
    requires IsNormal(stack)
    ensures IsNormal(PushSegments(stack, segs))
    decreases |segs|
  {
    if segs != [] { PushIsNormal(PushSegment(stack, segs[0]), segs[1..]); }
  }

  lemma {:induction false} PushKeepsSegments(stack: seq<string>, segs: seq<string>)
    requires Segments(stack) && Segments(segs)
    ensures Segments(PushSegments(stack, segs))
    decreases |segs|
  {
    if segs != [] { PushKeepsSegments(PushSegment(stack, segs[0]), segs[1..]); }
  }

  lemma {:induction false} SplitUnsplit(segs: seq<string>)
    requires |segs| >= 1 && Segments(segs)
    ensures Split(Unsplit(segs)) == segs
    decreases |segs|
  {
    if |segs| == 1 {
      SplitWord(segs[0]);
    } else {
      SplitUnsplit(segs[1..]);
      SplitHead(segs[0], Unsplit(segs[1..]));
    }
  }

  /** A normalised id splits into what the stack machine left, which is normal. */
  lemma NormalizedSegments(id: string)
    ensures Split(Normalize(id)) == NormalSegments(Split(id))
    ensures
      var segs := Split(Normalize(id));
      IsNormal(segs[..|segs| - 1])
  {
    var segs := Split(id);
    var init := segs[..|segs| - 1];
    SplitIsSegments(id);
    PushKeepsSegments([], init);
    PushIsNormal([], init);
    SplitUnsplit(NormalSegments(segs));
    assert NormalSegments(segs)[..|NormalSegments(segs)| - 1] == PushSegments([], init);
  }

  /** Without empty segments, a `..` in a normal id stands only behind other ones. */
  lemma {:induction false} LeadingRun(segs: seq<string>, i: nat, j: nat)
    requires IsNormal(segs) && "" !in segs && i <= j < |segs| && segs[j] == ".."
    ensures segs[i] == ".."
    decreases j
  {
    if i < j { LeadingRun(segs, i, j - 1); }
  }

  /** An id without empty segments keeps `..` in front of its last segment only as a leading run. */
  lemma ParentsLead(id: string, i: nat, j: nat)
    requires "" !in Split(id) && i <= j < |Split(Normalize(id))| - 1 && Split(Normalize(id))[j] == ".."
    ensures Split(Normalize(id))[i] == ".."
  {
    hide Split;
    NormalizedSegments(id);
    var segs := Split(Normalize(id));
    PushAddsNothing([], Split(id)[..|Split(id)| - 1], "");
    LeadingRun(segs[..|segs| - 1], i, j);
  }

  lemma {:induction false} PushAddsNothing(stack: seq<string>, segs: seq<string>, x: string)
    requires x !in stack && x !in segs
    ensures x !in PushSegments(stack, segs)
    decreases |segs|
  {
    if segs != [] { PushAddsNothing(PushSegment(stack, segs[0]), segs[1..], x); }
  }

  /** Normalising twice changes nothing. */
  lemma NormalizeIsIdempotent(id: string)
    ensures Normalize(Normalize(id)) == Normalize(id)
  {
    NormalizedSegments(id);
    var segs := Split(Normalize(id));
    NormalIsKept(segs[..|segs| - 1]);
    assert NormalSegments(segs) == segs;
    UnsplitSplit(Normalize(id));
  }

  // ---- the rewriting loop ----

  predicate DotAt(r: string, i: nat) {
    i + 3 <= |r| && r[i] == '/' && r[i + 1] == '.' && r[i + 2] == '/'
  }

  predicate StartsWithParent(s: string) {
    |s| >= 4 && s[0] == '/' && s[1] == '.' && s[2] == '.' && s[3] == '/'
  }

  /** A segment other than `..`, followed by `/../`; n is its length. */
  predicate CancelsAt(r: string, i: nat, n: nat) {
    && 0 < n && i + n <= |r| && '/' !in r[i..i + n] && r[i..i + n] != ".." && StartsWithParent(r[i + n..])
  }

  /** The length of the cancelled segment that starts at i, or 0. */
  function CancelledLength(r: string, i: nat): (n: nat)
    requires i <= |r|
    ensures n > 0 ==> CancelsAt(r, i, n)
    ensures n == 0 ==> forall k: nat :: !CancelsAt(r, i, k)
  {
    var n := IndexOfSlash(r[i..]);
    NextSlashEnds(r, i);
    if n <= 0 then 0
    else
      assert r[i..][..n] == r[i..i + n];
      if r[i..i + n] != ".." && StartsWithParent(r[i + n..]) then n else 0
  }

  lemma NextSlashEnds(r: string, i: nat)
    requires i <= |r|
    ensures forall k: nat :: CancelsAt(r, i, k) ==> IndexOfSlash(r[i..]) == k
  {
  }

  /** No segment behind a slash is cancelled by the next one. */
  ghost predicate NothingCancels(r: string) {
    forall i: nat, k: nat :: 0 < i <= |r| && r[i - 1] == '/' ==> !CancelsAt(r, i, k)
  }

  /** The leftmost `/./`. */
  method FindDot(r: string) returns (found: bool, at: nat)
    ensures found ==> DotAt(r, at) && forall i :: 0 <= i < at ==> !DotAt(r, i)
    ensures !found ==> forall i :: !DotAt(r, i)
  {
    at := 0;
    while at + 3 <= |r|
      invariant forall i :: 0 <= i < at ==> !DotAt(r, i)
    {
      if r[at] == '/' && r[at + 1] == '.' && r[at + 2] == '/' {
        return true, at;
      }
      at := at + 1;
    }
    return false, 0;
  }

  /** The leftmost slash followed by a segment that the next one cancels. */
  method FindCancelled(r: string) returns (found: bool, at: nat, n: nat)
    ensures found ==> at < |r| && r[at] == '/' && CancelsAt(r, at + 1, n)
    ensures found ==> forall i: nat, k: nat :: 0 < i <= at && r[i - 1] == '/' ==> !CancelsAt(r, i, k)
    ensures !found ==> NothingCancels(r)
  {
    at := 0;
    while at < |r|
      invariant forall i: nat, k: nat :: 0 < i <= at && i <= |r| && r[i - 1] == '/' ==> !CancelsAt(r, i, k)
    {
      if r[at] == '/' {
        n := CancelledLength(r, at + 1);
        if n > 0 {
          return true, at, n;
        }
      }
      at := at + 1;
    }
    return false, 0, 0;
  }

  /** Segments without a `.` in front of the last. */
  ghost predicate NoDots(segs: seq<string>) {
    forall i :: 0 <= i < |segs| - 1 ==> segs[i] != "."
  }

  /** Removing `/.` in front of a slash removes one `.` segment. */
  lemma RemoveDot(r: string, i: nat)
    requires DotAt(r, i)
    ensures
      var next := r[..i] + "/" + r[i + 3..];
      |next| < |r| && NormalSegments(Split(next)) == NormalSegments(Split(r))
  {
    var a, b := r[..i], r[i + 3..];
    assert r == a + "/" + ("." + "/" + b);
    SplitAt(a, "." + "/" + b);
    SplitHead(".", b);
    SplitAt(a, b);
    assert Split(r) == Split(a) + ["."] + Split(b);
    DotCancels(PushSegments([], Split(a)));
    LeaveOut(Split(a), ["."], Split(b));
  }

  /** Where a segment of the text sits. */
  lemma {:induction false} SegmentPosition(r: string, k: nat) returns (a: string, b: string)
    requires 0 < k < |Split(r)|
    ensures r == a + "/" + b && Split(b) == Split(r)[k..] && Split(a) == Split(r)[..k]
    decreases |r|
  {
    hide Split, IndexOfSlash;
    SplitUnfold(r);
    var i := IndexOfSlash(r);
    var head, rest := r[..i], r[i + 1..];
    if k == 1 {
      SplitWord(head);
      return head, rest;
    }
    var c, d := SegmentPosition(rest, k - 1);
    SplitHead(head, c);
    assert r == head + "/" + c + "/" + d;
    return head + "/" + c, d;
  }

  /** An inner segment stands between two slashes. */
  lemma InnerSegment(r: string, k: nat) returns (a: string, b: string)
    requires 0 < k < |Split(r)| - 1
    ensures r == a + "/" + Split(r)[k] + "/" + b && Split(b) == Split(r)[k + 1..] && Split(a) == Split(r)[..k]
  {
    hide Split, IndexOfSlash;
    var c;
    a, c := SegmentPosition(r, k);
    SplitUnfold(c);
    b := c[IndexOfSlash(c) + 1..];
  }

  lemma DotSegment(r: string, k: nat) returns (i: nat)
    requires 0 < k < |Split(r)| - 1 && Split(r)[k] == "."
    ensures DotAt(r, i)
  {
    hide Split;
    var a, b := InnerSegment(r, k);
    i := |a|;
  }

  /** When no `/./` is left, only the first or the last segment can be a `.`. */
  lemma NoDotLeft(r: string)
    requires forall i :: !DotAt(r, i)
    ensures forall k :: 0 < k < |Split(r)| - 1 ==> Split(r)[k] != "."
  {
    hide Split, DotAt;
    forall k | 0 < k < |Split(r)| - 1 ensures Split(r)[k] != "." {
      if Split(r)[k] == "." { var i := DotSegment(r, k); }
    }
  }

  /** Then the leading `./`, if any, goes too. */
  lemma RemoveLeadingDot(r: string)
    requires |r| >= 2 && r[0] == '.' && r[1] == '/'
    ensures
      && Split(r) == ["."] + Split(r[2..]) && NormalSegments(Split(r[2..])) == NormalSegments(Split(r))
  {
    hide Split, IndexOfSlash, NormalSegments, Segments, PushSegments;
    assert r == "." + "/" + r[2..];
    SplitHead(".", r[2..]);
    DotCancels([]);
    LeaveOutHead(["."], Split(r[2..]));
  }

  lemma NoLeadingDot(r: string)
    requires !(|r| >= 2 && r[0] == '.' && r[1] == '/')
    ensures |Split(r)| > 1 ==> Split(r)[0] != "."
  {
  }

  /** Removing a segment and the `..` behind it. */
  lemma RemoveCancelled(r: string, at: nat, n: nat)
    requires at < |r| && r[at] == '/' && CancelsAt(r, at + 1, n) && NoDots(Split(r))
    ensures
      var next := r[..at] + "/" + r[at + n + 5..];
      && |next| < |r| && NoDots(Split(next))
      && NormalSegments(Split(next)) == NormalSegments(Split(r))
  {
    hide Split, IndexOfSlash;
    var a, seg, b := r[..at], r[at + 1..at + 1 + n], r[at + n + 5..];
    CancelledText(r, at, n);
    SplitAt(a, seg + "/" + (".." + "/" + b));
    SplitHead(seg, ".." + "/" + b);
    SplitHead("..", b);
    SplitAt(a, b);
    assert Split(r) == Split(a) + [seg, ".."] + Split(b);
    assert seg != "." by { assert Split(r)[|Split(a)|] == seg; }
    ParentCancels(PushSegments([], Split(a)), seg);
    LeaveOut(Split(a), [seg, ".."], Split(b));
    NoDotsParts(Split(a), [seg, ".."], Split(b));
  }

  lemma CancelledText(r: string, at: nat, n: nat)
    requires at < |r| && r[at] == '/' && CancelsAt(r, at + 1, n)
    ensures at + n + 5 <= |r|
    ensures r == r[..at] + "/" + (r[at + 1..at + 1 + n] + "/" + (".." + "/" + r[at + n + 5..]))
  {
  }

  lemma NoDotsParts(a: seq<string>, x: seq<string>, b: seq<string>)
    requires |b| >= 1
    ensures NoDots(a + x + b) ==> NoDots(a + b)
  {
    forall i | NoDots(a + x + b) && 0 <= i < |a + b| - 1 ensures (a + b)[i] != "." {
      if i < |a| { assert (a + b)[i] == (a + x + b)[i]; } else { assert (a + b)[i] == (a + x + b)[i + |x|]; }
    }
  }

  /** A segment behind the first that the next one cancels shows in the text. */
  lemma CancelledSegment(r: string, k: nat) returns (i: nat, n: nat)
    requires 0 < k < |Split(r)| - 2 && !Stays(Split(r)[k]) && Split(r)[k + 1] == ".."
    ensures 0 < i <= |r| && r[i - 1] == '/' && CancelsAt(r, i, n)
  {
    hide Split;
    var seg := Split(r)[k];
    SplitIsSegments(r);
    var a, b := InnerSegment(r, k);
    SplitUnfold(b);
    var rest := b[IndexOfSlash(b) + 1..];
    assert r == a + "/" + seg + "/" + (".." + "/" + rest);
    i, n := |a| + 1, |seg|;
    assert r[i..i + n] == seg;
    assert r[i + n..] == "/" + (".." + "/" + rest);
  }

  /** When nothing cancels any more, a `..` behind the first two segments stands behind one that stays. */
  lemma NothingCancelledLeft(r: string)
    requires NothingCancels(r)
    ensures forall k :: 0 < k < |Split(r)| - 2 && Split(r)[k + 1] == ".." ==> Stays(Split(r)[k])
  {
    hide Split, CancelsAt, Stays;
    forall k | 0 < k < |Split(r)| - 2 && Split(r)[k + 1] == ".." ensures Stays(Split(r)[k]) {
      if !Stays(Split(r)[k]) { var i, n := CancelledSegment(r, k); }
    }
  }

  // ---- the end of the rewriting ----

  ghost predicate Reduced(segs: seq<string>) {
    NoDots(segs) && forall k :: 0 < k < |segs| - 2 && segs[k + 1] == ".." ==> Stays(segs[k])
  }

  lemma HeadCancelled(r: string, n: nat)
    requires CancelsAt(r, 0, n) && Reduced(Split(r))
    ensures n + 4 <= |r|
    ensures
      var rest := Split(r[n + 4..]);
      && Split(r) == [r[..n], ".."] + rest && NormalSegments(rest) == NormalSegments(Split(r))
      && IsNormal(rest[..|rest| - 1])
  {
    hide Split, IndexOfSlash, NormalSegments, PushSegments, CancelsAt, IsNormal;
    HeadCancelledText(r, n);
    var seg, rest := r[..n], Split(r[n + 4..]);
    assert Split(r)[0] == seg && Split(r)[2..] == rest;
    ParentCancels([], seg);
    LeaveOutHead([seg, ".."], rest);
    ReducedTail(Split(r), rest);
  }

  lemma HeadCancelledParts(r: string, n: nat)
    requires CancelsAt(r, 0, n)
    ensures n + 4 <= |r| && !Stays(r[..n]) && '/' !in r[..n]
    ensures r == r[..n] + ("/" + (".." + "/" + r[n + 4..]))
  {
  }

  lemma HeadCancelledText(r: string, n: nat)
    requires CancelsAt(r, 0, n)
    ensures n + 4 <= |r| && !Stays(r[..n]) && Split(r) == [r[..n], ".."] + Split(r[n + 4..])
  {
    hide Split, CancelsAt;
    HeadCancelledParts(r, n);
    SplitParent(r[..n], r[n + 4..]);
  }

  lemma SplitParent(seg: string, b: string)
    requires '/' !in seg
    ensures Split(seg + ("/" + (".." + "/" + b))) == [seg, ".."] + Split(b)
  {
    hide Split, IndexOfSlash;
    assert seg + ("/" + (".." + "/" + b)) == seg + "/" + (".." + "/" + b);
    SplitHead(seg, ".." + "/" + b);
    SplitHead("..", b);
  }

  /** Behind a first segment and a `..`, a reduced list is normal. */
  lemma ReducedTail(segs: seq<string>, rest: seq<string>)
    requires Reduced(segs) && |rest| >= 1 && |segs| == |rest| + 2 && segs[2..] == rest && segs[1] == ".."
    ensures IsNormal(rest[..|rest| - 1])
  {
  }

  lemma HeadStays(segs: seq<string>)
    requires |segs| >= 1 && Reduced(segs) && !(|segs| > 2 && !Stays(segs[0]) && segs[1] == "..")
    ensures IsNormal(segs[..|segs| - 1])
  {
  }

  lemma HeadSegmentCancels(r: string)
    requires |Split(r)| > 2 && !Stays(Split(r)[0]) && Split(r)[1] == ".."
    ensures exists n: nat :: CancelsAt(r, 0, n)
  {
    hide Split, IndexOfSlash;
    var rest := HeadText(r);
    var seg := Split(r)[0];
    SplitIsSegments(r);
    var t := "/" + (".." + "/" + rest);
    assert r[0..0 + |seg|] == seg && r[|seg|..] == t && StartsWithParent(t);
    assert CancelsAt(r, 0, |seg|);
  }

  lemma HeadText(r: string) returns (rest: string)
    requires |Split(r)| > 2 && Split(r)[1] == ".."
    ensures r == Split(r)[0] + ("/" + (".." + "/" + rest))
  {
    hide Split, IndexOfSlash;
    SplitUnfold(r);
    var b := r[IndexOfSlash(r) + 1..];
    SplitUnfold(b);
    rest := b[IndexOfSlash(b) + 1..];
  }

  lemma NormalTextStays(r: string)
    requires IsNormal(Split(r)[..|Split(r)| - 1])
    ensures Unsplit(NormalSegments(Split(r))) == r
  {
    hide Split;
    var segs := Split(r);
    NormalIsKept(segs[..|segs| - 1]);
    assert NormalSegments(segs) == segs;
    UnsplitSplit(r);
  }

  /** The rewriting loop computes the stack machine's result. */
  method NormalizeModuleId(moduleId: string) returns (r: string)
    ensures r == Normalize(moduleId)
  {
    hide Split, NormalSegments, DotAt, CancelsAt, NoDots;
    r := moduleId;
    ghost var target := NormalSegments(Split(moduleId));
    var found: bool, at: nat := FindDot(r);
    while found
      invariant NormalSegments(Split(r)) == target
      invariant found ==> DotAt(r, at)
      invariant !found ==> forall i :: !DotAt(r, i)
      decreases |r|, found
    {
      RemoveDot(r, at);
      DotBounds(r, at);
      r := r[..at] + "/" + r[at + 3..];
      found, at := FindDot(r);
    }
    r := DropLeadingDot(r);
    var n: nat;
    found, at, n := FindCancelled(r);
    while found
      invariant NormalSegments(Split(r)) == target && NoDots(Split(r))
      invariant found ==> at < |r| && r[at] == '/' && CancelsAt(r, at + 1, n)
      invariant !found ==> NothingCancels(r)
      decreases |r|, found
    {
      RemoveCancelled(r, at, n);
      CancelledText(r, at, n);
      r := r[..at] + "/" + r[at + n + 5..];
      found, at, n := FindCancelled(r);
    }
    r := DropCancelledHead(r);
  }

  lemma DotBounds(r: string, i: nat)
    requires DotAt(r, i)
    ensures i + 3 <= |r|
  {
  }

  method DropLeadingDot(s: string) returns (r: string)
    requires forall i :: !DotAt(s, i)
    ensures NoDots(Split(r)) && NormalSegments(Split(r)) == NormalSegments(Split(s))
  {
    hide Split, NormalSegments;
    NoDotLeft(s);
    if |s| >= 2 && s[0] == '.' && s[1] == '/' {
      RemoveLeadingDot(s);
      assert forall k :: 0 <= k < |Split(s[2..])| ==> Split(s[2..])[k] == Split(s)[k + 1];
      return s[2..];
    }
    NoLeadingDot(s);
    return s;
  }

  method DropCancelledHead(s: string) returns (r: string)
    requires NothingCancels(s) && NoDots(Split(s))
    ensures r == Unsplit(NormalSegments(Split(s)))
  {
    hide Split, NormalSegments, CancelsAt;
    NothingCancelledLeft(s);
    var n := CancelledLength(s, 0);
    if n > 0 {
      CancelBounds(s, n);
      HeadCancelled(s, n);
      NormalTextStays(s[n + 4..]);
      return s[n + 4..];
    }
    if |Split(s)| > 2 && !Stays(Split(s)[0]) && Split(s)[1] == ".." { HeadSegmentCancels(s); }
    HeadStays(Split(s));
    NormalTextStays(s);
    return s;
  }

  lemma CancelBounds(r: string, n: nat)
    requires CancelsAt(r, 0, n)
    ensures n + 4 <= |r|
  {
  }

  /** What the loop returns is normal and is a fixed point of the loop. */
  method NormalizeTwice(moduleId: string) returns (once: string, twice: string)
    ensures twice == once && IsNormal(Split(once)[..|Split(once)| - 1])
  {
    once := NormalizeModuleId(moduleId);
    NormalizedSegments(moduleId);
    NormalizeIsIdempotent(moduleId);
    twice := NormalizeModuleId(once);
  }

  // ---- the laws of normalisation: any id reduces by these to one that stays ----

  lemma LeadingDotLaw(b: string)
    ensures Normalize("./" + b) == Normalize(b)
  {
    RemoveLeadingDot("./" + b);
    assert ("./" + b)[2..] == b;
  }

  lemma DotLaw(a: string, b: string)
    ensures Normalize(a + "/./" + b) == Normalize(a + "/" + b)
  {
    var r := a + "/./" + b;
    RemoveDot(r, |a|);
    assert r[..|a|] == a && r[|a| + 3..] == b;
  }

  lemma ParentLaw(a: string, seg: string, b: string)
    requires '/' !in seg && seg != "" && seg != "." && seg != ".."
    ensures Normalize(a + "/" + seg + "/../" + b) == Normalize(a + "/" + b)
  {
    hide Split, NormalSegments, Unsplit, IndexOfSlash;
    var r := a + "/" + seg + "/../" + b;
    assert r == a + "/" + (seg + "/" + (".." + "/" + b));
    SplitAt(a, seg + "/" + (".." + "/" + b));
    SplitHead(seg, ".." + "/" + b);
    SplitHead("..", b);
    SplitAt(a, b);
    assert Split(r) == Split(a) + [seg, ".."] + Split(b);
    ParentCancels(PushSegments([], Split(a)), seg);
    LeaveOut(Split(a), [seg, ".."], Split(b));
  }

  lemma LeadingParentLaw(seg: string, b: string)
    requires '/' !in seg && seg != "" && seg != "." && seg != ".."
    ensures Normalize(seg + "/../" + b) == Normalize(b)
  {
    hide Split, NormalSegments, Unsplit, PushSegments;
    assert seg + "/../" + b == seg + ("/" + (".." + "/" + b));
    SplitParent(seg, b);
    ParentCancels([], seg);
    LeaveOutHead([seg, ".."], Split(b));
  }

  /** An id stays if, in front of its last segment, there is no `.` and `..` stands only at the start, behind `..` or
      behind an empty segment. */
  lemma NormalLaw(id: string)
    ensures Normalize(id) == id <==> IsNormal(Split(id)[..|Split(id)| - 1])
  {
    if IsNormal(Split(id)[..|Split(id)| - 1]) { NormalTextStays(id); }
    NormalizedSegments(id);
  }

  predicate IsAbsolute(url: string) {
    "http://" <= url || "https://" <= url || "file://" <= url || "/" <= url
  }

  /** Relative ids are resolved against the folder of the requiring module. */
  method ResolveModule(fromModuleId: string, moduleId: string) returns (r: string)
    ensures r == if "./" <= moduleId || "../" <= moduleId then Normalize(PathOf(fromModuleId) + moduleId) else moduleId
  {
    r := moduleId;
    assert "./" <= r || "../" <= r ==> r[0] == '.';
    if !IsAbsolute(r) {
      if "./" <= r || "../" <= r {
        r := NormalizeModuleId(PathOf(fromModuleId) + r);
      }
    }
  }
}
