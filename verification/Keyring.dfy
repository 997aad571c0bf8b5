/** Splitting a sealed credential over keyring entries of limited size, and putting it together again. */
module Keyring {

  import opened Common

  const CONTINUE_MARKER := "<MORE>"

  predicate EndsWithMarker(s: string) {
    |s| >= |CONTINUE_MARKER| && s[|s| - |CONTINUE_MARKER|..] == CONTINUE_MARKER
  }

  function StripMarker(s: string): string
    requires EndsWithMarker(s)
  {
    s[..|s| - |CONTINUE_MARKER|]
  }

  /** The entries of a sealed string: full chunks carry the marker, a shorter last one does not. */
  function Chunks(s: string, step: nat): (r: seq<string>)
    requires step > 0
    decreases |s|
  {
    if s == "" then [] else if |s| >= step then [s[..step] + CONTINUE_MARKER] + Chunks(s[step..], step) else [s]
  }

  /** What reading makes of the entries from k on: chunks are joined until one has no marker; None if one is missing. */
  function Assemble(ring: map<nat, string>, k: nat): Option<string>
    decreases |ring|
  {
    if k !in ring then None
    else if EndsWithMarker(ring[k]) then
      match Assemble(ring - {k}, k + 1)
      case None => None
      case Some(rest) => Some(StripMarker(ring[k]) + rest)
    else Some(ring[k])
  }

  /** Entries in front of k are not looked at. */
  lemma {:induction false} AssembleFrom(a: map<nat, string>, b: map<nat, string>, k: nat)
    requires forall i :: i >= k ==> (i in a <==> i in b) && (i in a ==> a[i] == b[i])
    ensures Assemble(a, k) == Assemble(b, k)
    decreases |a|
  {
    if k in a && EndsWithMarker(a[k]) {
      AssembleFrom(a - {k}, b - {k}, k + 1);
    }
  }

  lemma AssembleNext(ring: map<nat, string>, k: nat)
    requires k in ring && EndsWithMarker(ring[k])
    ensures Assemble(ring, k) ==
      match Assemble(ring, k + 1)
      case None => None
      case Some(rest) => Some(StripMarker(ring[k]) + rest)
  {
    AssembleFrom(ring - {k}, ring, k + 1);
  }

  lemma AssembleStops(ring: map<nat, string>, k: nat)
    ensures k !in ring ==> Assemble(ring, k) == None
    ensures k in ring && !EndsWithMarker(ring[k]) ==> Assemble(ring, k) == Some(ring[k])
  {
  }

  lemma MarkedChunk(s: string)
    ensures EndsWithMarker(s + CONTINUE_MARKER) && StripMarker(s + CONTINUE_MARKER) == s
  {
  }

  /** The part behind the full chunks. */
  function Tail(s: string, step: nat): (t: string)
    requires step > 0
    ensures |t| < step && |t| <= |s| && t == s[|s| - |t|..]
    decreases |s|
  {
    if |s| >= step then Tail(s[step..], step) else s
  }

  /** What reading returns after a store, given what the entries behind the stored ones assemble to. */
  function Expected(s: string, step: nat, behind: Option<string>): Option<string>
    requires step > 0
  {
    var tail := Tail(s, step);
    if tail != "" && !EndsWithMarker(tail) then Some(s)
    else if behind.None? then None
    else Some(s[..|s| - (if tail == "" then 0 else |CONTINUE_MARKER|)] + behind.value)
  }

  /** The stored entries are in place from k on, and every other entry is as before. */
  ghost predicate Stored(before: map<nat, string>, after: map<nat, string>, k: nat, chunks: seq<string>) {
    forall i :: i >= k ==>
      (i in after <==> i < k + |chunks| || i in before) &&
      (i in after ==> after[i] == if i < k + |chunks| then chunks[i - k] else before[i])
  }

  lemma StoredTail(before: map<nat, string>, after: map<nat, string>, k: nat, chunks: seq<string>)
    requires Stored(before, after, k, chunks) && chunks != []
    ensures k in after && after[k] == chunks[0] && Stored(before, after, k + 1, chunks[1..])
  {
  }

  /** Reading after a store, whatever was stored before. */
  lemma {:induction false} ReadAfterStore(before: map<nat, string>, after: map<nat, string>, k: nat, s: string, step: nat)
    requires step > 0 && Stored(before, after, k, Chunks(s, step))
    ensures Assemble(after, k) == Expected(s, step, Assemble(before, k + |Chunks(s, step)|))
    decreases |s|
  {
    hide Stored, EndsWithMarker, Assemble;
    var chunks := Chunks(s, step);
    if s == "" {
      StoredEmpty(before, after, k);
      OptionIdentity(Assemble(before, k));
    } else if |s| >= step {
      StoredTail(before, after, k, chunks);
      MarkedChunk(s[..step]);
      AssembleNext(after, k);
      assert chunks[1..] == Chunks(s[step..], step);
      ReadAfterStore(before, after, k + 1, s[step..], step);
      ExpectedStep(s, step, Assemble(before, k + |chunks|));
    } else {
      StoredTail(before, after, k, chunks);
      assert chunks == [s];
      LastChunk(before, after, k, s);
    }
  }

  lemma StoredEmpty(before: map<nat, string>, after: map<nat, string>, k: nat)
    requires Stored(before, after, k, [])
    ensures Assemble(after, k) == Assemble(before, k)
  {
  }

  lemma OptionIdentity(behind: Option<string>)
    ensures forall step: nat :: step > 0 ==> Expected("", step, behind) == behind
  {
    if behind.Some? { assert "" + behind.value == behind.value; }
  }

  lemma ExpectedStep(s: string, step: nat, behind: Option<string>)
    requires step > 0 && |s| >= step
    ensures Expected(s, step, behind) ==
      match Expected(s[step..], step, behind)
      case None => None
      case Some(rest) => Some(s[..step] + rest)
  {
    hide EndsWithMarker;
    var tail := Tail(s, step);
    var cut := if tail == "" then 0 else |CONTINUE_MARKER|;
    assert s == s[..step] + s[step..];
    if tail != "" && EndsWithMarker(tail) { MarkerFits(tail); }
    if behind.Some? && (tail == "" || EndsWithMarker(tail)) {
      assert s[..|s| - cut] + behind.value == s[..step] + (s[step..][..|s| - step - cut] + behind.value);
    }
  }

  lemma MarkerFits(s: string)
    requires EndsWithMarker(s)
    ensures |s| >= |CONTINUE_MARKER|
  {
  }

  lemma LastChunk(before: map<nat, string>, after: map<nat, string>, k: nat, s: string)
    requires s != "" && Stored(before, after, k, [s])
    ensures Assemble(after, k) ==
      if !EndsWithMarker(s) then Some(s)
      else match Assemble(before, k + 1)
           case None => None
           case Some(rest) => Some(StripMarker(s) + rest)
  {
    StoredTail(before, after, k, [s]);
    assert [s][1..] == [];
    if EndsWithMarker(s) {
      AssembleNext(after, k);
      StoredEmpty(before, after, k + 1);
    }
  }

  lemma {:induction false} TailLength(s: string, step: nat)
    requires step > 0
    ensures |Tail(s, step)| == |s| % step
    decreases |s|
  {
    if |s| >= step {
      TailLength(s[step..], step);
      ModStep(|s[step..]|, step);
    } else {
      RemainderIs(|s|, step, 0, |s|);
    }
  }

  lemma ModStep(n: nat, step: nat)
    requires step > 0
    ensures (n + step) % step == n % step
  {
    var q := n / step;
    assert (q + 1) * step == q * step + step;
    RemainderIs(n + step, step, q + 1, n % step);
  }

  lemma RemainderIs(a: nat, d: nat, q: int, r: nat)
    requires d > 0 && a == q * d + r && r < d
    ensures a % d == r
  {
    var q' := a / d;
    assert (q - q') * d == q * d - q' * d;
    assert (q' - q) * d == q' * d - q * d;
    if q > q' { MulAtLeast(q - q', d); } else if q < q' { MulAtLeast(q' - q, d); }
  }

  lemma MulAtLeast(m: int, k: int)
    requires m >= 1 && k >= 0
    ensures m * k >= k
  {
  }

  /** A stored value comes back, whatever was stored before, if its length is not a multiple of the chunk size and its
      last chunk does not look like a marked one. With nothing behind it, it comes back only then. */
  lemma RoundTrip(before: map<nat, string>, after: map<nat, string>, s: string, step: nat)
    requires step > 0 && Stored(before, after, 0, Chunks(s, step))
    ensures |s| % step != 0 && !EndsWithMarker(Tail(s, step)) ==> Assemble(after, 0) == Some(s)
    ensures |Chunks(s, step)| !in before ==>
      (Assemble(after, 0) == Some(s) <==> |s| % step != 0 && !EndsWithMarker(Tail(s, step)))
  {
    hide Stored, EndsWithMarker, Chunks, Tail;
    ReadAfterStore(before, after, 0, s, step);
    TailLength(s, step);
  }

  /** At an exact multiple, what an earlier, longer value left behind is appended. */
  lemma StaleChunksLeakIn(before: map<nat, string>, after: map<nat, string>, s: string, step: nat)
    requires step > 0 && Stored(before, after, 0, Chunks(s, step)) && |s| % step == 0
    ensures
      match Assemble(before, |Chunks(s, step)|)
      case None => Assemble(after, 0) == None
      case Some(rest) => Assemble(after, 0) == Some(s + rest)
  {
    hide Stored, EndsWithMarker, Chunks, Assemble, Tail;
    ReadAfterStore(before, after, 0, s, step);
    TailLength(s, step);
    assert s[..|s|] == s;
  }

  /** One value of exactly one chunk is lost on an empty keyring, and another one grows by what was left behind it. */
  lemma OneChunkIsLost()
    ensures Chunks("ab", 2) == ["ab<MORE>"]
    ensures Assemble(map[0 := "ab<MORE>"], 0) == None
    ensures Assemble(map[0 := "ab<MORE>", 1 := "c"], 0) == Some("abc")
  {
    assert "ab"[..2] == "ab" && "ab"[2..] == "" && "ab" + CONTINUE_MARKER == "ab<MORE>";
    var ring := map[0 := "ab<MORE>", 1 := "c"];
    MarkedChunk("ab");
    AssembleNext(ring, 0);
    AssembleNext(map[0 := "ab<MORE>"], 0);
    assert Assemble(ring, 1) == Some("c") && "ab" + "c" == "abc";
  }

  lemma {:induction false} EntriesFit(s: string, step: nat)
    requires step > 0
    ensures forall i :: 0 <= i < |Chunks(s, step)| ==> |Chunks(s, step)[i]| <= step + |CONTINUE_MARKER|
    decreases |s|
  {
    if s != "" && |s| >= step { EntriesFit(s[step..], step); }
  }

  // ---- the storage ----

  datatype ReadResult = Value(text: string) | Missing | Failed

  /** Chunk k is the first that cannot be written; the chunks in front of it are stored and nothing else changed. */
  ghost predicate StoppedAt(before: map<nat, string>, after: map<nat, string>, chunks: seq<string>, writable: nat -> bool, k: nat) {
    k < |chunks| && !writable(k) && (forall j :: 0 <= j < k ==> writable(j)) && Stored(before, after, 0, chunks[..k])
  }

  /** Every entry in front of k is there and carries the marker. */
  ghost predicate ReadReaches(ring: map<nat, string>, k: nat) {
    forall j :: 0 <= j < k ==> j in ring && EndsWithMarker(ring[j])
  }

  class KeyringStorage {
    const limit: nat             // the size limit of one entry
    var ring: map<nat, string>   // the entries of the operating system's keyring

    constructor (limit: nat, ring: map<nat, string>)
      ensures this.limit == limit && this.ring == ring
    {
      this.limit, this.ring := limit, ring;
    }

    function StepSize(): (step: nat)
      requires limit > |CONTINUE_MARKER|
      ensures step > 0 && step + |CONTINUE_MARKER| == limit
    {
      limit - |CONTINUE_MARKER|
    }

    /** Writes the sealed value chunk by chunk; stops at the first entry that cannot be written. */
    method Store(sealed: string, writable: nat -> bool) returns (ok: bool)
      requires limit > |CONTINUE_MARKER|
      modifies this
      ensures ok <==> forall k :: 0 <= k < |Chunks(sealed, StepSize())| ==> writable(k)
      ensures ok ==> Stored(old(ring), ring, 0, Chunks(sealed, StepSize()))
      ensures !ok ==> exists k: nat :: StoppedAt(old(ring), ring, Chunks(sealed, StepSize()), writable, k)
      ensures forall k :: k in ring ==> (k in old(ring) && ring[k] == old(ring)[k]) || |ring[k]| <= limit
    {
      hide Stored, Chunks;
      var stepSize := StepSize();
      StoredNothing(ring);
      NoChunks(sealed, stepSize);
      ghost var chunks := Chunks(sealed, stepSize);
      EntriesFit(sealed, stepSize);
      var i, k := 0, 0;
      assert sealed[0..] == sealed;
      while i < |sealed|
        invariant 0 <= k <= |chunks| && 0 <= i && (i < |sealed| ==> Chunks(sealed[i..], stepSize) == chunks[k..])
        invariant i >= |sealed| ==> k == |chunks|
        invariant Stored(old(ring), ring, 0, chunks[..k])
        invariant forall j :: 0 <= j < k ==> writable(j)
        invariant forall j :: j in ring ==> (j in old(ring) && ring[j] == old(ring)[j]) || |ring[j]| <= limit
        decreases |sealed| - i
      {
        var cutoff := i + stepSize;
        var part := if cutoff <= |sealed| then sealed[i..cutoff] + CONTINUE_MARKER else sealed[i..];
        NextChunk(sealed, stepSize, i, k, chunks);
        if !writable(k) {
          assert StoppedAt(old(ring), ring, chunks, writable, k);
          return false;
        }
        StoredOneMore(old(ring), ring, chunks, k);
        ring := ring[k := part];
        i, k := cutoff, k + 1;
      }
      assert chunks[..|chunks|] == chunks;
      return true;
    }

    /** Reads entries until one has no marker. */
    method Read(readable: nat -> bool) returns (r: ReadResult)
      ensures r.Failed? <==> exists k: nat :: ReadReaches(ring, k) && !readable(k)
      ensures !r.Failed? ==> Assemble(ring, 0) == if r.Value? then Some(r.text) else None
    {
      hide Assemble, EndsWithMarker;
      var text := "";
      var i := 0;
      ghost var left := ring;
      PrependNothing(Assemble(ring, 0));
      while true
        invariant i >= 0 && left.Keys <= ring.Keys && (forall k :: k >= i && k in ring ==> k in left)
        invariant Assemble(ring, 0) == Prepend(text, Assemble(ring, i))
        invariant ReadReaches(ring, i) && forall k :: 0 <= k < i ==> readable(k)
        decreases |left|
      {
        AssembleStops(ring, i);
        if !readable(i) {
          return Failed;
        }
        if i !in ring {
          return Missing;
        }
        var next := ring[i];
        if !EndsWithMarker(next) {
          return Value(text + next);
        }
        AssembleNext(ring, i);
        PrependMore(text, StripMarker(next), Assemble(ring, i + 1));
        text := text + StripMarker(next);
        left := left - {i};
        i := i + 1;
      }
    }
  }

  function Prepend(text: string, rest: Option<string>): Option<string> {
    if rest.None? then None else Some(text + rest.value)
  }

  lemma PrependNothing(rest: Option<string>)
    ensures Prepend("", rest) == rest
  {
    if rest.Some? { assert "" + rest.value == rest.value; }
  }

  lemma PrependMore(a: string, b: string, rest: Option<string>)
    ensures Prepend(a, Prepend(b, rest)) == Prepend(a + b, rest)
  {
    if rest.Some? { assert a + (b + rest.value) == a + b + rest.value; }
  }

  lemma StoredNothing(ring: map<nat, string>)
    ensures Stored(ring, ring, 0, [])
  {
  }

  lemma NoChunks(s: string, step: nat)
    requires step > 0
    ensures s == "" ==> Chunks(s, step) == []
  {
  }

  lemma StoredOneMore(before: map<nat, string>, ring: map<nat, string>, chunks: seq<string>, k: nat)
    requires k < |chunks| && Stored(before, ring, 0, chunks[..k])
    ensures Stored(before, ring[k := chunks[k]], 0, chunks[..k + 1])
  {
  }

  lemma NextChunk(s: string, step: nat, i: nat, k: nat, chunks: seq<string>)
    requires step > 0 && i < |s| && k <= |chunks| && Chunks(s[i..], step) == chunks[k..]
    ensures k < |chunks| && chunks[..k + 1] == chunks[..k] + [chunks[k]]
    ensures chunks[k] == if i + step <= |s| then s[i..i + step] + CONTINUE_MARKER else s[i..]
    ensures i + step < |s| ==> Chunks(s[i + step..], step) == chunks[k + 1..]
    ensures i + step >= |s| ==> k + 1 == |chunks|
  {
  }
}
