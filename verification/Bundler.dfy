/** Bundling: a depth-first walk over module dependencies, and the concatenation of the sources it emits. */
module Bundler {

  import opened Common
  import opened Graphs
  import opened Vlq
  import opened SourceMaps
  import opened SourceMapBuilders

  // ---- the walk ----

  type DependencyMap = map<nat, seq<nat>>

  ghost function Depends(graph: DependencyMap): Rel {
    (a: nat, b: nat) => a in graph && b in graph[a]
  }

  ghost predicate Closed(graph: DependencyMap) {
    forall m, d :: m in graph && d in graph[m] ==> d in graph
  }

  /** Each dependency of the k-th emitted module was emitted before it, or leads back to it. */
  ghost predicate DependenciesFirst(graph: DependencyMap, order: seq<nat>, k: nat)
    requires k < |order|
  {
    forall d :: Depends(graph)(order[k], d) ==> d in order[..k] || d == order[k] || Reach(Depends(graph), d, order[k])
  }

  ghost predicate OrderOk(graph: DependencyMap, order: seq<nat>) {
    && NoDuplicates(order)
    && (forall k :: 0 <= k < |order| ==> order[k] in graph && DependenciesFirst(graph, order, k))
  }

  /** Modules are open while their dependencies are being visited, and emitted afterwards. */
  ghost predicate WalkOk(graph: DependencyMap, visited: set<nat>, order: seq<nat>, open: set<nat>) {
    && OrderOk(graph, order)
    && visited <= graph.Keys
    && (forall x :: x in visited <==> x in order || x in open)
    && (forall x :: x in open ==> x !in order)
    && (forall x, d :: x in order && Depends(graph)(x, d) ==> d in visited)
  }

  lemma EmitKeeps(graph: DependencyMap, visited: set<nat>, order: seq<nat>, open: set<nat>, m: nat)
    requires WalkOk(graph, visited, order, open) && m in open && m in graph
    requires forall x :: x in open && x != m ==> Reach(Depends(graph), x, m)
    requires forall d :: d in graph[m] ==> d in visited
    ensures WalkOk(graph, visited, order + [m], open - {m})
  {
    var next := order + [m];
    forall k | 0 <= k < |next| ensures next[k] in graph && DependenciesFirst(graph, next, k) {
      if k < |order| {
        assert DependenciesFirst(graph, order, k);
        assert next[..k] == order[..k];
      } else {
        assert next[..k] == order;
      }
    }
  }

  class Walk {
    const graph: DependencyMap
    var visited: set<nat>
    var order: seq<nat>

    constructor (graph: DependencyMap)
      ensures this.graph == graph && visited == {} && order == []
    {
      this.graph := graph;
      visited, order := {}, [];
    }

    method Visit(m: nat, ghost open: set<nat>)
      requires Closed(graph) && m in graph && WalkOk(graph, visited, order, open)
      requires forall x :: x in open ==> Reach(Depends(graph), x, m)
      modifies this
      ensures WalkOk(graph, visited, order, open)
      ensures m in visited && old(visited) <= visited && old(order) <= order
      ensures m !in old(visited) ==> order != [] && order[|order| - 1] == m
      ensures forall x :: x in visited ==> x in old(visited) || x == m || Reach(Depends(graph), m, x)
      decreases graph.Keys - visited
    {
      if m in visited {
        return;
      }
      hide Reach, DependenciesFirst;
      ghost var e := Depends(graph);
      visited := visited + {m};
      ghost var inner := open + {m};
      var deps := graph[m];
      for i := 0 to |deps|
        invariant WalkOk(graph, visited, order, inner)
        invariant old(visited) + {m} <= visited && old(order) <= order
        invariant forall j :: 0 <= j < i ==> deps[j] in visited
        invariant forall x :: x in visited ==> x in old(visited) || x == m || Reach(e, m, x)
      {
        var d := deps[i];
        assert e(m, d);
        forall x | x in inner ensures Reach(e, x, d) { ReachSnoc(e, x, m, d); }
        ghost var before := visited;
        Visit(d, inner);
        forall x | x in visited && x !in before && x != d ensures Reach(e, m, x) { ReachCons(e, m, d, x); }
      }
      EmitKeeps(graph, visited, order, inner, m);
      assert inner - {m} == open;
      order := order + [m];
    }
  }

  /** Every module reachable from the entry, exactly once; without cycles, dependencies before dependents. */
  method BundleOrder(graph: DependencyMap, entry: nat) returns (order: seq<nat>)
    requires Closed(graph) && entry in graph
    ensures NoDuplicates(order) && forall x :: x in order ==> x in graph
    ensures forall x :: x in order <==> x == entry || Reach(Depends(graph), entry, x)
    ensures order != [] && order[|order| - 1] == entry
    ensures forall k :: 0 <= k < |order| ==> DependenciesFirst(graph, order, k)
    ensures Acyclic(Depends(graph)) ==>
      forall k, d :: 0 <= k < |order| && Depends(graph)(order[k], d) ==> d in order[..k]
  {
    var walk := new Walk(graph);
    walk.Visit(entry, {});
    order := walk.order;
    ghost var e := Depends(graph);
    forall x | Reach(e, entry, x) ensures x in order {
      var p :| IsPath(e, p) && p[0] == entry && p[|p| - 1] == x;
      ClosedReach(e, walk.visited, p);
    }
    forall k, d | Acyclic(e) && 0 <= k < |order| && e(order[k], d) ensures d in order[..k] {
      assert DependenciesFirst(graph, order, k);
      NoWayBack(e, order[k], d);
    }
  }

  lemma NoWayBack(e: Rel, m: nat, d: nat)
    requires Acyclic(e) && e(m, d)
    ensures d != m && !Reach(e, d, m)
  {
    if d == m {
      ReachEdge(e, m, m);
    } else if Reach(e, d, m) {
      ReachCons(e, m, d, m);
    }
  }

  // ---- the concatenation ----

  /** A call of the builder. */
  datatype Call = AddLine(text: seq<Byte>) | AddSource(source: Source)

  ghost predicate Bundleable(s: Source) {
    SourceOk(s) && Fits(s.mappings, |s.sources|, s.sourceLines) && Readable(s.mappings) == s.mappings
  }

  ghost predicate AllBundleable(calls: seq<Call>) {
    forall k :: 0 <= k < |calls| && calls[k].AddSource? ==> Bundleable(calls[k].source)
  }

  /** The lines a call adds to the mappings. */
  function LinesIn(c: Call): nat {
    if c.AddLine? then 1 else c.source.sourceLines
  }

  function NamesIn(c: Call): nat {
    if c.AddLine? then 0 else |c.source.sources|
  }

  function ContentIn(c: Call): seq<Byte> {
    if c.AddLine? then c.text + [NEWLINE] else c.source.content
  }

  /** What a call says: nothing of an added line, and of a source what its own mappings say. */
  ghost function MeaningIn(c: Call): (r: seq<seq<Named>>)
    requires c.AddSource? ==> Bundleable(c.source)
    ensures |r| == LinesIn(c)
  {
    if c.AddLine? then [[]] else MeaningOf(c.source)
  }

  ghost function TotalNames(calls: seq<Call>): nat {
    if calls == [] then 0 else TotalNames(calls[..|calls| - 1]) + NamesIn(calls[|calls| - 1])
  }

  ghost function TotalLines(calls: seq<Call>): nat {
    if calls == [] then 0 else TotalLines(calls[..|calls| - 1]) + LinesIn(calls[|calls| - 1])
  }

  ghost function AllContent(calls: seq<Call>): seq<Byte> {
    if calls == [] then [] else AllContent(calls[..|calls| - 1]) + ContentIn(calls[|calls| - 1])
  }

  ghost function AllMeaning(calls: seq<Call>): (r: seq<seq<Named>>)
    requires AllBundleable(calls)
    ensures |r| == TotalLines(calls)
  {
    if calls == [] then [] else AllMeaning(calls[..|calls| - 1]) + MeaningIn(calls[|calls| - 1])
  }

  /** The lines of the k-th call start behind all lines of the calls before it, and mean what they meant alone. */
  lemma {:induction false} MeaningAt(calls: seq<Call>, k: nat, i: nat)
    requires AllBundleable(calls) && k < |calls| && i < LinesIn(calls[k])
    ensures TotalLines(calls[..k]) + i < TotalLines(calls)
    ensures AllMeaning(calls)[TotalLines(calls[..k]) + i] == MeaningIn(calls[k])[i]
    decreases |calls|
  {
    hide Bundleable, MeaningIn, LinesIn;
    var init := calls[..|calls| - 1];
    if k == |calls| - 1 {
      assert calls[..k] == init;
    } else {
      MeaningAt(init, k, i);
      assert init[..k] == calls[..k];
    }
  }

  /** The newlines inside added lines: those that no semicolon answers. */
  ghost function Breaks(calls: seq<Call>): nat {
    if calls == [] then 0
    else Breaks(calls[..|calls| - 1]) + (var c := calls[|calls| - 1]; if c.AddLine? then Count(c.text, NEWLINE) else 0)
  }

  lemma {:induction false} ContentLines(calls: seq<Call>)
    requires AllBundleable(calls)
    ensures Count(AllContent(calls), NEWLINE) == TotalLines(calls) + Breaks(calls)
    decreases |calls|
  {
    if calls != [] {
      var init, c := calls[..|calls| - 1], calls[|calls| - 1];
      ContentLines(init);
      CountAppend(AllContent(init), ContentIn(c), NEWLINE);
      if c.AddLine? {
        CountSnoc(c.text, NEWLINE);
      }
    }
  }

  /** Every added text is a single line. */
  ghost predicate SingleLines(calls: seq<Call>) {
    forall k :: 0 <= k < |calls| && calls[k].AddLine? ==> NEWLINE !in calls[k].text
  }

  lemma {:induction false} NoBreaks(calls: seq<Call>)
    ensures Breaks(calls) == 0 <==> SingleLines(calls)
    decreases |calls|
  {
    if calls != [] {
      var init, c := calls[..|calls| - 1], calls[|calls| - 1];
      NoBreaks(init);
      if c.AddLine? { CountIsZero(c.text, NEWLINE); }
      assert calls == init + [c];
    }
  }

  /** One added text of two lines: a single semicolon for two newlines. */
  lemma TwoLinesInOne()
    ensures
      var calls := [AddLine([NEWLINE])];
      TotalLines(calls) == 1 && Count(AllContent(calls), NEWLINE) == 2
  {
    var calls := [AddLine([NEWLINE])];
    assert calls[..0] == [];
    assert AllContent(calls) == [] + [NEWLINE] + [NEWLINE];
    CountSnoc([], NEWLINE);
    CountSnoc([] + [NEWLINE], NEWLINE);
  }

  lemma {:induction false} CountIsZero(s: seq<Byte>, b: Byte)
    ensures Count(s, b) == 0 <==> b !in s
    decreases |s|
  {
    if s != [] {
      CountIsZero(s[1..], b);
      assert s == [s[0]] + s[1..];
    }
  }

  lemma TotalNamesSnoc(calls: seq<Call>, k: nat)
    requires k < |calls|
    ensures TotalNames(calls[..k]) + NamesIn(calls[k]) == TotalNames(calls[..k + 1])
  {
    assert calls[..k + 1][..k] == calls[..k];
  }

  lemma {:induction false} TotalNamesPrefix(calls: seq<Call>, k: nat)
    requires k <= |calls|
    ensures TotalNames(calls[..k]) <= TotalNames(calls)
    decreases |calls|
  {
    if k == |calls| {
      assert calls[..k] == calls;
    } else {
      TotalNamesPrefix(calls[..|calls| - 1], k);
      assert calls[..|calls| - 1][..k] == calls[..k];
    }
  }

  lemma AllSnoc(calls: seq<Call>, k: nat)
    requires AllBundleable(calls) && k < |calls|
    ensures AllBundleable(calls[..k]) && AllBundleable(calls[..k + 1])
    ensures AllMeaning(calls[..k + 1]) == AllMeaning(calls[..k]) + MeaningIn(calls[k])
    ensures AllContent(calls[..k + 1]) == AllContent(calls[..k]) + ContentIn(calls[k])
  {
    assert calls[..k + 1][..k] == calls[..k];
  }

  /** After any sequence of calls the mappings mean, line by line, what the sources meant, with an empty line for each
      added one; and they have one semicolon per newline of the output if and only if every added text is a single line. */
  method Build(calls: seq<Call>) returns (builder: SourceMapBuilder)
    requires AllBundleable(calls) && TotalNames(calls) <= LIMIT
    ensures fresh(builder) && fresh(builder.outputBuffer) && fresh(builder.mappings)
    ensures fresh(builder.outputBuffer.buffer) && fresh(builder.mappings.buffer)
    ensures builder.Consistent() && builder.Meaning() == AllMeaning(calls)
    ensures builder.outputBuffer.Contents() == AllContent(calls)
    ensures Count(builder.mappings.Contents(), SEMICOLON) == TotalLines(calls)
    ensures Count(builder.mappings.Contents(), SEMICOLON) == Count(builder.outputBuffer.Contents(), NEWLINE) <==> SingleLines(calls)
  {
    hide Bundleable, MeaningIn, NamesIn, ContentIn, Breaks, SingleLines, Count, Run;
    builder := new SourceMapBuilder();
    assert calls[..0] == [];
    for k := 0 to |calls|
      invariant fresh(builder) && fresh(builder.outputBuffer) && fresh(builder.mappings)
      invariant fresh(builder.outputBuffer.buffer) && fresh(builder.mappings.buffer)
      invariant builder.Consistent() && AllBundleable(calls[..k]) && builder.Meaning() == AllMeaning(calls[..k])
      invariant builder.outputBuffer.Contents() == AllContent(calls[..k])
      invariant |builder.sources| <= TotalNames(calls[..k])
    {
      AllSnoc(calls, k);
      TotalNamesSnoc(calls, k);
      TotalNamesPrefix(calls, k + 1);
      Apply(builder, calls[k]);
    }
    assert calls[..|calls|] == calls;
    SemicolonsAndNewlines(calls, builder.mappings.Contents());
  }

  /** One call adds its lines, its content and at most its names. */
  method Apply(builder: SourceMapBuilder, call: Call)
    requires builder.Consistent() && (call.AddSource? ==> Bundleable(call.source)) && |builder.sources| + NamesIn(call) <= LIMIT
    modifies builder, builder.outputBuffer, builder.outputBuffer.buffer, builder.mappings, builder.mappings.buffer
    ensures builder.Consistent() && builder.Meaning() == old(builder.Meaning()) + MeaningIn(call)
    ensures builder.outputBuffer.Contents() == old(builder.outputBuffer.Contents()) + ContentIn(call)
    ensures |builder.sources| <= |old(builder.sources)| + NamesIn(call)
    ensures builder.outputBuffer.buffer == old(builder.outputBuffer.buffer) || fresh(builder.outputBuffer.buffer)
    ensures builder.mappings.buffer == old(builder.mappings.buffer) || fresh(builder.mappings.buffer)
  {
    hide Bundleable, MeaningOf, LinesOf, Run, Count;
    match call
    case AddLine(text) =>
      ghost var before := builder.outputBuffer.Contents();
      builder.AddLine(text);
      assert before + text + [NEWLINE] == before + (text + [NEWLINE]);
    case AddSource(source) =>
      BundleableFits(source);
      var ok := builder.AddSource(source);
  }

  lemma SemicolonsAndNewlines(calls: seq<Call>, mappings: seq<Byte>)
    requires AllBundleable(calls) && |Run(INIT, mappings).lines| == TotalLines(calls)
    ensures Count(mappings, SEMICOLON) == TotalLines(calls)
    ensures Count(mappings, SEMICOLON) == Count(AllContent(calls), NEWLINE) <==> SingleLines(calls)
  {
    LinesAreSemicolons(INIT, mappings);
    ContentLines(calls);
    NoBreaks(calls);
  }

  lemma BundleableFits(s: Source)
    requires Bundleable(s)
    ensures Readable(s.mappings) == s.mappings && Fits(s.mappings, |s.sources|, s.sourceLines)
  {
  }

  // ---- the bundle ----

  ghost function Emitted(sources: map<nat, Source>, order: seq<nat>): (calls: seq<Call>)
    requires forall m :: m in order ==> m in sources
    ensures |calls| == |order| && forall k :: 0 <= k < |order| ==> calls[k] == AddSource(sources[order[k]])
  {
    seq(|order|, k requires 0 <= k < |order| => AddSource(sources[order[k]]))
  }

  /** Whatever subset is emitted, the names of its sources can be numbered below 2^30. */
  ghost predicate NamesFit(sources: map<nat, Source>) {
    forall order: seq<nat> :: NoDuplicates(order) && (forall m :: m in order ==> m in sources)
      ==> TotalNames(Emitted(sources, order)) <= LIMIT
  }

  /** The bundle of an entry module: the contents of everything reachable, each once, then one line for the map; and the
      map, which says of each line what the source's own map said. */
  method BundleWithDependencies(graph: DependencyMap, sources: map<nat, Source>, entry: nat, mapLine: seq<Byte>)
    returns (content: seq<Byte>, mappings: seq<Byte>, names: seq<string>, order: seq<nat>)
    requires Closed(graph) && entry in graph && sources.Keys == graph.Keys && NamesFit(sources)
    requires forall m :: m in sources ==> Bundleable(sources[m])
    ensures NoDuplicates(order) && forall x :: x in order <==> x == entry || Reach(Depends(graph), entry, x)
    ensures order != [] && order[|order| - 1] == entry
    ensures forall k :: 0 <= k < |order| ==> DependenciesFirst(graph, order, k)
    ensures Acyclic(Depends(graph)) ==>
      forall k, d :: 0 <= k < |order| && Depends(graph)(order[k], d) ==> d in order[..k]
    ensures forall m :: m in order ==> m in sources
    ensures AllBundleable(Emitted(sources, order))
    ensures content == AllContent(Emitted(sources, order)) + mapLine + [NEWLINE]
    ensures LinesOk(Run(INIT, mappings).lines, |names|)
    ensures NameLines(Run(INIT, mappings).lines, names) == AllMeaning(Emitted(sources, order))
  {
    hide Bundleable, Reach, Run, Closed, DependenciesFirst, Acyclic;
    order := BundleOrder(graph, entry);
    var calls := [];
    for k := 0 to |order|
      invariant |calls| == k && forall i :: 0 <= i < k ==> calls[i] == AddSource(sources[order[i]])
    {
      assert order[k] in order;
      calls := calls + [AddSource(sources[order[k]])];
    }
    assert calls == Emitted(sources, order);
    var builder := Build(calls);
    mappings := builder.mappings.buffer[..builder.mappings.size];
    names := builder.sources;
    builder.AddLine(mapLine);
    content := builder.outputBuffer.buffer[..builder.outputBuffer.size];
  }
}
