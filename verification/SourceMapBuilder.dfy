/** Concatenating sources and their source maps. */
module SourceMapBuilders {

  import opened Common
  import opened Vlq
  import opened SourceMaps

  /** A source: its content, ending with a newline unless empty, and the map that came with it. */
  datatype Source = Source(content: seq<Byte>, sources: seq<string>, mappings: seq<Byte>, sourceLines: nat)

  method CountNewlines(b: seq<Byte>) returns (res: nat)
    ensures res == Count(b, NEWLINE)
  {
    res := 0;
    for i := 0 to |b|
      invariant res == Count(b[..i], NEWLINE)
    {
      assert b[..i + 1] == b[..i] + [b[i]];
      CountAppend(b[..i], [b[i]], NEWLINE);
      if b[i] == NEWLINE {
        res := res + 1;
      }
    }
    assert b[..|b|] == b;
  }

  ghost predicate SourceOk(s: Source) {
    s.sourceLines == Count(s.content, NEWLINE) && (s.content == [] || s.content[|s.content| - 1] == NEWLINE)
  }

  /** Terminates the last line and counts the lines. */
  method NewSource(content: seq<Byte>, sources: seq<string>, mappings: seq<Byte>) returns (s: Source)
    ensures SourceOk(s) && s.sources == sources && s.mappings == mappings
    ensures s.content == if content == [] || content[|content| - 1] == NEWLINE then content else content + [NEWLINE]
  {
    var sourceLines := CountNewlines(content);
    if |content| > 0 && content[|content| - 1] != NEWLINE {
      CountAppend(content, [NEWLINE], NEWLINE);
      return Source(content + [NEWLINE], sources, mappings, sourceLines + 1);
    }
    return Source(content, sources, mappings, sourceLines);
  }

  /** The part of the mappings in front of the first byte that is neither a separator nor in the alphabet. */
  function Readable(s: seq<Byte>): (r: seq<Byte>)
    ensures r <= s
  {
    if s == [] || Invalid(s[0]) then []
    else [s[0]] + Readable(s[1..])
  }

  predicate Invalid(b: Byte) {
    b != SEMICOLON && b != COMMA && CharToInteger(b) == 255
  }

  lemma {:induction false} ReadableStops(s: seq<Byte>)
    ensures forall k :: 0 <= k < |Readable(s)| ==> !Invalid(s[k])
    ensures |Readable(s)| < |s| ==> Invalid(s[|Readable(s)|])
    decreases |s|
  {
    if s != [] && !Invalid(s[0]) {
      ReadableStops(s[1..]);
      forall k | 0 <= k < |Readable(s)| ensures !Invalid(s[k]) {
        if k > 0 { assert s[k] == s[1..][k - 1]; }
      }
    }
  }

  /** The reader's variables while it walks over one mappings text. */
  datatype Reader = Reader(
    inOutputCol: int, inSourceIndex: int, inSourceLine: int, inSourceCol: int,
    shift: nat, value: int, valpos: nat)
  {
    function NewLine(): Reader {
      this.(inOutputCol := 0)
    }

    function Committed(): Reader {
      this.(valpos := 0)
    }

    /** A digit of the current number; the last one adds the number to the field it belongs to. */
    function Read(x: int): Reader {
      var v := Add(Partial(value, shift), x);
      if Continues(x) then this.(value := v, shift := shift + 5)
      else
        var n := Signed(v);
        var moved := match valpos
          case 0 => this.(inOutputCol := inOutputCol + n)
          case 1 => this.(inSourceIndex := inSourceIndex + n)
          case 2 => this.(inSourceLine := inSourceLine + n)
          case 3 => this.(inSourceCol := inSourceCol + n)
          case _ => this;
        moved.(value := 0, shift := 0, valpos := valpos + 1)
    }
  }

  function Field(d: Decoder, k: nat): int {
    if k < |d.fields| then d.fields[k] else 0
  }

  /** The reader's variables are the decoder's positions plus the fields already read. */
  ghost predicate Matches(r: Reader, d: Decoder) {
    && r.valpos == |d.fields| && Partial(r.value, r.shift) == d.partial
    && r.inOutputCol == d.col + Field(d, 0) && r.inSourceIndex == d.source + Field(d, 1)
    && r.inSourceLine == d.line + Field(d, 2) && r.inSourceCol == d.scol + Field(d, 3)
  }

  lemma ReadMatches(r: Reader, d: Decoder, b: Byte, n: nat)
    requires Matches(r, d) && !Invalid(b) && b != SEMICOLON && b != COMMA && Good(Step(d, b), n) && d.partial.value >= 0
    ensures Matches(r.Read(CharToInteger(b)), Step(d, b))
  {
    hide Add, Signed, Good, Step;
    DigitArithmetic(d, b, n);
  }

  lemma CommitMatches(r: Reader, d: Decoder, n: nat)
    requires Matches(r, d) && Good(Flush(d), n)
    ensures Matches(r.Committed(), Flush(d)) && r.valpos != 2 && r.valpos != 3
  {
  }

  lemma SeparatorMatches(r: Reader, d: Decoder, b: Byte, n: nat)
    requires Matches(r, d) && (b == SEMICOLON || b == COMMA) && Good(Step(d, b), n)
    ensures Good(Flush(d), n) && r.valpos != 2 && r.valpos != 3
    ensures Matches(if b == SEMICOLON then r.Committed().NewLine() else r.Committed(), Step(d, b))
  {
    StepGood(d, b, n);
    CommitMatches(r, d, n);
  }

  /** The writer's last positions are those of the output decoder. */
  ghost predicate PositionedAt(d: Decoder, col: int, index: int, line: int, scol: int) {
    d.col == col && d.source == index && d.line == line && d.scol == scol
  }

  class SourceMapBuilder {
    const outputBuffer: DynamicBuffer
    const mappings: DynamicBuffer
    var sources: seq<string>
    var lastSourceIndex: int
    var lastSourceLine: int
    var lastSourceCol: int

    ghost predicate Valid()
      reads this, outputBuffer, mappings
    {
      && outputBuffer.Valid() && mappings.Valid()
      && outputBuffer != mappings && outputBuffer.buffer != mappings.buffer
    }

    /** The decoder after everything written so far. */
    ghost function Decoded(): Decoder
      reads this, mappings, mappings.buffer
      requires mappings.Valid()
    {
      Run(INIT, mappings.Contents())
    }

    ghost predicate DecodedOk(d: Decoder)
      reads this
    {
      && Clean(d) && d.current == [] && d.col == 0
      && d.source == lastSourceIndex && d.line == lastSourceLine && d.scol == lastSourceCol
      && LinesOk(d.lines, |sources|)
      && NoDuplicates(sources)
    }

    /** The last positions are those a reader of the mappings would have, at the start of a line. */
    ghost predicate Consistent()
      reads this, outputBuffer, mappings, mappings.buffer
    {
      Valid() && DecodedOk(Decoded())
    }

    /** What the mappings written so far mean, line by line, with source names. */
    ghost function Meaning(): seq<seq<Named>>
      reads this, outputBuffer, mappings, mappings.buffer
      requires Consistent()
    {
      NameLines(Decoded().lines, sources)
    }

    constructor ()
      ensures Consistent() && Meaning() == [] && sources == []
      ensures outputBuffer.Contents() == []
      ensures fresh(outputBuffer) && fresh(mappings) && fresh(outputBuffer.buffer) && fresh(mappings.buffer)
    {
      outputBuffer := new DynamicBuffer();
      mappings := new DynamicBuffer();
      sources, lastSourceIndex, lastSourceLine, lastSourceCol := [], 0, 0, 0;
    }

    /** One line of text without mappings. */
    method AddLine(text: seq<Byte>)
      requires Consistent()
      modifies this, outputBuffer, outputBuffer.buffer, mappings, mappings.buffer
      ensures Consistent() && Meaning() == old(Meaning()) + [[]] && sources == old(sources)
      ensures outputBuffer.Contents() == old(outputBuffer.Contents()) + text + [NEWLINE]
      ensures Count(mappings.Contents(), SEMICOLON) == old(Count(mappings.Contents(), SEMICOLON)) + 1
      ensures Count(outputBuffer.Contents(), NEWLINE) == old(Count(outputBuffer.Contents(), NEWLINE)) + Count(text, NEWLINE) + 1
      ensures outputBuffer.buffer == old(outputBuffer.buffer) || fresh(outputBuffer.buffer)
      ensures mappings.buffer == old(mappings.buffer) || fresh(mappings.buffer)
    {
      ghost var d := Decoded();
      ghost var before, output := mappings.Contents(), outputBuffer.Contents();
      outputBuffer.AddBuffer(text);
      outputBuffer.AddByte(NEWLINE);
      mappings.AddByte(SEMICOLON);
      RunSnoc(INIT, before, SEMICOLON);
      NameAppend(d.lines, [[]], sources);
      CountSnoc(before, SEMICOLON);
      CountAppend(output, text, NEWLINE);
      CountSnoc(output + text, NEWLINE);
    }

    /** Registers the names of a source map and returns where each one sits. */
    method AddNames(names: seq<string>) returns (remap: seq<nat>)
      requires NoDuplicates(sources)
      modifies this`sources
      ensures SameNames(names, remap, sources) && old(sources) <= sources && |sources| <= |old(sources)| + |names|
      ensures NoDuplicates(sources)
    {
      remap := [];
      for k := 0 to |names|
        invariant old(sources) <= sources && |sources| <= |old(sources)| + k
        invariant |remap| == k && forall i :: 0 <= i < k ==> remap[i] < |sources| && sources[remap[i]] == names[i]
        invariant NoDuplicates(sources)
      {
        var pos := 0;
        while pos < |sources| && sources[pos] != names[k]
          invariant 0 <= pos <= |sources| && names[k] !in sources[..pos]
          modifies {}
        {
          pos := pos + 1;
        }
        if pos == |sources| {
          sources := sources + [names[k]];
        }
        remap := remap + [pos];
      }
    }

    /** Writes the segment read so far, if any, as deltas against the last positions. */
    method Commit(r: Reader, lastOutputCol: int, remap: seq<nat>, ghost i: Decoder, ghost o: Decoder) returns (col: int)
      requires Valid() && Matches(r, i) && Good(Flush(i), |remap|)
      requires PositionedAt(o, lastOutputCol, lastSourceIndex, lastSourceLine, lastSourceCol)
      modifies this`lastSourceIndex, this`lastSourceLine, this`lastSourceCol, mappings, mappings.buffer
      ensures Valid() && (mappings.buffer == old(mappings.buffer) || fresh(mappings.buffer))
      ensures Pending(i).Some? ==> SegmentOk(Pending(i).value, |remap|)
      ensures mappings.Contents() == old(mappings.Contents()) + CommitBytes(i, o, remap)
      ensures
        if Pending(i).None? then PositionedAt(o, col, lastSourceIndex, lastSourceLine, lastSourceCol)
        else PositionedAt(Append(o, RemapSegment(Pending(i).value, remap)), col, lastSourceIndex, lastSourceLine, lastSourceCol)
    {
      hide Encode, Matches, Good, Flush, Pending, LineOk;
      CommitFacts(r, i, o, remap);
      if r.valpos == 0 {
        return lastOutputCol;
      }
      if r.valpos == 1 {
        mappings.AddVLQ(r.inOutputCol - lastOutputCol);
        return r.inOutputCol;
      }
      col := r.inOutputCol;
      CommitMapped(Mapped(col, remap[r.inSourceIndex], r.inSourceLine, r.inSourceCol), lastOutputCol, o);
    }

    /** Writes a segment with a source as deltas against the last positions, and moves these to it. */
    method CommitMapped(seg: Segment, lastOutputCol: int, ghost o: Decoder)
      requires Valid() && seg.Mapped? && PositionedAt(o, lastOutputCol, lastSourceIndex, lastSourceLine, lastSourceCol)
      modifies this`lastSourceIndex, this`lastSourceLine, this`lastSourceCol, mappings, mappings.buffer
      ensures Valid() && (mappings.buffer == old(mappings.buffer) || fresh(mappings.buffer))
      ensures mappings.Contents() == old(mappings.Contents()) + SegmentBytes(o, seg)
      ensures lastSourceIndex == seg.source && lastSourceLine == seg.line && lastSourceCol == seg.scol
    {
      hide Encode;
      ghost var before := mappings.Contents();
      mappings.AddVLQ(seg.col - lastOutputCol);
      mappings.AddVLQ(seg.source - lastSourceIndex);
      lastSourceIndex := seg.source;
      mappings.AddVLQ(seg.line - lastSourceLine);
      lastSourceLine := seg.line;
      mappings.AddVLQ(seg.scol - lastSourceCol);
      lastSourceCol := seg.scol;
      Regroup(before, Encode(seg.col - o.col), Encode(seg.source - o.source), Encode(seg.line - o.line), Encode(seg.scol - o.scol));
    }

    /** After the input decoder i, the output tracks it and every variable of the loop agrees with one of the two. */
    ghost predicate InSync(i: Decoder, r: Reader, lastOutputCol: int, outputLine: nat, base: seq<seq<Segment>>, remap: seq<nat>)
      reads this, outputBuffer, mappings, mappings.buffer
    {
      && Valid() && Tracks(i, Decoded(), base, remap) && Matches(r, i) && i.partial.value >= 0
      && PositionedAt(Decoded(), lastOutputCol, lastSourceIndex, lastSourceLine, lastSourceCol)
      && outputLine == |i.lines|
    }

    /** One separator: commit, then repeat it. */
    method Separator(b: Byte, r: Reader, lastOutputCol: int, outputLine: nat, remap: seq<nat>,
                     ghost i: Decoder, ghost base: seq<seq<Segment>>)
      returns (r': Reader, col: int, line: nat)
      requires InSync(i, r, lastOutputCol, outputLine, base, remap)
      requires (b == SEMICOLON || b == COMMA) && Good(Step(i, b), |remap|)
      modifies this`lastSourceIndex, this`lastSourceLine, this`lastSourceCol, mappings, mappings.buffer
      ensures InSync(Step(i, b), r', col, line, base, remap)
      ensures mappings.buffer == old(mappings.buffer) || fresh(mappings.buffer)
    {
      hide Run, Tracks, Matches, Good, Step, Flush, Pending, CommitBytes, RemapSegment, Append;
      ghost var o := Decoded();
      ghost var before := mappings.Contents();
      SeparatorMatches(r, i, b, |remap|);
      SeparatorTracks(i, o, b, base, remap);
      col := Commit(r, lastOutputCol, remap, i, o);
      mappings.AddByte(b);
      r' := r.Committed();
      line := outputLine;
      ghost var bytes := CommitBytes(i, o, remap);
      assert mappings.Contents() == before + (bytes + [b]);
      RunAppend(INIT, before, bytes + [b]);
      SeparatorPositions(i, o, b, base, remap);
      if b == SEMICOLON {
        r' := r'.NewLine();
        col := 0;
        line := line + 1;
      }
    }

    /** Re-encodes the mappings byte by byte, up to the end or to the first invalid byte. */
    method CopyMappings(source: Source, remap: seq<nat>, ghost base: seq<seq<Segment>>)
      returns (ok: bool, r: Reader, lastOutputCol: int, outputLine: nat)
      requires InSync(INIT, Reader(0, 0, 0, 0, 0, 0, 0), 0, 0, base, remap)
      requires Good(Run(INIT, Readable(source.mappings)), |remap|)
      modifies this`lastSourceIndex, this`lastSourceLine, this`lastSourceCol, mappings, mappings.buffer
      ensures Valid() && (mappings.buffer == old(mappings.buffer) || fresh(mappings.buffer))
      ensures ok <==> Readable(source.mappings) == source.mappings
      ensures ok ==> InSync(Run(INIT, source.mappings), r, lastOutputCol, outputLine, base, remap)
    {
      hide Run, Good, Step, Tracks, Matches, Readable, CharToInteger;
      ghost var text := Readable(source.mappings);
      ReadableStops(source.mappings);
      r, lastOutputCol, outputLine := Reader(0, 0, 0, 0, 0, 0, 0), 0, 0;
      RunNothing(INIT);
      var inputMappings := source.mappings;
      var ip := 0;
      while ip < |inputMappings|
        invariant 0 <= ip <= |text| && text <= inputMappings
        invariant InSync(Run(INIT, text[..ip]), r, lastOutputCol, outputLine, base, remap)
        invariant mappings.buffer == old(mappings.buffer) || fresh(mappings.buffer)
      {
        var b := inputMappings[ip];
        assert ip < |text| <==> !Invalid(b);
        if Invalid(b) {
          return false, r, lastOutputCol, outputLine;
        }
        ghost var i := Run(INIT, text[..ip]);
        PrefixGood(text, ip, |remap|);
        ip := ip + 1;
        if b == SEMICOLON || b == COMMA {
          r, lastOutputCol, outputLine := Separator(b, r, lastOutputCol, outputLine, remap, i, base);
        } else {
          ReadMatches(r, i, b, |remap|);
          DigitTracks(i, Decoded(), b, base, remap);
          DigitFacts(i, b, |remap|);
          r := r.Read(CharToInteger(b));
        }
      }
      assert text[..ip] == text == source.mappings;
      return true, r, lastOutputCol, outputLine;
    }

    /** Appends a source: its content to the output, its mappings, renumbered and re-based, to the mappings. */
    method AddSource(source: Source) returns (ok: bool)
      requires Consistent() && |sources| + |source.sources| <= LIMIT
      requires Fits(Readable(source.mappings), |source.sources|, source.sourceLines)
      modifies this, outputBuffer, outputBuffer.buffer, mappings, mappings.buffer
      ensures Valid()
      ensures outputBuffer.buffer == old(outputBuffer.buffer) || fresh(outputBuffer.buffer)
      ensures mappings.buffer == old(mappings.buffer) || fresh(mappings.buffer)
      ensures outputBuffer.Contents() == old(outputBuffer.Contents()) + source.content
      ensures ok <==> Readable(source.mappings) == source.mappings
      ensures ok ==> Consistent() && Meaning() == old(Meaning()) + MeaningOf(source)
      ensures old(sources) <= sources && |sources| <= |old(sources)| + |source.sources|
    {
      hide Fits, Run, Readable, MeaningOf, Good, RemapOk, LinesOk, Tracks, NoDuplicates, SameNames, Clean, Matches, RemapLines, NameLines, LinesOf;
      ghost var d, names := Decoded(), sources;
      outputBuffer.AddBuffer(source.content);
      var remap := AddNames(source.sources);
      assert Decoded() == d;
      StartTracks(d, remap, sources, source);
      var r, lastOutputCol, outputLine;
      ok, r, lastOutputCol, outputLine := CopyMappings(source, remap, d.lines);
      if ok {
        Finish(source, remap, r, lastOutputCol, outputLine, d.lines);
        FinishMeaning(source, d.lines, names, remap, sources);
      }
    }

    /** The last commit, and one semicolon for every line the mappings did not mention. */
    method Finish(source: Source, remap: seq<nat>, r: Reader, lastOutputCol: int, outputLine: nat, ghost base: seq<seq<Segment>>)
      requires InSync(Run(INIT, source.mappings), r, lastOutputCol, outputLine, base, remap)
      requires Fits(source.mappings, |remap|, source.sourceLines)
      modifies this`lastSourceIndex, this`lastSourceLine, this`lastSourceCol, mappings, mappings.buffer
      ensures Valid() && (mappings.buffer == old(mappings.buffer) || fresh(mappings.buffer))
      ensures
        var o := Decoded();
        && Clean(o) && o.current == [] && o.col == 0
        && o.source == lastSourceIndex && o.line == lastSourceLine && o.scol == lastSourceCol
        && LinesOk(LinesOf(source.mappings, source.sourceLines), |remap|)
        && o.lines == base + RemapLines(LinesOf(source.mappings, source.sourceLines), remap)
    {
      hide Run, Tracks, Matches, Good, Flush, Pending, CommitBytes, RemapSegment, Append, LinesOf, RemapLines, LinesOk;
      ghost var i, o := Run(INIT, source.mappings), Decoded();
      ghost var before := mappings.Contents();
      FitsGood(source.mappings, |remap|, source.sourceLines);
      var col := Commit(r, lastOutputCol, remap, i, o);
      ghost var bytes := CommitBytes(i, o, remap);
      ghost var index, sourceLine, sourceCol := lastSourceIndex, lastSourceLine, lastSourceCol;
      var line := outputLine;
      while line < source.sourceLines
        invariant outputLine <= line <= source.sourceLines
        invariant Valid() && (mappings.buffer == old(mappings.buffer) || fresh(mappings.buffer))
        invariant mappings.Contents() == before + (bytes + Semicolons(line - outputLine))
        invariant lastSourceIndex == index && lastSourceLine == sourceLine && lastSourceCol == sourceCol
      {
        SemicolonsSnoc(before, bytes, line - outputLine);
        mappings.AddByte(SEMICOLON);
        line := line + 1;
      }
      RunAppend(INIT, before, bytes + Semicolons(source.sourceLines - outputLine));
      FinishTracks(source.mappings, o, base, remap, source.sourceLines);
      FinishPositions(i, o, base, remap, source.sourceLines - outputLine);
    }
  }

  lemma CountSnoc(s: seq<Byte>, b: Byte)
    ensures Count(s + [b], b) == Count(s, b) + 1
  {
    CountAppend(s, [b], b);
    assert [b][1..] == [];
  }

  /** What a source means: its decoded lines, with its own source names, padded to its length. */
  ghost function MeaningOf(source: Source): (r: seq<seq<Named>>)
    requires Fits(source.mappings, |source.sources|, source.sourceLines)
  {
    FitsGood(source.mappings, |source.sources|, source.sourceLines);
    NameLines(LinesOf(source.mappings, source.sourceLines), source.sources)
  }

  lemma FitsGood(text: seq<Byte>, n: nat, lines: nat)
    requires Fits(text, n, lines)
    ensures Good(Flush(Run(INIT, text)), n) && Good(Run(INIT, text), n)
    ensures |Run(INIT, text).lines| == |Flush(Run(INIT, text)).lines| <= lines
    ensures LinesOk(LinesOf(text, lines), n)
  {
    FlushGood(Run(INIT, text), n);
  }

  lemma SemicolonsSnoc(s: seq<Byte>, bytes: seq<Byte>, n: nat)
    ensures s + (bytes + Semicolons(n)) + [SEMICOLON] == s + (bytes + Semicolons(n + 1))
  {
  }

  lemma StartTracks(d: Decoder, remap: seq<nat>, sources: seq<string>, source: Source)
    requires Clean(d) && d.current == [] && d.col == 0 && SameNames(source.sources, remap, sources) && |sources| <= LIMIT
    requires Fits(Readable(source.mappings), |source.sources|, source.sourceLines)
    ensures Tracks(INIT, d, d.lines, remap) && Matches(Reader(0, 0, 0, 0, 0, 0, 0), INIT)
    ensures Good(Run(INIT, Readable(source.mappings)), |remap|) && |remap| == |source.sources|
  {
    FitsGood(Readable(source.mappings), |remap|, source.sourceLines);
    assert d.lines + RemapLines([], remap) == d.lines;
  }

  /** Padding moves no position but the column. */
  lemma FinishPositions(i: Decoder, o: Decoder, base: seq<seq<Segment>>, remap: seq<nat>, n: nat)
    requires Tracks(i, o, base, remap) && Good(Flush(i), |remap|)
    requires n == 0 ==> Flush(i).current == []
    ensures Pending(i).Some? ==> SegmentOk(Pending(i).value, |remap|)
    ensures
      var p := if Pending(i).None? then o else Append(o, RemapSegment(Pending(i).value, remap));
      var t := Run(o, CommitBytes(i, o, remap) + Semicolons(n));
      t.source == p.source && t.line == p.line && t.scol == p.scol
  {
    FlushIsAppend(i, |remap|);
    var bytes := CommitBytes(i, o, remap);
    if n == 0 {
      assert bytes + Semicolons(0) == [];
      RunNothing(o);
    } else {
      hide Run;
      CommitTracks(i, o, base, remap);
      if Pending(i).Some? { RunSegment(o, RemapSegment(Pending(i).value, remap)); } else { RunNothing(o); }
      assert bytes + Semicolons(n) == bytes + [SEMICOLON] + Semicolons(n - 1);
      RunAppend(o, bytes + [SEMICOLON], Semicolons(n - 1));
      RunSnoc(o, bytes, SEMICOLON);
      EndLineTracks(Flush(i), Flush(Run(o, bytes)), base, remap);
      RunSemicolons(EndLine(Flush(Run(o, bytes))), n - 1);
    }
  }

  lemma FinishMeaning(source: Source, base: seq<seq<Segment>>, names: seq<string>, remap: seq<nat>, sources: seq<string>)
    requires Fits(source.mappings, |source.sources|, source.sourceLines)
    requires LinesOk(base, |names|) && names <= sources && SameNames(source.sources, remap, sources)
    ensures LinesOk(LinesOf(source.mappings, source.sourceLines), |remap|)
    ensures
      var lines := base + RemapLines(LinesOf(source.mappings, source.sourceLines), remap);
      LinesOk(lines, |sources|) && NameLines(lines, sources) == NameLines(base, names) + MeaningOf(source)
  {
    hide Fits, LinesOf, NameLines, RemapLines;
    FitsGood(source.mappings, |source.sources|, source.sourceLines);
    var lines := LinesOf(source.mappings, source.sourceLines);
    MoreNames(base, names, sources);
    RemapKeepsNames(lines, source.sources, remap, sources);
    NameAppend(base, RemapLines(lines, remap), sources);
  }

  lemma PrefixGood(text: seq<Byte>, ip: nat, n: nat)
    requires ip < |text| && Good(Run(INIT, text), n)
    ensures Run(INIT, text[..ip + 1]) == Step(Run(INIT, text[..ip]), text[ip])
    ensures Good(Step(Run(INIT, text[..ip]), text[ip]), n)
  {
    hide Good, Step, Run;
    assert text[..ip + 1] == text[..ip] + [text[ip]];
    RunSnoc(INIT, text[..ip], text[ip]);
    assert text == text[..ip + 1] + text[ip + 1..];
    RunAppend(INIT, text[..ip + 1], text[ip + 1..]);
    RunGood(Run(INIT, text[..ip + 1]), text[ip + 1..], n);
  }

  lemma DigitFacts(i: Decoder, b: Byte, n: nat)
    requires b != SEMICOLON && b != COMMA && Good(Step(i, b), n) && i.partial.value >= 0
    ensures Step(i, b).partial.value >= 0 && Step(i, b).lines == i.lines
  {
  }

  /** Where a commit and a separator leave both decoders. */
  lemma SeparatorPositions(i: Decoder, o: Decoder, b: Byte, base: seq<seq<Segment>>, remap: seq<nat>)
    requires Tracks(i, o, base, remap) && (b == SEMICOLON || b == COMMA) && Good(Step(i, b), |remap|)
    ensures Pending(i).Some? ==> SegmentOk(Pending(i).value, |remap|)
    ensures
      var p := if Pending(i).None? then o else Append(o, RemapSegment(Pending(i).value, remap));
      var t := Run(o, CommitBytes(i, o, remap) + [b]);
      t.col == (if b == SEMICOLON then 0 else p.col) && t.source == p.source && t.line == p.line && t.scol == p.scol
    ensures |Step(i, b).lines| == |i.lines| + (if b == SEMICOLON then 1 else 0)
    ensures Step(i, b).partial == START
  {
    StepGood(i, b, |remap|);
    FlushIsAppend(i, |remap|);
    RunSnoc(o, CommitBytes(i, o, remap), b);
    if Pending(i).Some? {
      RunSegment(o, RemapSegment(Pending(i).value, remap));
    } else {
      RunNothing(o);
    }
  }

  lemma Regroup(s: seq<Byte>, a: seq<Byte>, b: seq<Byte>, c: seq<Byte>, d: seq<Byte>)
    ensures s + a + b + c + d == s + (a + b + c + d)
  {
  }

  /** Which segment the reader's variables describe, and its bytes. */
  lemma CommitFacts(r: Reader, i: Decoder, o: Decoder, remap: seq<nat>)
    requires Matches(r, i) && Good(Flush(i), |remap|)
    ensures r.valpos != 2 && r.valpos != 3
    ensures r.valpos == 0 ==> Pending(i).None?
    ensures r.valpos == 1 ==> Pending(i) == Some(Generated(r.inOutputCol))
    ensures r.valpos >= 4 ==>
      && Pending(i) == Some(Mapped(r.inOutputCol, r.inSourceIndex, r.inSourceLine, r.inSourceCol))
      && 0 <= r.inSourceIndex < |remap|
    ensures Pending(i).Some? ==> SegmentOk(Pending(i).value, |remap|)
  {
    CommitMatches(r, i, |remap|);
    FlushIsAppend(i, |remap|);
  }
}
