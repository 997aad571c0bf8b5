/** What a Version 3 mappings string means, and why re-encoding it segment by segment keeps that meaning. */
module SourceMaps {

  import opened Common
  import opened Vlq

  /** A decoded segment, with absolute positions. Names are not represented. */
  datatype Segment =
    | Generated(col: int)
    | Mapped(col: int, source: int, line: int, scol: int)

  /** The decoder after some bytes: finished lines, the current line, running positions, and the fields read so far. */
  datatype Decoder = Decoder(
    lines: seq<seq<Segment>>,
    current: seq<Segment>,
    col: int, source: int, line: int, scol: int,
    fields: seq<int>,
    partial: Partial,
    bad: bool)

  const INIT := Decoder([], [], 0, 0, 0, 0, [], START, false)
  const LIMIT := 0x4000_0000  // 2^30

  /** A segment has one field or at least four; the fields are deltas against the running positions. */
  function Flush(d: Decoder): Decoder {
    var f := d.fields;
    if d.partial != START || |f| == 2 || |f| == 3 then d.(bad := true)
    else if f == [] then d
    else if |f| == 1 then d.(fields := [], col := d.col + f[0], current := d.current + [Generated(d.col + f[0])])
    else
      var seg := Mapped(d.col + f[0], d.source + f[1], d.line + f[2], d.scol + f[3]);
      d.(fields := [], col := seg.col, source := seg.source, line := seg.line, scol := seg.scol, current := d.current + [seg])
  }

  function EndLine(d: Decoder): Decoder {
    d.(lines := d.lines + [d.current], current := [], col := 0)
  }

  /** The sign bit is the lowest one. */
  function Unsign(v: nat): int {
    if v % 2 == 1 then -(v / 2) else v / 2
  }

  /** One base64 digit, in unbounded arithmetic; numbers that do not fit 31 bits make the text bad. */
  function Digit(d: Decoder, x: int): Decoder {
    var v := d.partial.value + (x % 32) * Pow2(d.partial.shift);
    if x < 0 || x >= 64 || d.partial.shift > 30 || v < 0 || v >= 0x8000_0000 then d.(bad := true)
    else if x >= 32 then d.(partial := Partial(v, d.partial.shift + 5))
    else d.(fields := d.fields + [Unsign(v)], partial := START)
  }

  function Step(d: Decoder, b: Byte): Decoder {
    if b == SEMICOLON then EndLine(Flush(d))
    else if b == COMMA then Flush(d)
    else Digit(d, CharToInteger(b))
  }

  function Run(d: Decoder, s: seq<Byte>): Decoder
    decreases |s|
  {
    if s == [] then d else Run(Step(d, s[0]), s[1..])
  }

  lemma {:induction false} RunAppend(d: Decoder, a: seq<Byte>, b: seq<Byte>)
    ensures Run(d, a + b) == Run(Run(d, a), b)
    decreases |a|
  {
    hide Step;
    if a == [] {
      assert a + b == b;
    } else {
      assert (a + b)[1..] == a[1..] + b;
      RunAppend(Step(d, a[0]), a[1..], b);
    }
  }

  lemma RunOne(d: Decoder, b: Byte)
    ensures Run(d, [b]) == Step(d, b)
  {
  }

  lemma RunSnoc(d: Decoder, s: seq<Byte>, b: Byte)
    ensures Run(d, s + [b]) == Step(Run(d, s), b)
  {
    RunAppend(d, s, [b]);
    RunOne(Run(d, s), b);
  }

  // ---- what well-formed text guarantees about every prefix ----

  predicate SegmentOk(seg: Segment, sources: nat) {
    && 0 <= seg.col < LIMIT
    && (seg.Mapped? ==> 0 <= seg.source < sources && 0 <= seg.line < LIMIT && 0 <= seg.scol < LIMIT)
  }

  ghost predicate LineOk(line: seq<Segment>, sources: nat) {
    forall i :: 0 <= i < |line| ==> SegmentOk(line[i], sources)
  }

  ghost predicate Good(d: Decoder, sources: nat) {
    && !d.bad && LineOk(d.current, sources)
    && (forall i :: 0 <= i < |d.lines| ==> LineOk(d.lines[i], sources))
  }

  lemma FlushGood(d: Decoder, n: nat)
    requires Good(Flush(d), n)
    ensures Good(d, n)
  {
    assert d.current <= Flush(d).current;
    assert forall i :: 0 <= i < |d.current| ==> d.current[i] == Flush(d).current[i];
  }

  lemma StepGood(d: Decoder, b: Byte, n: nat)
    requires Good(Step(d, b), n)
    ensures Good(d, n) && (b == SEMICOLON || b == COMMA ==> Good(Flush(d), n))
  {
    if b == SEMICOLON {
      var f := Flush(d);
      var e := EndLine(f);
      assert e.lines[|f.lines|] == f.current;
      assert forall i :: 0 <= i < |f.lines| ==> f.lines[i] == e.lines[i];
      FlushGood(d, n);
    } else if b == COMMA {
      FlushGood(d, n);
    }
  }

  /** A text that is good at its end was good at every point before. */
  lemma {:induction false} RunGood(d: Decoder, s: seq<Byte>, n: nat)
    requires Good(Run(d, s), n)
    ensures Good(d, n)
    decreases |s|
  {
    hide Good, Step;
    if s != [] {
      RunGood(Step(d, s[0]), s[1..], n);
      StepGood(d, s[0], n);
    }
  }

  function Count(s: seq<Byte>, b: Byte): nat {
    if s == [] then 0 else (if s[0] == b then 1 else 0) + Count(s[1..], b)
  }

  lemma {:induction false} CountAppend(s: seq<Byte>, t: seq<Byte>, b: Byte)
    ensures Count(s + t, b) == Count(s, b) + Count(t, b)
    decreases |s|
  {
    if s == [] {
      assert s + t == t;
    } else {
      assert (s + t)[1..] == s[1..] + t;
      CountAppend(s[1..], t, b);
    }
  }

  /** The finished lines of a text are its semicolons. */
  lemma {:induction false} LinesAreSemicolons(d: Decoder, s: seq<Byte>)
    ensures |Run(d, s).lines| == |d.lines| + Count(s, SEMICOLON)
    decreases |s|
  {
    if s != [] { LinesAreSemicolons(Step(d, s[0]), s[1..]); }
  }

  // ---- numbers ----

  lemma {:induction false} RunDigits(d: Decoder, n: nat)
    requires !d.bad && d.partial.value >= 0 && d.partial.shift <= 30
    requires d.partial.value + n * Pow2(d.partial.shift) < 0x8000_0000
    ensures Run(d, Digits(n)) == d.(fields := d.fields + [Unsign(d.partial.value + n * Pow2(d.partial.shift))], partial := START)
    decreases n
  {
    hide IntegerToChar, CharToInteger, Pow2, Unsign;
    var k := Pow2(d.partial.shift);
    var s := Digits(n);
    SplitBits(n, k);
    if n / 32 > 0 {
      var x := n % 32 + 32;
      DigitIsRead(x);
      DigitIsNoSeparator(x);
      assert s == [IntegerToChar(x)] + Digits(n / 32) && s[1..] == Digits(n / 32);
      Pow2Five(d.partial.shift);
      ShiftBound(d.partial.shift, n / 32);
      RunDigits(Step(d, s[0]), n / 32);
    } else {
      assert n % 32 == n;
      DigitIsRead(n);
      DigitIsNoSeparator(n);
      RunOne(d, IntegerToChar(n));
    }
  }

  lemma DigitIsNoSeparator(x: int)
    requires 0 <= x < 64
    ensures IntegerToChar(x) != SEMICOLON && IntegerToChar(x) != COMMA
  {
  }

  /** An encoded number below 2^30 reads back as one more field. */
  lemma RunEncode(d: Decoder, num: int)
    requires !d.bad && d.partial == START && -LIMIT < num < LIMIT
    ensures Run(d, Encode(num)) == d.(fields := d.fields + [num])
  {
    hide Run, Digits;
    ZigZagSigned(num);
    assert Pow2(0) == 1;
    RunDigits(d, ZigZag(num));
  }

  // ---- segments ----

  ghost predicate PositionsOk(d: Decoder) {
    0 <= d.col < LIMIT && 0 <= d.source < LIMIT && 0 <= d.line < LIMIT && 0 <= d.scol < LIMIT
  }

  /** Between segments: no field is pending. */
  ghost predicate Clean(d: Decoder) {
    !d.bad && d.fields == [] && d.partial == START && PositionsOk(d)
  }

  /** The bytes of one segment, as deltas against the positions of d. */
  function SegmentBytes(d: Decoder, seg: Segment): seq<Byte> {
    match seg
    case Generated(col) => Encode(col - d.col)
    case Mapped(col, source, line, scol) =>
      Encode(col - d.col) + Encode(source - d.source) + Encode(line - d.line) + Encode(scol - d.scol)
  }

  function Append(d: Decoder, seg: Segment): Decoder {
    match seg
    case Generated(col) => d.(col := col, current := d.current + [seg])
    case Mapped(col, source, line, scol) =>
      d.(col := col, source := source, line := line, scol := scol, current := d.current + [seg])
  }

  lemma RunSegment(d: Decoder, seg: Segment)
    requires Clean(d) && SegmentOk(seg, LIMIT)
    ensures Flush(Run(d, SegmentBytes(d, seg))) == Append(d, seg)
  {
    hide Run, Encode;
    match seg
    case Generated(col) =>
      RunEncode(d, col - d.col);
    case Mapped(col, source, line, scol) =>
      var a, b, c, e := col - d.col, source - d.source, line - d.line, scol - d.scol;
      RunAppend(d, Encode(a) + Encode(b) + Encode(c), Encode(e));
      RunAppend(d, Encode(a) + Encode(b), Encode(c));
      RunAppend(d, Encode(a), Encode(b));
      RunEncode(d, a);
      RunEncode(d.(fields := [a]), b);
      RunEncode(d.(fields := [a, b]), c);
      RunEncode(d.(fields := [a, b, c]), e);
      assert d.fields + [a] == [a] && [a] + [b] == [a, b] && [a, b] + [c] == [a, b, c] && [a, b, c] + [e] == [a, b, c, e];
  }

  // ---- tracking an input text with an output text ----

  function RemapSegment(seg: Segment, remap: seq<nat>): Segment
    requires seg.Mapped? ==> 0 <= seg.source < |remap|
  {
    if seg.Mapped? then seg.(source := remap[seg.source]) else seg
  }

  ghost function RemapLine(line: seq<Segment>, remap: seq<nat>): (r: seq<Segment>)
    requires LineOk(line, |remap|)
    ensures |r| == |line| && forall i :: 0 <= i < |line| ==> r[i] == RemapSegment(line[i], remap)
  {
    seq(|line|, i requires 0 <= i < |line| => RemapSegment(line[i], remap))
  }

  ghost predicate LinesOk(lines: seq<seq<Segment>>, sources: nat) {
    forall i :: 0 <= i < |lines| ==> LineOk(lines[i], sources)
  }

  ghost function RemapLines(lines: seq<seq<Segment>>, remap: seq<nat>): (r: seq<seq<Segment>>)
    requires LinesOk(lines, |remap|)
    ensures |r| == |lines| && forall i :: 0 <= i < |lines| ==> r[i] == RemapLine(lines[i], remap)
  {
    seq(|lines|, i requires 0 <= i < |lines| => RemapLine(lines[i], remap))
  }

  ghost predicate RemapOk(remap: seq<nat>) {
    forall i :: 0 <= i < |remap| ==> remap[i] < LIMIT
  }

  /** The output says of this source, after `base`, what the input has said so far, with sources renumbered. */
  ghost predicate Tracks(i: Decoder, o: Decoder, base: seq<seq<Segment>>, remap: seq<nat>) {
    && Good(i, |remap|) && Clean(o) && RemapOk(remap)
    && o.lines == base + RemapLines(i.lines, remap)
    && o.current == RemapLine(i.current, remap)
    && o.col == i.col
  }

  /** The segment that a separator or the end of the text would finish. */
  function Pending(i: Decoder): Option<Segment> {
    var f := i.fields;
    if f == [] then None
    else if |f| < 4 then Some(Generated(i.col + f[0]))
    else Some(Mapped(i.col + f[0], i.source + f[1], i.line + f[2], i.scol + f[3]))
  }

  /** What a commit writes. */
  function CommitBytes(i: Decoder, o: Decoder, remap: seq<nat>): seq<Byte>
    requires Pending(i).Some? && Pending(i).value.Mapped? ==> 0 <= Pending(i).value.source < |remap|
  {
    if Pending(i).None? then [] else SegmentBytes(o, RemapSegment(Pending(i).value, remap))
  }

  lemma FlushIsAppend(i: Decoder, n: nat)
    requires Good(Flush(i), n)
    ensures i.partial == START
    ensures Pending(i).None? ==> Flush(i) == i
    ensures Pending(i).Some? ==> Flush(i) == Append(i, Pending(i).value).(fields := []) && SegmentOk(Pending(i).value, n)
  {
    if Pending(i).Some? {
      var f := Flush(i);
      assert f.current[|f.current| - 1] == Pending(i).value;
    }
  }

  lemma RemapAppend(line: seq<Segment>, seg: Segment, remap: seq<nat>)
    requires LineOk(line, |remap|) && SegmentOk(seg, |remap|)
    ensures LineOk(line + [seg], |remap|)
    ensures RemapLine(line + [seg], remap) == RemapLine(line, remap) + [RemapSegment(seg, remap)]
  {
  }

  /** A commit followed by a flush keeps track. */
  lemma CommitTracks(i: Decoder, o: Decoder, base: seq<seq<Segment>>, remap: seq<nat>)
    requires Tracks(i, o, base, remap) && Good(Flush(i), |remap|)
    ensures Pending(i).Some? ==> SegmentOk(Pending(i).value, |remap|)
    ensures Tracks(Flush(i), Flush(Run(o, CommitBytes(i, o, remap))), base, remap)
  {
    hide Run;
    FlushIsAppend(i, |remap|);
    if Pending(i).Some? {
      var seg := Pending(i).value;
      RunSegment(o, RemapSegment(seg, remap));
      RemapAppend(i.current, seg, remap);
    } else {
      assert Run(o, []) == o by { RunNothing(o); }
    }
  }

  lemma RunNothing(d: Decoder)
    ensures Run(d, []) == d
  {
  }

  lemma EndLineTracks(i: Decoder, o: Decoder, base: seq<seq<Segment>>, remap: seq<nat>)
    requires Tracks(i, o, base, remap)
    ensures Tracks(EndLine(i), EndLine(o), base, remap)
  {
  }

  /** One separator of the input, re-encoded. */
  lemma SeparatorTracks(i: Decoder, o: Decoder, b: Byte, base: seq<seq<Segment>>, remap: seq<nat>)
    requires Tracks(i, o, base, remap) && (b == SEMICOLON || b == COMMA) && Good(Step(i, b), |remap|)
    ensures Pending(i).Some? ==> SegmentOk(Pending(i).value, |remap|)
    ensures Tracks(Step(i, b), Run(o, CommitBytes(i, o, remap) + [b]), base, remap)
  {
    hide Run, Tracks, Good, Flush;
    StepGood(i, b, |remap|);
    CommitTracks(i, o, base, remap);
    RunSnoc(o, CommitBytes(i, o, remap), b);
    if b == SEMICOLON {
      EndLineTracks(Flush(i), Flush(Run(o, CommitBytes(i, o, remap))), base, remap);
    }
  }

  /** A digit of the input writes nothing. */
  lemma DigitTracks(i: Decoder, o: Decoder, b: Byte, base: seq<seq<Segment>>, remap: seq<nat>)
    requires Tracks(i, o, base, remap) && b != SEMICOLON && b != COMMA && Good(Step(i, b), |remap|)
    ensures Tracks(Step(i, b), o, base, remap)
  {
  }

  // ---- the reader's 32-bit arithmetic ----

  /** On good text the reader's wrapping arithmetic computes exactly what the decoder does. */
  lemma DigitArithmetic(i: Decoder, b: Byte, n: nat)
    requires b != SEMICOLON && b != COMMA && Good(Step(i, b), n) && i.partial.value >= 0
    ensures
      var x := CharToInteger(b);
      var v := Add(i.partial, x);
      && x != 255 && 0 <= v
      && Step(i, b) == if Continues(x) then i.(partial := Partial(v, i.partial.shift + 5))
                       else i.(fields := i.fields + [Signed(v)], partial := START)
  {
  }

  // ---- the end of a source ----

  ghost predicate FreshColumn(d: Decoder) {
    d.partial.value >= 0 && (d.current == [] ==> d.col == 0)
  }

  lemma {:induction false} RunFreshColumn(d: Decoder, s: seq<Byte>)
    requires FreshColumn(d)
    ensures FreshColumn(Run(d, s))
    decreases |s|
  {
    if s != [] {
      assert FreshColumn(Step(d, s[0]));
      RunFreshColumn(Step(d, s[0]), s[1..]);
    }
  }

  function Semicolons(n: nat): (r: seq<Byte>)
    ensures |r| == n && forall i :: 0 <= i < n ==> r[i] == SEMICOLON
  {
    seq(n, i => SEMICOLON)
  }

  function Blank(n: nat): (r: seq<seq<Segment>>)
    ensures |r| == n && forall i :: 0 <= i < n ==> r[i] == []
  {
    seq(n, i => [])
  }

  lemma {:induction false} RunSemicolons(d: Decoder, n: nat)
    requires Clean(d) && d.current == [] && d.col == 0
    ensures Run(d, Semicolons(n)) == d.(lines := d.lines + Blank(n))
    decreases n
  {
    if n == 0 {
      assert d.lines + Blank(0) == d.lines;
    } else {
      assert Semicolons(n)[1..] == Semicolons(n - 1);
      var e := d.(lines := d.lines + [[]]);
      RunSemicolons(e, n - 1);
      assert d.lines + Blank(n) == e.lines + Blank(n - 1);
    }
  }

  /** A text fits a source of the given number of lines: nothing is mapped past the last one. */
  ghost predicate Fits(text: seq<Byte>, sources: nat, lines: nat) {
    var d := Flush(Run(INIT, text));
    Good(d, sources) && |d.lines| <= lines && (|d.lines| == lines ==> d.current == [])
  }

  ghost function Padded(d: Decoder, lines: nat): (r: seq<seq<Segment>>)
    requires |d.lines| <= lines
    ensures |r| == lines
  {
    if |d.lines| == lines then d.lines else d.lines + [d.current] + Blank(lines - |d.lines| - 1)
  }

  /** The decoded lines of a text, padded with empty lines to the length of its source. */
  ghost function LinesOf(text: seq<Byte>, lines: nat): (r: seq<seq<Segment>>)
    requires |Flush(Run(INIT, text)).lines| <= lines
    ensures |r| == lines
  {
    Padded(Flush(Run(INIT, text)), lines)
  }

  /** After the last commit and the padding, the output has gained exactly the source's lines. */
  lemma FinishTracks(text: seq<Byte>, o: Decoder, base: seq<seq<Segment>>, remap: seq<nat>, lines: nat)
    requires Fits(text, |remap|, lines) && Tracks(Run(INIT, text), o, base, remap)
    ensures LinesOk(LinesOf(text, lines), |remap|)
    ensures
      var i := Run(INIT, text);
      (Pending(i).Some? ==> SegmentOk(Pending(i).value, |remap|)) &&
      |i.lines| <= lines &&
      var o' := Run(o, CommitBytes(i, o, remap) + Semicolons(lines - |i.lines|));
      Clean(o') && o'.current == [] && o'.col == 0 && o'.lines == base + RemapLines(LinesOf(text, lines), remap)
  {
    var i := Run(INIT, text);
    RunFreshColumn(INIT, text);
    FinishOne(i, o, base, remap, lines);
  }

  lemma FinishOne(i: Decoder, o: Decoder, base: seq<seq<Segment>>, remap: seq<nat>, lines: nat)
    requires Tracks(i, o, base, remap) && Good(Flush(i), |remap|) && FreshColumn(i) && |i.lines| <= lines
    requires |i.lines| == lines ==> Flush(i).current == []
    ensures Pending(i).Some? ==> SegmentOk(Pending(i).value, |remap|)
    ensures |Flush(i).lines| <= lines && LinesOk(Padded(Flush(i), lines), |remap|)
    ensures
      var o' := Run(o, CommitBytes(i, o, remap) + Semicolons(lines - |i.lines|));
      Clean(o') && o'.current == [] && o'.col == 0 && o'.lines == base + RemapLines(Padded(Flush(i), lines), remap)
  {
    hide Run, CommitBytes;
    FlushIsAppend(i, |remap|);
    var bytes := CommitBytes(i, o, remap);
    var n := lines - |i.lines|;
    if n == 0 {
      CommitNothing(i, o, |remap|, remap);
      assert bytes + Semicolons(0) == [];
      RunNothing(o);
    } else {
      CommitTracks(i, o, base, remap);
      var f, p := Flush(i), Flush(Run(o, bytes));
      EndLineTracks(f, p, base, remap);
      var e := EndLine(p);
      assert bytes + Semicolons(n) == bytes + [SEMICOLON] + Semicolons(n - 1);
      RunAppend(o, bytes + [SEMICOLON], Semicolons(n - 1));
      RunSnoc(o, bytes, SEMICOLON);
      RunSemicolons(e, n - 1);
      PadRemap(EndLine(f).lines, n - 1, base, remap);
    }
  }

  lemma CommitNothing(i: Decoder, o: Decoder, n: nat, remap: seq<nat>)
    requires n == |remap| && Good(Flush(i), n) && FreshColumn(i) && Flush(i).current == []
    requires Pending(i).Some? ==> SegmentOk(Pending(i).value, |remap|)
    ensures CommitBytes(i, o, remap) == []
  {
  }

  lemma PadRemap(lines: seq<seq<Segment>>, n: nat, base: seq<seq<Segment>>, remap: seq<nat>)
    requires LinesOk(lines, |remap|)
    ensures LinesOk(lines + Blank(n), |remap|)
    ensures base + RemapLines(lines, remap) + Blank(n) == base + RemapLines(lines + Blank(n), remap)
  {
  }

  const FIRST := Mapped(0, 0, 0, 0)
  const SECOND := Mapped(4, 0, 1, 2)

  lemma KnownFirst()
    ensures SegmentBytes(INIT, FIRST) == ['A' as int, 'A' as int, 'A' as int, 'A' as int]
    ensures Step(Run(INIT, SegmentBytes(INIT, FIRST)), SEMICOLON) == INIT.(lines := [[FIRST]])
  {
    hide Run, Encode;
    KnownEncodings();
    RunSegment(INIT, FIRST);
    var d := Append(INIT, FIRST);
    assert d.current == [FIRST] && EndLine(d).lines == [[FIRST]];
  }

  lemma KnownSecond(d: Decoder)
    requires d == INIT.(lines := [[FIRST]])
    ensures SegmentBytes(d, SECOND) == ['I' as int, 'A' as int, 'C' as int, 'E' as int]
    ensures Flush(Run(d, SegmentBytes(d, SECOND))) == Append(d, SECOND)
  {
    hide Run, Encode;
    KnownEncodings();
    RunSegment(d, SECOND);
  }

  /** The text `AAAA;IACE`: the start of the first line maps to the start of the source, and column 4 of the second one to
      column 2 of its second line. */
  lemma KnownMeaning(text: seq<Byte>)
    requires text == ['A' as int, 'A' as int, 'A' as int, 'A' as int] + [';' as int] + ['I' as int, 'A' as int, 'C' as int, 'E' as int]
    ensures Fits(text, 1, 2) && LinesOf(text, 2) == [[Mapped(0, 0, 0, 0)], [Mapped(4, 0, 1, 2)]]
  {
    hide Run, SegmentBytes, Step, Flush;
    var d := INIT.(lines := [[FIRST]]);
    KnownFirst();
    KnownSecond(d);
    RunSnoc(INIT, SegmentBytes(INIT, FIRST), SEMICOLON);
    RunAppend(INIT, SegmentBytes(INIT, FIRST) + [SEMICOLON], SegmentBytes(d, SECOND));
    assert Flush(Run(INIT, text)) == Append(d, SECOND) && Append(d, SECOND).current == [SECOND];
    assert [[FIRST]] + [[SECOND]] + Blank(0) == [[FIRST], [SECOND]];
  }

  // ---- names ----

  datatype Named =
    | Anonymous(col: int)
    | At(col: int, name: string, line: int, scol: int)

  function Name(seg: Segment, sources: seq<string>): Named
    requires SegmentOk(seg, |sources|)
  {
    match seg
    case Generated(col) => Anonymous(col)
    case Mapped(col, source, line, scol) => At(col, sources[source], line, scol)
  }

  ghost function NameLine(line: seq<Segment>, sources: seq<string>): (r: seq<Named>)
    requires LineOk(line, |sources|)
    ensures |r| == |line| && forall i :: 0 <= i < |line| ==> r[i] == Name(line[i], sources)
  {
    seq(|line|, i requires 0 <= i < |line| => Name(line[i], sources))
  }

  ghost function NameLines(lines: seq<seq<Segment>>, sources: seq<string>): (r: seq<seq<Named>>)
    requires LinesOk(lines, |sources|)
    ensures |r| == |lines| && forall i :: 0 <= i < |lines| ==> r[i] == NameLine(lines[i], sources)
  {
    seq(|lines|, i requires 0 <= i < |lines| => NameLine(lines[i], sources))
  }

  /** `remap` sends each input index to an output index of the same name. */
  ghost predicate SameNames(input: seq<string>, remap: seq<nat>, output: seq<string>) {
    |remap| == |input| && forall i :: 0 <= i < |input| ==> remap[i] < |output| && output[remap[i]] == input[i]
  }

  lemma RemapKeepsNames(lines: seq<seq<Segment>>, input: seq<string>, remap: seq<nat>, output: seq<string>)
    requires SameNames(input, remap, output) && LinesOk(lines, |input|)
    ensures LinesOk(RemapLines(lines, remap), |output|)
    ensures NameLines(RemapLines(lines, remap), output) == NameLines(lines, input)
  {
    var r := RemapLines(lines, remap);
    forall i | 0 <= i < |lines| ensures LineOk(r[i], |output|) && NameLine(r[i], output) == NameLine(lines[i], input) {
      RemapLineKeepsNames(lines[i], input, remap, output);
    }
  }

  lemma RemapLineKeepsNames(line: seq<Segment>, input: seq<string>, remap: seq<nat>, output: seq<string>)
    requires SameNames(input, remap, output) && LineOk(line, |input|)
    ensures LineOk(RemapLine(line, remap), |output|)
    ensures NameLine(RemapLine(line, remap), output) == NameLine(line, input)
  {
  }

  /** Adding source names at the end changes no meaning. */
  lemma MoreNames(lines: seq<seq<Segment>>, sources: seq<string>, more: seq<string>)
    requires LinesOk(lines, |sources|) && sources <= more
    ensures LinesOk(lines, |more|) && NameLines(lines, more) == NameLines(lines, sources)
  {
    forall i | 0 <= i < |lines| ensures LineOk(lines[i], |more|) && NameLine(lines[i], more) == NameLine(lines[i], sources) {
      MoreNamesLine(lines[i], sources, more);
    }
  }

  lemma MoreNamesLine(line: seq<Segment>, sources: seq<string>, more: seq<string>)
    requires LineOk(line, |sources|) && sources <= more
    ensures LineOk(line, |more|) && NameLine(line, more) == NameLine(line, sources)
  {
  }

  lemma NameAppend(a: seq<seq<Segment>>, b: seq<seq<Segment>>, sources: seq<string>)
    requires LinesOk(a, |sources|) && LinesOk(b, |sources|)
    ensures LinesOk(a + b, |sources|) && NameLines(a + b, sources) == NameLines(a, sources) + NameLines(b, sources)
  {
  }
}
