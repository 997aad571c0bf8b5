/** Streaming message decoding: frames do not depend on how the bytes were split into reads. */
module Framing {

  type Bytes = seq<bv8>

  /** What parsing the front of a buffer gives: not enough bytes, an object that took `len` bytes, or bad data. */
  datatype Parse<+T> = Incomplete | Malformed | Object(obj: T, len: nat)

  type Parser<!T> = Bytes -> Parse<T>

  datatype Frame<+T> = Frame(obj: T, bytes: Bytes)

  /** The frames decoded, the bytes kept, and whether decoding can go on. */
  datatype Drained<+T> = Drained(frames: seq<Frame<T>>, rest: Bytes, ok: bool)

  /** An object is read from a non-empty prefix, and later bytes change neither an object nor an error. */
  ghost predicate Streaming<T(!new)>(parse: Parser<T>) {
    && (forall b :: parse(b).Object? ==> 0 < parse(b).len <= |b|)
    && (forall b, t :: !parse(b).Incomplete? ==> parse(b + t) == parse(b))
  }

  /** Decodes frame after frame until bytes are missing or bad. */
  ghost function Drain<T(!new)>(parse: Parser<T>, b: Bytes): Drained<T>
    requires Streaming(parse)
    decreases |b|
  {
    match parse(b)
    case Incomplete => Drained([], b, true)
    case Malformed => Drained([], b, false)
    case Object(obj, len) =>
      var d := Drain(parse, b[len..]);
      Drained([Frame(obj, b[..len])] + d.frames, d.rest, d.ok)
  }

  /** Draining again after more bytes continues where the first drain stopped. */
  lemma {:induction false} DrainAppend<T(!new)>(parse: Parser<T>, b: Bytes, t: Bytes)
    requires Streaming(parse)
    ensures
      var first := Drain(parse, b);
      if first.ok then
        var more := Drain(parse, first.rest + t);
        Drain(parse, b + t) == Drained(first.frames + more.frames, more.rest, more.ok)
      else Drain(parse, b + t) == Drained(first.frames, first.rest + t, false)
    decreases |b|
  {
    match parse(b)
    case Incomplete =>
      assert [] + Drain(parse, b + t).frames == Drain(parse, b + t).frames;
    case Malformed =>
      assert parse(b + t) == parse(b);
    case Object(obj, len) =>
      assert parse(b + t) == parse(b);
      assert (b + t)[..len] == b[..len] && (b + t)[len..] == b[len..] + t;
      DrainAppend(parse, b[len..], t);
      var first := Drain(parse, b[len..]);
      if first.ok {
        var more := Drain(parse, first.rest + t);
        assert [Frame(obj, b[..len])] + (first.frames + more.frames) == [Frame(obj, b[..len])] + first.frames + more.frames;
      }
  }

  /** What the receive loop does with a sequence of reads; it stops at the first error. */
  ghost function Feed<T(!new)>(parse: Parser<T>, buffer: Bytes, chunks: seq<Bytes>): Drained<T>
    requires Streaming(parse)
    decreases |chunks|
  {
    if chunks == [] then Drained([], buffer, true)
    else
      var d := Drain(parse, buffer + chunks[0]);
      if !d.ok then d
      else
        var more := Feed(parse, d.rest, chunks[1..]);
        Drained(d.frames + more.frames, more.rest, more.ok)
  }

  function Concat(chunks: seq<Bytes>): Bytes {
    if chunks == [] then [] else chunks[0] + Concat(chunks[1..])
  }

  /** Frames and outcome depend only on the concatenated bytes, and without an error so does what stays buffered. */
  lemma {:induction false} ChunkingIsIrrelevant<T(!new)>(parse: Parser<T>, buffer: Bytes, chunks: seq<Bytes>)
    requires Streaming(parse) && parse(buffer).Incomplete?
    ensures
      var fed, whole := Feed(parse, buffer, chunks), Drain(parse, buffer + Concat(chunks));
      fed.frames == whole.frames && fed.ok == whole.ok && (fed.ok ==> fed.rest == whole.rest)
    decreases |chunks|
  {
    hide Streaming, Drain;
    if chunks == [] {
      assert buffer + [] == buffer;
      DrainIncomplete(parse, buffer);
    } else {
      var d := Drain(parse, buffer + chunks[0]);
      DrainAppend(parse, buffer + chunks[0], Concat(chunks[1..]));
      assert buffer + Concat(chunks) == buffer + chunks[0] + Concat(chunks[1..]);
      if d.ok {
        DrainLeavesIncomplete(parse, buffer + chunks[0]);
        ChunkingIsIrrelevant(parse, d.rest, chunks[1..]);
      }
    }
  }

  lemma DrainIncomplete<T(!new)>(parse: Parser<T>, b: Bytes)
    requires Streaming(parse) && parse(b).Incomplete?
    ensures Drain(parse, b) == Drained([], b, true)
  {
  }

  /** Only an incomplete suffix stays in the buffer. */
  lemma {:induction false} DrainLeavesIncomplete<T(!new)>(parse: Parser<T>, b: Bytes)
    requires Streaming(parse)
    ensures var d := Drain(parse, b); d.ok ==> parse(d.rest).Incomplete?
    decreases |b|
  {
    if parse(b).Object? { DrainLeavesIncomplete(parse, b[parse(b).len..]); }
  }

  // ---- encoded messages ----

  /** Each encoding parses back, whatever follows, and each strict prefix of one is incomplete. */
  ghost predicate Encodes<T(!new)>(parse: Parser<T>, encode: T -> Bytes) {
    && (forall m :: parse(encode(m)) == Object(m, |encode(m)|))
    && (forall m, k :: 0 <= k < |encode(m)| ==> parse(encode(m)[..k]).Incomplete?)
  }

  ghost function EncodeAll<T(!new)>(encode: T -> Bytes, ms: seq<T>): Bytes {
    if ms == [] then [] else encode(ms[0]) + EncodeAll(encode, ms[1..])
  }

  ghost function Frames<T(!new)>(encode: T -> Bytes, ms: seq<T>): seq<Frame<T>> {
    if ms == [] then [] else [Frame(ms[0], encode(ms[0]))] + Frames(encode, ms[1..])
  }

  lemma {:induction false} DrainEncoded<T(!new)>(parse: Parser<T>, encode: T -> Bytes, ms: seq<T>, tail: Bytes)
    requires Streaming(parse) && Encodes(parse, encode) && !parse(tail).Object?
    ensures Drain(parse, EncodeAll(encode, ms) + tail) == Drained(Frames(encode, ms), tail, parse(tail).Incomplete?)
    decreases |ms|
  {
    if ms == [] {
      assert [] + tail == tail;
    } else {
      var head, rest := encode(ms[0]), EncodeAll(encode, ms[1..]);
      assert EncodeAll(encode, ms) + tail == head + (rest + tail);
      assert parse(head + (rest + tail)) == parse(head);
      assert (head + (rest + tail))[..|head|] == head && (head + (rest + tail))[|head|..] == rest + tail;
      DrainEncoded(parse, encode, ms[1..], tail);
    }
  }

  /** However the encodings of some messages, followed by part of another one, are split into reads, the loop yields
      exactly those messages with their exact bytes and keeps the part. */
  lemma EveryMessageOnce<T(!new)>(parse: Parser<T>, encode: T -> Bytes, ms: seq<T>, next: T, k: nat, chunks: seq<Bytes>)
    requires Streaming(parse) && Encodes(parse, encode) && k < |encode(next)|
    requires Concat(chunks) == EncodeAll(encode, ms) + encode(next)[..k]
    ensures Feed(parse, [], chunks) == Drained(Frames(encode, ms), encode(next)[..k], true)
  {
    assert encode(next)[..0] == [];
    assert parse([]).Incomplete?;
    ChunkingIsIrrelevant(parse, [], chunks);
    assert [] + Concat(chunks) == Concat(chunks);
    DrainEncoded(parse, encode, ms, encode(next)[..k]);
  }

  /** Bad data behind some messages ends the loop with an error, after exactly those messages, however it was split. */
  lemma BadDataEnds<T(!new)>(parse: Parser<T>, encode: T -> Bytes, ms: seq<T>, bad: Bytes, chunks: seq<Bytes>)
    requires Streaming(parse) && Encodes(parse, encode) && parse([]).Incomplete? && parse(bad).Malformed?
    requires Concat(chunks) == EncodeAll(encode, ms) + bad
    ensures Feed(parse, [], chunks).frames == Frames(encode, ms) && !Feed(parse, [], chunks).ok
  {
    hide Streaming, Encodes, Drain, Feed;
    ChunkingIsIrrelevant(parse, [], chunks);
    assert [] + Concat(chunks) == Concat(chunks);
    DrainEncoded(parse, encode, ms, bad);
  }

  // ---- the decoder ----

  datatype Decoded<+T> = NeedMore | Bad | Got(frame: Frame<T>)

  class MsgPackReader<T(!new)> {
    const parse: Parser<T>
    var buffer: Bytes

    constructor (parse: Parser<T>)
      ensures this.parse == parse && buffer == []
    {
      this.parse, buffer := parse, [];
    }

    /** One decode: takes the object's exact bytes off the front of the buffer. */
    method Decode() returns (r: Decoded<T>)
      requires Streaming(parse)
      modifies this`buffer
      ensures parse(old(buffer)).Incomplete? ==> r.NeedMore? && buffer == old(buffer)
      ensures parse(old(buffer)).Malformed? ==> r.Bad? && buffer == old(buffer)
      ensures parse(old(buffer)).Object? ==>
        r.Got? && r.frame.obj == parse(old(buffer)).obj && |buffer| < |old(buffer)| && r.frame.bytes + buffer == old(buffer)
        && |r.frame.bytes| == parse(old(buffer)).len
    {
      match parse(buffer)
      case Incomplete => return NeedMore;
      case Malformed => return Bad;
      case Object(obj, len) =>
        var vec := buffer[..len];
        assert vec + buffer[len..] == buffer;
        buffer := buffer[len..];
        return Got(Frame(obj, vec));
    }

    /** One read: appends the bytes and dispatches frames until more bytes are needed or the data is bad. */
    method OnRead(chunk: Bytes) returns (frames: seq<Frame<T>>, ok: bool)
      requires Streaming(parse)
      modifies this`buffer
      ensures Drained(frames, buffer, ok) == Drain(parse, old(buffer) + chunk)
    {
      buffer := buffer + chunk;
      frames := [];
      ghost var whole := Drain(parse, buffer);
      assert [] + whole.frames == whole.frames;
      while true
        invariant whole == Drained(frames + Drain(parse, buffer).frames, Drain(parse, buffer).rest, Drain(parse, buffer).ok)
        decreases |buffer|
      {
        ghost var before := buffer;
        var r := Decode();
        match r
        case NeedMore => return frames, true;
        case Bad => return frames, false;
        case Got(frame) =>
          var len := |frame.bytes|;
          assert before[..len] == frame.bytes && before[len..] == buffer;
          assert frames + ([frame] + Drain(parse, buffer).frames) == frames + [frame] + Drain(parse, buffer).frames;
          frames := frames + [frame];
      }
    }
  }

  /** The receive loop over a whole connection. */
  method Receive<T(!new)>(parse: Parser<T>, chunks: seq<Bytes>) returns (frames: seq<Frame<T>>, ok: bool, rest: Bytes)
    requires Streaming(parse)
    ensures Drained(frames, rest, ok) == Feed(parse, [], chunks)
  {
    var reader := new MsgPackReader(parse);
    frames, ok := [], true;
    ghost var whole := Feed(parse, [], chunks);
    assert chunks[0..] == chunks && [] + whole.frames == whole.frames;
    for i := 0 to |chunks|
      invariant reader.parse == parse
      invariant var more := Feed(parse, reader.buffer, chunks[i..]); whole == Drained(frames + more.frames, more.rest, more.ok)
    {
      assert chunks[i..][0] == chunks[i] && chunks[i..][1..] == chunks[i + 1..];
      ghost var before := frames;
      var got;
      got, ok := reader.OnRead(chunks[i]);
      frames := frames + got;
      if !ok {
        return frames, false, reader.buffer;
      }
      ghost var more := Feed(parse, reader.buffer, chunks[i + 1..]);
      assert before + (got + more.frames) == before + got + more.frames;
    }
    assert chunks[|chunks|..] == [];
    return frames, true, reader.buffer;
  }
}
