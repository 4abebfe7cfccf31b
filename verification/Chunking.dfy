/**
 One writer, no races: what a byte stream parses to does not depend on how it was cut into
 writes. The session buffer with its in-place growth and shift implements the parser.
 */
module Chunking {
  import opened Bytes
  import opened Wire
  import opened Ingest

  /** The frames parsed off the front, the leftover, and whether no reset was needed. */
  datatype Parsed = Parsed(frames: seq<seq<Byte>>, rest: seq<Byte>, clean: bool)

  /** One-shot parsing: extract while a whole frame is at the head; a bad header discards everything. */
  function Parse(buf: seq<Byte>): (p: Parsed)
    ensures |p.rest| <= |buf|
    decreases |buf|
  {
    match HeadOf(buf)
    case NeedMore => Parsed([], buf, true)
    case Bad => Parsed([], [], false)
    case Frame(n) => var p := Parse(buf[n..]); p.(frames := [buf[..n]] + p.frames)
  }

  lemma ParseUnfolds(buf: seq<Byte>)
    ensures match HeadOf(buf)
            case NeedMore => Parse(buf) == Parsed([], buf, true)
            case Bad => Parse(buf) == Parsed([], [], false)
            case Frame(n) => Parse(buf) == Parse(buf[n..]).(frames := [buf[..n]] + Parse(buf[n..]).frames)
  {
  }

  /** Parsing write by write, each write on top of the leftover of the one before. */
  function Feed(writes: seq<seq<Byte>>): Parsed
    decreases |writes|
  {
    if writes == [] then Parsed([], [], true)
    else
      var before := Feed(writes[..|writes| - 1]);
      var after := Parse(before.rest + writes[|writes| - 1]);
      Parsed(before.frames + after.frames, after.rest, before.clean && after.clean)
  }

  /** More bytes never change what the head was already recognised as. */
  lemma HeadIsStable(a: seq<Byte>, b: seq<Byte>)
    ensures !HeadOf(a).NeedMore? ==> HeadOf(a + b) == HeadOf(a)
  {
    if |a| >= HEADER_BYTES {
      assert (a + b)[..HEADER_BYTES] == a[..HEADER_BYTES];
      SameHeader(a, a + b);
    }
  }

  function Prepend(frames: seq<seq<Byte>>, p: Parsed): Parsed {
    Parsed(frames + p.frames, p.rest, p.clean)
  }

  lemma PrependTwice(first: seq<Byte>, rest: seq<seq<Byte>>, p: Parsed)
    ensures Prepend([first], Prepend(rest, p)) == Prepend([first] + rest, p)
  {
    assert [first] + (rest + p.frames) == ([first] + rest) + p.frames;
  }

  lemma ParseTakesFrame(stream: seq<Byte>, n: nat)
    requires HeadOf(stream) == Frame(n)
    ensures Parse(stream) == Prepend([stream[..n]], Parse(stream[n..]))
  {
    ParseUnfolds(stream);
  }

  /** Parsing `a` and then `b` on top of the leftover is parsing `a + b`. */
  lemma {:induction false} ParseSplits(a: seq<Byte>, b: seq<Byte>)
    requires Parse(a + b).clean
    ensures Parse(a).clean
    ensures Parse(a + b) == Prepend(Parse(a).frames, Parse(Parse(a).rest + b))
    decreases |a|
  {
    HeadIsStable(a, b);
    match HeadOf(a)
    case NeedMore => assert [] + Parse(a + b).frames == Parse(a + b).frames;
    case Bad => ParseUnfolds(a + b);
    case Frame(n) =>
      assert (a + b)[..n] == a[..n] && (a + b)[n..] == a[n..] + b;
      ParseTakesFrame(a, n);
      ParseTakesFrame(a + b, n);
      ParseSplits(a[n..], b);
      PrependTwice(a[..n], Parse(a[n..]).frames, Parse(Parse(a[n..]).rest + b));
  }

  /** Every way of cutting a stream that parses without a reset gives the same frames and leftover. */
  lemma {:induction false} ChunkingDoesNotMatter(writes: seq<seq<Byte>>)
    requires Parse(Flatten(writes)).clean
    ensures Feed(writes) == Parse(Flatten(writes))
    decreases |writes|
  {
    if writes == [] {
      assert Parse([]) == Parsed([], [], true);
    } else {
      var front, last := writes[..|writes| - 1], writes[|writes| - 1];
      ParseSplits(Flatten(front), last);
      ChunkingDoesNotMatter(front);
    }
  }

  /** A frame as try_process_inbuf takes one: its header is acceptable and announces its own length. */
  predicate Whole(f: seq<Byte>) {
    HeadOf(f) == Frame(|f|) && |f| >= HEADER_BYTES
  }

  lemma ParseFrameThen(f: seq<Byte>, rest: seq<Byte>)
    requires Whole(f)
    ensures Parse(f + rest) == Parse(rest).(frames := [f] + Parse(rest).frames)
  {
    HeadIsStable(f, rest);
    assert (f + rest)[..|f|] == f && (f + rest)[|f|..] == rest;
  }

  /** Frames back to back, then `tail`. */
  function Stream(frames: seq<seq<Byte>>, tail: seq<Byte>): seq<Byte>
    decreases |frames|
  {
    if frames == [] then tail else frames[0] + Stream(frames[1..], tail)
  }

  lemma {:induction false} StreamIsFlatten(frames: seq<seq<Byte>>, tail: seq<Byte>)
    ensures Stream(frames, tail) == Flatten(frames) + tail
    decreases |frames|
  {
    if frames != [] {
      StreamIsFlatten(frames[1..], tail);
      FlattenCons(frames[0], frames[1..]);
      assert frames == [frames[0]] + frames[1..];
    }
  }

  lemma ParseShortOfAFrame(tail: seq<Byte>)
    requires HeadOf(tail).NeedMore?
    ensures Parse(tail) == Parsed([], tail, true)
  {
  }

  /** The streams that parse cleanly: whole frames, then a proper prefix of one. */
  lemma {:induction false} WholeFramesParse(frames: seq<seq<Byte>>, tail: seq<Byte>)
    requires forall f | f in frames :: Whole(f)
    requires HeadOf(tail).NeedMore?
    ensures Parse(Stream(frames, tail)) == Parsed(frames, tail, true)
    decreases |frames|
  {
    if frames == [] {
      ParseShortOfAFrame(tail);
    } else {
      var first, rest := frames[0], frames[1..];
      assert frames == [first] + rest;
      WholeFramesParse(rest, tail);
      ParseFrameThen(first, Stream(rest, tail));
    }
  }

  lemma {:induction false} FlattenCons<T>(first: seq<T>, rest: seq<seq<T>>)
    ensures Flatten([first] + rest) == first + Flatten(rest)
    decreases |rest|
  {
    if rest == [] {
      FlattenSnoc([], first);
      assert [first] + rest == [] + [first];
    } else {
      var front, last := rest[..|rest| - 1], rest[|rest| - 1];
      assert [first] + rest == ([first] + front) + [last];
      FlattenSnoc([first] + front, last);
      FlattenCons(first, front);
    }
  }

  /** Together: however such a stream is cut into writes, exactly its frames come out. */
  lemma FramesSurviveAnyChunking(frames: seq<seq<Byte>>, tail: seq<Byte>, writes: seq<seq<Byte>>)
    requires forall f | f in frames :: Whole(f)
    requires HeadOf(tail).NeedMore?
    requires Flatten(writes) == Flatten(frames) + tail
    ensures Feed(writes) == Parsed(frames, tail, true)
  {
    StreamIsFlatten(frames, tail);
    WholeFramesParse(frames, tail);
    ChunkingDoesNotMatter(writes);
  }
}
