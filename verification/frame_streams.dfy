/** Taking frames off a byte stream that arrives in arbitrary pieces, for any rule that says what the front of a buffer holds. */
module FrameStreams {
  import opened Wrappers

  /** What the front of a buffer holds: too little, a frame out of bounds, or a frame of `length` bytes. */
  datatype Front<+T> = NeedMore | OutOfBounds | Whole(frame: T, length: nat)

  /** The frames a buffer yields, what stays in it, and whether a frame out of bounds stopped it. */
  datatype Consumed<+T> = Consumed(frames: seq<T>, rest: seq<byte>, stopped: bool)

  /** A whole frame is some bytes of the buffer. */
  ghost predicate Bounded<T(!new)>(front: seq<byte> -> Front<T>) {
    forall x :: front(x).Whole? ==> 0 < front(x).length <= |x|
  }

  /** Bytes arriving later do not change what is already at the front. */
  ghost predicate Stable<T(!new)>(front: seq<byte> -> Front<T>) {
    forall a, b :: StableAt(front, a, b)
  }

  predicate StableAt<T(==)>(front: seq<byte> -> Front<T>, a: seq<byte>, b: seq<byte>) {
    !front(a).NeedMore? ==> front(a + b) == front(a)
  }

  function Consume<T(!new)>(front: seq<byte> -> Front<T>, buffer: seq<byte>): Consumed<T>
    requires Bounded(front)
    decreases |buffer|
  {
    match front(buffer)
    case NeedMore => Consumed([], buffer, false)
    case OutOfBounds => Consumed([], buffer, true)
    case Whole(frame, length) =>
      var c := Consume(front, buffer[length..]);
      Consumed([frame] + c.frames, c.rest, c.stopped)
  }

  /** What a buffer yields after frames already taken from before it. */
  function After<T>(taken: seq<T>, c: Consumed<T>): Consumed<T> {
    Consumed(taken + c.frames, c.rest, c.stopped)
  }

  lemma AfterNothing<T>(c: Consumed<T>)
    ensures After([], c) == c
  {}

  lemma NothingAfter<T>(taken: seq<T>, rest: seq<byte>, stopped: bool)
    ensures After(taken, Consumed([], rest, stopped)) == Consumed(taken, rest, stopped)
  {}

  lemma AfterTwice<T>(a: seq<T>, b: seq<T>, c: Consumed<T>)
    ensures After(a, After(b, c)) == After(a + b, c)
  {
    ConcatAssociates(a, b, c.frames);
  }

  lemma ConsumeWhole<T(!new)>(front: seq<byte> -> Front<T>, buffer: seq<byte>, rest: seq<byte>)
    requires Bounded(front) && front(buffer).Whole? && rest == buffer[front(buffer).length..]
    ensures Consume(front, buffer) == After([front(buffer).frame], Consume(front, rest))
  {}

  /** Splitting the stream anywhere gives the same frames: consuming can stop and resume. */
  lemma {:induction false} ConsumeResumes<T(!new)>(front: seq<byte> -> Front<T>, a: seq<byte>, b: seq<byte>)
    requires Bounded(front) && Stable(front)
    ensures var first := Consume(front, a);
            Consume(front, a + b) == After(first.frames, Consume(front, first.rest + b))
    decreases |a|
  {
    if front(a).Whole? {
      var frame, tail := front(a).frame, a[front(a).length..];
      assert StableAt(front, a, b);
      assert (a + b)[front(a).length..] == tail + b;
      ConsumeResumes(front, tail, b);
      ConsumeWhole(front, a, tail);
      ConsumeWhole(front, a + b, tail + b);
      var c := Consume(front, tail);
      AfterTwice([frame], c.frames, Consume(front, c.rest + b));
    } else {
      AfterNothing(Consume(front, a + b));
    }
  }

  ghost function Flatten(chunks: seq<seq<byte>>): seq<byte> {
    if chunks == [] then [] else chunks[0] + Flatten(chunks[1..])
  }

  /** Handling data events one by one, from a buffer. */
  ghost function Feed<T(!new)>(front: seq<byte> -> Front<T>, buffer: seq<byte>, chunks: seq<seq<byte>>): Consumed<T>
    requires Bounded(front)
    decreases |chunks|
  {
    if chunks == [] then Consumed([], buffer, front(buffer).OutOfBounds?)
    else
      var c := Consume(front, buffer + chunks[0]);
      After(c.frames, Feed(front, c.rest, chunks[1..]))
  }

  lemma {:induction false} ConsumeLeavesNoFrame<T(!new)>(front: seq<byte> -> Front<T>, buffer: seq<byte>)
    requires Bounded(front)
    ensures !front(Consume(front, buffer).rest).Whole?
    decreases |buffer|
  {
    if front(buffer).Whole? { ConsumeLeavesNoFrame(front, buffer[front(buffer).length..]); }
  }

  /** For any bytes at all, how they are cut into data events makes no difference. */
  lemma {:induction false} ChunkingIsInvisible<T(!new)>(front: seq<byte> -> Front<T>, buffer: seq<byte>, chunks: seq<seq<byte>>)
    requires Bounded(front) && Stable(front) && !front(buffer).Whole?
    ensures Feed(front, buffer, chunks) == Consume(front, buffer + Flatten(chunks))
    decreases |chunks|
  {
    if chunks == [] {
      assert buffer + Flatten(chunks) == buffer;
      AfterNothing(Consume(front, buffer));
    } else {
      var arrived, rest := buffer + chunks[0], Flatten(chunks[1..]);
      var c := Consume(front, arrived);
      ConsumeLeavesNoFrame(front, arrived);
      ChunkingIsInvisible(front, c.rest, chunks[1..]);
      ConsumeResumes(front, arrived, rest);
      ConcatAssociates(buffer, chunks[0], rest);
    }
  }

  lemma ConcatAssociates<T>(a: seq<T>, b: seq<T>, c: seq<T>)
    ensures a + (b + c) == a + b + c
  {}

  ghost function EncodeAll<T>(encode: T -> seq<byte>, frames: seq<T>): seq<byte> {
    if frames == [] then [] else encode(frames[0]) + EncodeAll(encode, frames[1..])
  }

  /** Wherever it stands, the encoding of `frame` is read back as `frame`. */
  ghost predicate Decodes<T(!new)>(front: seq<byte> -> Front<T>, encode: T -> seq<byte>, frame: T) {
    forall more :: front(encode(frame) + more) == Whole(frame, |encode(frame)|)
  }

  lemma {:induction false} ConsumeEncoded<T(!new)>(front: seq<byte> -> Front<T>, encode: T -> seq<byte>, frames: seq<T>, cut: seq<byte>)
    requires Bounded(front) && front(cut).NeedMore?
    requires forall i | 0 <= i < |frames| :: Decodes(front, encode, frames[i])
    ensures Consume(front, EncodeAll(encode, frames) + cut) == Consumed(frames, cut, false)
  {
    if frames == [] {
      assert EncodeAll(encode, frames) + cut == cut;
    } else {
      var first := encode(frames[0]);
      var more := EncodeAll(encode, frames[1..]) + cut;
      assert EncodeAll(encode, frames) + cut == first + more;
      assert Decodes(front, encode, frames[0]);
      assert (first + more)[|first|..] == more;
      ConsumeEncoded(front, encode, frames[1..], cut);
    }
  }

  lemma EncodeAllCons<T>(encode: T -> seq<byte>, frame: T, frames: seq<T>)
    ensures EncodeAll(encode, [frame] + frames) == encode(frame) + EncodeAll(encode, frames)
  {
    assert ([frame] + frames)[1..] == frames;
  }

  lemma TakeThenDrop<T>(s: seq<T>, n: nat)
    requires n <= |s|
    ensures s[..n] + s[n..] == s
  {}

  /** The buffer is always the unconsumed suffix of what arrived, and holds no whole frame. */
  lemma {:induction false} RestIsSuffix<T(!new)>(front: seq<byte> -> Front<T>, encode: T -> seq<byte>, buffer: seq<byte>)
    requires Bounded(front)
    requires forall x :: front(x).Whole? ==> encode(front(x).frame) == x[..front(x).length]
    ensures var c := Consume(front, buffer);
            EncodeAll(encode, c.frames) + c.rest == buffer && !front(c.rest).Whole?
    decreases |buffer|
  {
    if front(buffer).Whole? {
      var length, frame := front(buffer).length, front(buffer).frame;
      var tail := buffer[length..];
      RestIsSuffix(front, encode, tail);
      ConsumeWhole(front, buffer, tail);
      var c := Consume(front, tail);
      EncodeAllCons(encode, frame, c.frames);
      ConcatAssociates(encode(frame), EncodeAll(encode, c.frames), c.rest);
      TakeThenDrop(buffer, length);
    }
  }
}
