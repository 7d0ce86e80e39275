/** The length-prefixed frames that leader and followers exchange over a byte stream. */
module Frames {
  import opened Basics

  type Octet = b: nat | b < 256

  const MAX_FRAME_LEN: nat := 16 * 1024 * 1024

  /** The JSON encoding of frames: decoding gives back what was encoded, and may refuse other bytes. */
  datatype Codec<!F> = Codec(encode: F -> seq<Octet>, decode: seq<Octet> -> Option<F>)

  ghost predicate Faithful<F(!new)>(codec: Codec<F>) {
    forall f :: codec.decode(codec.encode(f)) == Some(f)
  }

  /** What one read of a stream comes to. */
  datatype Read<+F> = End | Got(frame: F) | Failed

  // ---------------------------------------------------------------- the four length bytes

  function BigEndian(n: nat): (bytes: seq<Octet>)
    requires n < U32_LIMIT
    ensures |bytes| == 4
  {
    [n / 0x100_0000, n / 0x1_0000 % 0x100, n / 0x100 % 0x100, n % 0x100]
  }

  function FromBigEndian(bytes: seq<Octet>): (n: nat)
    requires |bytes| == 4
    ensures n < U32_LIMIT
  {
    var b0: int, b1: int, b2: int, b3: int := bytes[0], bytes[1], bytes[2], bytes[3];
    b0 * 0x100_0000 + b1 * 0x1_0000 + b2 * 0x100 + b3
  }

  /** The number that bytes stand for, the first one counting most. */
  function Value(bytes: seq<Octet>): nat {
    if bytes == [] then 0 else 0x100 * Value(bytes[..|bytes| - 1]) + bytes[|bytes| - 1]
  }

  lemma ValueOfFour(bytes: seq<Octet>)
    requires |bytes| == 4
    ensures Value(bytes) == FromBigEndian(bytes)
  {
    assert bytes[..3][..2] == bytes[..2] && bytes[..2][..1] == bytes[..1] && bytes[..1][..0] == [];
    var b0: int, b1: int := bytes[0], bytes[1];
    assert Value(bytes[..1]) == b0 && Value(bytes[..2]) == 0x100 * b0 + b1;
  }

  lemma LengthRoundTrip(n: nat)
    requires n < U32_LIMIT
    ensures FromBigEndian(BigEndian(n)) == n
  {
    assert n / 0x100 == n / 0x1_0000 * 0x100 + n / 0x100 % 0x100;
    assert n / 0x1_0000 == n / 0x100_0000 * 0x100 + n / 0x1_0000 % 0x100;
  }

  // ---------------------------------------------------------------- frames in a stream

  /** The length is cast to 32 bits. */
  function Written(body: seq<Octet>): seq<Octet> {
    BigEndian(|body| % U32_LIMIT) + body
  }

  /** A body and what is left of the stream. A stream that ends within the length bytes counts as ended. */
  function ReadBody(s: seq<Octet>): (Read<seq<Octet>>, seq<Octet>) {
    if |s| < 4 then (End, [])
    else
      var len := FromBigEndian(s[..4]);
      if len == 0 then (End, s[4..])
      else if len > MAX_FRAME_LEN then (Failed, s[4..])
      else if |s| < 4 + len then (Failed, [])
      else (Got(s[4..4 + len]), s[4 + len..])
  }

  function ReadFrame<F>(codec: Codec<F>, s: seq<Octet>): (Read<F>, seq<Octet>) {
    var (body, rest) := ReadBody(s);
    match body
    case End => (End, rest)
    case Failed => (Failed, rest)
    case Got(bytes) =>
      match codec.decode(bytes)
      case Some(f) => (Got(f), rest)
      case None => (Failed, rest)
  }

  /** The connection as both ends use it: what has been written and not read yet. */
  class Connection {
    var pending: seq<Octet>

    constructor ()
      ensures pending == []
    {
      pending := [];
    }

    method WriteAll(bytes: seq<Octet>)
      modifies this
      ensures pending == old(pending) + bytes
    {
      pending := pending + bytes;
    }

    method ReadExact(n: nat) returns (bytes: Option<seq<Octet>>)
      modifies this
      ensures if n <= |old(pending)| then bytes == Some(old(pending)[..n]) && pending == old(pending)[n..]
              else bytes == None && pending == []
    {
      if |pending| < n {
        pending := [];
        return None;
      }
      bytes := Some(pending[..n]);
      pending := pending[n..];
    }

    method SendFrame<F>(codec: Codec<F>, frame: F)
      modifies this
      ensures pending == old(pending) + Written(codec.encode(frame))
    {
      var buf := codec.encode(frame);
      WriteAll(BigEndian(|buf| % U32_LIMIT));
      WriteAll(buf);
    }

    method ReceiveFrame<F>(codec: Codec<F>) returns (result: Read<F>)
      modifies this
      ensures (result, pending) == ReadFrame(codec, old(pending))
    {
      var head := ReadExact(4);
      if head.None? {
        return End;
      }
      var len := FromBigEndian(head.value);
      if len == 0 {
        return End;
      }
      if len > MAX_FRAME_LEN {
        return Failed;
      }
      ghost var before := pending;
      var body := ReadExact(len);
      if body.None? {
        return Failed;
      }
      assert body.value == old(pending)[4..4 + len] && pending == old(pending)[4 + len..];
      var decoded := codec.decode(body.value);
      return if decoded.Some? then Got(decoded.value) else Failed;
    }
  }

  // ---------------------------------------------------------------- one frame

  /** On the wire a frame is four bytes that stand for the length of its body in 32 bits, and then the body. */
  lemma FrameLayout(body: seq<Octet>)
    ensures var s := Written(body);
            |s| == 4 + |body| && Value(s[..4]) == |body| % 0x1_0000_0000 && s[4..] == body
  {
    LengthRoundTrip(|body| % U32_LIMIT);
    assert Written(body)[..4] == BigEndian(|body| % U32_LIMIT);
    ValueOfFour(Written(body)[..4]);
  }

  predicate Sendable(body: seq<Octet>) {
    1 <= |body| <= MAX_FRAME_LEN
  }

  lemma HeadOfWritten(body: seq<Octet>, tail: seq<Octet>)
    ensures var s := Written(body) + tail;
            && |s| == 4 + |body| + |tail|
            && FromBigEndian(s[..4]) == |body| % U32_LIMIT && s[4..] == body + tail
  {
    LengthRoundTrip(|body| % U32_LIMIT);
    var s := Written(body) + tail;
    assert s[..4] == BigEndian(|body| % U32_LIMIT);
  }

  /** A body comes back, with the rest of the stream untouched, exactly when it has 1 to 16 MiB. */
  lemma BodyRoundTripIff(body: seq<Octet>, tail: seq<Octet>)
    ensures ReadBody(Written(body) + tail) == (Got(body), tail) <==> 1 <= |body| <= 16 * 1024 * 1024
    ensures |body| == 0 ==> ReadBody(Written(body) + tail) == (End, tail)
    ensures 16 * 1024 * 1024 < |body| < 0x1_0000_0000 ==> ReadBody(Written(body) + tail).0 == Failed
  {
    HeadOfWritten(body, tail);
    var s := Written(body) + tail;
    if Sendable(body) {
      assert s[4..4 + |body|] == body && s[4 + |body|..] == tail;
    } else {
      var len := |body| % U32_LIMIT;
      assert len == |body| ==> len == 0 || len > MAX_FRAME_LEN;
    }
  }

  /** A frame cut short reads as the end of the stream when the cut is within the length bytes, else as a
      failure. */
  lemma CutFrame(body: seq<Octet>, n: nat)
    requires Sendable(body) && n < 4 + |body|
    ensures ReadBody(Written(body)[..n]).0 == if n < 4 then End else Failed
  {
    HeadOfWritten(body, []);
    assert Written(body) + [] == Written(body);
    if n >= 4 {
      assert Written(body)[..n][..4] == Written(body)[..4];
    }
  }

  // ---------------------------------------------------------------- whole streams

  function Stream<F>(codec: Codec<F>, frames: seq<F>): seq<Octet> {
    if frames == [] then [] else Written(codec.encode(frames[0])) + Stream(codec, frames[1..])
  }

  /** Reads until the stream ends or a read fails; the flag tells which. */
  function ReadAll<F>(codec: Codec<F>, s: seq<Octet>): (seq<F>, bool)
    decreases |s|
  {
    var (result, rest) := ReadFrame(codec, s);
    match result
    case End => ([], true)
    case Failed => ([], false)
    case Got(f) =>
      var (frames, clean) := ReadAll(codec, rest);
      ([f] + frames, clean)
  }

  ghost predicate AllSendable<F>(codec: Codec<F>, frames: seq<F>) {
    forall f | f in frames :: Sendable(codec.encode(f))
  }

  lemma ReadOne<F(!new)>(codec: Codec<F>, f: F, tail: seq<Octet>)
    requires Faithful(codec) && Sendable(codec.encode(f))
    ensures ReadFrame(codec, Written(codec.encode(f)) + tail) == (Got(f), tail)
    ensures var (frames, clean) := ReadAll(codec, tail);
            ReadAll(codec, Written(codec.encode(f)) + tail) == ([f] + frames, clean)
  {
    BodyRoundTripIff(codec.encode(f), tail);
  }

  /** Whatever follows it, a stream of frames reads back as those frames and then as what follows. */
  lemma {:induction false} StreamThen<F(!new)>(codec: Codec<F>, frames: seq<F>, tail: seq<Octet>)
    requires Faithful(codec) && AllSendable(codec, frames)
    ensures var (more, clean) := ReadAll(codec, tail);
            ReadAll(codec, Stream(codec, frames) + tail) == (frames + more, clean)
  {
    var (more, clean) := ReadAll(codec, tail);
    if frames == [] {
      assert Stream(codec, frames) + tail == tail && frames + more == more;
    } else {
      var first := frames[0];
      var rest := Stream(codec, frames[1..]);
      assert first in frames;
      StreamThen(codec, frames[1..], tail);
      ReadOne(codec, first, rest + tail);
      Regroup(Written(codec.encode(first)), rest, tail);
      Regroup([first], frames[1..], more);
      assert [first] + frames[1..] == frames;
    }
  }

  /** Every sequence of frames reads back as itself and then as a clean end. */
  lemma StreamRoundTrip<F(!new)>(codec: Codec<F>, frames: seq<F>)
    requires Faithful(codec) && AllSendable(codec, frames)
    ensures ReadAll(codec, Stream(codec, frames)) == (frames, true)
  {
    StreamThen(codec, frames, []);
    assert Stream(codec, frames) + [] == Stream(codec, frames) && frames + [] == frames;
  }

  /** Which frame a cut falls into, and how far. */
  lemma {:induction false} CutFallsInto<F(!new)>(codec: Codec<F>, frames: seq<F>, k: nat) returns (i: nat, n: nat)
    requires AllSendable(codec, frames) && k < |Stream(codec, frames)|
    ensures i < |frames| && n < 4 + |codec.encode(frames[i])|
    ensures Stream(codec, frames)[..k] == Stream(codec, frames[..i]) + Written(codec.encode(frames[i]))[..n]
  {
    var first := Written(codec.encode(frames[0]));
    if k < |first| {
      i, n := 0, k;
      assert frames[..0] == [] && Stream(codec, frames)[..k] == first[..k];
    } else {
      var i', n' := CutFallsInto(codec, frames[1..], k - |first|);
      i, n := i' + 1, n';
      assert frames[..i][1..] == frames[1..][..i'];
      assert Stream(codec, frames)[..k] == first + Stream(codec, frames[1..])[..k - |first|];
    }
  }

  /** A stream cut anywhere yields the complete frames before the cut and nothing else: then a clean end if
      the cut is between frames or within length bytes, an error if it is within a body. */
  lemma CutStream<F(!new)>(codec: Codec<F>, frames: seq<F>, k: nat) returns (i: nat, n: nat)
    requires Faithful(codec) && AllSendable(codec, frames) && k < |Stream(codec, frames)|
    ensures i < |frames| && n < 4 + |codec.encode(frames[i])|
    ensures k == |Stream(codec, frames[..i])| + n
    ensures ReadAll(codec, Stream(codec, frames)[..k]) == (frames[..i], n < 4)
  {
    i, n := CutFallsInto(codec, frames, k);
    var cut := Written(codec.encode(frames[i]))[..n];
    CutFrame(codec.encode(frames[i]), n);
    assert ReadAll(codec, cut) == ([], n < 4);
    StreamThen(codec, frames[..i], cut);
    assert frames[..i] + [] == frames[..i];
  }
}
