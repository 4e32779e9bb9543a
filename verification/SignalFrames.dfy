/** Length-prefixed framing of the signalling stream.  The message codec is opaque: it may fail to
    encode or decode, and what is assumed of it is said where it is assumed. */
module SignalFrames {
  import opened Text
  import opened Bytes

  const MAX_FRAME: nat := 0x10_0000

  datatype Codec<!M> = Codec(marshal: M -> Option<seq<Byte>>, unmarshal: seq<Byte> -> Option<M>)

  datatype FrameError =
    | Eof             // the stream ended between frames
    | HeaderCut       // inside a header
    | BodyCut         // inside a body
    | ZeroLength
    | TooLarge
    | NotEncodable
    | NotDecodable

  /** `WriteFrame`: the bytes put on the stream. */
  function Frame<M>(codec: Codec<M>, m: M): Result<seq<Byte>, FrameError> {
    match codec.marshal(m)
    case None => Err(NotEncodable)
    case Some(body) => if |body| > MAX_FRAME then Err(TooLarge) else Ok(Put32(|body|) + body)
  }

  /** `ReadFrame`: the message and the rest of the stream. */
  function ReadFrame<M>(codec: Codec<M>, stream: seq<Byte>): (r: Result<(M, seq<Byte>), FrameError>)
    ensures r.Ok? ==> |r.value.1| < |stream|
  {
    if |stream| == 0 then Err(Eof)
    else if |stream| < 4 then Err(HeaderCut)
    else
      var n, rest := Get32(stream[..4]), stream[4..];
      if n == 0 then Err(ZeroLength)
      else if n > MAX_FRAME then Err(TooLarge)
      else if |rest| < n then Err(BodyCut)
      else
        match codec.unmarshal(rest[..n])
        case None => Err(NotDecodable)
        case Some(m) => Ok((m, rest[n..]))
  }

  /** Reading until the first error. */
  function ReadAll<M>(codec: Codec<M>, stream: seq<Byte>): (seq<M>, FrameError)
    decreases |stream|
  {
    match ReadFrame(codec, stream)
    case Err(e) => ([], e)
    case Ok((m, rest)) =>
      var (more, e) := ReadAll(codec, rest);
      ([m] + more, e)
  }

  // ----- the two ends as the source runs them -----

  class Conn {
    var data: seq<Byte>

    constructor (data: seq<Byte>)
      ensures this.data == data
    {
      this.data := data;
    }

    method Send<M>(codec: Codec<M>, m: M) returns (error: Option<FrameError>)
      modifies this
      ensures match Frame(codec, m)
              case Ok(bytes) => error.None? && data == old(data) + bytes
              case Err(e) => error == Some(e) && data == old(data)
    {
      var body := codec.marshal(m);
      if body.None? { return Some(NotEncodable); }
      if |body.value| > MAX_FRAME { return Some(TooLarge); }
      data := data + Put32(|body.value|);
      data := data + body.value;
      assert old(data) + Put32(|body.value|) + body.value == old(data) + (Put32(|body.value|) + body.value);
      return None;
    }

    /** `io.ReadFull`: takes `n` bytes, or all there are. */
    method ReadFull(n: nat) returns (bytes: seq<Byte>)
      modifies this
      ensures bytes == old(data)[..if n <= |old(data)| then n else |old(data)|]
      ensures data == old(data)[|bytes|..]
    {
      var k := if n <= |data| then n else |data|;
      bytes, data := data[..k], data[k..];
    }

    method Receive<M>(codec: Codec<M>) returns (r: Result<M, FrameError>)
      modifies this
      ensures match ReadFrame(codec, old(data))
              case Ok((m, rest)) => r == Ok(m) && data == rest
              case Err(e) => r == Err(e)
    {
      var header := ReadFull(4);
      if |header| == 0 { return Err(Eof); }
      if |header| < 4 { return Err(HeaderCut); }
      var n := Get32(header);
      if n == 0 { return Err(ZeroLength); }
      if n > MAX_FRAME { return Err(TooLarge); }
      var body := ReadFull(n);
      if |body| < n { return Err(BodyCut); }
      var m := codec.unmarshal(body);
      return if m.None? then Err(NotDecodable) else Ok(m.value);
    }
  }

  // ----- theorems -----

  /** The message can be sent and its encoding decodes to it.  An encoding is never empty. */
  predicate Sound<M(==)>(codec: Codec<M>, m: M) {
    var body := codec.marshal(m);
    body.Some? && 0 < |body.value| <= MAX_FRAME && codec.unmarshal(body.value) == Some(m)
  }

  /** The stream that sending the messages in order produces. */
  function Wire<M>(codec: Codec<M>, ms: seq<M>): seq<Byte> {
    if ms == [] then []
    else
      match Frame(codec, ms[0])
      case Err(_) => Wire(codec, ms[1..])
      case Ok(bytes) => bytes + Wire(codec, ms[1..])
  }

  lemma ReadOne<M>(codec: Codec<M>, m: M, tail: seq<Byte>)
    requires Sound(codec, m)
    ensures Frame(codec, m).Ok? && |Frame(codec, m).value| == 4 + |codec.marshal(m).value|
    ensures ReadFrame(codec, Frame(codec, m).value + tail) == Ok((m, tail))
  {
    var body := codec.marshal(m).value;
    var stream := Frame(codec, m).value + tail;
    Get32Put32(|body|);
    assert stream[..4] == Put32(|body|);
    assert stream[4..] == body + tail;
    assert (body + tail)[..|body|] == body && (body + tail)[|body|..] == tail;
  }

  /** Round trip: what was sent is received, and the bytes after it are left as they were. */
  lemma {:induction false} StreamReadsBack<M>(codec: Codec<M>, ms: seq<M>, tail: seq<Byte>)
    requires forall m <- ms :: Sound(codec, m)
    ensures var (rest, e) := ReadAll(codec, tail);
      ReadAll(codec, Wire(codec, ms) + tail) == (ms + rest, e)
    decreases ms
  {
    hide Frame, ReadFrame;
    if ms == [] {
      assert [] + tail == tail;
      assert [] + ReadAll(codec, tail).0 == ReadAll(codec, tail).0;
    } else {
      assert ms[0] in ms && forall m <- ms[1..] :: m in ms;
      var more := Wire(codec, ms[1..]) + tail;
      ReadOne(codec, ms[0], more);
      var frame := Frame(codec, ms[0]).value;
      StreamReadsBack(codec, ms[1..], tail);
      assert Wire(codec, ms) + tail == frame + more;
      assert [ms[0]] + (ms[1..] + ReadAll(codec, tail).0) == ms + ReadAll(codec, tail).0;
    }
  }

  /** The first `j` messages are what is left whole of a stream cut at `k`. */
  predicate WholeBefore<M>(codec: Codec<M>, ms: seq<M>, k: nat, j: nat) {
    j <= |ms| && |Wire(codec, ms[..j])| <= k && (j < |ms| ==> k < |Wire(codec, ms[..j + 1])|)
  }

  lemma WireCons<M>(codec: Codec<M>, m: M, ms: seq<M>)
    requires Frame(codec, m).Ok?
    ensures Wire(codec, [m] + ms) == Frame(codec, m).value + Wire(codec, ms)
  {
    assert ([m] + ms)[1..] == ms;
  }

  /** Truncation anywhere: the whole frames before the cut are received, then an error; it is a clean
      end of stream exactly when the cut is between frames. */
  lemma {:induction false} TruncatedStream<M>(codec: Codec<M>, ms: seq<M>, k: nat) returns (j: nat)
    requires (forall m <- ms :: Sound(codec, m)) && k <= |Wire(codec, ms)|
    ensures WholeBefore(codec, ms, k, j)
    ensures ReadAll(codec, Wire(codec, ms)[..k]).0 == ms[..j]
    ensures var e := ReadAll(codec, Wire(codec, ms)[..k]).1;
      if k == |Wire(codec, ms[..j])| then e == Eof else e == HeaderCut || e == BodyCut
    decreases ms
  {
    hide Frame, ReadFrame, Wire;
    if ms == [] {
      EmptyStream(codec);
      return 0;
    }
    var first, rest := ms[0], ms[1..];
    assert first in ms && forall m <- rest :: m in ms;
    ReadOne(codec, first, []);
    var frame, more := Frame(codec, first).value, Wire(codec, rest);
    assert [first] + rest == ms;
    WireCons(codec, first, rest);
    if k < |frame| {
      j := 0;
      assert Wire(codec, ms)[..k] == frame[..k];
      CutFrame(codec, first, k);
      EmptyStream(codec);
      assert ms[..1] == [first] + [] && ms[..0] == [];
      WireCons(codec, first, []);
    } else {
      var cut := more[..k - |frame|];
      var i := TruncatedStream(codec, rest, k - |frame|);
      j := i + 1;
      assert Wire(codec, ms)[..k] == frame + cut;
      ReadOne(codec, first, cut);
      assert ms[..j] == [first] + rest[..i];
      WireCons(codec, first, rest[..i]);
      if j < |ms| {
        assert ms[..j + 1] == [first] + rest[..i + 1];
        WireCons(codec, first, rest[..i + 1]);
      }
    }
  }

  lemma EmptyStream<M>(codec: Codec<M>)
    ensures Wire(codec, []) == [] && ReadFrame(codec, []) == Err(Eof)
  {
  }

  lemma CutFrame<M>(codec: Codec<M>, m: M, k: nat)
    requires Sound(codec, m) && k < |Frame(codec, m).value|
    ensures var r := ReadFrame(codec, Frame(codec, m).value[..k]);
      r == Err(if k == 0 then Eof else if k < 4 then HeaderCut else BodyCut)
  {
    var body, frame := codec.marshal(m).value, Frame(codec, m).value;
    Get32Put32(|body|);
    if k >= 4 { assert frame[..k][..4] == Put32(|body|); }
  }

  /** What a sender refuses, on the size of the encoding alone: more than 2^20 bytes. */
  lemma SentIff<M>(codec: Codec<M>, m: M)
    ensures match codec.marshal(m)
            case None => Frame(codec, m) == Err(NotEncodable)
            case Some(body) =>
              if |body| <= 1_048_576 then Frame(codec, m).Ok? && Frame(codec, m).value[4..] == body
              else Frame(codec, m) == Err(TooLarge)
  {
  }

  /** What a receiver refuses: a length of zero or over 2^20, and a body that is no message. */
  lemma RefusedFrames<M>(codec: Codec<M>, n: nat, body: seq<Byte>, tail: seq<Byte>)
    requires n < U32
    ensures n == 0 ==> ReadFrame(codec, Put32(n) + tail) == Err(ZeroLength)
    ensures n > 1_048_576 ==> ReadFrame(codec, Put32(n) + tail) == Err(TooLarge)
    ensures 0 < |body| <= 1_048_576 && codec.unmarshal(body).None? ==>
      ReadFrame(codec, Put32(|body|) + body + tail) == Err(NotDecodable)
  {
    Get32Put32(n);
    var s := Put32(n) + tail;
    assert s[..4] == Put32(n);
    if 0 < |body| <= 1_048_576 {
      Get32Put32(|body|);
      var t := Put32(|body|) + body + tail;
      assert t[..4] == Put32(|body|) && t[4..][..|body|] == body;
    }
    hide Put32, Get32;
  }
}
