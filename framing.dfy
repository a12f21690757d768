/**
 * Request framing: the `_request_stream` generator. The first request bundles
 * the stream metadata with the first chunk read; each later request, produced
 * once per loop check that finds the stop flag unset, carries only audio.
 */
module Framing {
  import opened Messages
  import opened Signal
  import opened Audio

  function Metadata(rate: int): InitialRecognizeRequest
  {
    InitialRecognizeRequest(LINEAR16, rate)
  }

  function AudioOnly(chunk: Chunk): RecognizeRequest
  {
    RecognizeRequest(None, Some(AudioRequest(chunk)))
  }

  /** One audio-only request per chunk, in order. */
  function AudioOnlyRequests(chunks: seq<Chunk>): (rs: seq<RecognizeRequest>)
    ensures |rs| == |chunks|
    ensures forall k :: 0 <= k < |rs| ==> rs[k] == AudioOnly(chunks[k])
  {
    if chunks == [] then [] else [AudioOnly(chunks[0])] + AudioOnlyRequests(chunks[1..])
  }

  /** The requests yielded once the chunks `delivered` have been read from the device. */
  function Framed(rate: int, delivered: seq<Chunk>): seq<RecognizeRequest>
  {
    if delivered == [] then []
    else [RecognizeRequest(Some(Metadata(rate)), Some(AudioRequest(delivered[0])))] + AudioOnlyRequests(delivered[1..])
  }

  /** The number of requests that carry stream metadata. */
  function CountWithMetadata(rs: seq<RecognizeRequest>): nat
  {
    if rs == [] then 0
    else (if rs[0].initialRequest.Some? then 1 else 0) + CountWithMetadata(rs[1..])
  }

  /**
   * Request k carries the k-th chunk read, unaltered, and only request 0
   * carries metadata, which names LINEAR16 and the configured rate.
   */
  lemma FramedCarriesReads(rate: int, delivered: seq<Chunk>)
    ensures |Framed(rate, delivered)| == |delivered|
    ensures forall k :: 0 <= k < |delivered| ==>
      Framed(rate, delivered)[k].audioRequest == Some(AudioRequest(delivered[k]))
    ensures forall k :: 0 <= k < |delivered| ==>
      (Framed(rate, delivered)[k].initialRequest.Some? <==> k == 0)
    ensures delivered != [] ==>
      Framed(rate, delivered)[0].initialRequest == Some(InitialRecognizeRequest(LINEAR16, rate))
  {
  }

  lemma {:induction false} NoMetadataInAudioOnly(chunks: seq<Chunk>)
    ensures CountWithMetadata(AudioOnlyRequests(chunks)) == 0
  {
    if chunks != [] {
      var rs := AudioOnlyRequests(chunks);
      assert rs[1..] == AudioOnlyRequests(chunks[1..]);
      NoMetadataInAudioOnly(chunks[1..]);
    }
  }

  /** Any non-empty run yields exactly one metadata-carrying request. */
  lemma {:induction false} ExactlyOneMetadata(rate: int, delivered: seq<Chunk>)
    requires delivered != []
    ensures CountWithMetadata(Framed(rate, delivered)) == 1
  {
    var rs := Framed(rate, delivered);
    assert rs[1..] == AudioOnlyRequests(delivered[1..]);
    NoMetadataInAudioOnly(delivered[1..]);
  }

  /** Reading one more chunk appends one audio-only request and changes nothing before it. */
  lemma FramedSnoc(rate: int, delivered: seq<Chunk>, c: Chunk)
    requires delivered != []
    ensures Framed(rate, delivered + [c]) == Framed(rate, delivered) + [AudioOnly(c)]
  {
  }

  /** In a run where every check saw the flag unset, each check is counted. */
  lemma {:induction false} UnsetCount(checks: seq<bool>)
    requires forall i :: 0 <= i < |checks| ==> !checks[i]
    ensures multiset(checks)[false] == |checks|
  {
    if checks != [] {
      assert checks == [checks[0]] + checks[1..];
      UnsetCount(checks[1..]);
    }
  }

  datatype Phase = NotStarted | Streaming | Exhausted

  /**
   * The generator object returned by `_request_stream(stop_audio, channels,
   * rate, chunk)`. `checks` holds the flag value seen at each check of the
   * `while` loop, and `yielded` every request handed out so far.
   */
  class RequestStream {
    const stop: StopEvent
    const device: AudioStream
    const channels: nat
    const rate: int
    const chunk: nat
    var phase: Phase
    ghost var checks: seq<bool>
    ghost var yielded: seq<RecognizeRequest>

    ghost predicate Valid()
      reads this, device
    {
      device.Valid() &&
      yielded == Framed(rate, device.delivered) &&
      (phase != NotStarted ==>
        device.channels == channels && device.rate == rate && device.framesPerBuffer == chunk) &&
      (forall i :: 0 <= i < |device.requested| ==> device.requested[i] == chunk) &&
      match phase
      case NotStarted =>
        device.state == Unopened && checks == []
      case Streaming =>
        device.state == Recording && device.position == 1 + |checks| &&
        (forall i :: 0 <= i < |checks| ==> !checks[i])
      case Exhausted =>
        device.state == Closed && |checks| > 0 && checks[|checks| - 1] &&
        device.position == |checks| &&
        (forall i :: 0 <= i < |checks| - 1 ==> !checks[i])
    }

    /**
     * Once started, the generator has yielded one request more than the
     * number of loop checks that found the flag unset.
     */
    lemma YieldCount()
      requires Valid() && phase != NotStarted
      ensures |yielded| == 1 + multiset(checks)[false]
    {
      FramedCarriesReads(rate, device.delivered);
      if phase == Streaming {
        UnsetCount(checks);
      } else {
        var n := |checks| - 1;
        assert checks == checks[..n] + [true];
        UnsetCount(checks[..n]);
      }
    }

    /** Creating the generator runs none of its body: the device is not yet opened. */
    constructor (s: StopEvent, capture: nat -> Chunk, ch: nat, r: int, frames: nat)
      ensures Valid() && fresh(device)
      ensures stop == s && device.capture == capture
      ensures channels == ch && rate == r && chunk == frames
      ensures phase == NotStarted && yielded == []
    {
      stop := s;
      device := new AudioStream(capture);
      channels, rate, chunk := ch, r, frames;
      phase := NotStarted;
      checks := [];
      yielded := [];
    }

    /**
     * One resumption of the generator (Python's `next`). `None` is the end
     * of the sequence; an exhausted generator stays exhausted.
     */
    method Next() returns (r: Option<RecognizeRequest>)
      requires Valid()
      modifies this, device
      ensures Valid()
      ensures yielded == old(yielded) + (if r.Some? then [r.value] else [])
      ensures old(phase) == NotStarted ==>
        phase == Streaming && checks == [] &&
        device.channels == channels && device.rate == rate && device.framesPerBuffer == chunk &&
        r == Some(RecognizeRequest(Some(InitialRecognizeRequest(LINEAR16, rate)),
                                   Some(AudioRequest(device.capture(0)))))
      ensures old(phase) == Streaming ==> checks == old(checks) + [stop.isSet]
      ensures old(phase) == Streaming && stop.isSet ==>
        r == None && phase == Exhausted && device.state == Closed &&
        device.position == old(device.position)
      ensures old(phase) == Streaming && !stop.isSet ==>
        phase == Streaming && device.position == old(device.position) + 1 &&
        r == Some(AudioOnly(device.capture(old(device.position))))
      ensures old(phase) == Exhausted ==>
        r == None && phase == Exhausted && checks == old(checks) &&
        unchanged(device)
    {
      match phase {
        case NotStarted =>
          r := Start();
        case Streaming =>
          r := Resume();
        case Exhausted =>
          r := None;
      }
    }

    /**
     * The first resumption: open the device, read one chunk and yield it
     * together with the metadata, before the stop flag is looked at.
     */
    method Start() returns (r: Option<RecognizeRequest>)
      requires Valid() && phase == NotStarted
      modifies this, device
      ensures Valid() && phase == Streaming && checks == []
      ensures device.channels == channels && device.rate == rate && device.framesPerBuffer == chunk
      ensures r == Some(RecognizeRequest(Some(InitialRecognizeRequest(LINEAR16, rate)),
                                         Some(AudioRequest(device.capture(0)))))
      ensures yielded == old(yielded) + [r.value]
    {
      device.Open(channels, rate, chunk);
      var content := device.Read(chunk);
      r := Some(RecognizeRequest(Some(Metadata(rate)), Some(AudioRequest(content))));
      assert device.delivered == [content];
      phase := Streaming;
      yielded := yielded + [r.value];
    }

    /**
     * A later resumption: check the flag; if it is set, leave the `with`
     * block (closing the device) and end the sequence, otherwise read one
     * chunk and yield it alone.
     */
    method Resume() returns (r: Option<RecognizeRequest>)
      requires Valid() && phase == Streaming
      modifies this, device
      ensures Valid()
      ensures checks == old(checks) + [stop.isSet]
      ensures yielded == old(yielded) + (if r.Some? then [r.value] else [])
      ensures stop.isSet ==>
        r == None && phase == Exhausted && device.state == Closed &&
        device.position == old(device.position)
      ensures !stop.isSet ==>
        phase == Streaming && device.position == old(device.position) + 1 &&
        r == Some(AudioOnly(device.capture(old(device.position))))
    {
      checks := checks + [stop.isSet];
      if stop.isSet {
        device.Close();
        phase := Exhausted;
        r := None;
      } else {
        ghost var before := device.delivered;
        var content := device.Read(chunk);
        FramedSnoc(rate, before, content);
        r := Some(AudioOnly(content));
        yielded := yielded + [r.value];
      }
    }
  }

  /**
   * A flag that is already set before the first resumption does not stop the
   * first request: it is yielded with its metadata, and only the next
   * resumption sees the flag and ends the sequence.
   */
  method FlagSetBeforeStart(capture: nat -> Chunk) returns (first: Option<RecognizeRequest>, second: Option<RecognizeRequest>, closed: bool)
    ensures first == Some(RecognizeRequest(Some(InitialRecognizeRequest(LINEAR16, RATE)),
                                          Some(AudioRequest(capture(0)))))
    ensures second == None && closed
  {
    var stop := new StopEvent();
    stop.Set();
    var stream := new RequestStream(stop, capture, CHANNELS, RATE, CHUNK);
    first := stream.Next();
    second := stream.Next();
    closed := stream.device.state == Closed;
  }
}
