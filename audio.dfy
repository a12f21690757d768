/**
 * The capture device opened by `_record_audio`. The microphone itself is an
 * input of the model: `capture(i)` is what the device hands back to its i-th
 * read. The stream remembers how many frames each read asked for.
 */
module Audio {
  import opened Messages

  datatype DeviceState = Unopened | Recording | Closed

  class AudioStream {
    const capture: nat -> Chunk
    var state: DeviceState
    var channels: nat
    var rate: int
    var framesPerBuffer: nat
    /** Number of reads served so far. */
    var position: nat
    /** The frame count passed to each read, in order. */
    var requested: seq<nat>
    /** The chunks handed out so far, in the order they were read. */
    ghost var delivered: seq<Chunk>

    ghost predicate Valid()
      reads this
    {
      |requested| == position && |delivered| == position &&
      (forall i :: 0 <= i < position ==> delivered[i] == capture(i)) &&
      (state == Unopened ==> position == 0)
    }

    constructor (c: nat -> Chunk)
      ensures Valid() && capture == c && state == Unopened
      ensures position == 0 && requested == [] && delivered == []
    {
      capture := c;
      state := Unopened;
      channels, rate, framesPerBuffer := 0, 0, 0;
      position := 0;
      requested := [];
      delivered := [];
    }

    /** Opens the device for 16-bit input with the given parameters. */
    method Open(ch: nat, r: int, frames: nat)
      requires Valid() && state == Unopened
      modifies this
      ensures Valid() && state == Recording
      ensures channels == ch && rate == r && framesPerBuffer == frames
      ensures position == old(position) && requested == old(requested) && delivered == old(delivered)
    {
      state := Recording;
      channels, rate, framesPerBuffer := ch, r, frames;
    }

    /** Blocking read of `frames` frames: returns the device's next chunk unaltered. */
    method Read(frames: nat) returns (data: Chunk)
      requires Valid() && state == Recording
      modifies this
      ensures Valid() && state == Recording
      ensures channels == old(channels) && rate == old(rate) && framesPerBuffer == old(framesPerBuffer)
      ensures data == capture(old(position))
      ensures position == old(position) + 1 && requested == old(requested) + [frames]
      ensures delivered == old(delivered) + [data]
    {
      data := capture(position);
      position := position + 1;
      requested := requested + [frames];
      delivered := delivered + [data];
    }

    /** stop_stream, close and terminate, taken together; only an open device can be closed. */
    method Close()
      requires Valid() && state == Recording
      modifies this
      ensures Valid() && state == Closed
      ensures channels == old(channels) && rate == old(rate) && framesPerBuffer == old(framesPerBuffer)
      ensures position == old(position) && requested == old(requested) && delivered == old(delivered)
    {
      state := Closed;
    }
  }
}
