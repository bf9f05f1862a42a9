/** The inbound pipeline: it drains the jitter buffer and publishes decoded audio. */
module InboundPipeline {
  import opened Common
  import opened RtpPacket
  import opened JitterBuffer

  const JITTER_CAPACITY: nat := 128

  /** What draining leaves in the buffer, the frames published including those of before,
      and the decoder's error if one ended it early. */
  function Drained<F, E>(j: Jitter, decode: seq<byte> -> Result<F, E>, before: seq<F>): (Jitter, seq<F>, Option<E>)
    decreases |j.buffer|
  {
    var (j', p) := Polled(j);
    if p.None? then (j', before, None)
    else if p.value.payloadType != PT_AUDIO then Drained(j', decode, before)
    else
      match decode(p.value.payload)
      case Err(e) => (j', before, Some(e))
      case Ok(frame) => Drained(j', decode, before + [frame])
  }

  class InboundPipeline<F, E> {
    const decode: seq<byte> -> Result<F, E>
    const jitter: JitterBuffer
    var published: seq<F>
    var pollCount: nat

    constructor (decode: seq<byte> -> Result<F, E>)
      ensures this.decode == decode && fresh(jitter) && jitter.View() == New(JITTER_CAPACITY)
      ensures published == [] && pollCount == 0
    {
      this.decode := decode;
      jitter := new JitterBuffer(JITTER_CAPACITY);
      published, pollCount := [], 0;
    }

    method PushRtp(p: Packet)
      modifies jitter
      ensures jitter.View() == Pushed(old(jitter.View()), p)
    {
      jitter.PushPacket(p);
    }

    method Drain() returns (r: Result<nat, E>)
      modifies this`published, this`pollCount, jitter
      ensures var (j, frames, error) := Drained(old(jitter.View()), decode, old(published));
              && jitter.View() == j
              && published == frames
              && r == (if error.None? then Ok(|frames| - |old(published)|) else Err(error.value))
              && pollCount == old(pollCount) + if error.None? then 1 else 0
    {
      var count := 0;
      ghost var result := Drained(jitter.View(), decode, published);
      while true
        invariant pollCount == old(pollCount)
        invariant |published| == |old(published)| + count
        invariant Drained(jitter.View(), decode, published) == result
        decreases |jitter.buffer|
      {
        var p := jitter.PollPacket();
        if p.None? {
          break;
        }
        if p.value.payloadType == PT_AUDIO {
          var decoded := decode(p.value.payload);
          if decoded.Err? {
            return Err(decoded.error);
          }
          published := published + [decoded.value];
          count := count + 1;
        }
      }
      pollCount := pollCount + 1;
      return Ok(count);
    }
  }

  /** The frames of a list of packets up to the first that the decoder refuses. */
  function Decodings<F, E>(packets: seq<Packet>, decode: seq<byte> -> Result<F, E>): (seq<F>, Option<E>) {
    if packets == [] then ([], None)
    else if packets[0].payloadType != PT_AUDIO then Decodings(packets[1..], decode)
    else
      match decode(packets[0].payload)
      case Err(e) => ([], Some(e))
      case Ok(frame) =>
        var (frames, e) := Decodings(packets[1..], decode);
        ([frame] + frames, e)
  }

  /** Draining publishes the frames of the buffered packets in index order; unless the
      decoder fails, nothing stays behind. */
  lemma {:induction false} DrainsInOrder<F, E>(j: Jitter, decode: seq<byte> -> Result<F, E>, before: seq<F>)
    requires Sound(j)
    ensures var (j', frames, error) := Drained(j, decode, before);
            var (decoded, error') := Decodings(Packets(j.buffer), decode);
            && frames == before + decoded && error == error'
            && Sound(j') && (error.None? ==> j'.buffer == [])
    decreases |j.buffer|
  {
    if j.buffer != [] {
      PollTakesEarliest(j);
      PollSound(j);
      var p, j' := j.buffer[0].1, Polled(j).0;
      assert Packets(j.buffer)[1..] == Packets(j'.buffer);
      if p.payloadType != PT_AUDIO {
        DrainsInOrder(j', decode, before);
      } else if decode(p.payload).Ok? {
        DrainsInOrder(j', decode, before + [decode(p.payload).value]);
      }
    }
  }
}
