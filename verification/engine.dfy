/** The capture engine's session and frame-queue bookkeeping: the
    `is_capturing` flag, the FIFO of copied frames filled by the pcap callback
    and drained by the consumer, and the ownership of each frame's heap
    allocation. The mutex and the capture thread are modelled away: every
    call is one atomic step on an immutable state. */
module CaptureEngine {
  import opened Wrappers
  import opened DeviceJson

  type byte = x: int | 0 <= x < 256
  type uint32 = x: int | 0 <= x < 0x1_0000_0000
  type int64 = x: int | -0x8000_0000_0000_0000 <= x < 0x8000_0000_0000_0000

  /** The header pcap hands to the callback: the length on the wire, the
      number of bytes captured, and the capture time. */
  datatype PcapHeader = PcapHeader(len: uint32, caplen: uint32, tvSec: int64, tvUsec: int64)

  /** One PacketData record. `id` names its heap allocation, so that handing
      it out and freeing it can be tracked; `bytes` holds `caplen` bytes. */
  datatype Frame = Frame(id: nat, len: uint32, caplen: uint32, tvSec: int64, tvUsec: int64, bytes: seq<byte>)

  /** The engine's process-wide state: the capturing flag, the queue of frames
      not yet taken, how many frames were ever allocated, and the frames handed
      to the consumer and not yet freed. */
  datatype Engine = Engine(capturing: bool, queue: seq<Frame>, issued: nat, outstanding: set<nat>)

  /** The state at program start: not capturing, nothing queued or allocated. */
  const Initial: Engine := Engine(false, [], 0, {})

  /** Ownership invariant: each allocated frame is in exactly one place (the
      queue, the consumer's hands, or already freed), queued frames are in
      allocation order, and each holds exactly `caplen` bytes. */
  ghost predicate Valid(e: Engine) {
    && (forall i :: 0 <= i < |e.queue| ==>
          e.queue[i].id < e.issued && e.queue[i].id !in e.outstanding
          && |e.queue[i].bytes| == e.queue[i].caplen)
    && (forall i, j :: 0 <= i < j < |e.queue| ==> e.queue[i].id < e.queue[j].id)
    && (forall id :: id in e.outstanding ==> id < e.issued)
  }

  /** The allocations that have been freed. */
  ghost function Released(e: Engine): set<nat> {
    set id: nat | id < e.issued && id !in e.outstanding
                  && (forall i :: 0 <= i < |e.queue| ==> e.queue[i].id != id)
  }

  lemma InitialValid()
    ensures Valid(Initial) && Released(Initial) == {}
  {
  }

  /** start_capture_session: fails with -1, changing nothing, when the name is
      NULL or a session is already active; otherwise marks the engine as
      capturing and returns 0 (the capture thread is launched). */
  function StartCaptureSession(e: Engine, deviceName: Option<CString>): (r: (Engine, int))
    ensures r.1 == -1 || r.1 == 0
    ensures r.1 == -1 <==> deviceName.None? || e.capturing
    ensures r.1 == -1 ==> r.0 == e
    ensures r.1 == 0 ==> r.0.capturing && r.0.queue == e.queue
                         && r.0.issued == e.issued && r.0.outstanding == e.outstanding
    ensures Valid(e) ==> Valid(r.0)
  {
    if deviceName.None? || e.capturing then (e, -1)
    else (e.(capturing := true), 0)
  }

  /** The branch of capture_worker taken when the device cannot be opened:
      the capturing flag drops back to false; queued frames stay. */
  function CaptureWorkerOpenFailed(e: Engine): (r: Engine)
    ensures !r.capturing
    ensures r.queue == e.queue && r.issued == e.issued && r.outstanding == e.outstanding
    ensures Valid(e) ==> Valid(r)
  {
    e.(capturing := false)
  }

  /** packet_handler: ignored unless capturing; otherwise copies the first
      `caplen` bytes into a freshly allocated frame at the back of the queue.
      pcap always supplies at least `caplen` bytes. */
  function PacketHandler(e: Engine, header: PcapHeader, data: seq<byte>): (r: Engine)
    requires header.caplen <= |data|
    ensures !e.capturing ==> r == e
    ensures e.capturing ==>
      && |r.queue| == |e.queue| + 1
      && r.queue[..|e.queue|] == e.queue
      && r.queue[|e.queue|] == Frame(e.issued, header.len, header.caplen,
                                     header.tvSec, header.tvUsec, data[..header.caplen])
      && r.issued == e.issued + 1
    ensures r.capturing == e.capturing && r.outstanding == e.outstanding
    ensures Valid(e) ==> Valid(r)
  {
    if !e.capturing then e
    else
      var frame := Frame(e.issued, header.len, header.caplen, header.tvSec, header.tvUsec,
                         data[..header.caplen]);
      e.(queue := e.queue + [frame], issued := e.issued + 1)
  }

  /** What get_next_packet returns, with the engine after the call. */
  datatype Polled = Polled(engine: Engine, packet: Option<Frame>)

  /** get_next_packet: NULL with nothing changed when the queue is empty;
      otherwise the oldest frame, removed from the queue and now owned by the
      caller. */
  function GetNextPacket(e: Engine): (r: Polled)
    ensures |e.queue| == 0 <==> r.packet.None?
    ensures r.packet.None? ==> r.engine == e
    ensures r.packet.Some? ==>
      && r.packet.value == e.queue[0]
      && r.engine.queue == e.queue[1..]
      && r.engine.outstanding == e.outstanding + {e.queue[0].id}
    ensures r.engine.capturing == e.capturing && r.engine.issued == e.issued
    ensures Valid(e) ==> Valid(r.engine)
    ensures Valid(e) && r.packet.Some? ==>
      |r.packet.value.bytes| == r.packet.value.caplen && r.packet.value.id !in e.outstanding
  {
    if |e.queue| == 0 then Polled(e, None)
    else
      Polled(e.(queue := e.queue[1..], outstanding := e.outstanding + {e.queue[0].id}),
             Some(e.queue[0]))
  }

  /** free_packet: a NULL pointer is ignored; otherwise the frame's allocation
      is released. Freeing a frame the caller does not own (never handed out,
      or already freed) is undefined behaviour in the source, so the caller
      must own it. */
  function FreePacket(e: Engine, packet: Option<Frame>): (r: Engine)
    requires packet.Some? ==> packet.value.id in e.outstanding
    ensures packet.None? ==> r == e
    ensures packet.Some? ==> r.outstanding == e.outstanding - {packet.value.id}
    ensures r.capturing == e.capturing && r.queue == e.queue && r.issued == e.issued
    ensures Valid(e) ==> Valid(r)
  {
    match packet
    case None => e
    case Some(f) =>
      e.(outstanding := e.outstanding - {f.id})
  }

  /** A frame allocation, once freed, stays freed: only free_packet adds to
      the released allocations, and it adds exactly the frame it frees. */
  lemma PacketHandlerKeepsReleased(e: Engine, header: PcapHeader, data: seq<byte>)
    requires Valid(e) && header.caplen <= |data|
    ensures Released(PacketHandler(e, header, data)) == Released(e)
  {
    var r := PacketHandler(e, header, data);
    if e.capturing {
      forall id | id in Released(r) ensures id in Released(e) {
        assert id != e.issued by { assert r.queue[|e.queue|].id == e.issued; }
        forall i | 0 <= i < |e.queue| ensures e.queue[i].id != id {
          assert r.queue[i] == e.queue[i];
        }
      }
    }
  }

  lemma GetNextPacketKeepsReleased(e: Engine)
    requires Valid(e)
    ensures Released(GetNextPacket(e).engine) == Released(e)
  {
    var r := GetNextPacket(e);
    if |e.queue| > 0 {
      forall id | id in Released(e) ensures id in Released(r.engine) {
        assert id != e.queue[0].id;
        forall i | 0 <= i < |e.queue| - 1 ensures r.engine.queue[i].id != id {
          assert r.engine.queue[i] == e.queue[i + 1];
        }
      }
      forall id | id in Released(r.engine) ensures id in Released(e) {
        forall i | 0 <= i < |e.queue| ensures e.queue[i].id != id {
          if i > 0 { assert e.queue[i] == r.engine.queue[i - 1]; }
        }
      }
    }
  }

  lemma FreePacketReleases(e: Engine, f: Frame)
    requires Valid(e) && f.id in e.outstanding
    ensures Released(FreePacket(e, Some(f))) == Released(e) + {f.id}
  {
    forall i | 0 <= i < |e.queue| ensures e.queue[i].id != f.id {}
  }

  /** stop_capture: a no-op when not capturing; otherwise clears the flag
      (and asks pcap to break its loop). Queued frames are not touched. */
  function StopCapture(e: Engine): (r: Engine)
    ensures !r.capturing
    ensures r.queue == e.queue && r.issued == e.issued && r.outstanding == e.outstanding
    ensures Valid(e) ==> Valid(r)
  {
    if !e.capturing then e else e.(capturing := false)
  }

  /** Stopping twice is the same as stopping once. */
  lemma StopCaptureIdempotent(e: Engine)
    ensures StopCapture(StopCapture(e)) == StopCapture(e)
    ensures !e.capturing ==> StopCapture(e) == e
  {
  }

  /** One call of the capture callback: its header and the bytes pcap holds. */
  datatype Arrival = Arrival(header: PcapHeader, data: seq<byte>)

  predicate WellFormed(a: Arrival) {
    a.header.caplen <= |a.data|
  }

  /** The frame the callback allocates for `a` as allocation number `id`. */
  function FrameOf(a: Arrival, id: nat): Frame
    requires WellFormed(a)
  {
    Frame(id, a.header.len, a.header.caplen, a.header.tvSec, a.header.tvUsec,
          a.data[..a.header.caplen])
  }

  predicate AllWellFormed(arrivals: seq<Arrival>) {
    forall k :: 0 <= k < |arrivals| ==> WellFormed(arrivals[k])
  }

  /** The frames the callback allocates for a run of arrivals, numbered on
      from `start`. */
  function FramesOf(arrivals: seq<Arrival>, start: nat): (r: seq<Frame>)
    requires AllWellFormed(arrivals)
    ensures |r| == |arrivals|
    ensures forall k :: 0 <= k < |arrivals| ==> r[k] == FrameOf(arrivals[k], start + k)
  {
    seq(|arrivals|, k requires 0 <= k < |arrivals| => FrameOf(arrivals[k], start + k))
  }

  lemma FramesOfAppend(a: seq<Arrival>, b: seq<Arrival>, start: nat)
    requires AllWellFormed(a) && AllWellFormed(b)
    ensures AllWellFormed(a + b)
    ensures FramesOf(a + b, start) == FramesOf(a, start) + FramesOf(b, start + |a|)
  {
    assert forall k :: 0 <= k < |a + b| ==> (a + b)[k] == if k < |a| then a[k] else b[k - |a|];
    var l, r := FramesOf(a + b, start), FramesOf(a, start) + FramesOf(b, start + |a|);
    forall k | 0 <= k < |a + b| ensures l[k] == r[k] {
      if k >= |a| {
        assert r[k] == FramesOf(b, start + |a|)[k - |a|];
      }
    }
  }

  /** The callback run once per arrival, in order. */
  function Capture(e: Engine, arrivals: seq<Arrival>): (r: Engine)
    requires forall k :: 0 <= k < |arrivals| ==> WellFormed(arrivals[k])
    ensures r.capturing == e.capturing && r.outstanding == e.outstanding
    decreases |arrivals|
  {
    if |arrivals| == 0 then e
    else
      assert WellFormed(arrivals[0]);
      Capture(PacketHandler(e, arrivals[0].header, arrivals[0].data), arrivals[1..])
  }

  /** While capturing, the queue keeps every arrival, in arrival order, behind
      the frames already queued (FIFO); nothing else changes. */
  lemma {:induction false} CaptureAppends(e: Engine, arrivals: seq<Arrival>)
    requires forall k :: 0 <= k < |arrivals| ==> WellFormed(arrivals[k])
    requires e.capturing
    ensures Capture(e, arrivals).issued == e.issued + |arrivals|
    ensures |Capture(e, arrivals).queue| == |e.queue| + |arrivals|
    ensures Capture(e, arrivals).queue[..|e.queue|] == e.queue
    ensures forall k :: 0 <= k < |arrivals| ==>
      Capture(e, arrivals).queue[|e.queue| + k] == FrameOf(arrivals[k], e.issued + k)
    ensures Capture(e, arrivals).capturing
    ensures Capture(e, arrivals).outstanding == e.outstanding
    decreases |arrivals|
  {
    if |arrivals| > 0 {
      assert WellFormed(arrivals[0]);
      var e1 := PacketHandler(e, arrivals[0].header, arrivals[0].data);
      CaptureAppends(e1, arrivals[1..]);
      var r := Capture(e, arrivals);
      assert r == Capture(e1, arrivals[1..]);
      assert r.queue[..|e1.queue|] == e1.queue;
      assert r.queue[..|e.queue|] == e1.queue[..|e.queue|];
      forall k | 0 <= k < |arrivals|
        ensures r.queue[|e.queue| + k] == FrameOf(arrivals[k], e.issued + k)
      {
        if k == 0 {
          assert r.queue[|e.queue|] == e1.queue[|e.queue|];
        } else {
          assert arrivals[1..][k - 1] == arrivals[k];
        }
      }
    }
  }

  /** The queue after a run of the callback: the frames of the arrivals,
      numbered on from `issued`, behind the old queue while capturing, and
      the old queue alone otherwise. */
  lemma CaptureQueues(e: Engine, arrivals: seq<Arrival>)
    requires AllWellFormed(arrivals)
    ensures Capture(e, arrivals).queue == e.queue + (if e.capturing then FramesOf(arrivals, e.issued) else [])
    ensures Capture(e, arrivals).issued == e.issued + (if e.capturing then |arrivals| else 0)
  {
    if e.capturing {
      CaptureAppends(e, arrivals);
      var q, fs := Capture(e, arrivals).queue, FramesOf(arrivals, e.issued);
      forall i | 0 <= i < |q| ensures q[i] == (e.queue + fs)[i] {
        if i < |e.queue| {
          assert q[i] == q[..|e.queue|][i];
        } else {
          assert q[|e.queue| + (i - |e.queue|)] == fs[i - |e.queue|];
        }
      }
    } else {
      CaptureIgnoredWhenStopped(e, arrivals);
    }
  }

  /** When not capturing, the callback drops every arrival. */
  lemma {:induction false} CaptureIgnoredWhenStopped(e: Engine, arrivals: seq<Arrival>)
    requires forall k :: 0 <= k < |arrivals| ==> WellFormed(arrivals[k])
    requires !e.capturing
    ensures Capture(e, arrivals) == e
    decreases |arrivals|
  {
    if |arrivals| > 0 {
      CaptureIgnoredWhenStopped(e, arrivals[1..]);
    }
  }
}
