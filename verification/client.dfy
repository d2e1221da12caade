/** The Go wrapper around the capture engine: the device-list checks after
    JSON decoding, the start-result check, and the polling loop that drains
    frames, summarises them, hands the summaries on and frees the frames. */
module CaptureClient {
  import opened Wrappers
  import opened Text
  import opened DeviceJson
  import opened CaptureEngine
  import opened PacketSummary
  import opened Trace

  datatype DeviceError = ParseFailed(reason: string) | NoDevices

  datatype StartError = EngineRejectedStart

  /** GetDevices after the JSON has been decoded: a decoding failure and an
      empty list are errors, anything else is returned as decoded. */
  function GetDevices(parsed: Result<seq<DeviceInfo>, string>): (r: Result<seq<DeviceInfo>, DeviceError>)
    ensures r.Success? <==> parsed.Success? && |parsed.value| > 0
    ensures r.Success? ==> r.value == parsed.value && |r.value| > 0
    ensures parsed.Failure? ==> r == Failure(ParseFailed(parsed.error))
    ensures parsed.Success? && |parsed.value| == 0 ==> r == Failure(NoDevices)
  {
    match parsed
    case Failure(err) => Failure(ParseFailed(err))
    case Success(devices) => if |devices| == 0 then Failure(NoDevices) else Success(devices)
  }

  /** Decoding the engine's JSON with the reader of exactly that format.
      Whatever it accepts carries no raw control character, since the only
      way to write one into a JSON string is one of the seven escapes. */
  function DecodeDeviceJson(json: string): (r: Result<seq<DeviceInfo>, string>)
    ensures r.Success? ==> forall i :: 0 <= i < |r.value| ==> InfoSafe(r.value[i])
  {
    match ReadArray(json)
    case Some(ds) => Success(ds)
    case None => Failure("malformed device list")
  }

  /** From enumeration to device list: the list is obtained exactly when
      pcap's enumeration succeeded with at least one device and no name or
      description holds a raw control character, and then holds every device
      in enumeration order. A raw control character makes the decoder fail;
      a failed or empty enumeration reads as "no devices". */
  lemma GetDevicesFromEnumeration(list: Option<seq<PcapDevice>>)
    ensures var r := GetDevices(DecodeDeviceJson(DevicesJson(list)));
      && (r.Success? <==> list.Some? && |list.value| > 0 && AllDevicesSafe(list.value))
      && (r.Success? ==> r.value == DecodedAll(list.value))
      && (r == Failure(NoDevices) <==> list.None? || |list.value| == 0)
      && (r.Failure? && r.error.ParseFailed? <==> list.Some? && !AllDevicesSafe(list.value))
  {
    ReadDevicesJson(list);
  }

  /** A device whose name holds U+0001 is written raw by the escaper, and
      the decoder refuses the whole list: the device list is a parse error,
      not "no devices". */
  lemma ControlCharacterIsParseError()
    ensures var r := GetDevices(DecodeDeviceJson(DevicesJson(Some([("a\U{1}b", None)]))));
      r.Failure? && r.error.ParseFailed?
  {
    var ds: seq<PcapDevice> := [("a\U{1}b", None)];
    assert RawControl(ds[0].0[1]);
    GetDevicesFromEnumeration(Some(ds));
  }

  /** The C copy of a Go string: C.CString copies every byte, so the C side
      sees the text up to the first NUL. */
  function CStringOf(s: string): (c: CString)
    ensures |c| <= |s| && c == s[..|c|]
    ensures '\0' !in s ==> c == s
    decreases |s|
  {
    if |s| == 0 || s[0] == '\0' then [] else [s[0]] + CStringOf(s[1..])
  }

  /** The start-result check: any nonzero engine result is an error. */
  function CheckStart(result: int): (o: Outcome<StartError>)
    ensures o.Fail? <==> result != 0
  {
    if result != 0 then Fail(EngineRejectedStart) else Outcome.Pass
  }

  /** StartCapture: asks the engine to start on the device's name. The name
      is never NULL, so it fails exactly when a session is already active. */
  function StartCapture(e: Engine, device: DeviceInfo): (r: (Engine, Outcome<StartError>))
    ensures r.1.Fail? <==> e.capturing
    ensures r.1.Fail? ==> r.0 == e
    ensures r.1.Pass? ==> r.0 == e.(capturing := true)
  {
    var (e1, result) := StartCaptureSession(e, Some(CStringOf(device.name)));
    (e1, CheckStart(result))
  }

  /** The bytes C.GoBytes copies out of a frame: its `caplen` bytes, which
      are exactly the bytes the frame holds while the engine is `Valid`. */
  function FrameBytes(f: Frame): seq<byte> {
    f.bytes
  }

  /** The summary the loop produces for a frame at the given time. */
  function FrameSummary(f: Frame, clock: Clock, decode: seq<byte> -> Layers): string {
    ParsePacket(clock, decode(FrameBytes(f)), FrameBytes(f))
  }

  /** One iteration of PollForPackets: a frame, when there is one, is
      summarised, its summary sent, and the frame freed; every iteration then
      sleeps. */
  function PollOnce(e: Engine, clock: Clock, decode: seq<byte> -> Layers): (r: (Engine, seq<Event>))
    ensures |e.queue| == 0 ==> r.0 == e && Emitted(r.1) == [] && Freed(r.1) == []
    ensures |e.queue| > 0 ==>
      && r.0.queue == e.queue[1..]
      && Emitted(r.1) == [FrameSummary(e.queue[0], clock, decode)] && Freed(r.1) == [e.queue[0].id]
    ensures Sleeps(r.1) == 1 && Stops(r.1) == 0
    ensures r.0.capturing == e.capturing && r.0.issued == e.issued
  {
    var polled := GetNextPacket(e);
    match polled.packet
    case None => (e, [Sleep])
    case Some(f) =>
      var bytes := FrameBytes(f);
      var summary := ParsePacket(clock, decode(bytes), bytes);
      var e1 := FreePacket(polled.engine, Some(f));
      BusyIteration(summary, f.id, [Sleep]);
      assert [Emit(summary), Free(f.id)] + [Sleep] == [Emit(summary), Free(f.id), Sleep];
      (e1, [Emit(summary), Free(f.id), Sleep])
  }

  /** An iteration keeps the ownership invariant and, since it frees the
      frame it takes, leaves the set of frames in the consumer's hands as it
      was. */
  lemma PollOnceKeepsOwnership(e: Engine, clock: Clock, decode: seq<byte> -> Layers)
    requires Valid(e)
    ensures Valid(PollOnce(e, clock, decode).0)
    ensures PollOnce(e, clock, decode).0.outstanding == e.outstanding
  {
    if |e.queue| > 0 {
      var f := e.queue[0];
      assert f.id !in e.outstanding;
      assert e.outstanding + {f.id} - {f.id} == e.outstanding;
    }
  }

  /** Within an iteration, the frame is freed right after its summary is
      sent. */
  lemma PollOnceSendsThenFrees(e: Engine, clock: Clock, decode: seq<byte> -> Layers)
    ensures EmitThenFree(PollOnce(e, clock, decode).1)
  {
    var ev := PollOnce(e, clock, decode).1;
    if |e.queue| > 0 {
      assert ev[0].Emit? && ev[1].Free? && ev[2].Sleep? && |ev| == 3;
    } else {
      assert ev == [Sleep];
    }
  }

  /** One pass of the loop: the frames that reach the callback since the
      previous poll (it runs on the capture thread, so they may arrive during
      the parse, the send or the sleep), then one iteration, reading the
      time of day as `clock`. Each engine call is atomic, so every
      interleaving of the two threads is a sequence of passes. */
  datatype Pass = Pass(arrived: seq<Arrival>, clock: Clock)

  predicate PassWellFormed(p: Pass) {
    AllWellFormed(p.arrived)
  }

  predicate PassesWellFormed(passes: seq<Pass>) {
    forall i :: 0 <= i < |passes| ==> PassWellFormed(passes[i])
  }

  /** Every arrival of the passes, in order. */
  function Arrivals(passes: seq<Pass>): (r: seq<Arrival>)
    requires PassesWellFormed(passes)
    ensures AllWellFormed(r)
    decreases |passes|
  {
    if |passes| == 0 then []
    else
      assert PassWellFormed(passes[0]);
      passes[0].arrived + Arrivals(passes[1..])
  }

  /** The arrivals the callback queues: all of them while capturing, none
      when the engine is stopped. */
  function Admitted(capturing: bool, passes: seq<Pass>): (r: seq<Arrival>)
    requires PassesWellFormed(passes)
    ensures AllWellFormed(r)
  {
    if capturing then Arrivals(passes) else []
  }

  /** The frames the loop is offered, in queue order: those queued before the
      first pass, then one per admitted arrival, numbered on from `issued`. */
  function Supply(e: Engine, passes: seq<Pass>): seq<Frame>
    requires PassesWellFormed(passes)
  {
    e.queue + FramesOf(Admitted(e.capturing, passes), e.issued)
  }

  /** The clock readings of the passes whose poll finds a frame, when
      `waiting` frames are queued before the first pass: a poll finds one
      exactly when the frames waiting plus those its pass admitted are not
      none. A reference for the loop's schedule that counts frames and never
      looks at the engine. */
  function SendClocks(waiting: nat, capturing: bool, passes: seq<Pass>): (r: seq<Clock>)
    requires PassesWellFormed(passes)
    ensures |r| <= |passes|
    ensures |r| <= waiting + |Admitted(capturing, passes)|
    decreases |passes|
  {
    if |passes| == 0 then []
    else
      var avail := waiting + (if capturing then |passes[0].arrived| else 0);
      if avail > 0 then [passes[0].clock] + SendClocks(avail - 1, capturing, passes[1..])
      else SendClocks(0, capturing, passes[1..])
  }

  /** The first |passes| iterations of PollForPackets, which never returns,
      with the frames of each pass captured before its poll. */
  function PollForPackets(e: Engine, passes: seq<Pass>, decode: seq<byte> -> Layers): (r: (Engine, seq<Event>))
    requires PassesWellFormed(passes)
    ensures r.0.capturing == e.capturing
    decreases |passes|
  {
    if |passes| == 0 then
      (e, [])
    else
      assert PassWellFormed(passes[0]);
      var first := PollOnce(Capture(e, passes[0].arrived), passes[0].clock, decode);
      var rest := PollForPackets(first.0, passes[1..], decode);
      (rest.0, first.1 + rest.1)
  }

  function Min(a: nat, b: nat): nat {
    if a <= b then a else b
  }

  /** g applied to the pairs of xs and ys, as far as both reach. */
  function Zip<A, B, C>(xs: seq<A>, ys: seq<B>, g: (A, B) -> C): (r: seq<C>)
    ensures |r| == Min(|xs|, |ys|)
    decreases |ys|
  {
    if |xs| == 0 || |ys| == 0 then [] else [g(xs[0], ys[0])] + Zip(xs[1..], ys[1..], g)
  }

  lemma {:induction false} ZipAt<A, B, C>(xs: seq<A>, ys: seq<B>, g: (A, B) -> C, i: nat)
    requires i < Min(|xs|, |ys|)
    ensures Zip(xs, ys, g)[i] == g(xs[i], ys[i])
    decreases i
  {
    if i > 0 {
      ZipAt(xs[1..], ys[1..], g, i - 1);
      assert xs[1..][i - 1] == xs[i] && ys[1..][i - 1] == ys[i];
    }
  }

  /** The summaries of the first |clocks| frames of q (fewer when q is
      shorter), the i-th read at clocks[i]. */
  function SummariesOf(q: seq<Frame>, clocks: seq<Clock>, decode: seq<byte> -> Layers): seq<string> {
    Zip(q, clocks, (f: Frame, c: Clock) => FrameSummary(f, c, decode))
  }

  /** The ids of the first n frames of q (fewer when q is shorter). */
  function IdsOf(q: seq<Frame>, n: nat): (r: seq<nat>)
    ensures |r| == Min(n, |q|)
    decreases n
  {
    if n == 0 || |q| == 0 then [] else [q[0].id] + IdsOf(q[1..], n - 1)
  }

  lemma {:induction false} IdsOfAt(q: seq<Frame>, n: nat, i: nat)
    requires i < Min(n, |q|)
    ensures IdsOf(q, n)[i] == q[i].id
    decreases i
  {
    if i > 0 {
      IdsOfAt(q[1..], n - 1, i - 1);
      assert q[1..][i - 1] == q[i];
    }
  }

  /** What the loop over `passes` owes: with `clocks` the readings of the
      passes that find a frame, the summaries sent are those of the first
      |clocks| supplied frames, the i-th read at clocks[i]; the frames freed
      are those frames, in the same order; the supplied frames not taken are
      still queued, in order. */
  ghost predicate Delivers(e: Engine, passes: seq<Pass>, decode: seq<byte> -> Layers, r: (Engine, seq<Event>))
    requires PassesWellFormed(passes)
  {
    var supply := Supply(e, passes);
    var clocks := SendClocks(|e.queue|, e.capturing, passes);
    && |clocks| <= |supply|
    && Emitted(r.1) == SummariesOf(supply, clocks, decode)
    && Freed(r.1) == IdsOf(supply, |clocks|)
    && r.0.queue == supply[|clocks|..]
    && r.0.issued == e.issued + |Admitted(e.capturing, passes)|
  }

  /** The first pass's capture queues the front of the supply; the frames of
      the later passes follow it, numbered on from the capture's count. */
  lemma SupplyStep(e: Engine, passes: seq<Pass>)
    requires PassesWellFormed(passes) && |passes| > 0
    ensures PassWellFormed(passes[0]) && PassesWellFormed(passes[1..])
    ensures var c := Capture(e, passes[0].arrived);
      var admitted := if e.capturing then |passes[0].arrived| else 0;
      && c.capturing == e.capturing
      && |c.queue| == |e.queue| + admitted
      && c.issued == e.issued + admitted
      && |Admitted(e.capturing, passes)| == admitted + |Admitted(e.capturing, passes[1..])|
      && Supply(e, passes) == c.queue + FramesOf(Admitted(c.capturing, passes[1..]), c.issued)
  {
    assert PassWellFormed(passes[0]);
    if e.capturing {
      SupplyStepCapturing(e, passes);
    } else {
      CaptureIgnoredWhenStopped(e, passes[0].arrived);
    }
  }

  lemma SupplyStepCapturing(e: Engine, passes: seq<Pass>)
    requires PassesWellFormed(passes) && |passes| > 0 && e.capturing
    requires PassWellFormed(passes[0])
    ensures var c := Capture(e, passes[0].arrived);
      && c.issued == e.issued + |passes[0].arrived|
      && |c.queue| == |e.queue| + |passes[0].arrived|
      && Supply(e, passes) == c.queue + FramesOf(Arrivals(passes[1..]), c.issued)
  {
    var p := passes[0];
    var c := Capture(e, p.arrived);
    var later := Arrivals(passes[1..]);
    var fp, fl := FramesOf(p.arrived, e.issued), FramesOf(later, e.issued + |p.arrived|);
    CaptureQueues(e, p.arrived);
    assert c.queue == e.queue + fp;
    FramesOfAppend(p.arrived, later, e.issued);
    Associative(e.queue, fp, fl);
    calc {
      Supply(e, passes);
      e.queue + FramesOf(p.arrived + later, e.issued);
      e.queue + (fp + fl);
      c.queue + FramesOf(later, c.issued);
    }
  }

  lemma DropFront(a: seq<Frame>, b: seq<Frame>)
    requires |a| > 0
    ensures (a + b)[1..] == a[1..] + b
  {
  }

  /** Sending and freeing the front frame, ahead of a delivery of the rest
      of the supply, is a delivery of one frame more. */
  lemma DeliveryCons(supply: seq<Frame>, clock: Clock, clocks: seq<Clock>, sent: seq<string>,
                     freed: seq<nat>, queue: seq<Frame>, decode: seq<byte> -> Layers)
    requires |supply| > 0 && |clocks| < |supply|
    requires sent == SummariesOf(supply[1..], clocks, decode)
    requires freed == IdsOf(supply[1..], |clocks|)
    requires queue == supply[1..][|clocks|..]
    ensures [FrameSummary(supply[0], clock, decode)] + sent == SummariesOf(supply, [clock] + clocks, decode)
    ensures [supply[0].id] + freed == IdsOf(supply, |[clock] + clocks|)
    ensures queue == supply[|[clock] + clocks|..]
  {
    assert ([clock] + clocks)[1..] == clocks;
  }

  /** What one pass that finds a frame does to the supply, the schedule and
      the trace. */
  lemma TakingFacts(e: Engine, passes: seq<Pass>, decode: seq<byte> -> Layers)
    requires PassesWellFormed(passes) && |passes| > 0
    requires |Capture(e, passes[0].arrived).queue| > 0
    ensures PassesWellFormed(passes[1..])
    ensures var c := Capture(e, passes[0].arrived);
      var e1 := PollOnce(c, passes[0].clock, decode).0;
      var supply := Supply(e, passes);
      var r := PollForPackets(e, passes, decode);
      var rest := PollForPackets(e1, passes[1..], decode);
      && |supply| > 0
      && Supply(e1, passes[1..]) == supply[1..]
      && SendClocks(|e.queue|, e.capturing, passes)
         == [passes[0].clock] + SendClocks(|e1.queue|, e1.capturing, passes[1..])
      && r.0 == rest.0
      && Emitted(r.1) == [FrameSummary(supply[0], passes[0].clock, decode)] + Emitted(rest.1)
      && Freed(r.1) == [supply[0].id] + Freed(rest.1)
      && e1.issued + |Admitted(e1.capturing, passes[1..])| == e.issued + |Admitted(e.capturing, passes)|
  {
    var p := passes[0];
    SupplyStep(e, passes);
    var c := Capture(e, p.arrived);
    var first := PollOnce(c, p.clock, decode);
    var e1 := first.0;
    var later := FramesOf(Admitted(e.capturing, passes[1..]), c.issued);
    assert e1.queue == c.queue[1..] && e1.issued == c.issued && e1.capturing == e.capturing;
    DropFront(c.queue, later);
    var rest := PollForPackets(e1, passes[1..], decode);
    assert PollForPackets(e, passes, decode) == (rest.0, first.1 + rest.1);
    EmittedAppend(first.1, rest.1);
    FreedAppend(first.1, rest.1);
  }

  /** A pass whose poll finds a frame sends and frees the front of the
      supply and leaves the rest to the later passes. */
  lemma DeliversTaking(e: Engine, passes: seq<Pass>, decode: seq<byte> -> Layers)
    requires PassesWellFormed(passes) && |passes| > 0
    requires |Capture(e, passes[0].arrived).queue| > 0
    requires var e1 := PollOnce(Capture(e, passes[0].arrived), passes[0].clock, decode).0;
      Delivers(e1, passes[1..], decode, PollForPackets(e1, passes[1..], decode))
    ensures Delivers(e, passes, decode, PollForPackets(e, passes, decode))
  {
    TakingFacts(e, passes, decode);
    var e1 := PollOnce(Capture(e, passes[0].arrived), passes[0].clock, decode).0;
    var rest := PollForPackets(e1, passes[1..], decode);
    var clocks1 := SendClocks(|e1.queue|, e1.capturing, passes[1..]);
    DeliveryCons(Supply(e, passes), passes[0].clock, clocks1, Emitted(rest.1), Freed(rest.1), rest.0.queue, decode);
  }

  /** A pass whose poll finds nothing leaves the whole supply to the later
      passes. */
  lemma DeliversIdle(e: Engine, passes: seq<Pass>, decode: seq<byte> -> Layers)
    requires PassesWellFormed(passes) && |passes| > 0
    requires |Capture(e, passes[0].arrived).queue| == 0
    requires var e1 := PollOnce(Capture(e, passes[0].arrived), passes[0].clock, decode).0;
      Delivers(e1, passes[1..], decode, PollForPackets(e1, passes[1..], decode))
    ensures Delivers(e, passes, decode, PollForPackets(e, passes, decode))
  {
    var p := passes[0];
    SupplyStep(e, passes);
    var c := Capture(e, p.arrived);
    var first := PollOnce(c, p.clock, decode);
    var rest := PollForPackets(c, passes[1..], decode);
    assert first.0 == c;
    assert PollForPackets(e, passes, decode) == (rest.0, first.1 + rest.1);
    EmittedAppend(first.1, rest.1);
    FreedAppend(first.1, rest.1);
    assert Supply(c, passes[1..]) == Supply(e, passes);
    assert SendClocks(|e.queue|, e.capturing, passes) == SendClocks(|c.queue|, c.capturing, passes[1..]);
  }

  /** The loop delivers in supply order; see `Delivers`. */
  lemma {:induction false} PollDelivers(e: Engine, passes: seq<Pass>, decode: seq<byte> -> Layers)
    requires PassesWellFormed(passes)
    ensures Delivers(e, passes, decode, PollForPackets(e, passes, decode))
    decreases |passes|
  {
    if |passes| > 0 {
      assert PassWellFormed(passes[0]);
      var e1 := PollOnce(Capture(e, passes[0].arrived), passes[0].clock, decode).0;
      PollDelivers(e1, passes[1..], decode);
      if |Capture(e, passes[0].arrived).queue| > 0 {
        DeliversTaking(e, passes, decode);
      } else {
        DeliversIdle(e, passes, decode);
      }
    }
  }

  /** The summaries are sent in supply order: the i-th is that of the i-th
      frame offered (the frames already queued, then one per arrival in the
      order the callback saw them), read at the clock of the i-th pass whose
      poll found a frame. One summary is sent per such pass. */
  lemma PollSendsInOrder(e: Engine, passes: seq<Pass>, decode: seq<byte> -> Layers)
    requires PassesWellFormed(passes)
    ensures var supply := Supply(e, passes);
      var clocks := SendClocks(|e.queue|, e.capturing, passes);
      var sent := Emitted(PollForPackets(e, passes, decode).1);
      && |sent| == |clocks| <= |supply|
      && forall i :: 0 <= i < |sent| ==> sent[i] == FrameSummary(supply[i], clocks[i], decode)
  {
    PollDelivers(e, passes, decode);
    var supply := Supply(e, passes);
    var clocks := SendClocks(|e.queue|, e.capturing, passes);
    forall i | 0 <= i < |clocks|
      ensures SummariesOf(supply, clocks, decode)[i] == FrameSummary(supply[i], clocks[i], decode)
    {
      ZipAt(supply, clocks, (f: Frame, c: Clock) => FrameSummary(f, c, decode), i);
    }
  }

  /** The frames freed are the frames whose summaries were sent, in the same
      order; the supplied frames not taken stay queued, in order, and every
      admitted arrival was allocated a number. */
  lemma PollFreesInOrder(e: Engine, passes: seq<Pass>, decode: seq<byte> -> Layers)
    requires PassesWellFormed(passes)
    ensures var supply := Supply(e, passes);
      var n := |SendClocks(|e.queue|, e.capturing, passes)|;
      var r := PollForPackets(e, passes, decode);
      && |Freed(r.1)| == n <= |supply|
      && (forall i :: 0 <= i < n ==> Freed(r.1)[i] == supply[i].id)
      && r.0.queue == supply[n..]
      && r.0.issued == e.issued + |Admitted(e.capturing, passes)|
  {
    PollDelivers(e, passes, decode);
    var supply := Supply(e, passes);
    var n := |SendClocks(|e.queue|, e.capturing, passes)|;
    forall i | 0 <= i < n ensures IdsOf(supply, n)[i] == supply[i].id {
      IdsOfAt(supply, n, i);
    }
  }

  /** The supplied frames carry strictly increasing allocation numbers. */
  lemma SupplyIncreases(e: Engine, passes: seq<Pass>)
    requires Valid(e) && PassesWellFormed(passes)
    ensures var supply := Supply(e, passes);
      forall i, j :: 0 <= i < j < |supply| ==> supply[i].id < supply[j].id
  {
    var fs := FramesOf(Admitted(e.capturing, passes), e.issued);
    var supply := e.queue + fs;
    forall i, j | 0 <= i < j < |supply| ensures supply[i].id < supply[j].id {
      if j >= |e.queue| {
        assert supply[j] == fs[j - |e.queue|];
        if i >= |e.queue| {
          assert supply[i] == fs[i - |e.queue|];
        }
      }
    }
  }

  /** Frames are freed in allocation order, so none is freed twice. */
  lemma FreedOnce(e: Engine, passes: seq<Pass>, decode: seq<byte> -> Layers)
    requires Valid(e) && PassesWellFormed(passes)
    ensures var fr := Freed(PollForPackets(e, passes, decode).1);
      forall i, j :: 0 <= i < j < |fr| ==> fr[i] < fr[j]
  {
    PollFreesInOrder(e, passes, decode);
    SupplyIncreases(e, passes);
  }

  /** The loop keeps the ownership invariant and hands back every frame it
      takes: no frame stays in the consumer's hands. */
  lemma {:induction false} PollKeepsOwnership(e: Engine, passes: seq<Pass>, decode: seq<byte> -> Layers)
    requires Valid(e) && PassesWellFormed(passes)
    ensures Valid(PollForPackets(e, passes, decode).0)
    ensures PollForPackets(e, passes, decode).0.outstanding == e.outstanding
    decreases |passes|
  {
    if |passes| > 0 {
      assert PassWellFormed(passes[0]);
      var c := Capture(e, passes[0].arrived);
      CaptureValid(e, passes[0].arrived);
      PollOnceKeepsOwnership(c, passes[0].clock, decode);
      PollKeepsOwnership(PollOnce(c, passes[0].clock, decode).0, passes[1..], decode);
    }
  }

  /** Every iteration sleeps once, whether or not it found a frame, and the
      loop never stops the engine. */
  lemma {:induction false} PollSleepsEachIteration(e: Engine, passes: seq<Pass>, decode: seq<byte> -> Layers)
    requires PassesWellFormed(passes)
    ensures Sleeps(PollForPackets(e, passes, decode).1) == |passes|
    ensures Stops(PollForPackets(e, passes, decode).1) == 0
    decreases |passes|
  {
    if |passes| > 0 {
      assert PassWellFormed(passes[0]);
      var first := PollOnce(Capture(e, passes[0].arrived), passes[0].clock, decode);
      var rest := PollForPackets(first.0, passes[1..], decode);
      assert PollForPackets(e, passes, decode).1 == first.1 + rest.1;
      PollSleepsEachIteration(first.0, passes[1..], decode);
      CountsAppend(first.1, rest.1);
    }
  }

  /** Each frame is freed right after its summary is sent. */
  lemma {:induction false} PollSendsThenFrees(e: Engine, passes: seq<Pass>, decode: seq<byte> -> Layers)
    requires PassesWellFormed(passes)
    ensures EmitThenFree(PollForPackets(e, passes, decode).1)
    decreases |passes|
  {
    if |passes| > 0 {
      assert PassWellFormed(passes[0]);
      var c := Capture(e, passes[0].arrived);
      var first := PollOnce(c, passes[0].clock, decode);
      var rest := PollForPackets(first.0, passes[1..], decode);
      assert PollForPackets(e, passes, decode).1 == first.1 + rest.1;
      PollOnceSendsThenFrees(c, passes[0].clock, decode);
      PollSendsThenFrees(first.0, passes[1..], decode);
      EmitThenFreeAppend(first.1, rest.1);
    }
  }

  lemma {:induction false} CaptureValid(e: Engine, arrivals: seq<Arrival>)
    requires Valid(e)
    requires forall k :: 0 <= k < |arrivals| ==> WellFormed(arrivals[k])
    ensures Valid(Capture(e, arrivals))
    decreases |arrivals|
  {
    if |arrivals| > 0 {
      assert WellFormed(arrivals[0]);
      CaptureValid(PacketHandler(e, arrivals[0].header, arrivals[0].data), arrivals[1..]);
    }
  }
}
