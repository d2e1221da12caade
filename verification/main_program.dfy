/** The stand-alone program: enumerate the devices, ask for one, start the
    capture on it, then poll the engine, printing one line per frame and
    freeing it, until the stop signal arrives; finally stop the engine once.
    The capture thread runs concurrently: between two polls any number of
    frames may arrive. */
module MainProgram {
  import opened Wrappers
  import opened Text
  import opened DeviceJson
  import opened CaptureEngine
  import opened PacketSummary
  import opened Trace
  import opened CaptureClient
  import opened DeviceSelection

  /** parseAndPrintPacket's line: the same pieces as parsePacket's, in the
      same order (the layers are looked up before the clock is read, which
      changes nothing). */
  function PrintedLine(clock: Clock, layers: Layers, data: seq<byte>): string {
    var timestamp := FormatClock(clock);
    var line := timestamp + " |";
    var line := if layers.ipv4.Some?
      then line + (" " + AddressText(layers.ipv4.value.src) + " -> " + AddressText(layers.ipv4.value.dst) + " |")
      else line + " Non-IP Packet |";
    var line := if layers.tcp.Some?
      then line + (" TCP | " + PortText(layers.tcp.value.src) + " -> " + PortText(layers.tcp.value.dst) + " |")
      else if layers.udp.Some?
      then line + (" UDP | " + PortText(layers.udp.value.src) + " -> " + PortText(layers.udp.value.dst) + " |")
      else line + " Non-TCP/UDP |";
    line + (" Len: " + DecimalString(|data|))
  }

  /** The printed line is the channel summary: the same classification
      (Non-IP, TCP before UDP, else Non-TCP/UDP) and the same length. */
  lemma PrintedLineIsSummary(clock: Clock, layers: Layers, data: seq<byte>)
    ensures PrintedLine(clock, layers, data) == ParsePacket(clock, layers, data)
  {
    ParsePacketRendersSummary(clock, layers, data);
    var s := Summarize(clock, layers, data);
    var p := FormatClock(clock) + " |";
    var a := AddressField(layers.ipv4);
    var t := TransportField(s.transport);
    var l := LengthField(|data|);
    assert PrintedLine(clock, layers, data) == p + a + t + l by {
      if layers.tcp.Some? {
        assert s.transport == TcpSegment(layers.tcp.value);
      } else if layers.udp.Some? {
        assert s.transport == UdpDatagram(layers.udp.value);
      } else {
        assert s.transport == NoTransport;
      }
    }
  }

  /** What a reader of a printed line can rely on. */
  lemma PrintedLineLayout(clock: Clock, layers: Layers, data: seq<byte>)
    ensures var r := PrintedLine(clock, layers, data);
      var p := FormatClock(clock) + " |";
      var k := |p| + |AddressField(layers.ipv4)|;
      && StartsWith(r, p)
      && EndsWith(r, " Len: " + DecimalString(|data|))
      && (StartsWith(r[|p|..], NonIpMarker) <==> layers.ipv4.None?)
      && k <= |r|
      && (StartsWith(r[k..], " TCP | ") <==> layers.tcp.Some?)
      && (StartsWith(r[k..], " UDP | ") <==> layers.tcp.None? && layers.udp.Some?)
      && (StartsWith(r[k..], NonTransportMarker) <==> layers.tcp.None? && layers.udp.None?)
  {
    PrintedLineIsSummary(clock, layers, data);
    SummaryLineLayout(clock, layers, data);
  }

  /** How the start-up steps can end. */
  datatype Startup =
    | DeviceListError(error: DeviceError)
    | StillPrompting
    | StartRejected(device: DeviceInfo)
    | Started(device: DeviceInfo, engine: Engine)

  /** Steps 1 to 3 of main: getDevices (the JSON round trip and its checks),
      promptForDeviceSelection over the lines read, and initiateCapture,
      which fails exactly when the engine refuses to start. */
  method StartUp(list: Option<seq<PcapDevice>>, lines: seq<string>, e: Engine) returns (r: Startup)
    ensures r.DeviceListError? <==> list.None? || |list.value| == 0 || !AllDevicesSafe(list.value)
    ensures r.DeviceListError? ==> (r.error == NoDevices <==> list.None? || |list.value| == 0)
    ensures r.StillPrompting? <==>
      && list.Some? && |list.value| > 0 && AllDevicesSafe(list.value)
      && forall j :: 0 <= j < |lines| ==> SelectDevice(DecodedAll(list.value), lines[j]).None?
    ensures r.StartRejected? || r.Started? ==>
      && list.Some?
      && exists j :: 0 <= j < |lines| && SelectDevice(DecodedAll(list.value), lines[j]) == Some(r.device)
    ensures r.StartRejected? ==> e.capturing
    ensures r.Started? ==> !e.capturing && r.engine == e.(capturing := true)
    ensures r.Started? ==> r.device in DecodedAll(list.value)
  {
    GetDevicesFromEnumeration(list);
    var devices := GetDevices(DecodeDeviceJson(DevicesJson(list)));
    if devices.Failure? {
      return DeviceListError(devices.error);
    }
    var selected := Prompt(devices.value, lines);
    if selected.None? {
      return StillPrompting;
    }
    var device := selected.value.0;
    var (e1, outcome) := StartCapture(e, device);
    if outcome.Fail? {
      return StartRejected(device);
    }
    return Started(device, e1);
  }

  /** The queued frames carry consecutive allocation numbers starting at
      `next`, and the next frame allocated will follow them. */
  ghost predicate Numbered(e: Engine, next: nat) {
    && (forall k :: 0 <= k < |e.queue| ==> e.queue[k].id == next + k)
    && next + |e.queue| == e.issued
  }

  /** The ids are `start`, `start + 1`, ... in this order. */
  predicate CountsUpFrom(ids: seq<nat>, start: nat) {
    forall k :: 0 <= k < |ids| ==> ids[k] == start + k
  }

  lemma CountsUpAppend(a: seq<nat>, b: seq<nat>, start: nat)
    requires CountsUpFrom(a, start) && CountsUpFrom(b, start + |a|)
    ensures CountsUpFrom(a + b, start)
  {
    forall k | 0 <= k < |a + b| ensures (a + b)[k] == start + k {
      if k >= |a| { assert (a + b)[k] == b[k - |a|]; }
    }
  }

  /** The capture callback keeps the numbering: new frames are numbered on
      from the last. */
  lemma CaptureKeepsNumbered(e: Engine, arrivals: seq<Arrival>, next: nat)
    requires Numbered(e, next)
    requires forall k :: 0 <= k < |arrivals| ==> WellFormed(arrivals[k])
    ensures Numbered(Capture(e, arrivals), next)
  {
    if e.capturing {
      CaptureAppends(e, arrivals);
      var c := Capture(e, arrivals);
      forall k | 0 <= k < |c.queue| ensures c.queue[k].id == next + k {
        if k < |e.queue| {
          assert c.queue[k] == c.queue[..|e.queue|][k];
        } else {
          assert c.queue[|e.queue| + (k - |e.queue|)] == FrameOf(arrivals[k - |e.queue|], e.issued + (k - |e.queue|));
        }
      }
    } else {
      CaptureIgnoredWhenStopped(e, arrivals);
    }
  }

  /** The poll half of a pass: a frame, when there is one, is printed and
      freed; otherwise the loop sleeps. */
  function MainPoll(e: Engine, clock: Clock, decode: seq<byte> -> Layers): (r: (Engine, seq<Event>))
    ensures Sleeps(r.1) + |Freed(r.1)| == 1 && |Emitted(r.1)| == |Freed(r.1)| && Stops(r.1) == 0
  {
    var polled := GetNextPacket(e);
    match polled.packet
    case None => (e, [Sleep])
    case Some(f) =>
      var line := PrintedLine(clock, decode(FrameBytes(f)), FrameBytes(f));
      BusyIteration(line, f.id, []);
      assert [Emit(line), Free(f.id)] + [] == [Emit(line), Free(f.id)];
      (FreePacket(polled.engine, Some(f)), [Emit(line), Free(f.id)])
  }

  /** The trace of `passes` passes of the loop whose first frame to free is
      allocation `start`: frames are freed in allocation order with none
      skipped, each printed just before it is freed, and every pass either
      freed a frame or slept. */
  ghost predicate TraceInv(start: nat, ev: seq<Event>, passes: nat) {
    && CountsUpFrom(Freed(ev), start)
    && Sleeps(ev) + |Freed(ev)| == passes && Stops(ev) == 0
    && |Emitted(ev)| == |Freed(ev)|
    && EmitThenFree(ev)
  }

  /** Ownership is intact, the consumer holds what it held at the start, and
      the queued frames are numbered on from `next`. */
  ghost predicate EngineInv(e: Engine, current: Engine, next: nat) {
    Valid(current) && current.outstanding == e.outstanding && Numbered(current, next)
  }

  /** A poll keeps the ownership invariant and the numbering, and leaves
      nothing in the loop's hands. */
  lemma MainPollKeeps(e: Engine, clock: Clock, decode: seq<byte> -> Layers, next: nat)
    requires Valid(e) && Numbered(e, next)
    ensures var r := MainPoll(e, clock, decode);
      EngineInv(e, r.0, next + |Freed(r.1)|)
  {
    var r := MainPoll(e, clock, decode);
    if |e.queue| > 0 {
      var f := e.queue[0];
      assert f.id !in e.outstanding;
      assert e.outstanding + {f.id} - {f.id} == e.outstanding;
      MainPollFrees(e, clock, decode);
      forall k | 0 <= k < |r.0.queue| ensures r.0.queue[k].id == next + 1 + k {
        assert r.0.queue[k] == e.queue[k + 1];
      }
    } else {
      assert r.1 == [Sleep];
    }
  }

  /** A poll frees the oldest queued frame, if there is one, right after
      printing it, and otherwise only sleeps. */
  lemma MainPollFrees(e: Engine, clock: Clock, decode: seq<byte> -> Layers)
    ensures var r := MainPoll(e, clock, decode);
      && (|e.queue| > 0 ==> Freed(r.1) == [e.queue[0].id])
      && (|e.queue| == 0 ==> r.1 == [Sleep])
      && EmitThenFree(r.1)
  {
    var r := MainPoll(e, clock, decode);
    if |e.queue| > 0 {
      assert r.1[0].Emit? && r.1[1].Free? && |r.1| == 2;
    }
  }

  /** The trace of one poll, when the queue is numbered from `next`. */
  lemma MainPollTrace(e: Engine, clock: Clock, decode: seq<byte> -> Layers, next: nat)
    requires Numbered(e, next)
    ensures TraceInv(next, MainPoll(e, clock, decode).1, 1)
  {
    MainPollFrees(e, clock, decode);
  }

  /** The trace invariant extends over one more pass. */
  lemma TraceStep(start: nat, ev: seq<Event>, passes: nat, more: seq<Event>)
    requires TraceInv(start, ev, passes) && TraceInv(start + |Freed(ev)|, more, 1)
    ensures TraceInv(start, ev + more, passes + 1)
  {
    EmittedAppend(ev, more);
    FreedAppend(ev, more);
    CountsAppend(ev, more);
    EmitThenFreeAppend(ev, more);
    CountsUpAppend(Freed(ev), Freed(more), start);
  }

  /** One pass of main's loop body: the callback runs for the frames that
      arrived meanwhile, then the loop polls once. It leaves the engine as an
      iteration of PollForPackets does, and prints the lines that iteration
      sends and frees the frame it frees; only the sleeps differ. */
  function MainPass(e: Engine, p: Pass, decode: seq<byte> -> Layers): (r: (Engine, seq<Event>))
    requires PassWellFormed(p)
    ensures var go := PollOnce(Capture(e, p.arrived), p.clock, decode);
      r.0 == go.0 && Emitted(r.1) == Emitted(go.1) && Freed(r.1) == Freed(go.1)
  {
    var c := Capture(e, p.arrived);
    if |c.queue| > 0 then
      var bytes := FrameBytes(c.queue[0]);
      PrintedLineIsSummary(p.clock, decode(bytes), bytes);
      MainPoll(c, p.clock, decode)
    else
      MainPoll(c, p.clock, decode)
  }

  /** The rest of main's loop, from pass i on, is one pass followed by the
      rest from pass i + 1, measured by the lines and frees of the Go loop. */
  lemma MainStepMatches(current: Engine, passes: seq<Pass>, i: nat, decode: seq<byte> -> Layers)
    requires PassesWellFormed(passes) && i < |passes|
    ensures PassWellFormed(passes[i]) && PassesWellFormed(passes[i + 1..])
    ensures var step := MainPass(current, passes[i], decode);
      var here := PollForPackets(current, passes[i..], decode);
      var later := PollForPackets(step.0, passes[i + 1..], decode);
      && here.0 == later.0
      && Emitted(here.1) == Emitted(step.1) + Emitted(later.1)
      && Freed(here.1) == Freed(step.1) + Freed(later.1)
  {
    var rest := passes[i..];
    assert rest[0] == passes[i] && rest[1..] == passes[i + 1..];
    assert PassWellFormed(passes[i]);
    var first := PollOnce(Capture(current, passes[i].arrived), passes[i].clock, decode);
    var later := PollForPackets(first.0, passes[i + 1..], decode);
    assert PollForPackets(current, rest, decode) == (later.0, first.1 + later.1);
    EmittedAppend(first.1, later.1);
    FreedAppend(first.1, later.1);
  }

  /** main's loop and PollForPackets over the same passes: what main has
      printed and freed so far, followed by what the Go loop would send and
      free from here on, is what the Go loop sends and frees overall. */
  ghost predicate MatchesGo(e: Engine, passes: seq<Pass>, i: nat, current: Engine, ev: seq<Event>,
                            decode: seq<byte> -> Layers)
    requires PassesWellFormed(passes) && i <= |passes|
  {
    var go := PollForPackets(e, passes, decode);
    var rest := PollForPackets(current, passes[i..], decode);
    && rest.0 == go.0
    && Emitted(ev) + Emitted(rest.1) == Emitted(go.1)
    && Freed(ev) + Freed(rest.1) == Freed(go.1)
  }

  lemma MatchesGoStarts(e: Engine, passes: seq<Pass>, decode: seq<byte> -> Layers)
    requires PassesWellFormed(passes)
    ensures MatchesGo(e, passes, 0, e, [], decode)
  {
    assert passes[0..] == passes;
    var go := PollForPackets(e, passes, decode);
    assert Emitted([]) == [] && Freed([]) == [];
    EmptyPrefix(Emitted(go.1));
    EmptyPrefix(Freed(go.1));
  }

  lemma EmptyPrefix<T>(x: seq<T>)
    ensures [] + x == x
  {
  }

  lemma MatchesGoStep(e: Engine, passes: seq<Pass>, i: nat, current: Engine, ev: seq<Event>,
                      decode: seq<byte> -> Layers)
    requires PassesWellFormed(passes) && i < |passes|
    requires MatchesGo(e, passes, i, current, ev, decode)
    ensures PassWellFormed(passes[i])
    ensures var step := MainPass(current, passes[i], decode);
      MatchesGo(e, passes, i + 1, step.0, ev + step.1, decode)
  {
    MainStepMatches(current, passes, i, decode);
    var go := PollForPackets(e, passes, decode);
    var step := MainPass(current, passes[i], decode);
    var here := PollForPackets(current, passes[i..], decode);
    var later := PollForPackets(step.0, passes[i + 1..], decode);
    EmittedAppend(ev, step.1);
    FreedAppend(ev, step.1);
    Associative(Emitted(ev), Emitted(step.1), Emitted(later.1));
    Associative(Freed(ev), Freed(step.1), Freed(later.1));
  }

  /** At the end of the passes, main has printed and freed exactly what the
      Go loop sends and frees, and left the engine as the Go loop does. */
  lemma MatchesGoAtEnd(e: Engine, passes: seq<Pass>, current: Engine, ev: seq<Event>,
                       decode: seq<byte> -> Layers)
    requires PassesWellFormed(passes)
    requires MatchesGo(e, passes, |passes|, current, ev, decode)
    ensures var go := PollForPackets(e, passes, decode);
      current == go.0 && Emitted(ev) == Emitted(go.1) && Freed(ev) == Freed(go.1)
  {
    assert passes[|passes|..] == [];
    assert Emitted([]) == [] && Freed([]) == [];
  }

  /** What holds after `passes` passes of the loop that started from `e`. */
  ghost predicate LoopInv(e: Engine, current: Engine, ev: seq<Event>, passes: nat) {
    EngineInv(e, current, e.issued + |Freed(ev)|) && TraceInv(e.issued, ev, passes)
  }

  lemma LoopStarts(e: Engine)
    requires Valid(e) && |e.queue| == 0
    ensures LoopInv(e, e, [], 0)
  {
    assert Freed([]) == [];
  }

  /** One more pass keeps the loop invariant. */
  lemma LoopStep(e: Engine, current: Engine, ev: seq<Event>, n: nat, p: Pass, decode: seq<byte> -> Layers)
    requires LoopInv(e, current, ev, n) && PassWellFormed(p)
    ensures var step := MainPass(current, p, decode);
      LoopInv(e, step.0, ev + step.1, n + 1)
  {
    var next := e.issued + |Freed(ev)|;
    CaptureValid(current, p.arrived);
    CaptureKeepsNumbered(current, p.arrived, next);
    var captured := Capture(current, p.arrived);
    MainPollKeeps(captured, p.clock, decode, next);
    MainPollTrace(captured, p.clock, decode, next);
    var step := MainPoll(captured, p.clock, decode);
    TraceStep(e.issued, ev, n, step.1);
    FreedAppend(ev, step.1);
  }

  /** Stopping the engine and the final sleep add one Stop and one Sleep,
      and free nothing. */
  lemma LoopStops(ev: seq<Event>)
    requires Stops(ev) == 0 && EmitThenFree(ev)
    ensures var all := ev + [Stop, Sleep];
      && Stops(all) == 1 && Sleeps(all) == Sleeps(ev) + 1
      && Freed(all) == Freed(ev) && Emitted(all) == Emitted(ev)
      && EmitThenFree(all)
      && |all| >= 2 && all[|all| - 2] == Stop && all[|all| - 1] == Sleep
  {
    var tail: seq<Event> := [Stop, Sleep];
    assert Emitted(tail) == [] && Freed(tail) == [] && Sleeps(tail) == 1 && Stops(tail) == 1;
    assert EmitThenFree(tail);
    EmittedAppend(ev, tail);
    FreedAppend(ev, tail);
    CountsAppend(ev, tail);
    EmitThenFreeAppend(ev, tail);
  }

  /** Over a loop started on an empty queue, the Go loop's summaries are the
      lines main prints: the k-th is that of the frame allocated for the k-th
      admitted arrival, numbered on from `issued`, read at the clock of the
      k-th pass that found a frame; the frames not yet printed stay queued. */
  lemma GoLoopPrints(e: Engine, passes: seq<Pass>, decode: seq<byte> -> Layers)
    requires |e.queue| == 0 && PassesWellFormed(passes)
    ensures var arrived := Admitted(e.capturing, passes);
      var clocks := SendClocks(0, e.capturing, passes);
      var r := PollForPackets(e, passes, decode);
      var sent := Emitted(r.1);
      && |sent| == |clocks| <= |arrived|
      && (forall k :: 0 <= k < |sent| ==>
            sent[k] == PrintedLine(clocks[k], decode(FrameOf(arrived[k], e.issued + k).bytes),
                                   FrameOf(arrived[k], e.issued + k).bytes))
      && r.0.queue == FramesOf(arrived, e.issued)[|sent|..]
      && r.0.issued == e.issued + |arrived|
  {
    PollSendsInOrder(e, passes, decode);
    PollFreesInOrder(e, passes, decode);
    var arrived := Admitted(e.capturing, passes);
    var supply := Supply(e, passes);
    assert supply == FramesOf(arrived, e.issued);
    var clocks := SendClocks(0, e.capturing, passes);
    forall k | 0 <= k < |clocks|
      ensures FrameSummary(supply[k], clocks[k], decode)
           == PrintedLine(clocks[k], decode(FrameOf(arrived[k], e.issued + k).bytes),
                          FrameOf(arrived[k], e.issued + k).bytes)
    {
      var bytes := FrameOf(arrived[k], e.issued + k).bytes;
      PrintedLineIsSummary(clocks[k], decode(bytes), bytes);
    }
  }

  /** main's printed lines and queue after its loop, in the terms of
      `GoLoopPrints`. */
  lemma MainLoopPrints(e: Engine, passes: seq<Pass>, current: Engine, ev: seq<Event>,
                       decode: seq<byte> -> Layers)
    requires |e.queue| == 0 && PassesWellFormed(passes)
    requires MatchesGo(e, passes, |passes|, current, ev, decode)
    ensures var arrived := Admitted(e.capturing, passes);
      var clocks := SendClocks(0, e.capturing, passes);
      var printed := Emitted(ev);
      && |printed| == |clocks| <= |arrived|
      && (forall k :: 0 <= k < |printed| ==>
            printed[k] == PrintedLine(clocks[k], decode(FrameOf(arrived[k], e.issued + k).bytes),
                                      FrameOf(arrived[k], e.issued + k).bytes))
      && current.queue == FramesOf(arrived, e.issued)[|printed|..]
      && current.issued == e.issued + |arrived|
  {
    MatchesGoAtEnd(e, passes, current, ev, decode);
    GoLoopPrints(e, passes, decode);
  }

  /** The passes of main's loop: each runs the callback on its arrivals,
      then polls once. The loop keeps the ownership invariant and its trace
      discipline, and does what PollForPackets does over the same passes. */
  method MainLoop(e: Engine, passes: seq<Pass>, decode: seq<byte> -> Layers)
    returns (current: Engine, ev: seq<Event>)
    requires Valid(e) && |e.queue| == 0
    requires PassesWellFormed(passes)
    ensures LoopInv(e, current, ev, |passes|)
    ensures MatchesGo(e, passes, |passes|, current, ev, decode)
  {
    current := e;
    ev := [];
    LoopStarts(e);
    MatchesGoStarts(e, passes, decode);
    var i := 0;
    while i < |passes|
      invariant 0 <= i <= |passes|
      invariant LoopInv(e, current, ev, i)
      invariant MatchesGo(e, passes, i, current, ev, decode)
    {
      LoopStep(e, current, ev, i, passes[i], decode);
      MatchesGoStep(e, passes, i, current, ev, decode);
      var step := MainPass(current, passes[i], decode);
      current := step.0;
      ev := ev + step.1;
      i := i + 1;
    }
  }

  /** main's poll loop over the passes before the stop signal is seen, then
      stop_capture and the final half-second sleep. */
  method PollUntilStopped(e: Engine, passes: seq<Pass>, decode: seq<byte> -> Layers)
    returns (final: Engine, ev: seq<Event>)
    requires Valid(e) && |e.queue| == 0
    requires PassesWellFormed(passes)
    ensures Valid(final) && !final.capturing && final.outstanding == e.outstanding
    ensures Stops(ev) == 1 && |ev| >= 2 && ev[|ev| - 2] == Stop && ev[|ev| - 1] == Sleep
    ensures Sleeps(ev) + |Freed(ev)| == |passes| + 1
    ensures |Emitted(ev)| == |Freed(ev)|
    ensures CountsUpFrom(Freed(ev), e.issued)
    ensures e.issued + |Freed(ev)| + |final.queue| == final.issued
    ensures EmitThenFree(ev)
    ensures var arrived := Admitted(e.capturing, passes);
      var clocks := SendClocks(0, e.capturing, passes);
      var printed := Emitted(ev);
      && |printed| == |clocks| <= |arrived|
      && (forall k :: 0 <= k < |printed| ==>
            printed[k] == PrintedLine(clocks[k], decode(FrameOf(arrived[k], e.issued + k).bytes),
                                      FrameOf(arrived[k], e.issued + k).bytes))
      && final.queue == FramesOf(arrived, e.issued)[|printed|..]
      && final.issued == e.issued + |arrived|
  {
    var current, loopEv := MainLoop(e, passes, decode);
    MainLoopPrints(e, passes, current, loopEv, decode);
    LoopStops(loopEv);
    final := StopCapture(current);
    ev := loopEv + [Stop, Sleep];
  }
}
