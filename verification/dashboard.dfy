/** The terminal dashboard's model: counters, the packet log and the
    viewport's geometry, updated one message at a time, and the choice the
    view makes between its "Initializing..." screen and its panels. Styling,
    layout and scrolling belong to the UI library and are not modelled. */
module Dashboard {
  import opened Text
  import opened PacketSummary

  const HeaderHeight: int := 3
  const FooterHeight: int := 3
  const StatsPanelWidth: int := 30
  const WaitingText: string := "Waiting for packets..."
  const InitializingText: string := "Initializing..."

  /** The viewport's size, its vertical position and the text it shows. */
  datatype Viewport = Viewport(width: int, height: int, yPosition: int, content: string)

  /** The dashboard state. Go's `int` counters are modelled unbounded. */
  datatype Model = Model(viewport: Viewport, ready: bool, packets: seq<string>,
                         packetCount: int, tcpCount: int, udpCount: int, otherCount: int,
                         totalBytes: int)

  /** The model the program starts with: zero-valued everywhere. */
  const Start: Model := Model(Viewport(0, 0, 0, ""), false, [], 0, 0, 0, 0, 0)

  /** The messages the dashboard reacts to: a key press (by its name), a
      packet record, a terminal resize, and anything else. */
  datatype Msg = Key(name: string) | PacketMsg(info: PacketInfo) | WindowSize(width: int, height: int) | OtherMsg

  /** The command returned with the new model: quit, wait for the next
      packet, or whatever the viewport's own update asks for. */
  datatype Cmd = Quit | WaitForPacket | ViewportCmd

  predicate IsQuitKey(msg: Msg) {
    msg.Key? && (msg.name == "q" || msg.name == "ctrl+c")
  }

  /** The counters agree with each other and with the log: every packet is
      counted once, under exactly one protocol, and logged once. */
  ghost predicate Inv(m: Model) {
    && m.tcpCount >= 0 && m.udpCount >= 0 && m.otherCount >= 0 && m.totalBytes >= 0
    && m.tcpCount + m.udpCount + m.otherCount == m.packetCount
    && |m.packets| == m.packetCount
  }

  lemma StartInv()
    ensures Inv(Start) && !Start.ready
  {
  }

  /** A packet record counted under its protocol: "TCP" and "UDP" have their
      own counters, any other name goes to "other". */
  function Tally(m: Model, info: PacketInfo): (r: Model)
    ensures r.packetCount == m.packetCount + 1
    ensures r.totalBytes == m.totalBytes + info.length
    ensures r.tcpCount == m.tcpCount + (if info.protocol == "TCP" then 1 else 0)
    ensures r.udpCount == m.udpCount + (if info.protocol == "UDP" then 1 else 0)
    ensures r.otherCount == m.otherCount + (if info.protocol != "TCP" && info.protocol != "UDP" then 1 else 0)
    ensures r.tcpCount + r.udpCount + r.otherCount == m.tcpCount + m.udpCount + m.otherCount + 1
    ensures r.packets == m.packets && r.viewport == m.viewport && r.ready == m.ready
  {
    var m1 := m.(packetCount := m.packetCount + 1, totalBytes := m.totalBytes + info.length);
    if info.protocol == "TCP" then m1.(tcpCount := m1.tcpCount + 1)
    else if info.protocol == "UDP" then m1.(udpCount := m1.udpCount + 1)
    else m1.(otherCount := m1.otherCount + 1)
  }

  /** Update: a quit key returns the model unchanged with Quit; a packet is
      counted, its summary appended to the log and the log shown in the
      viewport; the first resize creates the viewport (its height leaves room
      for header and footer) and marks the model ready, later ones only
      resize it. Other keys and messages go to the viewport, whose scrolling
      is not modelled. */
  function Update(m: Model, msg: Msg): (r: (Model, Cmd))
    ensures r.1 == Quit <==> IsQuitKey(msg)
    ensures r.1 == WaitForPacket <==> msg.PacketMsg?
    ensures !msg.PacketMsg? ==>
      && r.0.packets == m.packets && r.0.packetCount == m.packetCount
      && r.0.tcpCount == m.tcpCount && r.0.udpCount == m.udpCount
      && r.0.otherCount == m.otherCount && r.0.totalBytes == m.totalBytes
    ensures msg.PacketMsg? ==>
      && r.0.packets == m.packets + [msg.info.summary]
      && r.0.viewport.content == Join(r.0.packets, "\n")
      && r.0.ready == m.ready
    ensures !msg.WindowSize? && !msg.PacketMsg? ==> r.0 == m
    ensures msg.WindowSize? ==>
      && r.0.ready
      && r.0.viewport.width == msg.width
      && r.0.viewport.height == msg.height - (HeaderHeight + FooterHeight)
      && (m.ready ==> r.0.viewport.content == m.viewport.content
                      && r.0.viewport.yPosition == m.viewport.yPosition)
      && (!m.ready ==> r.0.viewport.content == WaitingText
                       && r.0.viewport.yPosition == HeaderHeight)
    ensures Inv(m) ==> Inv(r.0)
  {
    match msg
    case Key(name) =>
      if name == "q" || name == "ctrl+c" then (m, Quit) else (m, ViewportCmd)
    case PacketMsg(info) =>
      var counted := Tally(m, info);
      var packets := m.packets + [info.summary];
      (counted.(packets := packets, viewport := counted.viewport.(content := Join(packets, "\n"))),
       WaitForPacket)
    case WindowSize(width, height) =>
      var h := height - (HeaderHeight + FooterHeight);
      if !m.ready then
        (m.(viewport := Viewport(width, h, HeaderHeight, WaitingText), ready := true), ViewportCmd)
      else
        (m.(viewport := m.viewport.(width := width, height := h)), ViewportCmd)
    case OtherMsg =>
      (m, ViewportCmd)
  }

  /** No counter ever decreases. */
  lemma CountersNeverDecrease(m: Model, msg: Msg)
    ensures var r := Update(m, msg).0;
      && r.packetCount >= m.packetCount && r.tcpCount >= m.tcpCount
      && r.udpCount >= m.udpCount && r.otherCount >= m.otherCount
      && r.totalBytes >= m.totalBytes
      && |r.packets| >= |m.packets| && r.packets[..|m.packets|] == m.packets
  {
    var r := Update(m, msg).0;
    if msg.PacketMsg? {
      assert r.packets[..|m.packets|] == m.packets;
    }
  }

  /** Once at least one packet is logged, the viewport's text grows by a
      line break and the new summary; the earlier text is kept. */
  lemma LogGrowsByOneLine(m: Model, info: PacketInfo)
    requires |m.packets| > 0
    ensures Update(m, PacketMsg(info)).0.viewport.content
            == Join(m.packets, "\n") + "\n" + info.summary
  {
    JoinAppend(m.packets, info.summary, "\n");
  }

  /** The packet records handed to Update before the first quit key, in
      order. The modelled run ends at that key; see `Run`. */
  function Delivered(msgs: seq<Msg>): seq<PacketInfo>
    decreases |msgs|
  {
    if |msgs| == 0 || IsQuitKey(msgs[0]) then []
    else (if msgs[0].PacketMsg? then [msgs[0].info] else []) + Delivered(msgs[1..])
  }

  function Summaries(ps: seq<PacketInfo>): seq<string>
    decreases |ps|
  {
    if |ps| == 0 then [] else [ps[0].summary] + Summaries(ps[1..])
  }

  function TotalLength(ps: seq<PacketInfo>): int
    decreases |ps|
  {
    if |ps| == 0 then 0 else ps[0].length + TotalLength(ps[1..])
  }

  function CountProtocol(ps: seq<PacketInfo>, name: string): nat
    decreases |ps|
  {
    if |ps| == 0 then 0 else (if ps[0].protocol == name then 1 else 0) + CountProtocol(ps[1..], name)
  }

  /** The event loop: messages are handed to Update one by one until it
      returns Quit; the result also says whether it did. A run keeps the
      counter invariant, never forgets a resize, and only appends to the log. */
  function Run(m: Model, msgs: seq<Msg>): (r: (Model, bool))
    ensures Inv(m) ==> Inv(r.0)
    ensures m.ready ==> r.0.ready
    ensures |r.0.packets| >= |m.packets| && r.0.packets[..|m.packets|] == m.packets
    decreases |msgs|
  {
    if |msgs| == 0 then (m, false)
    else
      var step := Update(m, msgs[0]);
      if step.1 == Quit then (step.0, true) else Run(step.0, msgs[1..])
  }

  /** Over a whole run, the log holds the summaries of the delivered packets
      in delivery order, the packet count is their number, and the invariant
      still holds. */
  lemma {:induction false} RunLogs(m: Model, msgs: seq<Msg>)
    requires Inv(m)
    ensures var r := Run(m, msgs).0;
      var ps := Delivered(msgs);
      && Inv(r)
      && r.packets == m.packets + Summaries(ps)
      && r.packetCount == m.packetCount + |ps|
    decreases |msgs|
  {
    if |msgs| > 0 && !IsQuitKey(msgs[0]) {
      var msg := msgs[0];
      var m1 := Update(m, msg).0;
      RunLogs(m1, msgs[1..]);
      var rest := Delivered(msgs[1..]);
      if msg.PacketMsg? {
        var ps := [msg.info] + rest;
        assert Delivered(msgs) == ps;
        assert ps[1..] == rest;
        assert Summaries(ps) == [msg.info.summary] + Summaries(rest);
        assert m1.packets + Summaries(rest) == m.packets + Summaries(ps);
      } else {
        assert Delivered(msgs) == rest;
      }
    }
  }

  /** Over a whole run, the byte total is the total length of the delivered
      packets, and the TCP and UDP counters count their protocol names. */
  lemma {:induction false} RunTallies(m: Model, msgs: seq<Msg>)
    ensures var r := Run(m, msgs).0;
      var ps := Delivered(msgs);
      && r.totalBytes == m.totalBytes + TotalLength(ps)
      && r.tcpCount == m.tcpCount + CountProtocol(ps, "TCP")
      && r.udpCount == m.udpCount + CountProtocol(ps, "UDP")
    decreases |msgs|
  {
    if |msgs| > 0 && !IsQuitKey(msgs[0]) {
      var msg := msgs[0];
      RunTallies(Update(m, msg).0, msgs[1..]);
      var rest := Delivered(msgs[1..]);
      if msg.PacketMsg? {
        var ps := [msg.info] + rest;
        assert Delivered(msgs) == ps;
        assert ps[1..] == rest;
      } else {
        assert Delivered(msgs) == rest;
      }
    }
  }

  /** The run ends on Quit exactly when a quit key is among the messages. */
  lemma {:induction false} RunQuitsOnQuitKey(m: Model, msgs: seq<Msg>)
    ensures Run(m, msgs).1 <==> exists k :: 0 <= k < |msgs| && IsQuitKey(msgs[k])
    decreases |msgs|
  {
    if |msgs| > 0 && !IsQuitKey(msgs[0]) {
      RunQuitsOnQuitKey(Update(m, msgs[0]).0, msgs[1..]);
      if exists k :: 0 <= k < |msgs| && IsQuitKey(msgs[k]) {
        var k :| 0 <= k < |msgs| && IsQuitKey(msgs[k]);
        assert k > 0 && IsQuitKey(msgs[1..][k - 1]);
      }
      if exists k :: 0 <= k < |msgs| - 1 && IsQuitKey(msgs[1..][k]) {
        var k :| 0 <= k < |msgs| - 1 && IsQuitKey(msgs[1..][k]);
        assert IsQuitKey(msgs[k + 1]);
      }
    }
  }

  /** What the view shows: the not-ready screen (the text InitializingText), or the statistics panel and
      the packet panel, whose width leaves room for the statistics panel. */
  datatype Screen =
    | Initializing
    | Panels(packetCount: int, rate: real, data: real, unit: string,
             tcpCount: int, udpCount: int, otherCount: int,
             packetPanelWidth: int, log: string)

  /** The byte size of a unit. */
  function UnitSize(unit: string): real {
    if unit == "MB" then 1048576.0 else if unit == "KB" then 1024.0 else 1.0
  }

  /** The data total in a readable unit: divided by 1024 while it exceeds
      1024, at most twice. Go divides float64 values; here the division is
      exact. */
  function ScaleBytes(total: int): (r: (real, string))
    ensures r.1 == "B" <==> total <= 1024
    ensures r.1 == "KB" <==> 1024 < total <= 1048576
    ensures r.1 == "MB" <==> 1048576 < total
    ensures r.0 * UnitSize(r.1) == total as real
    ensures r.1 != "MB" ==> r.0 <= 1024.0
    ensures r.1 != "B" ==> r.0 > 1.0
  {
    var data := total as real;
    var (data1, unit1) := if data > 1024.0 then (data / 1024.0, "KB") else (data, "B");
    if data1 > 1024.0 then (data1 / 1024.0, "MB") else (data1, unit1)
  }

  /** Packets per second over the elapsed time, zero before any time has
      passed. */
  function Rate(count: int, elapsedSeconds: real): (r: real)
    ensures elapsedSeconds > 0.0 ==> r * elapsedSeconds == count as real
    ensures elapsedSeconds <= 0.0 ==> r == 0.0
  {
    if elapsedSeconds > 0.0 then count as real / elapsedSeconds else 0.0
  }

  /** View: the not-ready screen exactly when no resize has arrived yet;
      otherwise the counters as they are, the packet rate, the byte total in
      the unit its size selects, and the log as the viewport holds it. */
  function View(m: Model, elapsedSeconds: real): (s: Screen)
    ensures s.Initializing? <==> !m.ready
    ensures s.Panels? ==>
      && s.packetCount == m.packetCount && s.tcpCount == m.tcpCount
      && s.udpCount == m.udpCount && s.otherCount == m.otherCount
      && (s.unit == "B" <==> m.totalBytes <= 1024)
      && (s.unit == "KB" <==> 1024 < m.totalBytes <= 1048576)
      && (s.unit == "MB" <==> 1048576 < m.totalBytes)
      && s.data * UnitSize(s.unit) == m.totalBytes as real
      && (elapsedSeconds > 0.0 ==> s.rate * elapsedSeconds == m.packetCount as real)
      && (elapsedSeconds <= 0.0 ==> s.rate == 0.0)
      && s.packetPanelWidth == m.viewport.width - StatsPanelWidth - 3
      && s.log == m.viewport.content
  {
    if !m.ready then Initializing
    else
      var (data, unit) := ScaleBytes(m.totalBytes);
      Panels(m.packetCount, Rate(m.packetCount, elapsedSeconds), data, unit,
             m.tcpCount, m.udpCount, m.otherCount,
             m.viewport.width - StatsPanelWidth - 3, m.viewport.content)
  }

  /** Packets that arrive before the first resize are counted, but the
      viewport created by that resize shows the waiting text, not them. */
  lemma EarlyPacketsHiddenUntilNextPacket(info: PacketInfo, width: int, height: int)
    ensures var m1 := Update(Start, PacketMsg(info)).0;
      var m2 := Update(m1, WindowSize(width, height)).0;
      && m2.packetCount == 1 && m2.packets == [info.summary]
      && View(m2, 0.0).log == WaitingText
  {
  }
}
