/** The one-line packet summary of the Go side (parsePacket). The packet
    decoder is a foreign library: its result is taken as the presence or
    absence of an IPv4, a TCP and a UDP layer, with their addresses and ports. */
module PacketSummary {
  import opened Wrappers
  import opened Text
  import opened CaptureEngine

  type uint16 = x: int | 0 <= x < 0x1_0000

  datatype IPv4Address = IPv4Address(a: byte, b: byte, c: byte, d: byte)

  /** The decoded IPv4 header, reduced to the two addresses the summary shows. */
  datatype IPv4Layer = IPv4Layer(src: IPv4Address, dst: IPv4Address)

  /** A TCP or UDP port with the service name the decoder knows for it, if any. */
  datatype Port = Port(number: uint16, name: Option<string>)

  datatype PortPair = PortPair(src: Port, dst: Port)

  /** What the decoder found in a frame decoded as Ethernet. */
  datatype Layers = Layers(ipv4: Option<IPv4Layer>, tcp: Option<PortPair>, udp: Option<PortPair>)

  type Hour = x: nat | x < 24
  type Minute = x: nat | x < 60
  type Second = x: nat | x < 60
  type Micros = x: nat | x < 1_000_000

  /** The wall-clock time of day at summarisation. */
  datatype Clock = Clock(hour: Hour, minute: Minute, second: Second, micros: Micros)

  /** Go's time layout "15:04:05.000000". */
  function FormatClock(c: Clock): string {
    FixedDigits(c.hour, 2) + ":" + FixedDigits(c.minute, 2) + ":"
    + FixedDigits(c.second, 2) + "." + FixedDigits(c.micros, 6)
  }

  /** The formatted time is fifteen characters: three two-digit fields and a
      six-digit one, separated by ':', ':' and '.'; it holds no '|'. */
  lemma FormatClockShape(c: Clock)
    ensures var r := FormatClock(c);
      && |r| == 15
      && r[2] == ':' && r[5] == ':' && r[8] == '.'
      && AllDigits(r[..2]) && AllDigits(r[3..5]) && AllDigits(r[6..8]) && AllDigits(r[9..])
      && '|' !in r
  {
    var r := FormatClock(c);
    assert r[..2] == FixedDigits(c.hour, 2);
    assert r[3..5] == FixedDigits(c.minute, 2);
    assert r[6..8] == FixedDigits(c.second, 2);
    assert r[9..] == FixedDigits(c.micros, 6);
    assert forall i :: 0 <= i < 15 && i != 2 && i != 5 && i != 8 ==> IsDigit(r[i]) by {
      forall i | 0 <= i < 15 && i != 2 && i != 5 && i != 8 ensures IsDigit(r[i]) {
        if i < 2 { assert r[i] == r[..2][i]; }
        else if i < 5 { assert r[i] == r[3..5][i - 3]; }
        else if i < 8 { assert r[i] == r[6..8][i - 6]; }
        else { assert r[i] == r[9..][i - 9]; }
      }
    }
  }

  /** The formatted time can be read back field by field. */
  lemma ClockReadsBack(c: Clock)
    ensures DigitsValue(FormatClock(c)[..2]) == c.hour
    ensures DigitsValue(FormatClock(c)[3..5]) == c.minute
    ensures DigitsValue(FormatClock(c)[6..8]) == c.second
    ensures DigitsValue(FormatClock(c)[9..]) == c.micros
  {
    var r := FormatClock(c);
    assert r[..2] == FixedDigits(c.hour, 2);
    assert r[3..5] == FixedDigits(c.minute, 2);
    assert r[6..8] == FixedDigits(c.second, 2);
    assert r[9..] == FixedDigits(c.micros, 6);
    assert Pow10(2) == 100;
    assert Pow10(6) == 1_000_000;
    FixedDigitsValue(c.hour, 2);
    FixedDigitsValue(c.minute, 2);
    FixedDigitsValue(c.second, 2);
    FixedDigitsValue(c.micros, 6);
  }

  /** Dotted-decimal notation, as Go prints a four-byte IP address. */
  function AddressText(a: IPv4Address): string {
    DecimalString(a.a) + "." + DecimalString(a.b) + "." + DecimalString(a.c) + "." + DecimalString(a.d)
  }

  /** An address is printed as four decimal numbers separated by dots, so it
      starts with a digit. */
  lemma AddressTextStartsWithDigit(a: IPv4Address)
    ensures 7 <= |AddressText(a)| && IsDigit(AddressText(a)[0])
  {
    assert AddressText(a)[0] == DecimalString(a.a)[0];
  }

  /** A port as the decoder prints it: the number, followed by the service
      name in parentheses when one is known. */
  function PortText(p: Port): string {
    match p.name
    case None => DecimalString(p.number)
    case Some(n) => DecimalString(p.number) + "(" + n + ")"
  }

  /** The port text starts with the port number, and is just the number
      exactly when no service name is known. */
  lemma PortTextShape(p: Port)
    ensures StartsWith(PortText(p), DecimalString(p.number))
    ensures p.name.None? <==> PortText(p) == DecimalString(p.number)
  {
    var d := DecimalString(p.number);
    var r := PortText(p);
    if p.name.Some? {
      assert r[..|d|] == d;
      assert |r| > |d|;
    }
  }

  /** The classified transport of a frame. */
  datatype Transport = TcpSegment(ports: PortPair) | UdpDatagram(ports: PortPair) | NoTransport

  /** The structured summary of one frame. */
  datatype Summary = Summary(time: Clock, addresses: Option<IPv4Layer>, transport: Transport, length: nat)

  /** The classification: TCP wins over UDP, and a frame with neither layer
      is "other"; the length is the number of captured bytes. */
  function Summarize(clock: Clock, layers: Layers, data: seq<byte>): (s: Summary)
    ensures s.transport.TcpSegment? <==> layers.tcp.Some?
    ensures s.transport.UdpDatagram? <==> layers.tcp.None? && layers.udp.Some?
    ensures s.transport.NoTransport? <==> layers.tcp.None? && layers.udp.None?
    ensures s.transport.TcpSegment? ==> s.transport.ports == layers.tcp.value
    ensures s.transport.UdpDatagram? ==> s.transport.ports == layers.udp.value
    ensures s.addresses == layers.ipv4 && s.length == |data| && s.time == clock
  {
    var t := if layers.tcp.Some? then TcpSegment(layers.tcp.value)
             else if layers.udp.Some? then UdpDatagram(layers.udp.value)
             else NoTransport;
    Summary(clock, layers.ipv4, t, |data|)
  }

  const NonIpMarker: string := " Non-IP Packet |"
  const NonTransportMarker: string := " Non-TCP/UDP |"

  /** The address field: the address pair, or the Non-IP marker. */
  function AddressField(ip: Option<IPv4Layer>): string {
    match ip
    case None => NonIpMarker
    case Some(l) => " " + AddressText(l.src) + " -> " + AddressText(l.dst) + " |"
  }

  /** The address field starts with the Non-IP marker exactly when there is
      no IPv4 layer. */
  lemma AddressFieldMarksNonIp(ip: Option<IPv4Layer>)
    ensures ip.None? <==> StartsWith(AddressField(ip), NonIpMarker)
    ensures |NonIpMarker| <= |AddressField(ip)|
  {
    if ip.Some? {
      var r := AddressField(ip);
      AddressTextStartsWithDigit(ip.value.src);
      assert r[1] == AddressText(ip.value.src)[0];
      assert r[1] != NonIpMarker[1];
    }
  }

  /** The transport field: "TCP" or "UDP" with the port pair, or the
      Non-TCP/UDP marker. */
  function TransportField(t: Transport): string {
    match t
    case TcpSegment(p) => " TCP | " + PortText(p.src) + " -> " + PortText(p.dst) + " |"
    case UdpDatagram(p) => " UDP | " + PortText(p.src) + " -> " + PortText(p.dst) + " |"
    case NoTransport => NonTransportMarker
  }

  /** The transport field names TCP, UDP or neither exactly according to
      the classified transport. */
  lemma TransportFieldMarks(t: Transport)
    ensures t.TcpSegment? <==> StartsWith(TransportField(t), " TCP | ")
    ensures t.UdpDatagram? <==> StartsWith(TransportField(t), " UDP | ")
    ensures t.NoTransport? <==> StartsWith(TransportField(t), NonTransportMarker)
    ensures |NonTransportMarker| <= |TransportField(t)|
  {
    var r := TransportField(t);
    NotBothPrefixes(r, " TCP | ", " UDP | ");
    NotBothPrefixes(r, " TCP | ", NonTransportMarker);
    NotBothPrefixes(r, " UDP | ", NonTransportMarker);
    match t
    case TcpSegment(p) => assert r[..7] == " TCP | ";
    case UdpDatagram(p) => assert r[..7] == " UDP | ";
    case NoTransport =>
  }

  /** A text cannot start with two markers that differ in their second
      character. */
  lemma NotBothPrefixes(r: string, a: string, b: string)
    requires |a| > 1 && |b| > 1 && a[1] != b[1]
    ensures !(StartsWith(r, a) && StartsWith(r, b))
  {
    assert StartsWith(r, a) ==> r[..|a|][1] == r[1];
    assert StartsWith(r, b) ==> r[..|b|][1] == r[1];
  }

  function LengthField(n: nat): string {
    " Len: " + DecimalString(n)
  }

  /** The display line of a structured summary. */
  function RenderLine(s: Summary): string {
    FormatClock(s.time) + " |" + AddressField(s.addresses) + TransportField(s.transport) + LengthField(s.length)
  }

  /** parsePacket as written: the line is grown piece by piece, testing the
      IPv4 layer, then TCP before UDP. */
  function ParsePacket(clock: Clock, layers: Layers, data: seq<byte>): string {
    var summary := FormatClock(clock) + " |";
    var address := if layers.ipv4.Some?
      then " " + AddressText(layers.ipv4.value.src) + " -> " + AddressText(layers.ipv4.value.dst) + " |"
      else " Non-IP Packet |";
    var transport := if layers.tcp.Some?
      then " TCP | " + PortText(layers.tcp.value.src) + " -> " + PortText(layers.tcp.value.dst) + " |"
      else if layers.udp.Some?
      then " UDP | " + PortText(layers.udp.value.src) + " -> " + PortText(layers.udp.value.dst) + " |"
      else " Non-TCP/UDP |";
    var length := " Len: " + DecimalString(|data|);
    summary + address + transport + length
  }

  /** The line parsePacket builds is the rendering of the structured
      summary: its address part is the address field of the IPv4 layer, its
      transport part the field of the classified transport. */
  lemma ParsePacketRendersSummary(clock: Clock, layers: Layers, data: seq<byte>)
    ensures ParsePacket(clock, layers, data) == RenderLine(Summarize(clock, layers, data))
  {
    var s := Summarize(clock, layers, data);
    var transport := if layers.tcp.Some?
      then " TCP | " + PortText(layers.tcp.value.src) + " -> " + PortText(layers.tcp.value.dst) + " |"
      else if layers.udp.Some?
      then " UDP | " + PortText(layers.udp.value.src) + " -> " + PortText(layers.udp.value.dst) + " |"
      else " Non-TCP/UDP |";
    assert transport == TransportField(s.transport) by {
      if layers.tcp.Some? {
        assert s.transport == TcpSegment(layers.tcp.value);
      } else if layers.udp.Some? {
        assert s.transport == UdpDatagram(layers.udp.value);
      } else {
        assert s.transport == NoTransport;
      }
    }
  }

  /** A prefix no longer than the first part depends on the first part only. */
  lemma StartsWithLonger(x: string, y: string, q: string)
    requires |q| <= |x|
    ensures StartsWith(x + y, q) <==> StartsWith(x, q)
  {
    assert (x + y)[..|q|] == x[..|q|];
  }

  lemma FourParts(p: string, a: string, t: string, l: string)
    ensures var r := p + a + t + l;
      && StartsWith(r, p) && EndsWith(r, l)
      && r[|p|..] == a + (t + l)
      && r[|p| + |a|..] == t + l
  {
    var r := p + a + t + l;
    assert r == p + (a + (t + l));
    assert r[..|p|] == p;
    assert r[|p|..] == a + (t + l);
    assert r[|p| + |a|..] == (a + (t + l))[|a|..];
    assert r[|r| - |l|..] == l;
  }

  /** A line of four parts shows each marker at the start of a part exactly
      when that part starts with it. */
  lemma LineParts(p: string, a: string, t: string, l: string)
    requires |NonIpMarker| <= |a| && |NonTransportMarker| <= |t|
    ensures var r := p + a + t + l;
      var k := |p| + |a|;
      && StartsWith(r, p)
      && EndsWith(r, l)
      && (StartsWith(r[|p|..], NonIpMarker) <==> StartsWith(a, NonIpMarker))
      && k <= |r|
      && (StartsWith(r[k..], " TCP | ") <==> StartsWith(t, " TCP | "))
      && (StartsWith(r[k..], " UDP | ") <==> StartsWith(t, " UDP | "))
      && (StartsWith(r[k..], NonTransportMarker) <==> StartsWith(t, NonTransportMarker))
  {
    FourParts(p, a, t, l);
    StartsWithLonger(a, t + l, NonIpMarker);
    StartsWithLonger(t, l, " TCP | ");
    StartsWithLonger(t, l, " UDP | ");
    StartsWithLonger(t, l, NonTransportMarker);
  }

  /** The rendered line in parts: the time and " |" first, the length field
      last, the Non-IP marker right after the time exactly when there is no
      address pair, and then the transport field naming the transport. */
  lemma RenderLineLayout(s: Summary)
    ensures var r := RenderLine(s);
      var p := FormatClock(s.time) + " |";
      var k := |p| + |AddressField(s.addresses)|;
      && StartsWith(r, p)
      && EndsWith(r, LengthField(s.length))
      && (StartsWith(r[|p|..], NonIpMarker) <==> s.addresses.None?)
      && k <= |r|
      && (StartsWith(r[k..], " TCP | ") <==> s.transport.TcpSegment?)
      && (StartsWith(r[k..], " UDP | ") <==> s.transport.UdpDatagram?)
      && (StartsWith(r[k..], NonTransportMarker) <==> s.transport.NoTransport?)
  {
    AddressFieldMarksNonIp(s.addresses);
    TransportFieldMarks(s.transport);
    LineParts(FormatClock(s.time) + " |", AddressField(s.addresses), TransportField(s.transport),
              LengthField(s.length));
  }

  /** What a reader of the line can rely on: it starts with the time and
      " |", ends with " Len: " and the byte count, says "Non-IP Packet" exactly
      when there is no IPv4 layer, and then names TCP when a TCP layer is
      present, UDP when only a UDP layer is, and "Non-TCP/UDP" otherwise. */
  lemma SummaryLineLayout(clock: Clock, layers: Layers, data: seq<byte>)
    ensures var r := ParsePacket(clock, layers, data);
      var p := FormatClock(clock) + " |";
      var k := |p| + |AddressField(layers.ipv4)|;
      && StartsWith(r, p)
      && EndsWith(r, " Len: " + DecimalString(|data|))
      && (StartsWith(r[|p|..], NonIpMarker) <==> layers.ipv4.None?)
      && k <= |r|
      && (StartsWith(r[k..], " TCP | ") <==> layers.tcp.Some?)
      && (StartsWith(r[k..], " UDP | ") <==> layers.tcp.None? && layers.udp.Some?)
      && (StartsWith(r[k..], NonTransportMarker) <==> layers.tcp.None? && layers.udp.None?)
  {
    ParsePacketRendersSummary(clock, layers, data);
    RenderLineLayout(Summarize(clock, layers, data));
  }

  /** The record the dashboard consumes for one frame. */
  datatype PacketInfo = PacketInfo(protocol: string, length: nat, summary: string)

  function ProtocolName(t: Transport): string {
    match t
    case TcpSegment(_) => "TCP"
    case UdpDatagram(_) => "UDP"
    case NoTransport => "Other"
  }

  /** The dashboard's record for a frame: its protocol name, its captured
      length and its summary line. */
  function ToPacketInfo(clock: Clock, layers: Layers, data: seq<byte>): (p: PacketInfo)
    ensures p.protocol == "TCP" <==> layers.tcp.Some?
    ensures p.protocol == "UDP" <==> layers.tcp.None? && layers.udp.Some?
    ensures p.length == |data|
    ensures p.summary == ParsePacket(clock, layers, data)
  {
    ParsePacketRendersSummary(clock, layers, data);
    var s := Summarize(clock, layers, data);
    PacketInfo(ProtocolName(s.transport), s.length, RenderLine(s))
  }
}
