/** The device-list serialiser of the capture engine: the JSON string escaper
    and the array of `{"name","description"}` objects built from pcap's device
    enumeration, with a reader for exactly that output as its inverse. */
module DeviceJson {
  import opened Wrappers
  import opened Text

  /** A C string ends at its first NUL, so it contains none. */
  type CString = s: string | '\0' !in s

  /** One entry of pcap's device list: the name and a description that may be NULL. */
  type PcapDevice = (CString, Option<CString>)

  /** The record each JSON object decodes into on the Go side. */
  datatype DeviceInfo = DeviceInfo(name: string, description: string)

  // ---------------------------------------------------------------------------
  // escape_json

  /** The seven characters the escaper rewrites: quote, backslash, backspace,
      form feed, line feed, carriage return and tab. */
  predicate NeedsEscape(c: char) {
    c == '"' || c == '\\' || c == '\U{8}' || c == '\U{C}' || c == '\n' || c == '\r' || c == '\t'
  }

  /** The letter that follows the backslash in the escape of `c`. */
  function EscapeCode(c: char): char
    requires NeedsEscape(c)
  {
    if c == '"' then '"'
    else if c == '\\' then '\\'
    else if c == '\U{8}' then 'b'
    else if c == '\U{C}' then 'f'
    else if c == '\n' then 'n'
    else if c == '\r' then 'r'
    else 't'
  }

  /** The character a backslash escape letter stands for, if it is one of the seven. */
  function UnescapeCode(e: char): (r: Option<char>)
    ensures r.Some? ==> NeedsEscape(r.value) && EscapeCode(r.value) == e
  {
    if e == '"' then Some('"')
    else if e == '\\' then Some('\\')
    else if e == 'b' then Some('\U{8}')
    else if e == 'f' then Some('\U{C}')
    else if e == 'n' then Some('\n')
    else if e == 'r' then Some('\r')
    else if e == 't' then Some('\t')
    else None
  }

  /** What the escaper writes for one input character. */
  function EscapeChar(c: char): (r: string)
    ensures NeedsEscape(c) ==> |r| == 2 && r[0] == '\\' && UnescapeCode(r[1]) == Some(c)
    ensures !NeedsEscape(c) ==> r == [c]
  {
    if NeedsEscape(c) then ['\\', EscapeCode(c)] else [c]
  }

  /** The number of characters of `s` that need an escape. */
  function CountEscaped(s: string): nat
    decreases |s|
  {
    if |s| == 0 then 0 else (if NeedsEscape(s[0]) then 1 else 0) + CountEscaped(s[1..])
  }

  /** escape_json: the input, character by character, with each of the seven
      characters replaced by its two-character backslash escape. No `\uXXXX`
      escape is produced: every other character is copied as it is. */
  function EscapeJson(s: string): string
    decreases |s|
  {
    if |s| == 0 then [] else EscapeChar(s[0]) + EscapeJson(s[1..])
  }

  /** The escaped text is one character longer per escaped character, and a
      text with nothing to escape is copied unchanged. */
  lemma {:induction false} EscapeJsonSize(s: string)
    ensures |EscapeJson(s)| == |s| + CountEscaped(s)
    ensures (forall i :: 0 <= i < |s| ==> !NeedsEscape(s[i])) ==> EscapeJson(s) == s
    decreases |s|
  {
    if |s| > 0 {
      EscapeJsonSize(s[1..]);
      if forall i :: 0 <= i < |s| ==> !NeedsEscape(s[i]) {
        assert forall i :: 0 <= i < |s| - 1 ==> !NeedsEscape(s[1..][i]) by {
          forall i | 0 <= i < |s| - 1 ensures !NeedsEscape(s[1..][i]) {
            assert s[1..][i] == s[i + 1];
          }
        }
        assert [s[0]] + s[1..] == s;
      }
    }
  }

  /** Escaping works on each character independently. */
  lemma {:induction false} EscapeJsonAppend(a: string, b: string)
    ensures EscapeJson(a + b) == EscapeJson(a) + EscapeJson(b)
    decreases |a|
  {
    if |a| == 0 {
      assert a + b == b;
    } else {
      assert (a + b)[0] == a[0];
      assert (a + b)[1..] == a[1..] + b;
      EscapeJsonAppend(a[1..], b);
    }
  }

  /** The escaper is not a full RFC 8259 string encoder: a control character
      other than backspace, form feed, line feed, carriage return and tab
      reaches the output unescaped. */
  lemma {:induction false} ControlCharacterPassesThrough(s: string, i: nat)
    requires i < |s|
    requires RawControl(s[i])
    ensures s[i] in EscapeJson(s)
    decreases i
  {
    if i == 0 {
      assert EscapeJson(s) == [s[0]] + EscapeJson(s[1..]);
    } else {
      ControlCharacterPassesThrough(s[1..], i - 1);
      assert EscapeJson(s) == EscapeChar(s[0]) + EscapeJson(s[1..]);
    }
  }

  /** A control character the escaper leaves raw. Section 7 of RFC 8259
      forbids the characters U+0000 to U+001F inside a string unless they are
      escaped, and Go's encoding/json rejects a document that holds one. */
  predicate RawControl(c: char) {
    c < ' ' && !NeedsEscape(c)
  }

  /** A text whose escape is a valid JSON string body. */
  predicate JsonSafe(s: string) {
    forall i :: 0 <= i < |s| ==> !RawControl(s[i])
  }

  /** A device whose name and description both escape to valid JSON. */
  predicate DeviceSafe(d: PcapDevice) {
    JsonSafe(d.0) && (d.1.Some? ==> JsonSafe(d.1.value))
  }

  /** A decoded device free of raw control characters. */
  predicate InfoSafe(d: DeviceInfo) {
    JsonSafe(d.name) && JsonSafe(d.description)
  }

  predicate AllDevicesSafe(ds: seq<PcapDevice>) {
    forall i :: 0 <= i < |ds| ==> DeviceSafe(ds[i])
  }

  // ---------------------------------------------------------------------------
  // Reading an escaped string back

  /** Reads the body of a JSON string up to its closing quote, undoing the
      seven escapes, as Go's encoding/json does: a raw control character
      makes the document invalid. Returns the text and what follows the
      quote. */
  function ReadString(s: string): (r: Option<(string, string)>)
    ensures r.Some? ==> |r.value.1| < |s|
    ensures r.Some? ==> JsonSafe(r.value.0)
    decreases |s|
  {
    if |s| == 0 then None
    else if s[0] == '"' then Some(([], s[1..]))
    else if s[0] == '\\' then
      if |s| < 2 then None
      else match UnescapeCode(s[1])
        case None => None
        case Some(c) =>
          match ReadString(s[2..])
          case None => None
          case Some((v, rest)) => Some(([c] + v, rest))
    else if s[0] < ' ' then None
    else
      match ReadString(s[1..])
      case None => None
      case Some((v, rest)) => Some(([s[0]] + v, rest))
  }

  /** The full inverse of the escaper: the text a string body stands for. */
  function Unescape(t: string): Option<string> {
    match ReadString(t + ['"'])
    case Some((v, rest)) => if rest == [] then Some(v) else None
    case None => None
  }

  lemma ReadStringEscapeStep(s: string, c: char, v: string, rest: string)
    requires |s| >= 2 && s[0] == '\\' && UnescapeCode(s[1]) == Some(c)
    requires ReadString(s[2..]) == Some((v, rest))
    ensures ReadString(s) == Some(([c] + v, rest))
  {
  }

  lemma ReadStringPlainStep(s: string, v: string, rest: string)
    requires |s| >= 1 && s[0] != '"' && s[0] != '\\' && s[0] >= ' '
    requires ReadString(s[1..]) == Some((v, rest))
    ensures ReadString(s) == Some(([s[0]] + v, rest))
  {
  }

  /** Reading the escape of one character, then the rest of the string. */
  lemma ReadEscapedChar(c: char, tail: string, v: string, rest: string)
    requires !RawControl(c)
    requires ReadString(tail) == Some((v, rest))
    ensures ReadString(EscapeChar(c) + tail) == Some(([c] + v, rest))
  {
    var s := EscapeChar(c) + tail;
    if NeedsEscape(c) {
      assert s[0] == '\\' && s[1] == EscapeChar(c)[1];
      assert s[2..] == tail;
      ReadStringEscapeStep(s, c, v, rest);
    } else {
      assert s[1..] == tail;
      ReadStringPlainStep(s, v, rest);
    }
  }

  /** The escape of an allowed character does not rescue a rest that fails. */
  lemma ReadEscapedCharFails(c: char, tail: string)
    requires !RawControl(c)
    requires ReadString(tail) == None
    ensures ReadString(EscapeChar(c) + tail) == None
  {
    var s := EscapeChar(c) + tail;
    if NeedsEscape(c) {
      assert s[0] == '\\' && s[1] == EscapeChar(c)[1];
      assert s[2..] == tail;
    } else {
      assert s[1..] == tail;
    }
  }

  /** A raw control character ends the read with a failure. */
  lemma ReadRawControlFails(c: char, tail: string)
    requires RawControl(c)
    ensures ReadString(EscapeChar(c) + tail) == None
  {
    assert (EscapeChar(c) + tail)[0] == c;
  }

  /** A text is safe exactly when its first character and the rest are. */
  lemma JsonSafeCons(x: string)
    requires |x| > 0
    ensures JsonSafe(x) <==> !RawControl(x[0]) && JsonSafe(x[1..])
  {
    if !RawControl(x[0]) && JsonSafe(x[1..]) {
      forall i | 0 <= i < |x| ensures !RawControl(x[i]) {
        if i > 0 { assert x[i] == x[1..][i - 1]; }
      }
    }
  }

  lemma EscapeJsonCons(x: string, rest: string)
    requires |x| > 0
    ensures EscapeJson(x) + ['"'] + rest == EscapeChar(x[0]) + (EscapeJson(x[1..]) + ['"'] + rest)
  {
    var c, t := EscapeChar(x[0]), EscapeJson(x[1..]);
    assert EscapeJson(x) == c + t;
    Associative(c + t, ['"'], rest);
    Associative(c, t, ['"'] + rest);
    Associative(t, ['"'], rest);
  }

  /** An escaped string followed by a quote reads back as the original text
      when the text holds no raw control character, and is rejected when it
      does. */
  lemma {:induction false} ReadEscaped(x: string, rest: string)
    ensures ReadString(EscapeJson(x) + ['"'] + rest) == if JsonSafe(x) then Some((x, rest)) else None
    decreases |x|
  {
    if |x| == 0 {
      assert EscapeJson(x) + ['"'] + rest == ['"'] + rest;
    } else {
      var tail := EscapeJson(x[1..]) + ['"'] + rest;
      ReadEscaped(x[1..], rest);
      EscapeJsonCons(x, rest);
      JsonSafeCons(x);
      if RawControl(x[0]) {
        ReadRawControlFails(x[0], tail);
      } else if JsonSafe(x[1..]) {
        ReadEscapedChar(x[0], tail, x[1..], rest);
        assert [x[0]] + x[1..] == x;
      } else {
        ReadEscapedCharFails(x[0], tail);
      }
    }
  }

  /** Unescaping inverts the escaper on every text JSON can carry, and
      rejects the others. */
  lemma UnescapeEscape(x: string)
    ensures Unescape(EscapeJson(x)) == if JsonSafe(x) then Some(x) else None
  {
    ReadEscaped(x, []);
    assert EscapeJson(x) + ['"'] + [] == EscapeJson(x) + ['"'];
  }

  // ---------------------------------------------------------------------------
  // get_all_devices_as_json

  /** The text before the escaped name: `{"name":"`. */
  const NameOpen: string := "{" + "\"name\":\""

  /** The key of the description: `,"description":"`. */
  const DescriptionKey: string := "," + "\"description\":\""

  /** The text between the escaped name and the escaped description: the
      name's closing quote, then the description's key. */
  const DescriptionOpen: string := "\"" + DescriptionKey

  /** The text after the escaped description: `"}`. */
  const ObjectClose: string := "\"" + "}"

  /** The object written for one device; a NULL description is written as "". */
  function DeviceObject(d: PcapDevice): string {
    NameOpen + EscapeJson(d.0) + DescriptionOpen
    + (if d.1.Some? then EscapeJson(d.1.value) else "") + ObjectClose
  }

  /** The objects of the loop, the comma written before every one but the first. */
  function Entries(ds: seq<PcapDevice>, first: bool): string
    decreases |ds|
  {
    if |ds| == 0 then []
    else (if first then "" else ",") + DeviceObject(ds[0]) + Entries(ds[1..], false)
  }

  function Objects(ds: seq<PcapDevice>): (objs: seq<string>)
    ensures |objs| == |ds|
    ensures forall i :: 0 <= i < |ds| ==> objs[i] == DeviceObject(ds[i])
  {
    seq(|ds|, i requires 0 <= i < |ds| => DeviceObject(ds[i]))
  }

  /** get_all_devices_as_json over the outcome of pcap's enumeration (None when
      the enumeration call fails). */
  function DevicesJson(list: Option<seq<PcapDevice>>): string {
    match list
    case None => "[]"
    case Some(ds) => "[" + Entries(ds, true) + "]"
  }

  /** The loop writes the objects in enumeration order, separated by single
      commas, with none before the first or after the last. */
  lemma {:induction false} EntriesAreJoined(ds: seq<PcapDevice>, first: bool)
    ensures Entries(ds, first) == (if first || |ds| == 0 then "" else ",") + Join(Objects(ds), ",")
    decreases |ds|
  {
    if |ds| > 0 {
      EntriesAreJoined(ds[1..], false);
      var objs := Objects(ds);
      assert objs[1..] == Objects(ds[1..]);
      var lead := if first then "" else ",";
      assert Entries(ds, first) == lead + objs[0] + Entries(ds[1..], false);
      if |ds| == 1 {
        assert Entries(ds, first) == lead + objs[0];
      } else {
        assert Entries(ds[1..], false) == "," + Join(objs[1..], ",");
        assert Join(objs, ",") == objs[0] + "," + Join(objs[1..], ",");
        Associative(lead, objs[0], "," + Join(objs[1..], ","));
        Associative(objs[0], ",", Join(objs[1..], ","));
      }
    }
  }

  /** The serialised array: "[]" when enumeration fails or finds no device,
      otherwise the device objects in order joined by commas. */
  lemma DevicesJsonShape(list: Option<seq<PcapDevice>>)
    ensures list.None? ==> DevicesJson(list) == "[]"
    ensures list.Some? && |list.value| == 0 ==> DevicesJson(list) == "[]"
    ensures list.Some? ==> DevicesJson(list) == "[" + Join(Objects(list.value), ",") + "]"
  {
    if list.Some? {
      var ds := list.value;
      EntriesAreJoined(ds, true);
      assert Entries(ds, true) == Join(Objects(ds), ",");
      if |ds| == 0 {
        assert Join(Objects(ds), ",") == [];
      }
    }
  }

  // ---------------------------------------------------------------------------
  // Reading the array back

  function Expect(lit: string, s: string): (r: Option<string>)
    ensures r.Some? ==> |r.value| == |s| - |lit|
  {
    if StartsWith(s, lit) then Some(s[|lit|..]) else None
  }

  lemma ExpectLiteral(lit: string, rest: string)
    ensures Expect(lit, lit + rest) == Some(rest)
  {
    assert (lit + rest)[..|lit|] == lit;
    assert (lit + rest)[|lit|..] == rest;
  }

  /** Reads one `{"name":"…","description":"…"}` object. */
  function ReadObject(s: string): (r: Option<(DeviceInfo, string)>)
    ensures r.Some? ==> |r.value.1| < |s|
    ensures r.Some? ==> InfoSafe(r.value.0)
  {
    match Expect(NameOpen, s)
    case None => None
    case Some(s1) =>
      match ReadString(s1)
      case None => None
      case Some((name, s2)) =>
        match Expect(DescriptionKey, s2)
        case None => None
        case Some(s3) =>
          match ReadString(s3)
          case None => None
          case Some((description, s4)) =>
            match Expect("}", s4)
            case None => None
            case Some(s5) => Some((DeviceInfo(name, description), s5))
  }

  /** Reads comma-separated objects up to and including the closing bracket,
      which must end the input. */
  function ReadItems(s: string): (r: Option<seq<DeviceInfo>>)
    ensures r.Some? ==> forall i :: 0 <= i < |r.value| ==> InfoSafe(r.value[i])
    decreases |s|
  {
    match ReadObject(s)
    case None => None
    case Some((d, rest)) =>
      if rest == "]" then Some([d])
      else match Expect(",", rest)
        case None => None
        case Some(more) =>
          match ReadItems(more)
          case None => None
          case Some(ds) => Some([d] + ds)
  }

  /** Reads a whole device array. */
  function ReadArray(s: string): (r: Option<seq<DeviceInfo>>)
    ensures r.Some? ==> forall i :: 0 <= i < |r.value| ==> InfoSafe(r.value[i])
  {
    match Expect("[", s)
    case None => None
    case Some(s1) => if s1 == "]" then Some([]) else ReadItems(s1)
  }

  /** What the Go side should decode a pcap entry into. */
  function Decoded(d: PcapDevice): DeviceInfo {
    DeviceInfo(d.0, d.1.GetOr(""))
  }

  function DecodedAll(ds: seq<PcapDevice>): (r: seq<DeviceInfo>)
    ensures |r| == |ds|
    ensures forall i :: 0 <= i < |ds| ==> r[i] == Decoded(ds[i])
  {
    seq(|ds|, i requires 0 <= i < |ds| => Decoded(ds[i]))
  }

  lemma ReadObjectSteps(s: string, s1: string, name: string, s2: string, s3: string,
                        description: string, s4: string, s5: string)
    requires Expect(NameOpen, s) == Some(s1)
    requires ReadString(s1) == Some((name, s2))
    requires Expect(DescriptionKey, s2) == Some(s3)
    requires ReadString(s3) == Some((description, s4))
    requires Expect("}", s4) == Some(s5)
    ensures ReadObject(s) == Some((DeviceInfo(name, description), s5))
  {
  }

  /** The object text, regrouped the way the reader consumes it. */
  lemma ObjectTextRegrouped(n: string, e: string, rest: string)
    ensures NameOpen + n + DescriptionOpen + e + ObjectClose + rest
         == NameOpen + (n + ("\"" + (DescriptionKey + (e + ("\"" + ("}" + rest))))))
  {
  }

  /** A device object reads back as the decoded device when its texts are
      valid JSON, and is rejected otherwise. */
  lemma ReadDeviceObject(d: PcapDevice, rest: string)
    ensures ReadObject(DeviceObject(d) + rest) == if DeviceSafe(d) then Some((Decoded(d), rest)) else None
  {
    var desc := if d.1.Some? then d.1.value else "";
    var n, e := EscapeJson(d.0), EscapeJson(desc);
    assert DeviceObject(d) == NameOpen + n + DescriptionOpen + e + ObjectClose;
    var s4 := "}" + rest;
    var s3 := e + ("\"" + s4);
    var s2 := DescriptionKey + s3;
    var s1 := n + ("\"" + s2);
    ObjectTextRegrouped(n, e, rest);
    ExpectLiteral(NameOpen, s1);
    ReadEscaped(d.0, s2);
    Associative(n, ['"'], s2);
    if JsonSafe(d.0) {
      ExpectLiteral(DescriptionKey, s3);
      ReadEscaped(desc, s4);
      Associative(e, ['"'], s4);
      if JsonSafe(desc) {
        ExpectLiteral("}", rest);
        ReadObjectSteps(NameOpen + s1, s1, d.0, s2, s3, desc, s4, rest);
      }
    }
  }

  /** The last object, followed by the closing bracket. */
  lemma ReadItemsLast(s: string, d: DeviceInfo)
    requires ReadObject(s) == Some((d, "]"))
    ensures ReadItems(s) == Some([d])
  {
  }

  /** One object followed by a comma and further objects. */
  lemma ReadItemsMore(s: string, d: DeviceInfo, more: string, ds: seq<DeviceInfo>)
    requires ReadObject(s) == Some((d, "," + more))
    requires ReadItems(more) == Some(ds)
    ensures ReadItems(s) == Some([d] + ds)
  {
    ExpectLiteral(",", more);
    assert ("," + more)[0] == ',';
  }

  /** A comma and further objects that fail to read make the list fail. */
  lemma ReadItemsMoreFails(s: string, d: DeviceInfo, more: string)
    requires ReadObject(s) == Some((d, "," + more))
    requires ReadItems(more) == None
    ensures ReadItems(s) == None
  {
    ExpectLiteral(",", more);
    assert ("," + more)[0] == ',';
  }

  lemma AllDevicesSafeCons(ds: seq<PcapDevice>)
    requires |ds| > 0
    ensures AllDevicesSafe(ds) <==> DeviceSafe(ds[0]) && AllDevicesSafe(ds[1..])
  {
    if DeviceSafe(ds[0]) && AllDevicesSafe(ds[1..]) {
      forall i | 0 <= i < |ds| ensures DeviceSafe(ds[i]) {
        if i > 0 { assert ds[i] == ds[1..][i - 1]; }
      }
    }
  }

  lemma JoinedObjectsCons(ds: seq<PcapDevice>)
    requires |ds| > 1
    ensures Join(Objects(ds), ",") + "]"
         == DeviceObject(ds[0]) + ("," + (Join(Objects(ds[1..]), ",") + "]"))
  {
    var objs := Objects(ds);
    var o, j := objs[0], Join(objs[1..], ",");
    assert objs[1..] == Objects(ds[1..]);
    assert Join(objs, ",") == o + "," + j;
    Associative(o + ",", j, "]");
    Associative(o, ",", j + "]");
    Associative(",", j, "]");
  }

  lemma DecodedAllCons(ds: seq<PcapDevice>)
    requires |ds| > 0
    ensures DecodedAll(ds) == [Decoded(ds[0])] + DecodedAll(ds[1..])
  {
    assert DecodedAll(ds)[1..] == DecodedAll(ds[1..]);
  }

  /** The joined objects read back as the decoded devices, in order, when
      every device is valid JSON, and the list is rejected otherwise. */
  lemma {:induction false} ReadJoinedObjects(ds: seq<PcapDevice>)
    requires |ds| > 0
    ensures ReadItems(Join(Objects(ds), ",") + "]")
         == if AllDevicesSafe(ds) then Some(DecodedAll(ds)) else None
    decreases |ds|
  {
    AllDevicesSafeCons(ds);
    if |ds| == 1 {
      assert Join(Objects(ds), ",") + "]" == DeviceObject(ds[0]) + "]";
      assert ds[1..] == [];
      ReadDeviceObject(ds[0], "]");
      if DeviceSafe(ds[0]) {
        ReadItemsLast(DeviceObject(ds[0]) + "]", Decoded(ds[0]));
        assert DecodedAll(ds) == [Decoded(ds[0])];
      }
    } else {
      var tail := Join(Objects(ds[1..]), ",") + "]";
      JoinedObjectsCons(ds);
      ReadDeviceObject(ds[0], "," + tail);
      ReadJoinedObjects(ds[1..]);
      if DeviceSafe(ds[0]) {
        if AllDevicesSafe(ds[1..]) {
          ReadItemsMore(DeviceObject(ds[0]) + ("," + tail), Decoded(ds[0]), tail, DecodedAll(ds[1..]));
          DecodedAllCons(ds);
        } else {
          ReadItemsMoreFails(DeviceObject(ds[0]) + ("," + tail), Decoded(ds[0]), tail);
        }
      }
    }
  }

  /** Reading the serialised list back yields every enumerated device, in
      order, with a NULL description read as "", when every name and
      description is valid JSON; a single raw control character makes the
      whole array unreadable. An enumeration failure reads as the empty list. */
  lemma ReadDevicesJson(list: Option<seq<PcapDevice>>)
    ensures list.None? ==> ReadArray(DevicesJson(list)) == Some([])
    ensures list.Some? ==>
      ReadArray(DevicesJson(list)) == if AllDevicesSafe(list.value) then Some(DecodedAll(list.value)) else None
  {
    DevicesJsonShape(list);
    if list.Some? && |list.value| > 0 {
      var body := Join(Objects(list.value), ",") + "]";
      assert DevicesJson(list) == "[" + body;
      ExpectLiteral("[", body);
      ReadJoinedObjects(list.value);
      assert body != "]" by {
        assert body[0] == DeviceObject(list.value[0])[0] == '{';
      }
    } else {
      ExpectLiteral("[", "]");
    }
  }
}
