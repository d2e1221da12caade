/** The device prompt's input check: the line read is trimmed of
    surrounding white space, parsed as a base-10 integer, and accepted when
    it numbers one of the listed devices (counting from 1). Characters stand
    for the UTF-8 code points Go decodes. */
module DeviceSelection {
  import opened Wrappers
  import opened Text
  import opened DeviceJson

  const MinInt64: int := -0x8000_0000_0000_0000
  const MaxInt64: int := 0x7FFF_FFFF_FFFF_FFFF

  /** Go's unicode.IsSpace: the ASCII spaces, NEL, NBSP, and the other code
      points with the Unicode White_Space property. */
  predicate IsSpace(c: char) {
    || c == '\t' || c == '\n' || c == '\U{B}' || c == '\U{C}' || c == '\r' || c == ' '
    || c == '\U{85}' || c == '\U{A0}' || c == '\U{1680}'
    || ('\U{2000}' <= c <= '\U{200A}')
    || c == '\U{2028}' || c == '\U{2029}' || c == '\U{202F}' || c == '\U{205F}' || c == '\U{3000}'
  }

  predicate AllSpace(s: string) {
    forall i :: 0 <= i < |s| ==> IsSpace(s[i])
  }

  /** The text without its leading white space. */
  function TrimLeft(s: string): (r: string)
    ensures |r| <= |s|
    decreases |s|
  {
    if |s| > 0 && IsSpace(s[0]) then TrimLeft(s[1..]) else s
  }

  /** The text without its trailing white space. */
  function TrimRight(s: string): (r: string)
    ensures |r| <= |s|
    decreases |s|
  {
    if |s| > 0 && IsSpace(s[|s| - 1]) then TrimRight(s[..|s| - 1]) else s
  }

  /** Go's strings.TrimSpace: the text between the leading and the trailing
      white space. */
  function TrimSpace(s: string): string {
    TrimRight(TrimLeft(s))
  }

  /** TrimLeft drops a prefix of white space, and no more. */
  lemma {:induction false} TrimLeftSpec(s: string)
    ensures var r := TrimLeft(s);
      && |r| <= |s| && r == s[|s| - |r|..]
      && AllSpace(s[..|s| - |r|])
      && (|r| > 0 ==> !IsSpace(r[0]))
    decreases |s|
  {
    if |s| > 0 && IsSpace(s[0]) {
      TrimLeftSpec(s[1..]);
      var r := TrimLeft(s[1..]);
      assert s[..|s| - |r|] == [s[0]] + s[1..][..|s| - 1 - |r|];
    }
  }

  /** TrimRight drops a suffix of white space, and no more. */
  lemma {:induction false} TrimRightSpec(s: string)
    ensures var r := TrimRight(s);
      && |r| <= |s| && r == s[..|r|]
      && AllSpace(s[|r|..])
      && (|r| > 0 ==> !IsSpace(r[|r| - 1]))
    decreases |s|
  {
    if |s| > 0 && IsSpace(s[|s| - 1]) {
      TrimRightSpec(s[..|s| - 1]);
      var r := TrimRight(s[..|s| - 1]);
      assert s[|r|..] == s[..|s| - 1][|r|..] + [s[|s| - 1]];
    }
  }

  /** TrimSpace keeps the text between a white-space prefix and a
      white-space suffix, and what it keeps neither starts nor ends with
      white space. */
  lemma TrimSpaceSpec(s: string)
    ensures var r := TrimSpace(s);
      var i := |s| - |TrimLeft(s)|;
      && i + |r| <= |s|
      && r == s[i..i + |r|]
      && AllSpace(s[..i]) && AllSpace(s[i + |r|..])
      && (|r| > 0 ==> !IsSpace(r[0]) && !IsSpace(r[|r| - 1]))
  {
    TrimLeftSpec(s);
    TrimRightSpec(TrimLeft(s));
    TrimmedInfix(s, TrimLeft(s), TrimSpace(s));
  }

  /** Dropping a white-space prefix and then a white-space suffix keeps an
      infix between the two. */
  lemma TrimmedInfix(s: string, l: string, r: string)
    requires |l| <= |s| && l == s[|s| - |l|..] && AllSpace(s[..|s| - |l|])
    requires |l| > 0 ==> !IsSpace(l[0])
    requires |r| <= |l| && r == l[..|r|] && AllSpace(l[|r|..])
    requires |r| > 0 ==> !IsSpace(r[|r| - 1])
    ensures var i := |s| - |l|;
      && i + |r| <= |s|
      && r == s[i..i + |r|]
      && AllSpace(s[..i]) && AllSpace(s[i + |r|..])
      && (|r| > 0 ==> !IsSpace(r[0]) && !IsSpace(r[|r| - 1]))
  {
    var i := |s| - |l|;
    assert s[i..i + |r|] == l[..|r|];
    assert s[i + |r|..] == l[|r|..];
    if |r| > 0 {
      assert r[0] == l[0];
    }
  }

  /** Trimming removes exactly the white space around a text that neither
      starts nor ends with white space. */
  lemma TrimSpacePadded(before: string, core: string, after: string)
    requires AllSpace(before) && AllSpace(after)
    requires |core| > 0 ==> !IsSpace(core[0]) && !IsSpace(core[|core| - 1])
    ensures |core| > 0 ==> TrimSpace(before + core + after) == core
    ensures |core| == 0 ==> TrimSpace(before + core + after) == []
  {
    var s := before + core + after;
    if |core| > 0 {
      TrimLeftPadded(before, core + after);
      assert s == before + (core + after);
      TrimRightPadded(core, after);
    } else {
      assert s == before + after;
      AllSpaceTrimmed(s);
    }
  }

  lemma {:induction false} TrimLeftPadded(before: string, rest: string)
    requires AllSpace(before)
    requires |rest| > 0 && !IsSpace(rest[0])
    ensures TrimLeft(before + rest) == rest
    decreases |before|
  {
    if |before| > 0 {
      assert (before + rest)[1..] == before[1..] + rest;
      TrimLeftPadded(before[1..], rest);
    } else {
      assert before + rest == rest;
    }
  }

  lemma {:induction false} TrimRightPadded(rest: string, after: string)
    requires AllSpace(after)
    requires |rest| > 0 && !IsSpace(rest[|rest| - 1])
    ensures TrimRight(rest + after) == rest
    decreases |after|
  {
    if |after| > 0 {
      var s := rest + after;
      assert s[..|s| - 1] == rest + after[..|after| - 1];
      TrimRightPadded(rest, after[..|after| - 1]);
    } else {
      assert rest + after == rest;
    }
  }

  /** A text of white space only trims to nothing. */
  lemma {:induction false} AllSpaceTrimmed(s: string)
    requires AllSpace(s)
    ensures TrimSpace(s) == []
    decreases |s|
  {
    if |s| > 0 {
      assert AllSpace(s[1..]);
      AllSpaceTrimmed(s[1..]);
    }
  }

  /** Go's strconv.Atoi on a 64-bit platform: an optional sign followed by
      at least one decimal digit, with a value that fits in 64 bits. Any
      other text is a syntax or range error. */
  function Atoi(s: string): (r: Option<int>)
    ensures r.Some? ==> MinInt64 <= r.value <= MaxInt64
    ensures r.Some? ==> |s| > 0
  {
    if |s| == 0 then None
    else
      var negative := s[0] == '-';
      var digits := if s[0] == '-' || s[0] == '+' then s[1..] else s;
      if |digits| == 0 || !AllDigits(digits) then None
      else
        var magnitude: int := DigitsValue(digits);
        var v := if negative then -magnitude else magnitude;
        if MinInt64 <= v <= MaxInt64 then Some(v) else None
  }

  /** Atoi reads back the decimal spelling of every number in range. */
  lemma AtoiDecimal(n: nat)
    requires n <= MaxInt64
    ensures Atoi(DecimalString(n)) == Some(n)
  {
    DigitsValueOfDecimal(n);
  }

  /** A leading sign is accepted: "+n" reads as n and "-n" as its negation. */
  lemma AtoiSigned(n: nat)
    requires n <= MaxInt64
    ensures Atoi("+" + DecimalString(n)) == Some(n)
    ensures Atoi("-" + DecimalString(n)) == Some(-(n as int))
  {
    DigitsValueOfDecimal(n);
    assert ("+" + DecimalString(n))[1..] == DecimalString(n);
    assert ("-" + DecimalString(n))[1..] == DecimalString(n);
  }

  /** A signed number selects like the unsigned one, and a negative number
      or zero selects nothing. */
  lemma SignedSelection(devices: seq<DeviceInfo>, n: nat)
    requires n <= MaxInt64
    ensures SelectDevice(devices, "+" + DecimalString(n)) == SelectDevice(devices, DecimalString(n))
    ensures SelectDevice(devices, "-" + DecimalString(n)).None?
  {
    var d := DecimalString(n);
    assert Atoi(TrimSpace("+" + d)) == Atoi(TrimSpace(d)) by {
      assert !IsSpace(d[0]) && !IsSpace(d[|d| - 1]);
      NothingToTrim(d);
      NothingToTrim("+" + d);
      AtoiSigned(n);
      AtoiDecimal(n);
    }
    SelectByValue(devices, "+" + d, d);
    assert Atoi(TrimSpace("-" + d)) == Some(-(n as int)) by {
      NothingToTrim("-" + d);
      AtoiSigned(n);
    }
    SelectNothingBelowOne(devices, "-" + d);
  }

  /** Two lines that read as the same number select the same device. */
  lemma SelectByValue(devices: seq<DeviceInfo>, a: string, b: string)
    requires Atoi(TrimSpace(a)) == Atoi(TrimSpace(b))
    ensures SelectDevice(devices, a) == SelectDevice(devices, b)
  {
  }

  /** A line that reads as a number below one selects nothing. */
  lemma SelectNothingBelowOne(devices: seq<DeviceInfo>, a: string)
    requires Atoi(TrimSpace(a)).Some? && Atoi(TrimSpace(a)).value < 1
    ensures SelectDevice(devices, a).None?
  {
  }

  /** A text that neither starts nor ends with white space is kept whole. */
  lemma NothingToTrim(s: string)
    requires |s| > 0 && !IsSpace(s[0]) && !IsSpace(s[|s| - 1])
    ensures TrimSpace(s) == s
  {
    TrimSpacePadded([], s, []);
    assert [] + s + [] == s;
  }

  /** A text holding anything but a sign and digits is rejected. */
  lemma AtoiRejectsNonDigit(s: string, i: nat)
    requires 0 < i < |s| && !IsDigit(s[i])
    ensures Atoi(s).None?
  {
    if s[0] == '-' || s[0] == '+' {
      assert s[1..][i - 1] == s[i];
    }
  }

  /** The check applied to one input line: the trimmed text must parse as an
      integer between 1 and the number of devices; the device with that
      number is selected. */
  function SelectDevice(devices: seq<DeviceInfo>, line: string): (r: Option<DeviceInfo>)
    ensures r.Some? <==>
      var choice := Atoi(TrimSpace(line));
      choice.Some? && 1 <= choice.value <= |devices|
    ensures r.Some? ==> r.value == devices[Atoi(TrimSpace(line)).value - 1]
    ensures r.Some? ==> r.value in devices
  {
    match Atoi(TrimSpace(line))
    case Some(choice) => if 1 <= choice <= |devices| then Some(devices[choice - 1]) else None
    case None => None
  }

  /** The number k, surrounded by any white space, selects the k-th device.
      (A Go slice never holds more than MaxInt64 elements.) */
  lemma SelectsNumberedDevice(devices: seq<DeviceInfo>, k: nat, before: string, after: string)
    requires |devices| <= MaxInt64
    requires 1 <= k <= |devices|
    requires AllSpace(before) && AllSpace(after)
    ensures SelectDevice(devices, before + DecimalString(k) + after) == Some(devices[k - 1])
  {
    var core := DecimalString(k);
    assert !IsSpace(core[0]) && !IsSpace(core[|core| - 1]);
    TrimSpacePadded(before, core, after);
    AtoiDecimal(k);
    assert Atoi(TrimSpace(before + core + after)) == Some(k as int);
  }

  /** A blank line (as read at the end of the input) is rejected. */
  lemma RejectsBlankLine(devices: seq<DeviceInfo>, line: string)
    requires AllSpace(line)
    ensures SelectDevice(devices, line).None?
  {
    AllSpaceTrimmed(line);
  }

  /** With no devices listed, every line is rejected. */
  lemma NoDeviceSelectable(line: string)
    ensures SelectDevice([], line).None?
  {
  }

  /** The prompt loop over the lines it reads in turn: it returns the first
      device selected, with the index of the line that selected it. It never
      gives up; `None` means the lines ran out while it was still asking. */
  method Prompt(devices: seq<DeviceInfo>, lines: seq<string>) returns (r: Option<(DeviceInfo, nat)>)
    ensures r.None? <==> forall j :: 0 <= j < |lines| ==> SelectDevice(devices, lines[j]).None?
    ensures r.Some? ==>
      && r.value.1 < |lines|
      && SelectDevice(devices, lines[r.value.1]) == Some(r.value.0)
      && forall j :: 0 <= j < r.value.1 ==> SelectDevice(devices, lines[j]).None?
  {
    var i := 0;
    while i < |lines|
      invariant 0 <= i <= |lines|
      invariant forall j :: 0 <= j < i ==> SelectDevice(devices, lines[j]).None?
    {
      var selected := SelectDevice(devices, lines[i]);
      if selected.Some? {
        return Some((selected.value, i));
      }
      i := i + 1;
    }
    return None;
  }
}
