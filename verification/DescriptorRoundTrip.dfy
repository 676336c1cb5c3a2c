/**
 What the descriptor parser guarantees: it inverts the wire layout, and it accounts for every byte
 of every input.
 */
module DescriptorRoundTrip {
  import opened Usb
  import opened Descriptors

  // ------------------------------------------------------ fields and their bytes

  lemma {:induction false} NumberOfBytes(n: nat, width: nat, order: ByteOrder)
    requires n < Power256(width)
    ensures Number(Bytes(n, width, order), order) == n
    decreases width
  {
    if width > 0 {
      NumberOfBytes(n / 256, width - 1, order);
      var b := Bytes(n, width, order);
      match order
      case Little => assert b[1..] == Bytes(n / 256, width - 1, order);
      case Big => assert b[..|b| - 1] == Bytes(n / 256, width - 1, order);
    }
  }

  function Power256(k: nat): nat {
    if k == 0 then 1 else 256 * Power256(k - 1)
  }

  lemma FieldBounds()
    ensures Power256(1) == 0x100 && Power256(2) == 0x1_0000 && Power256(4) == 0x1_0000_0000
    ensures Power256(16) == 0x1_0000_0000_0000_0000_0000_0000_0000_0000
  {
    assert Power256(3) == 0x100_0000;
    assert Power256(5) == 256 * Power256(4) && Power256(6) == 256 * Power256(5);
    assert Power256(7) == 256 * Power256(6) && Power256(8) == 256 * Power256(7);
    assert Power256(9) == 256 * Power256(8) && Power256(10) == 256 * Power256(9);
    assert Power256(11) == 256 * Power256(10) && Power256(12) == 256 * Power256(11);
    assert Power256(13) == 256 * Power256(12) && Power256(14) == 256 * Power256(13);
    assert Power256(15) == 256 * Power256(14);
  }

  lemma FieldInRange(format: string, fields: seq<nat>)
    requires format != "" && Fits(format, fields) && FieldWidth(format[0]) > 0
    ensures fields != [] && fields[0] < Power256(FieldWidth(format[0]))
  {
    FieldBounds();
  }

  /** usbi_parse_descriptor inverts the layout of its format, for every format, in either byte order,
      whatever follows. */
  lemma {:induction false} FieldsOfPack(format: string, fields: seq<nat>, order: ByteOrder, rest: seq<Byte>)
    requires Fits(format, fields)
    ensures Fields(format, Pack(format, fields, order) + rest, order) == fields
    decreases format
  {
    hide Number, Bytes, Power256, FieldWidth, Fields, Pack, Width, Fits;
    if format == "" {
      NoFields(fields, order, rest);
    } else if FieldWidth(format[0]) == 0 {
      NoField(format, fields, order, rest);
      FieldsOfPack(format[1..], fields, order, rest);
    } else {
      FieldInRange(format, fields);
      NumberOfBytes(fields[0], FieldWidth(format[0]), order);
      FirstField(format, fields, order, rest);
      FieldsOfPack(format[1..], fields[1..], order, rest);
    }
  }

  lemma NoFields(fields: seq<nat>, order: ByteOrder, rest: seq<Byte>)
    requires Fits("", fields)
    ensures Fields("", Pack("", fields, order) + rest, order) == fields
  {
  }

  lemma NoField(format: string, fields: seq<nat>, order: ByteOrder, rest: seq<Byte>)
    requires format != "" && FieldWidth(format[0]) == 0 && Fits(format, fields)
    ensures Fits(format[1..], fields)
    ensures Fields(format, Pack(format, fields, order) + rest, order) ==
            Fields(format[1..], Pack(format[1..], fields, order) + rest, order)
  {
    hide Number, Bytes;
    var s := Pack(format[1..], fields, order) + rest;
    assert s[0..] == s;
    assert Fields(format[1..], s, order) == [] + Fields(format[1..], s, order);
  }

  lemma FirstField(format: string, fields: seq<nat>, order: ByteOrder, rest: seq<Byte>)
    requires format != "" && FieldWidth(format[0]) > 0 && Fits(format, fields)
    ensures fields != [] && Fits(format[1..], fields[1..])
    ensures Fields(format, Pack(format, fields, order) + rest, order) ==
            [Number(Bytes(fields[0], FieldWidth(format[0]), order), order)] +
            Fields(format[1..], Pack(format[1..], fields[1..], order) + rest, order)
  {
    hide Number, Bytes;
    var head := Bytes(fields[0], FieldWidth(format[0]), order);
    var tail := Pack(format[1..], fields[1..], order);
    assert head + tail + rest == head + (tail + rest);
    FrontAndRest(head, tail + rest, 0);
  }

  // ---------------------------------------------------------------- the serialiser

  /** A run of whole class or vendor descriptors, none of a standard type. */
  predicate ClassRun(b: seq<Byte>) {
    b == [] ||
    (2 <= |b| && 2 <= b[0] <= |b| && b[1] !in {1, 2, 4, 5} && ClassRun(b[b[0]..]))
  }

  function EndpointBytes(e: Endpoint, lowFirst: bool): seq<Byte> {
    var w := e.wMaxPacketSize;
    [e.bLength, e.bDescriptorType, e.bEndpointAddress, e.bmAttributes] +
    (if lowFirst then [w % 256, w / 256] else [w / 256, w % 256]) + [e.bInterval] +
    (if e.bLength == 9 then [e.bRefresh, e.bSynchAddress] else []) + e.extra
  }

  function EndpointsBytes(es: seq<Endpoint>, lowFirst: bool): seq<Byte> {
    if es == [] then [] else EndpointBytes(es[0], lowFirst) + EndpointsBytes(es[1..], lowFirst)
  }

  function AltBytes(a: AltSetting, lowFirst: bool): seq<Byte> {
    [a.bLength, a.bDescriptorType, a.bInterfaceNumber, a.bAlternateSetting, a.bNumEndpoints,
     a.bInterfaceClass, a.bInterfaceSubClass, a.bInterfaceProtocol, a.iInterface] +
    a.extra + EndpointsBytes(a.endpoints, lowFirst)
  }

  function AltsBytes(alts: seq<AltSetting>, lowFirst: bool): seq<Byte> {
    if alts == [] then [] else AltBytes(alts[0], lowFirst) + AltsBytes(alts[1..], lowFirst)
  }

  function InterfacesBytes(interfaces: seq<seq<AltSetting>>, lowFirst: bool): seq<Byte> {
    if interfaces == [] then [] else AltsBytes(interfaces[0], lowFirst) + InterfacesBytes(interfaces[1..], lowFirst)
  }

  function ConfigBytes(c: Config, lowFirst: bool): seq<Byte>
    requires c.bNumInterfaces < 256
  {
    var w := c.wTotalLength;
    [c.bLength, c.bDescriptorType] + (if lowFirst then [w % 256, w / 256] else [w / 256, w % 256]) +
    [c.bNumInterfaces, c.bConfigurationValue, c.iConfiguration, c.bmAttributes, c.maxPower] +
    c.extra + InterfacesBytes(c.interfaces, lowFirst)
  }

  // --------------------------------------------------------------- well-formed trees

  // The numbers are those of tables 9-5, 9-10, 9-12 and 9-13 of the USB 2.0 specification.

  predicate GoodEndpoint(e: Endpoint) {
    && e.bDescriptorType == 5
    && (e.bLength == 9
        || (e.bLength == 7 && e.bRefresh == 0 && e.bSynchAddress == 0))
    && ClassRun(e.extra)
  }

  predicate GoodAlt(a: AltSetting, number: Byte) {
    && a.bLength == 9 && a.bDescriptorType == 4
    && a.bInterfaceNumber == number
    && a.bNumEndpoints == |a.endpoints| <= 32
    && ClassRun(a.extra)
    && forall i :: 0 <= i < |a.endpoints| ==> GoodEndpoint(a.endpoints[i])
  }

  predicate GoodInterface(alts: seq<AltSetting>) {
    alts != [] && forall i :: 0 <= i < |alts| ==> GoodAlt(alts[i], alts[0].bInterfaceNumber)
  }

  predicate GoodInterfaces(interfaces: seq<seq<AltSetting>>) {
    && (forall i :: 0 <= i < |interfaces| ==> GoodInterface(interfaces[i]))
    && (forall i :: 0 < i < |interfaces| ==>
          interfaces[i - 1][0].bInterfaceNumber != interfaces[i][0].bInterfaceNumber)
  }

  predicate GoodConfig(c: Config) {
    && c.bLength == 9 && c.bDescriptorType == 2
    && 1 <= c.bNumInterfaces == |c.interfaces| <= 32
    && ClassRun(c.extra)
    && GoodInterfaces(c.interfaces)
  }

  // ------------------------------------------------------------------- boundaries

  /** The data ends here or goes on with a whole standard descriptor. */
  predicate Boundary(s: seq<Byte>) {
    s == [] || (2 <= |s| && 2 <= s[0] <= |s| && s[1] in {1, 2, 4, 5})
  }

  /** Skipping takes exactly the class descriptors in front of a boundary. */
  lemma {:induction false} SkipRun(b: seq<Byte>, rest: seq<Byte>)
    requires ClassRun(b) && Boundary(rest)
    ensures SkipExtra(b + rest) == Stop(|b|)
    decreases |b|
  {
    if b == [] {
      assert b + rest == rest;
    } else {
      SkipRun(b[b[0]..], rest);
      assert (b + rest)[b[0]..] == b[b[0]..] + rest;
    }
  }

  /** The header fields are read back. */
  lemma EndpointHeaderTrip(e: Endpoint, rest: seq<Byte>, order: ByteOrder)
    requires GoodEndpoint(e)
    ensures var s := EndpointBytes(e, order.Little?) + rest;
            && |s| >= e.bLength == s[0]
            && EndpointHeader(s, order) == e.(extra := [])
            && s[e.bLength..] == e.extra + rest
            && |EndpointBytes(e, order.Little?)| == e.bLength + |e.extra|
  {
    var s := EndpointBytes(e, order.Little?) + rest;
    var low, high := e.wMaxPacketSize % 256, e.wMaxPacketSize / 256;
    var w := if order.Little? then [low, high] else [high, low];
    assert Word(w[0], w[1], order) == e.wMaxPacketSize;
    var header := [e.bLength, e.bDescriptorType, e.bEndpointAddress, e.bmAttributes] + w + [e.bInterval] +
                  (if e.bLength == 9 then [e.bRefresh, e.bSynchAddress] else []);
    assert s == header + (e.extra + rest);
    assert forall i :: 0 <= i < |header| ==> s[i] == header[i];
    assert header[4] == w[0] && header[5] == w[1] && header[6] == e.bInterval;
  }

  lemma EndpointTrip(e: Endpoint, rest: seq<Byte>, order: ByteOrder)
    requires GoodEndpoint(e) && Boundary(rest)
    ensures ParseEndpoint(EndpointBytes(e, order.Little?) + rest, order) ==
            EndpointOk(e, |EndpointBytes(e, order.Little?)|)
    ensures Boundary(EndpointBytes(e, order.Little?) + rest) && |EndpointBytes(e, order.Little?)| >= 7
  {
    hide EndpointBytes, SkipExtra;
    var s := EndpointBytes(e, order.Little?) + rest;
    EndpointHeaderTrip(e, rest, order);
    SkipRun(e.extra, rest);
    assert s[e.bLength..][..|e.extra|] == e.extra;
    assert s[e.bLength..e.bLength + |e.extra|] == s[e.bLength..][..|e.extra|];
  }

  lemma NoEndpointsLeft(s: seq<Byte>, order: ByteOrder)
    ensures ParseEndpoints(s, 0, order) == EndpointsOk([], 0)
    ensures EndpointsBytes([], order.Little?) == [] && EndpointsBytes([], order.Little?) + s == s
  {
  }

  lemma EndpointsUnfold(s: seq<Byte>, count: nat, order: ByteOrder, e: Endpoint, n: nat)
    requires count > 0 && n <= |s| && ParseEndpoint(s, order) == EndpointOk(e, n)
    ensures ParseEndpoints(s, count, order) == AfterEndpoints([e], n, ParseEndpoints(s[n..], count - 1, order))
  {
    hide ParseEndpoint;
  }

  lemma {:induction false} EndpointsTrip(es: seq<Endpoint>, rest: seq<Byte>, order: ByteOrder)
    requires forall i :: 0 <= i < |es| ==> GoodEndpoint(es[i])
    requires Boundary(rest)
    ensures ParseEndpoints(EndpointsBytes(es, order.Little?) + rest, |es|, order) ==
            EndpointsOk(es, |EndpointsBytes(es, order.Little?)|)
    ensures Boundary(EndpointsBytes(es, order.Little?) + rest)
    decreases |es|
  {
    hide ParseEndpoint, EndpointBytes, ParseEndpoints, GoodEndpoint, EndpointsBytes, Boundary;
    if es == [] {
      NoEndpointsLeft(rest, order);
    } else {
      var tail := EndpointsBytes(es[1..], order.Little?) + rest;
      assert forall i :: 0 <= i < |es| - 1 ==> es[1..][i] == es[i + 1];
      EndpointsTrip(es[1..], rest, order);
      EndpointTrip(es[0], tail, order);
      var first := EndpointBytes(es[0], order.Little?);
      EndpointsBytesSplit(es, order, rest);
      FrontAndRest(first, tail, 0);
      EndpointsUnfold(first + tail, |es|, order, es[0], |first|);
      assert [es[0]] + es[1..] == es;
    }
  }

  lemma EndpointsBytesSplit(es: seq<Endpoint>, order: ByteOrder, rest: seq<Byte>)
    requires es != []
    ensures EndpointsBytes(es, order.Little?) + rest ==
            EndpointBytes(es[0], order.Little?) + (EndpointsBytes(es[1..], order.Little?) + rest)
    ensures |EndpointsBytes(es, order.Little?)| ==
            |EndpointBytes(es[0], order.Little?)| + |EndpointsBytes(es[1..], order.Little?)|
  {
    hide EndpointBytes;
  }

  lemma AltHeaderTrip(a: AltSetting, rest: seq<Byte>, order: ByteOrder)
    requires a.bLength == INTERFACE_DESC_LENGTH
    ensures var s := AltBytes(a, order.Little?) + rest;
            && |s| >= INTERFACE_DESC_LENGTH
            && AltHeader(s) == a.(extra := [], endpoints := [])
            && s[INTERFACE_DESC_LENGTH..] == a.extra + (EndpointsBytes(a.endpoints, order.Little?) + rest)
            && |AltBytes(a, order.Little?)| ==
               INTERFACE_DESC_LENGTH + |a.extra| + |EndpointsBytes(a.endpoints, order.Little?)|
  {
    hide EndpointsBytes;
    var s := AltBytes(a, order.Little?) + rest;
    var header := [a.bLength, a.bDescriptorType, a.bInterfaceNumber, a.bAlternateSetting, a.bNumEndpoints,
                   a.bInterfaceClass, a.bInterfaceSubClass, a.bInterfaceProtocol, a.iInterface];
    assert s == header + (a.extra + (EndpointsBytes(a.endpoints, order.Little?) + rest));
    assert forall i :: 0 <= i < 9 ==> s[i] == header[i];
  }

  lemma AltTrip(a: AltSetting, rest: seq<Byte>, order: ByteOrder)
    requires GoodAlt(a, a.bInterfaceNumber) && Boundary(rest)
    ensures var s := AltBytes(a, order.Little?) + rest;
            && |s| >= INTERFACE_DESC_LENGTH && s[1] == DT_INTERFACE && s[2] == a.bInterfaceNumber
            && ParseAlt(s, order) == AltOk(a, |AltBytes(a, order.Little?)|)
            && Boundary(s) && |AltBytes(a, order.Little?)| >= INTERFACE_DESC_LENGTH
  {
    hide ParseEndpoints, EndpointsBytes, SkipExtra, AltBytes;
    var s := AltBytes(a, order.Little?) + rest;
    var eps := EndpointsBytes(a.endpoints, order.Little?) + rest;
    AltHeaderTrip(a, rest, order);
    EndpointsTrip(a.endpoints, rest, order);
    SkipRun(a.extra, eps);
    var k := 9 + |a.extra|;
    assert s[9..][..|a.extra|] == a.extra && s[9..][|a.extra|..] == eps;
    assert s[9..k] == s[9..][..|a.extra|] && s[k..] == s[9..][|a.extra|..];
  }

  /** Nothing after the data belongs to interface `number` any more. */
  predicate Elsewhere(s: seq<Byte>, number: Byte) {
    Boundary(s) && !Continues(s, number)
  }

  lemma InterfaceUnfold(s: seq<Byte>, number: Option<Byte>, order: ByteOrder, a: AltSetting, n: nat)
    requires |s| >= INTERFACE_DESC_LENGTH && n <= |s| && ParseAlt(s, order) == AltOk(a, n)
    ensures var own := if number.Some? then number.value else a.bInterfaceNumber;
            ParseInterface(s, number, order) ==
            if Continues(s[n..], own) then AfterAlts([a], n, ParseInterface(s[n..], Some(own), order))
            else InterfaceOk([a], n)
  {
    hide ParseAlt;
  }

  lemma {:induction false} AltsTrip(alts: seq<AltSetting>, number: Option<Byte>, rest: seq<Byte>, order: ByteOrder)
    requires alts != [] && forall i :: 0 <= i < |alts| ==> GoodAlt(alts[i], alts[0].bInterfaceNumber)
    requires number.Some? ==> number.value == alts[0].bInterfaceNumber
    requires Elsewhere(rest, alts[0].bInterfaceNumber)
    ensures var s := AltsBytes(alts, order.Little?) + rest;
            && ParseInterface(s, number, order) == InterfaceOk(alts, |AltsBytes(alts, order.Little?)|)
            && Boundary(s) && Continues(s, alts[0].bInterfaceNumber)
    decreases |alts|
  {
    hide ParseAlt, AltBytes, ParseInterface, AltsBytes, Boundary, GoodAlt;
    var own, first := alts[0].bInterfaceNumber, AltBytes(alts[0], order.Little?);
    var tail := AltsBytes(alts[1..], order.Little?) + rest;
    AltsBytesSplit(alts, order, rest);
    assert [alts[0]] + alts[1..] == alts;
    if |alts| > 1 {
      assert alts[1..][0] == alts[1] && GoodAlt(alts[1], own);
      NumberOfGood(alts[1], own);
      AltsTrip(alts[1..], Some(own), rest, order);
    }
    NumberOfGood(alts[0], own);
    AltTrip(alts[0], tail, order);
    FrontAndRest(first, tail, 0);
    InterfaceUnfold(first + tail, number, order, alts[0], |first|);
  }

  lemma NumberOfGood(a: AltSetting, number: Byte)
    requires GoodAlt(a, number)
    ensures a.bInterfaceNumber == number
  {
  }

  lemma AltsBytesSplit(alts: seq<AltSetting>, order: ByteOrder, rest: seq<Byte>)
    requires alts != []
    ensures var more := AltsBytes(alts[1..], order.Little?);
            && AltsBytes(alts, order.Little?) + rest == AltBytes(alts[0], order.Little?) + (more + rest)
            && |AltsBytes(alts, order.Little?)| == |AltBytes(alts[0], order.Little?)| + |more|
            && (|alts| == 1 ==> more == [] && more + rest == rest)
  {
    hide AltBytes;
  }

  lemma {:induction false} InterfacesTrip(interfaces: seq<seq<AltSetting>>, saved: seq<Byte>, order: ByteOrder)
    requires GoodInterfaces(interfaces)
    ensures var s := InterfacesBytes(interfaces, order.Little?);
            && ParseInterfaces(s, |interfaces|, saved, order) == InterfacesOk(interfaces, saved, 0)
            && Boundary(s)
            && (interfaces != [] ==> Continues(s, interfaces[0][0].bInterfaceNumber))
            && (interfaces == [] ==> s == [])
    decreases |interfaces|
  {
    hide ParseInterface, AltsBytes, ParseInterfaces, SkipExtra, Boundary, Continues, GoodInterface;
    EmptyRun(InterfacesBytes(interfaces, order.Little?));
    if interfaces == [] {
      NoBytes(saved, order);
    } else {
      var rest := interfaces[1..];
      assert forall i :: 0 <= i < |rest| ==> rest[i] == interfaces[i + 1];
      InterfacesTrip(rest, saved, order);
      var first, tail := AltsBytes(interfaces[0], order.Little?), InterfacesBytes(rest, order.Little?);
      OtherNumber(interfaces, tail);
      GoodAlts(interfaces[0]);
      AltsTrip(interfaces[0], None, tail, order);
      SkipRun([], first + tail);
      FrontAndRest(first, tail, 0);
      InterfacesUnfold(first + tail, |interfaces|, saved, order, 0, InterfaceOk(interfaces[0], |first|));
      assert [interfaces[0]] + rest == interfaces;
    }
  }

  lemma NoBytes(saved: seq<Byte>, order: ByteOrder)
    ensures ParseInterfaces([], 0, saved, order) == InterfacesOk([], saved, 0) && Boundary([])
  {
  }

  lemma GoodAlts(alts: seq<AltSetting>)
    requires GoodInterface(alts)
    ensures alts != [] && forall i :: 0 <= i < |alts| ==> GoodAlt(alts[i], alts[0].bInterfaceNumber)
  {
  }

  /** Neighbours have different numbers, so the next interface does not continue this one. */
  lemma OtherNumber(interfaces: seq<seq<AltSetting>>, next: seq<Byte>)
    requires interfaces != [] && GoodInterfaces(interfaces)
    requires if |interfaces| == 1 then next == []
             else assert GoodInterface(interfaces[1]); Continues(next, interfaces[1][0].bInterfaceNumber)
    ensures interfaces[0] != [] && !Continues(next, interfaces[0][0].bInterfaceNumber)
  {
    assert GoodInterface(interfaces[0]);
  }

  /** In front of the first interface the class descriptors of the configuration are skipped and kept. */
  lemma LeadingExtra(extra: seq<Byte>, s: seq<Byte>, count: nat, order: ByteOrder)
    requires ClassRun(extra) && Boundary(s) && count > 0
    ensures ParseInterfaces(extra + s, count, [], order) == ParseInterfaces(s, count, extra, order)
  {
    hide ParseInterfaces, ParseInterface, SkipExtra, ClassRun, Boundary;
    var one := ParseInterface(s, None, order);
    EmptyRun(s);
    SkipRun(extra, s);
    SkipRun([], s);
    FrontAndRest(extra, s, if one.InterfaceOk? then one.n else 0);
    InterfacesUnfold(extra + s, count, [], order, |extra|, one);
    InterfacesUnfold(s, count, extra, order, 0, one);
  }

  lemma EmptyRun(s: seq<Byte>)
    ensures ClassRun([]) && [] + s == s && s[0..] == s && s[..0] == []
  {
  }

  /** The main result. Every well-formed configuration tree, laid out in either byte order, is parsed
      back to the same tree with no byte left over. */
  lemma ConfigRoundTrip(c: Config, order: ByteOrder)
    requires GoodConfig(c)
    ensures ParseConfig(ConfigBytes(c, order.Little?), order) == ConfigOk(c, 0)
  {
    hide ParseInterfaces, InterfacesBytes, ConfigBytes, ConfigHeader, ClassRun, Boundary, GoodInterfaces;
    ConfigHeaderTrip(c, order);
    InterfacesTrip(c.interfaces, c.extra, order);
    LeadingExtra(c.extra, InterfacesBytes(c.interfaces, order.Little?), |c.interfaces|, order);
  }

  lemma ConfigHeaderTrip(c: Config, order: ByteOrder)
    requires c.bLength == CONFIG_SIZE && c.bNumInterfaces < 256
    ensures var s := ConfigBytes(c, order.Little?);
            && |s| >= CONFIG_SIZE && s[0] == CONFIG_SIZE && s[1] == c.bDescriptorType && s[4] == c.bNumInterfaces
            && ConfigHeader(s, order) == c.(interfaces := [], extra := [])
            && s[CONFIG_SIZE..] == c.extra + InterfacesBytes(c.interfaces, order.Little?)
  {
    hide InterfacesBytes;
    var low, high := c.wTotalLength % 256, c.wTotalLength / 256;
    var w := if order.Little? then [low, high] else [high, low];
    assert Word(w[0], w[1], order) == c.wTotalLength;
    var header := [c.bLength, c.bDescriptorType] + w +
                  [c.bNumInterfaces, c.bConfigurationValue, c.iConfiguration, c.bmAttributes, c.maxPower];
    var s, rest := ConfigBytes(c, order.Little?), c.extra + InterfacesBytes(c.interfaces, order.Little?);
    assert s == header + rest;
    FrontAndRest(header, rest, 0);
    assert forall i :: 0 <= i < 9 ==> s[i] == header[i];
  }

  /** The same for the operation itself, whatever the host: without `hostEndian` the data is read back
      when it has the low byte first, and with it when it is laid out the way the host lays it out. */
  method ReadLaidOut(c: Config, hostEndian: bool, host: ByteOrder) returns (r: ConfigResult)
    requires GoodConfig(c)
    ensures r == ConfigOk(c, 0)
  {
    hide GoodInterfaces, ClassRun, ConfigBytes, ParseConfig;
    if hostEndian {
      ConfigRoundTrip(c, host);
      r := ReadConfig(ConfigBytes(c, host.Little?), true, host);
    } else {
      ConfigRoundTrip(c, Little);
      r := ReadConfig(ConfigBytes(c, true), false, host);
    }
  }

  // ------------------------------------------------------------ what the formats mean

  /** A byte, a word and a double word, and how many bytes each kind of field takes. */
  lemma FormatMeans(s: seq<Byte>, order: ByteOrder)
    requires |s| >= 4
    ensures Width("b") == 1 && Width("w") == 2 && Width("d") == 4 && Width("u") == 16
    ensures Fields("b", s, order) == [s[0]]
    ensures var a: int, b: int := s[0], s[1];
            Fields("w", s, order) == [if order.Little? then a + 256 * b else 256 * a + b]
    ensures var a: int, b: int, c: int, d: int := s[0], s[1], s[2], s[3];
            Fields("d", s, order) == [if order.Little? then a + 256 * b + 0x1_0000 * c + 0x100_0000 * d
                                      else 0x100_0000 * a + 0x1_0000 * b + 256 * c + d]
  {
    hide Fields, Width, Number;
    OneFieldFormat('b', s, order);
    OneFieldFormat('w', s, order);
    OneFieldFormat('d', s, order);
    UuidWidth();
    NumberOne(s[..1], order);
    NumberTwo(s[..2], order);
    NumberFour(s[..4], order);
  }

  lemma UuidWidth()
    ensures Width("u") == 16
  {
    assert "u"[1..] == "";
  }

  lemma OneFieldFormat(c: char, s: seq<Byte>, order: ByteOrder)
    requires 0 < FieldWidth(c) <= |s|
    ensures Width([c]) == FieldWidth(c) && Fields([c], s, order) == [Number(s[..FieldWidth(c)], order)]
  {
    hide Number;
    assert [c][1..] == "";
  }

  lemma NumberFour(s: seq<Byte>, order: ByteOrder)
    requires |s| == 4
    ensures var a: int, b: int, c: int, d: int := s[0], s[1], s[2], s[3];
            Number(s, order) == if order.Little? then a + 256 * b + 0x1_0000 * c + 0x100_0000 * d
                                else 0x100_0000 * a + 0x1_0000 * b + 256 * c + d
  {
    if order.Little? {
      assert s[1..][1..] == s[2..];
      NumberTwo(s[2..], order);
    } else {
      assert s[..3][..2] == s[..2];
      NumberTwo(s[..2], order);
    }
  }
}
