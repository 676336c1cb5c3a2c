/**
 The configuration descriptor parser: bytes as sections 9.6.3, 9.6.5 and 9.6.6 of the USB 2.0
 specification lay them out, class-specific descriptors in between, and the tree built from them.
 A function says what each loop computes; a method is the loop.
 */
module Descriptors {
  import opened Usb

  const DT_DEVICE := 1
  const DT_CONFIG := 2
  const DT_INTERFACE := 4
  const DT_ENDPOINT := 5

  const DESC_HEADER_LENGTH := 2
  const ENDPOINT_DESC_LENGTH := 7
  const ENDPOINT_AUDIO_DESC_LENGTH := 9
  const INTERFACE_DESC_LENGTH := 9
  const CONFIG_SIZE := 9
  const USB_MAXENDPOINTS := 32
  const USB_MAXINTERFACES := 32

  // --------------------------------------------------------- usbi_parse_descriptor

  datatype ByteOrder = Little | Big

  function Number(bytes: seq<Byte>, order: ByteOrder): nat {
    if bytes == [] then 0
    else match order
      case Little => bytes[0] + 256 * Number(bytes[1..], order)
      case Big => Number(bytes[..|bytes| - 1], order) * 256 + bytes[|bytes| - 1]
  }

  function Bytes(n: nat, width: nat, order: ByteOrder): (r: seq<Byte>)
    ensures |r| == width
  {
    if width == 0 then []
    else match order
      case Little => [n % 256] + Bytes(n / 256, width - 1, order)
      case Big => Bytes(n / 256, width - 1, order) + [n % 256]
  }

  /** The size of the field a format character stands for; other characters stand for nothing. */
  function FieldWidth(c: char): nat {
    match c
    case 'b' => 1
    case 'w' => 2
    case 'd' => 4
    case 'u' => 16
    case _ => 0
  }

  function Width(format: string): nat {
    if format == "" then 0 else FieldWidth(format[0]) + Width(format[1..])
  }

  /** The fields of a descriptor. A UUID is copied byte by byte, like a number of the host's. */
  function Fields(format: string, s: seq<Byte>, order: ByteOrder): seq<nat>
    requires |s| >= Width(format)
  {
    if format == "" then []
    else
      var w := FieldWidth(format[0]);
      (if w == 0 then [] else [Number(s[..w], order)]) + Fields(format[1..], s[w..], order)
  }

  method ParseDescriptor(source: seq<Byte>, format: string, order: ByteOrder) returns (dest: seq<nat>, consumed: nat)
    requires |source| >= Width(format)
    ensures dest == Fields(format, source, order) && consumed == Width(format)
  {
    hide Fields, Width, FieldWidth, Number, FieldsSoFar;
    dest, consumed := [], 0;
    var cp: nat := 0;
    FieldsBegin(format, source, order);
    while cp < |format|
      invariant cp <= |format| && consumed <= |source|
      invariant FieldsSoFar(format, source, order, dest, cp, consumed)
    {
      var w := FieldWidth(format[cp]);
      FieldsRound(format, source, order, dest, cp, consumed);
      if w > 0 {
        dest := dest + [Number(source[consumed..consumed + w], order)];
      }
      consumed, cp := consumed + w, cp + 1;
    }
    FieldsEnd(format, source, order, dest, consumed);
  }

  lemma FieldsBegin(format: string, source: seq<Byte>, order: ByteOrder)
    requires |source| >= Width(format)
    ensures FieldsSoFar(format, source, order, [], 0, 0)
  {
    hide Fields, Width;
    assert format[0..] == format && source[0..] == source;
  }

  lemma FieldsEnd(format: string, source: seq<Byte>, order: ByteOrder, dest: seq<nat>, at: nat)
    requires |source| >= Width(format) && FieldsSoFar(format, source, order, dest, |format|, at)
    ensures dest == Fields(format, source, order) && at == Width(format)
  {
    assert format[|format|..] == "";
  }

  ghost predicate FieldsSoFar(format: string, source: seq<Byte>, order: ByteOrder, dest: seq<nat>, cp: nat, at: nat)
    requires |source| >= Width(format)
  {
    && cp <= |format| && at <= |source|
    && at + Width(format[cp..]) == Width(format)
    && dest + Fields(format[cp..], source[at..], order) == Fields(format, source, order)
  }

  lemma FieldsRound(format: string, source: seq<Byte>, order: ByteOrder, dest: seq<nat>, cp: nat, at: nat)
    requires |source| >= Width(format) && FieldsSoFar(format, source, order, dest, cp, at) && cp < |format|
    ensures var w := FieldWidth(format[cp]);
            && at + w <= |source|
            && FieldsSoFar(format, source, order,
                           if w == 0 then dest else dest + [Number(source[at..at + w], order)], cp + 1, at + w)
  {
    hide Fields, Width, FieldWidth, Number;
    FieldsFrom(format, source, order, cp, at);
    var w := FieldWidth(format[cp]);
    var rest := Fields(format[cp + 1..], source[at + w..], order);
    if w > 0 {
      AppendOne(dest, Number(source[at..at + w], order), rest);
    } else {
      assert [] + rest == rest;
    }
  }

  lemma FieldsFrom(format: string, source: seq<Byte>, order: ByteOrder, cp: nat, at: nat)
    requires cp < |format| && at + Width(format[cp..]) <= |source|
    ensures var w := FieldWidth(format[cp]);
            && Width(format[cp..]) == w + Width(format[cp + 1..])
            && Fields(format[cp..], source[at..], order) ==
               (if w == 0 then [] else [Number(source[at..at + w], order)]) +
               Fields(format[cp + 1..], source[at + w..], order)
  {
    var w := FieldWidth(format[cp]);
    assert format[cp..][1..] == format[cp + 1..] && source[at..][w..] == source[at + w..];
    assert source[at..][..w] == source[at..at + w];
  }

  /** The serialiser for a format. */
  predicate Fits(format: string, fields: seq<nat>) {
    if format == "" then fields == []
    else match format[0]
      case 'b' => fields != [] && fields[0] < 0x100 && Fits(format[1..], fields[1..])
      case 'w' => fields != [] && fields[0] < 0x1_0000 && Fits(format[1..], fields[1..])
      case 'd' => fields != [] && fields[0] < 0x1_0000_0000 && Fits(format[1..], fields[1..])
      case 'u' =>
        fields != [] && fields[0] < 0x1_0000_0000_0000_0000_0000_0000_0000_0000 && Fits(format[1..], fields[1..])
      case _ => Fits(format[1..], fields)
  }

  function Pack(format: string, fields: seq<nat>, order: ByteOrder): (r: seq<Byte>)
    requires Fits(format, fields)
    ensures |r| == Width(format)
  {
    if format == "" then []
    else
      var w := FieldWidth(format[0]);
      if w == 0 then Pack(format[1..], fields, order)
      else Bytes(fields[0], w, order) + Pack(format[1..], fields[1..], order)
  }

  // ----------------------------------------------------------------- the tree

  type Word16 = x: int | 0 <= x < 0x1_0000

  datatype Endpoint = Endpoint(
    bLength: Byte, bDescriptorType: Byte, bEndpointAddress: Byte, bmAttributes: Byte,
    wMaxPacketSize: Word16, bInterval: Byte, bRefresh: Byte, bSynchAddress: Byte, extra: seq<Byte>)

  datatype AltSetting = AltSetting(
    bLength: Byte, bDescriptorType: Byte, bInterfaceNumber: Byte, bAlternateSetting: Byte,
    bNumEndpoints: Byte, bInterfaceClass: Byte, bInterfaceSubClass: Byte, bInterfaceProtocol: Byte,
    iInterface: Byte, extra: seq<Byte>, endpoints: seq<Endpoint>)

  datatype Config = Config(
    bLength: Byte, bDescriptorType: Byte, wTotalLength: Word16, bNumInterfaces: nat,
    bConfigurationValue: Byte, iConfiguration: Byte, bmAttributes: Byte, maxPower: Byte,
    extra: seq<Byte>, interfaces: seq<seq<AltSetting>>)

  function Word(a: Byte, b: Byte, order: ByteOrder): Word16 {
    if order.Little? then a + 256 * b else 256 * a + b
  }

  // ------------------------------------------------- skipping class descriptors

  predicate IsStandard(descriptorType: Byte) {
    descriptorType in {DT_ENDPOINT, DT_INTERFACE, DT_CONFIG, DT_DEVICE}
  }

  /** How the skipping of class or vendor descriptors ends after `n` bytes: at a standard descriptor
      or the end, at a descriptor longer than the data, or at one shorter than its header. */
  datatype Skip = Stop(n: nat) | Short(n: nat) | Malformed

  function Further(k: nat, s: Skip): Skip {
    match s
    case Stop(n) => Stop(k + n)
    case Short(n) => Short(k + n)
    case Malformed => Malformed
  }

  function SkipExtra(s: seq<Byte>): (r: Skip)
    ensures !r.Malformed? ==> r.n <= |s|
  {
    if |s| < DESC_HEADER_LENGTH then Stop(0)
    else if s[0] < DESC_HEADER_LENGTH then Malformed
    else if s[0] > |s| then Short(0)
    else if IsStandard(s[1]) then Stop(0)
    else Further(s[0], SkipExtra(s[s[0]..]))
  }

  method SkipClassDescriptors(s: seq<Byte>) returns (r: Skip)
    ensures r == SkipExtra(s)
  {
    hide SkipExtra;
    var skipped := 0;
    assert s[0..] == s;
    while |s| - skipped >= DESC_HEADER_LENGTH
      invariant 0 <= skipped <= |s|
      invariant SkipExtra(s) == Further(skipped, SkipExtra(s[skipped..]))
    {
      var bLength, bDescriptorType := s[skipped], s[skipped + 1];
      SkipRound(s, skipped);
      if bLength < DESC_HEADER_LENGTH {
        return Malformed;
      } else if bLength > |s| - skipped {
        return Short(skipped);
      }
      if bDescriptorType == DT_ENDPOINT || bDescriptorType == DT_INTERFACE
         || bDescriptorType == DT_CONFIG || bDescriptorType == DT_DEVICE {
        break;
      }
      skipped := skipped + bLength;
    }
    SkipEnds(s[skipped..]);
    return Stop(skipped);
  }

  lemma SkipRound(s: seq<Byte>, at: nat)
    requires at + DESC_HEADER_LENGTH <= |s|
    ensures SkipExtra(s[at..]) ==
            if s[at] < DESC_HEADER_LENGTH then Malformed
            else if s[at] > |s| - at then Short(0)
            else if IsStandard(s[at + 1]) then Stop(0)
            else Further(s[at], SkipExtra(s[at + s[at]..]))
  {
    var t := s[at..];
    assert t[0] == s[at] && t[1] == s[at + 1];
    if s[at] <= |s| - at {
      RestOfRest(s, at, s[at]);
    }
  }

  lemma SkipEnds(s: seq<Byte>)
    ensures |s| < DESC_HEADER_LENGTH ==> SkipExtra(s) == Stop(0)
  {
  }

  // ----------------------------------------------------------------- endpoints

  /** parse_endpoint: an error, nothing parsed, or an endpoint from the first `n` bytes. */
  datatype EndpointResult = EndpointError | NoEndpoint | EndpointOk(endpoint: Endpoint, n: nat)

  function EndpointHeader(s: seq<Byte>, order: ByteOrder): Endpoint
    requires |s| >= ENDPOINT_DESC_LENGTH && |s| >= s[0]
  {
    var audio := s[0] >= ENDPOINT_AUDIO_DESC_LENGTH;
    Endpoint(s[0], s[1], s[2], s[3], Word(s[4], s[5], order), s[6],
             if audio then s[7] else 0, if audio then s[8] else 0, [])
  }

  function ParseEndpoint(s: seq<Byte>, order: ByteOrder): (r: EndpointResult)
    ensures r.EndpointOk? ==> ENDPOINT_DESC_LENGTH <= r.n <= |s|
  {
    if |s| < DESC_HEADER_LENGTH then EndpointError
    else if s[1] != DT_ENDPOINT || s[0] > |s| then NoEndpoint
    else if s[0] < ENDPOINT_DESC_LENGTH then EndpointError
    else
      var e := EndpointHeader(s, order);
      match SkipExtra(s[s[0]..])
      case Malformed => EndpointError
      case Short(n) => EndpointOk(e, s[0] + n)
      case Stop(n) => EndpointOk(e.(extra := s[s[0]..s[0] + n]), s[0] + n)
  }

  /** The part of parse_endpoint that fills the structure, in the long (audio) or the short form. */
  method ReadEndpointHeader(s: seq<Byte>, order: ByteOrder) returns (e: Endpoint)
    requires |s| >= ENDPOINT_DESC_LENGTH && |s| >= s[0]
    ensures e == EndpointHeader(s, order)
    ensures e.bLength == s[0] && e.bDescriptorType == s[1] && e.bEndpointAddress == s[2] && e.bmAttributes == s[3]
    ensures var a: int, b: int := s[4], s[5];
            e.wMaxPacketSize == if order.Little? then a + 256 * b else 256 * a + b
    ensures e.bInterval == s[6] && e.extra == []
    ensures s[0] >= 9 ==> e.bRefresh == s[7] && e.bSynchAddress == s[8]
    ensures s[0] < 9 ==> e.bRefresh == 0 == e.bSynchAddress
  {
    hide Fields, Width;
    if s[0] >= ENDPOINT_AUDIO_DESC_LENGTH {
      AudioEndpointFormat(s, order);
      var f, _ := ParseDescriptor(s, "bbbbwbbb", order);
      e := Endpoint(f[0], f[1], f[2], f[3], f[4], f[5], f[6], f[7], []);
    } else {
      EndpointFormat(s, order);
      var f, _ := ParseDescriptor(s, "bbbbwb", order);
      e := Endpoint(f[0], f[1], f[2], f[3], f[4], f[5], 0, 0, []);
    }
  }

  method ReadEndpoint(s: seq<Byte>, order: ByteOrder) returns (r: EndpointResult)
    ensures r == ParseEndpoint(s, order)
    ensures |s| < 2 ==> r == EndpointError
    ensures |s| >= 2 ==> (r == NoEndpoint <==> s[1] != 5 || s[0] > |s|)
    ensures |s| >= 2 && s[0] < 7 ==> !r.EndpointOk?
  {
    hide SkipExtra;
    if |s| < DESC_HEADER_LENGTH {
      return EndpointError;
    }
    var bLength, bDescriptorType := s[0], s[1];
    if bDescriptorType != DT_ENDPOINT {
      return NoEndpoint;
    }
    if bLength > |s| {
      return NoEndpoint;
    }
    if bLength < ENDPOINT_DESC_LENGTH {
      return EndpointError;
    }
    var e := ReadEndpointHeader(s, order);
    hide EndpointHeader;
    var skip := SkipClassDescriptors(s[bLength..]);
    if skip.Malformed? {
      return EndpointError;
    }
    if skip.Short? {
      return EndpointOk(e, bLength + skip.n);
    }
    return EndpointOk(e.(extra := s[bLength..bLength + skip.n]), bLength + skip.n);
  }

  // --------------------------------------------------------------- alternate settings

  /** The endpoints of an alternate setting: at most `count`, fewer if something else comes first. */
  datatype EndpointsResult = EndpointsError | EndpointsOk(endpoints: seq<Endpoint>, n: nat)

  function ParseEndpoints(s: seq<Byte>, count: nat, order: ByteOrder): (r: EndpointsResult)
    ensures r.EndpointsOk? ==> r.n <= |s| && |r.endpoints| <= count
    decreases count
  {
    if count == 0 then EndpointsOk([], 0)
    else match ParseEndpoint(s, order)
      case EndpointError => EndpointsError
      case NoEndpoint => EndpointsOk([], 0)
      case EndpointOk(e, n) =>
        AfterEndpoints([e], n, ParseEndpoints(s[n..], count - 1, order))
  }

  function AfterEndpoints(endpoints: seq<Endpoint>, n: nat, r: EndpointsResult): EndpointsResult {
    match r
    case EndpointsError => EndpointsError
    case EndpointsOk(rest, m) => EndpointsOk(endpoints + rest, n + m)
  }

  lemma AfterEndpointsTwice(a: seq<Endpoint>, n: nat, b: seq<Endpoint>, m: nat, r: EndpointsResult)
    ensures AfterEndpoints(a, n, AfterEndpoints(b, m, r)) == AfterEndpoints(a + b, n + m, r)
  {
    if r.EndpointsOk? {
      assert a + (b + r.endpoints) == a + b + r.endpoints;
    }
  }

  /** What is left to do once `endpoints` were read from the first `parsed` bytes. */
  ghost predicate EndpointsSoFar(s: seq<Byte>, order: ByteOrder, full: EndpointsResult,
                                 endpoints: seq<Endpoint>, parsed: nat, count: nat)
  {
    parsed <= |s| && full == AfterEndpoints(endpoints, parsed, ParseEndpoints(s[parsed..], count, order))
  }

  lemma EndpointsRound(s: seq<Byte>, order: ByteOrder, full: EndpointsResult,
                       endpoints: seq<Endpoint>, parsed: nat, count: nat, e: EndpointResult)
    requires EndpointsSoFar(s, order, full, endpoints, parsed, count) && count > 0
    requires e == ParseEndpoint(s[parsed..], order)
    ensures e.EndpointError? ==> full == EndpointsError
    ensures e.NoEndpoint? ==> full == EndpointsOk(endpoints, parsed)
    ensures e.EndpointOk? ==> EndpointsSoFar(s, order, full, endpoints + [e.endpoint], parsed + e.n, count - 1)
  {
    if e.EndpointOk? {
      assert s[parsed..][e.n..] == s[parsed + e.n..];
      AfterEndpointsTwice(endpoints, parsed, [e.endpoint], e.n, ParseEndpoints(s[parsed + e.n..], count - 1, order));
    }
  }

  lemma EndpointsDone(s: seq<Byte>, order: ByteOrder, full: EndpointsResult, endpoints: seq<Endpoint>, parsed: nat)
    requires EndpointsSoFar(s, order, full, endpoints, parsed, 0)
    ensures full == EndpointsOk(endpoints, parsed)
  {
  }

  lemma EndpointsStart(s: seq<Byte>, order: ByteOrder, count: nat)
    ensures EndpointsSoFar(s, order, ParseEndpoints(s, count, order), [], 0, count)
  {
    assert s[0..] == s;
  }

  method ReadEndpoints(s: seq<Byte>, count: nat, order: ByteOrder) returns (r: EndpointsResult)
    ensures r == ParseEndpoints(s, count, order)
  {
    hide ParseEndpoints, ParseEndpoint, AfterEndpoints;
    ghost var full := ParseEndpoints(s, count, order);
    var endpoints, parsed: nat := [], 0;
    var i := 0;
    EndpointsStart(s, order, count);
    while i < count
      invariant 0 <= i <= count
      invariant EndpointsSoFar(s, order, full, endpoints, parsed, count - i)
    {
      var e := ReadEndpoint(s[parsed..], order);
      EndpointsRound(s, order, full, endpoints, parsed, count - i, e);
      if e.EndpointError? {
        return EndpointsError;
      }
      if e.NoEndpoint? {
        return EndpointsOk(endpoints, parsed);
      }
      endpoints, parsed := endpoints + [e.endpoint], parsed + e.n;
      i := i + 1;
    }
    EndpointsDone(s, order, full, endpoints, parsed);
    return EndpointsOk(endpoints, parsed);
  }

  /** One round of the loop in parse_interface: an error; no alternate setting here; one that is kept
      although the parse ends in a short class descriptor; or one with its endpoints. */
  datatype AltResult = AltError | NoAlt | AltCut(alt: AltSetting, n: nat) | AltOk(alt: AltSetting, n: nat)

  function AltHeader(s: seq<Byte>): AltSetting
    requires |s| >= INTERFACE_DESC_LENGTH
  {
    AltSetting(s[0], s[1], s[2], s[3], s[4], s[5], s[6], s[7], s[8], [], [])
  }

  function ParseAlt(s: seq<Byte>, order: ByteOrder): (r: AltResult)
    requires |s| >= INTERFACE_DESC_LENGTH
    ensures r.AltCut? || r.AltOk? ==> INTERFACE_DESC_LENGTH <= r.n <= |s|
  {
    if s[1] != DT_INTERFACE then NoAlt
    else if s[0] < INTERFACE_DESC_LENGTH then AltError
    else if s[0] > |s| then NoAlt
    else if s[4] > USB_MAXENDPOINTS then AltError
    else
      var a := AltHeader(s);
      match SkipExtra(s[s[0]..])
      case Malformed => AltError
      case Short(n) => AltCut(a, s[0] + n)
      case Stop(n) =>
        match ParseEndpoints(s[s[0] + n..], s[4], order)
        case EndpointsError => AltError
        case EndpointsOk(eps, m) =>
          AltOk(a.(extra := s[s[0]..s[0] + n], endpoints := eps, bNumEndpoints := |eps|), s[0] + n + m)
  }

  method ReadAlt(s: seq<Byte>, order: ByteOrder) returns (r: AltResult)
    requires |s| >= INTERFACE_DESC_LENGTH
    ensures r == ParseAlt(s, order)
    ensures r == NoAlt <==> s[1] != 4 || s[0] > |s|
    ensures s[1] == 4 && s[0] <= |s| && (s[0] < 9 || s[4] > 32) ==> r == AltError
  {
    hide SkipExtra, ParseEndpoints;
    InterfaceFormat(s);
    var f, _ := ParseDescriptor(s, "bbbbbbbbb", Little);
    var a := AltSetting(f[0], f[1], f[2], f[3], f[4], f[5], f[6], f[7], f[8], [], []);
    if a.bDescriptorType != DT_INTERFACE {
      return NoAlt;
    }
    if a.bLength < INTERFACE_DESC_LENGTH {
      return AltError;
    }
    if a.bLength > |s| {
      return NoAlt;
    }
    if a.bNumEndpoints > USB_MAXENDPOINTS {
      return AltError;
    }
    var skip := SkipClassDescriptors(s[a.bLength..]);
    if skip.Malformed? {
      return AltError;
    }
    if skip.Short? {
      return AltCut(a, a.bLength + skip.n);
    }
    var at := a.bLength + skip.n;
    a := a.(extra := s[a.bLength..at]);
    var eps := ReadEndpoints(s[at..], a.bNumEndpoints, order);
    if eps.EndpointsError? {
      return AltError;
    }
    return AltOk(a.(endpoints := eps.endpoints, bNumEndpoints := |eps.endpoints|), at + eps.n);
  }

  // ----------------------------------------------------------------- interfaces

  datatype InterfaceResult = InterfaceError | InterfaceOk(alts: seq<AltSetting>, n: nat)

  /** Is the next descriptor another setting of interface `number`? */
  predicate Continues(s: seq<Byte>, number: Byte) {
    |s| >= INTERFACE_DESC_LENGTH && s[1] == DT_INTERFACE && s[2] == number
  }

  function AfterAlts(alts: seq<AltSetting>, n: nat, r: InterfaceResult): InterfaceResult {
    match r
    case InterfaceError => InterfaceError
    case InterfaceOk(rest, m) => InterfaceOk(alts + rest, n + m)
  }

  lemma AfterAltsTwice(a: seq<AltSetting>, n: nat, b: seq<AltSetting>, m: nat, r: InterfaceResult)
    ensures AfterAlts(a, n, AfterAlts(b, m, r)) == AfterAlts(a + b, n + m, r)
  {
    if r.InterfaceOk? {
      assert a + (b + r.alts) == a + b + r.alts;
    }
  }

  /** parse_interface; `number` is the number of the settings so far, if any. */
  function ParseInterface(s: seq<Byte>, number: Option<Byte>, order: ByteOrder): (r: InterfaceResult)
    ensures r.InterfaceOk? ==> r.n <= |s|
    decreases |s|
  {
    if |s| < INTERFACE_DESC_LENGTH then InterfaceOk([], 0)
    else match ParseAlt(s, order)
      case AltError => InterfaceError
      case NoAlt => InterfaceOk([], 0)
      case AltCut(a, n) => InterfaceOk([a], n)
      case AltOk(a, n) =>
        var own := if number.Some? then number.value else a.bInterfaceNumber;
        if !Continues(s[n..], own) then InterfaceOk([a], n)
        else AfterAlts([a], n, ParseInterface(s[n..], Some(own), order))
  }

  ghost predicate AltsSoFar(s: seq<Byte>, order: ByteOrder, full: InterfaceResult,
                            alts: seq<AltSetting>, parsed: nat, number: Option<Byte>)
  {
    parsed <= |s| && full == AfterAlts(alts, parsed, ParseInterface(s[parsed..], number, order))
  }

  lemma AltsEnd(alts: seq<AltSetting>, parsed: nat, a: AltResult)
    ensures AfterAlts(alts, parsed, InterfaceError) == InterfaceError
    ensures AfterAlts(alts, parsed, InterfaceOk([], 0)) == InterfaceOk(alts, parsed)
    ensures a.AltCut? || a.AltOk? ==>
              AfterAlts(alts, parsed, InterfaceOk([a.alt], a.n)) == InterfaceOk(alts + [a.alt], parsed + a.n)
  {
  }

  lemma InterfaceRound(s: seq<Byte>, order: ByteOrder, number: Option<Byte>, a: AltResult)
    requires |s| >= INTERFACE_DESC_LENGTH && a == ParseAlt(s, order)
    ensures a.AltError? ==> ParseInterface(s, number, order) == InterfaceError
    ensures a.NoAlt? ==> ParseInterface(s, number, order) == InterfaceOk([], 0)
    ensures a.AltCut? ==> ParseInterface(s, number, order) == InterfaceOk([a.alt], a.n)
    ensures a.AltOk? ==>
              var own := if number.Some? then number.value else a.alt.bInterfaceNumber;
              ParseInterface(s, number, order) ==
              if !Continues(s[a.n..], own) then InterfaceOk([a.alt], a.n)
              else AfterAlts([a.alt], a.n, ParseInterface(s[a.n..], Some(own), order))
  {
    hide ParseAlt;
  }

  lemma AltsRound(s: seq<Byte>, order: ByteOrder, full: InterfaceResult,
                  alts: seq<AltSetting>, parsed: nat, number: Option<Byte>, a: AltResult)
    requires AltsSoFar(s, order, full, alts, parsed, number) && |s| - parsed >= INTERFACE_DESC_LENGTH
    requires a == ParseAlt(s[parsed..], order)
    ensures a.AltError? ==> full == InterfaceError
    ensures a.NoAlt? ==> full == InterfaceOk(alts, parsed)
    ensures a.AltCut? ==> full == InterfaceOk(alts + [a.alt], parsed + a.n)
    ensures a.AltOk? ==>
              var own := if number.Some? then number.value else a.alt.bInterfaceNumber;
              && parsed + a.n <= |s|
              && if Continues(s[parsed + a.n..], own)
                 then AltsSoFar(s, order, full, alts + [a.alt], parsed + a.n, Some(own))
                 else full == InterfaceOk(alts + [a.alt], parsed + a.n)
  {
    hide ParseAlt, ParseInterface, Continues, AfterAlts;
    InterfaceRound(s[parsed..], order, number, a);
    AltsEnd(alts, parsed, a);
    if a.AltOk? {
      var own := if number.Some? then number.value else a.alt.bInterfaceNumber;
      RestOfRest(s, parsed, a.n);
      AfterAltsTwice(alts, parsed, [a.alt], a.n, ParseInterface(s[parsed + a.n..], Some(own), order));
    }
  }

  method ReadInterface(s: seq<Byte>, order: ByteOrder) returns (r: InterfaceResult)
    ensures r == ParseInterface(s, None, order)
  {
    hide ParseAlt;
    ghost var full := ParseInterface(s, None, order);
    var alts, parsed: nat := [], 0;
    var number: Option<Byte> := None;
    assert s[0..] == s;
    while |s| - parsed >= INTERFACE_DESC_LENGTH
      invariant AltsSoFar(s, order, full, alts, parsed, number)
    {
      var a := ReadAlt(s[parsed..], order);
      AltsRound(s, order, full, alts, parsed, number, a);
      if a.AltError? {
        return InterfaceError;
      }
      if a.NoAlt? {
        return InterfaceOk(alts, parsed);
      }
      alts, parsed := alts + [a.alt], parsed + a.n;
      if a.AltCut? {
        return InterfaceOk(alts, parsed);
      }
      if number == None {
        number := Some(a.alt.bInterfaceNumber);
      }
      if !Continues(s[parsed..], number.value) {
        return InterfaceOk(alts, parsed);
      }
    }
    return InterfaceOk(alts, parsed);
  }

  // --------------------------------------------------------------- configurations

  /** The loop of parse_configuration: `left` is the number of bytes not looked at. */
  datatype InterfacesResult =
    | InterfacesError
    | InterfacesOk(interfaces: seq<seq<AltSetting>>, extra: seq<Byte>, left: nat)

  function AfterInterfaces(before: seq<seq<AltSetting>>, r: InterfacesResult): InterfacesResult {
    match r
    case InterfacesError => InterfacesError
    case InterfacesOk(found, extra, left) => InterfacesOk(before + found, extra, left)
  }

  lemma AfterInterfacesTwice(a: seq<seq<AltSetting>>, b: seq<seq<AltSetting>>, r: InterfacesResult)
    ensures AfterInterfaces(a, AfterInterfaces(b, r)) == AfterInterfaces(a + b, r)
  {
    if r.InterfacesOk? {
      assert a + (b + r.interfaces) == a + b + r.interfaces;
    }
  }

  /** Class descriptors in front of an interface are kept if none were kept before. */
  function Kept(saved: seq<Byte>, skipped: seq<Byte>): seq<Byte> {
    if skipped != [] && saved == [] then skipped else saved
  }

  function ParseInterfaces(s: seq<Byte>, count: nat, saved: seq<Byte>, order: ByteOrder): (r: InterfacesResult)
    ensures r.InterfacesOk? ==> r.left <= |s| && |r.interfaces| <= count
    decreases count
  {
    if count == 0 then InterfacesOk([], saved, |s|)
    else match SkipExtra(s)
      case Malformed => InterfacesError
      case Short(n) => InterfacesOk([], saved, |s| - n)
      case Stop(n) =>
        var saved' := Kept(saved, s[..n]);
        match ParseInterface(s[n..], None, order)
        case InterfaceError => InterfacesError
        case InterfaceOk(alts, m) =>
          if m == 0 then InterfacesOk([], saved', |s| - n)
          else AfterInterfaces([alts], ParseInterfaces(s[n + m..], count - 1, saved', order))
  }

  datatype ConfigResult = ConfigError | ConfigOk(config: Config, left: nat)

  function ConfigHeader(s: seq<Byte>, order: ByteOrder): Config
    requires |s| >= CONFIG_SIZE
  {
    Config(s[0], s[1], Word(s[2], s[3], order), s[4], s[5], s[6], s[7], s[8], [], [])
  }

  function ParseConfig(s: seq<Byte>, order: ByteOrder): (r: ConfigResult)
    ensures r.ConfigOk? ==> r.left <= |s|
  {
    if |s| < CONFIG_SIZE || s[1] != DT_CONFIG || s[0] < CONFIG_SIZE || s[0] > |s| || s[4] > USB_MAXINTERFACES
    then ConfigError
    else match ParseInterfaces(s[s[0]..], s[4], [], order)
      case InterfacesError => ConfigError
      case InterfacesOk(found, extra, left) =>
        ConfigOk(ConfigHeader(s, order).(interfaces := found, extra := extra, bNumInterfaces := |found|), left)
  }

  /** parse_configuration. Multi-byte fields have the low byte first, as on the bus, unless the data is
      said to be in the order of the host already. */
  method ReadConfig(s: seq<Byte>, hostEndian: bool, host: ByteOrder) returns (r: ConfigResult)
    ensures !hostEndian ==> r == ParseConfig(s, Little)
    ensures hostEndian ==> r == ParseConfig(s, host)
    ensures |s| < 9 || s[1] != 2 || s[0] < 9 || s[0] > |s| || s[4] > 32 ==> r == ConfigError
  {
    hide Fields, Width, ParseInterfaces, Word;
    var order := if hostEndian then host else Little;
    if |s| < CONFIG_SIZE {
      return ConfigError;
    }
    ConfigFormat(s, order);
    var f, _ := ParseDescriptor(s, "bbwbbbbb", order);
    var c := Config(f[0], f[1], f[2], f[3], f[4], f[5], f[6], f[7], [], []);
    if c.bDescriptorType != DT_CONFIG {
      return ConfigError;
    }
    if c.bLength < CONFIG_SIZE {
      return ConfigError;
    }
    if c.bLength > |s| {
      return ConfigError;
    }
    if c.bNumInterfaces > USB_MAXINTERFACES {
      return ConfigError;
    }
    var found := ReadInterfaces(s[c.bLength..], c.bNumInterfaces, order);
    match found {
      case InterfacesError => return ConfigError;
      case InterfacesOk(interfaces, extra, left) =>
        return ConfigOk(c.(interfaces := interfaces, extra := extra, bNumInterfaces := |interfaces|), left);
    }
  }

  ghost predicate InterfacesSoFar(s: seq<Byte>, order: ByteOrder, full: InterfacesResult,
                                  interfaces: seq<seq<AltSetting>>, extra: seq<Byte>, at: nat, count: nat)
  {
    at <= |s| && full == AfterInterfaces(interfaces, ParseInterfaces(s[at..], count, extra, order))
  }

  lemma InterfacesUnfold(t: seq<Byte>, count: nat, saved: seq<Byte>, order: ByteOrder, n: nat, one: InterfaceResult)
    requires count > 0 && SkipExtra(t) == Stop(n) && n <= |t| && one == ParseInterface(t[n..], None, order)
    ensures one.InterfaceError? ==> ParseInterfaces(t, count, saved, order) == InterfacesError
    ensures one.InterfaceOk? && one.n == 0 ==>
              ParseInterfaces(t, count, saved, order) == InterfacesOk([], Kept(saved, t[..n]), |t| - n)
    ensures one.InterfaceOk? && one.n > 0 ==>
              ParseInterfaces(t, count, saved, order) ==
              AfterInterfaces([one.alts], ParseInterfaces(t[n + one.n..], count - 1, Kept(saved, t[..n]), order))
  {
    hide ParseInterface, SkipExtra;
  }

  lemma AfterNone(interfaces: seq<seq<AltSetting>>)
    ensures AfterInterfaces(interfaces, InterfacesError) == InterfacesError
    ensures forall extra, left :: AfterInterfaces(interfaces, InterfacesOk([], extra, left)) ==
                                  InterfacesOk(interfaces, extra, left)
  {
  }

  lemma InterfacesRound(s: seq<Byte>, order: ByteOrder, full: InterfacesResult,
                        interfaces: seq<seq<AltSetting>>, extra: seq<Byte>, at: nat, count: nat)
    requires count > 0 && InterfacesSoFar(s, order, full, interfaces, extra, at, count)
    ensures match SkipExtra(s[at..])
            case Malformed => full == InterfacesError
            case Short(n) => at + n <= |s| && full == InterfacesOk(interfaces, extra, |s| - at - n)
            case Stop(n) =>
              var one, extra' := ParseInterface(s[at + n..], None, order), Kept(extra, s[at..at + n]);
              && at + n <= |s|
              && (one.InterfaceError? ==> full == InterfacesError)
              && (one.InterfaceOk? && one.n == 0 ==> full == InterfacesOk(interfaces, extra', |s| - at - n))
              && (one.InterfaceOk? && one.n > 0 ==>
                    InterfacesSoFar(s, order, full, interfaces + [one.alts], extra', at + n + one.n, count - 1))
  {
    hide ParseInterfaces, ParseInterface, SkipExtra, AfterInterfaces, Kept;
    AfterNone(interfaces);
    InterfacesStop(s[at..], count, extra, order);
    var skip := SkipExtra(s[at..]);
    if skip.Stop? {
      SliceOfRest(s, at, skip.n);
      var one := ParseInterface(s[at + skip.n..], None, order);
      InterfacesUnfold(s[at..], count, extra, order, skip.n, one);
      if one.InterfaceOk? && one.n > 0 {
        RestOfRest(s, at, skip.n + one.n);
        var extra' := Kept(extra, s[at..at + skip.n]);
        AfterInterfacesTwice(interfaces, [one.alts],
                             ParseInterfaces(s[at + skip.n + one.n..], count - 1, extra', order));
      }
    }
  }

  lemma InterfacesStop(t: seq<Byte>, count: nat, saved: seq<Byte>, order: ByteOrder)
    requires count > 0
    ensures var skip := SkipExtra(t);
            && (skip.Malformed? ==> ParseInterfaces(t, count, saved, order) == InterfacesError)
            && (skip.Short? ==> ParseInterfaces(t, count, saved, order) == InterfacesOk([], saved, |t| - skip.n))
  {
    hide SkipExtra, ParseInterface;
  }

  lemma InterfacesDone(s: seq<Byte>, order: ByteOrder, full: InterfacesResult,
                       interfaces: seq<seq<AltSetting>>, extra: seq<Byte>, at: nat)
    requires InterfacesSoFar(s, order, full, interfaces, extra, at, 0)
    ensures full == InterfacesOk(interfaces, extra, |s| - at)
  {
  }

  lemma InterfacesStart(s: seq<Byte>, order: ByteOrder, count: nat)
    ensures InterfacesSoFar(s, order, ParseInterfaces(s, count, [], order), [], [], 0, count)
  {
    assert s[0..] == s;
  }

  method ReadInterfaces(s: seq<Byte>, count: nat, order: ByteOrder) returns (r: InterfacesResult)
    ensures r == ParseInterfaces(s, count, [], order)
  {
    hide ParseInterfaces, ParseInterface, SkipExtra, AfterInterfaces;
    ghost var full := ParseInterfaces(s, count, [], order);
    var interfaces: seq<seq<AltSetting>>, extra: seq<Byte>, at: nat := [], [], 0;
    var i := 0;
    InterfacesStart(s, order, count);
    while i < count
      invariant 0 <= i <= count
      invariant InterfacesSoFar(s, order, full, interfaces, extra, at, count - i)
    {
      var skip := SkipClassDescriptors(s[at..]);
      InterfacesRound(s, order, full, interfaces, extra, at, count - i);
      if skip.Malformed? {
        return InterfacesError;
      }
      if skip.Short? {
        return InterfacesOk(interfaces, extra, |s| - at - skip.n);
      }
      var begin := at;
      at := at + skip.n;
      if at - begin > 0 && extra == [] {
        extra := s[begin..at];
      }
      var one := ReadInterface(s[at..], order);
      if one.InterfaceError? {
        return InterfacesError;
      }
      if one.n == 0 {
        return InterfacesOk(interfaces, extra, |s| - at);
      }
      interfaces, at := interfaces + [one.alts], at + one.n;
      i := i + 1;
    }
    InterfacesDone(s, order, full, interfaces, extra, at);
    return InterfacesOk(interfaces, extra, |s| - at);
  }

  // --------------------------------------------------- what the four formats mean

  lemma NumberOne(s: seq<Byte>, order: ByteOrder)
    requires |s| == 1
    ensures Number(s, order) == s[0]
  {
    assert s[1..] == [] && s[..0] == [];
    assert Number([], order) == 0;
  }

  lemma OneField(format: string, s: seq<Byte>, order: ByteOrder)
    requires format != "" && format[0] == 'b' && |s| >= Width(format)
    ensures Fields(format, s, order) == [s[0]] + Fields(format[1..], s[1..], order)
  {
    NumberOne(s[..1], order);
  }

  lemma WordField(format: string, s: seq<Byte>, order: ByteOrder)
    requires format != "" && format[0] == 'w' && |s| >= Width(format)
    ensures Fields(format, s, order) == [Word(s[0], s[1], order)] + Fields(format[1..], s[2..], order)
  {
    NumberTwo(s[..2], order);
    hide Number, Word;
  }

  lemma NumberTwo(s: seq<Byte>, order: ByteOrder)
    requires |s| == 2
    ensures Number(s, order) == Word(s[0], s[1], order)
  {
    NumberOne(s[1..], order);
    NumberOne(s[..1], order);
  }

  /** A run of single bytes at the end of a format. */
  lemma {:induction false} ByteFields(n: nat, s: seq<Byte>, order: ByteOrder)
    requires |s| >= n
    ensures var format := seq(n, i => 'b'); Width(format) == n && Fields(format, s, order) == s[..n]
    decreases n
  {
    if n > 0 {
      var format := seq(n, i => 'b');
      assert format[1..] == seq(n - 1, i => 'b');
      ByteFields(n - 1, s[1..], order);
      OneField(format, s, order);
      assert s[..n] == [s[0]] + s[1..][..n - 1];
    }
  }

  lemma InterfaceFormat(s: seq<Byte>)
    requires |s| >= INTERFACE_DESC_LENGTH
    ensures Width("bbbbbbbbb") == 9 && Fields("bbbbbbbbb", s, Little) == s[..9]
  {
    assert "bbbbbbbbb" == seq(9, i => 'b');
    ByteFields(9, s, Little);
  }

  function Mixed(k: nat, n: nat): string {
    seq(k, i => 'b') + "w" + seq(n, i => 'b')
  }

  /** The values of `k` bytes, one word and `n` more bytes. */
  function MixedValues(k: nat, n: nat, s: seq<Byte>, order: ByteOrder): seq<nat>
    requires |s| >= k + 2 + n
  {
    s[..k] + [Word(s[k], s[k + 1], order)] + s[k + 2..k + 2 + n]
  }

  lemma MixedValuesShift(k: nat, n: nat, s: seq<Byte>, order: ByteOrder)
    requires |s| >= k + 2 + n && k > 0
    ensures MixedValues(k, n, s, order) == [s[0]] + MixedValues(k - 1, n, s[1..], order)
  {
    HeadAndTail(s, k);
    SliceOfTail(s, k + 1, n);
    hide Word;
    ThreePieces(s[0], s[1..][..k - 1], [Word(s[k], s[k + 1], order)], s[k + 2..k + 2 + n]);
  }

  lemma WordThenBytes(n: nat, s: seq<Byte>, order: ByteOrder)
    requires |s| >= 2 + n
    ensures Width(Mixed(0, n)) == 2 + n && Fields(Mixed(0, n), s, order) == MixedValues(0, n, s, order)
  {
    var format := Mixed(0, n);
    assert format[0] == 'w' && format[1..] == seq(n, i => 'b');
    ByteFields(n, s[2..], order);
    WordField(format, s, order);
    SliceOfRest(s, 2, n);
  }

  lemma {:induction false} MixedFields(k: nat, n: nat, s: seq<Byte>, order: ByteOrder)
    requires |s| >= k + 2 + n
    ensures Width(Mixed(k, n)) == k + 2 + n && Fields(Mixed(k, n), s, order) == MixedValues(k, n, s, order)
    decreases k
  {
    if k == 0 {
      WordThenBytes(n, s, order);
    } else {
      var format := Mixed(k, n);
      assert format[0] == 'b' && format[1..] == Mixed(k - 1, n);
      MixedFields(k - 1, n, s[1..], order);
      assert Width(format) == k + 2 + n;
      OneField(format, s, order);
      MixedValuesShift(k, n, s, order);
    }
  }

  lemma EndpointFormat(s: seq<Byte>, order: ByteOrder)
    requires |s| >= ENDPOINT_DESC_LENGTH
    ensures Width("bbbbwb") == 7
    ensures Fields("bbbbwb", s, order) == [s[0], s[1], s[2], s[3], Word(s[4], s[5], order), s[6]]
  {
    assert "bbbbwb" == Mixed(4, 1);
    MixedFields(4, 1, s, order);
    hide Fields, Width, Word;
  }

  lemma AudioEndpointFormat(s: seq<Byte>, order: ByteOrder)
    requires |s| >= ENDPOINT_AUDIO_DESC_LENGTH
    ensures Width("bbbbwbbb") == 9
    ensures Fields("bbbbwbbb", s, order) ==
            [s[0], s[1], s[2], s[3], Word(s[4], s[5], order), s[6], s[7], s[8]]
  {
    assert "bbbbwbbb" == Mixed(4, 3);
    MixedFields(4, 3, s, order);
    hide Fields, Width, Word;
  }

  lemma ConfigFormat(s: seq<Byte>, order: ByteOrder)
    requires |s| >= CONFIG_SIZE
    ensures Width("bbwbbbbb") == 9
    ensures Fields("bbwbbbbb", s, order) ==
            [s[0], s[1], Word(s[2], s[3], order), s[4], s[5], s[6], s[7], s[8]]
  {
    assert "bbwbbbbb" == Mixed(2, 5);
    MixedFields(2, 5, s, order);
    hide Fields, Width, Word;
  }
}
