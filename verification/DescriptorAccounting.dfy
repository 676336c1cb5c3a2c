/**
 What the descriptor parser does with bytes that are not well-formed: every byte of every input is
 accounted for, and what is kept is exactly what was skipped.
 */
module DescriptorAccounting {
  import opened Usb
  import opened Descriptors
  import opened DescriptorRoundTrip

  // -------------------------------------------------------------- what is skipped

  /** Skipping takes whole class descriptors and nothing else. */
  lemma {:induction false} SkipTakesRun(s: seq<Byte>)
    requires !SkipExtra(s).Malformed?
    ensures ClassRun(s[..SkipExtra(s).n])
    decreases |s|
  {
    if |s| >= 2 && !IsStandard(s[1]) && 2 <= s[0] <= |s| {
      var k := SkipExtra(s[s[0]..]).n;
      SkipTakesRun(s[s[0]..]);
      assert s[..s[0] + k][s[0]..] == s[s[0]..][..k];
    }
  }

  /** The next descriptor is longer than what is left. */
  predicate Truncated(s: seq<Byte>) {
    |s| >= 2 && 2 <= s[0] && |s| < s[0]
  }

  /** Nothing can be skipped here: no descriptor header is left, or that of a truncated or a standard
      descriptor is next. */
  predicate Settled(s: seq<Byte>) {
    |s| < 2 || Truncated(s) || (s[0] >= 2 && s[1] in {1, 2, 4, 5})
  }

  lemma NothingSkipped(s: seq<Byte>)
    ensures Settled(s) <==> SkipExtra(s) == if Truncated(s) then Short(0) else Stop(0)
  {
  }

  /** Behind some class descriptors the next one is shorter than its own header. */
  ghost predicate Broken(s: seq<Byte>) {
    exists k :: BreaksAt(s, k)
  }

  ghost predicate BreaksAt(s: seq<Byte>, k: int) {
    0 <= k && k + 2 <= |s| && ClassRun(s[..k]) && s[k] < 2
  }

  /** Skipping fails exactly on data that is broken in this way. */
  lemma {:induction false} MalformedIff(s: seq<Byte>)
    ensures SkipExtra(s).Malformed? <==> Broken(s)
    decreases |s|
  {
    if |s| >= 2 && s[0] < 2 {
      assert s[..0] == [];
      assert BreaksAt(s, 0);
    } else if |s| >= 2 && !IsStandard(s[1]) && 2 <= s[0] <= |s| {
      var rest := s[s[0]..];
      MalformedIff(rest);
      hide SkipExtra;
      if k :| BreaksAt(rest, k) {
        FrontOfRest(s, s[0], k);
        assert ClassRun(s[..s[0] + k]) && rest[k] == s[s[0] + k];
        assert BreaksAt(s, s[0] + k);
      }
      if k :| BreaksAt(s, k) {
        assert k > 0;
        BreaksLater(s, k);
      }
    } else if k :| BreaksAt(s, k) {
      assert k > 0;
      BreaksLater(s, k);
    }
  }

  lemma FrontOfRest(s: seq<Byte>, n: nat, k: nat)
    requires n + k <= |s|
    ensures s[..n + k][n..] == s[n..][..k]
  {
  }

  /** A run of class descriptors that is not empty begins with one of them. */
  lemma BreaksLater(s: seq<Byte>, k: int)
    requires BreaksAt(s, k) && k > 0
    ensures 2 <= s[0] <= k && s[1] !in {1, 2, 4, 5} && BreaksAt(s[s[0]..], k - s[0])
  {
    var run := s[..k];
    assert run[0] == s[0] && run[1] == s[1];
    assert run[s[0]..] == s[s[0]..][..k - s[0]];
  }

  /** Skipping is exhaustive, and it is called short exactly when a truncated descriptor follows. */
  lemma {:induction false} SkipSettles(s: seq<Byte>)
    requires !SkipExtra(s).Malformed?
    ensures var n := SkipExtra(s).n;
            Settled(s[n..]) && (SkipExtra(s).Short? <==> Truncated(s[n..]))
    decreases |s|
  {
    if |s| >= 2 && !IsStandard(s[1]) && 2 <= s[0] <= |s| {
      var k := SkipExtra(s[s[0]..]).n;
      SkipSettles(s[s[0]..]);
      assert s[s[0]..][k..] == s[s[0] + k..];
    } else {
      assert s[0..] == s;
    }
  }

  lemma EndpointSettles(s: seq<Byte>, order: ByteOrder)
    requires ParseEndpoint(s, order).EndpointOk?
    ensures Settled(s[ParseEndpoint(s, order).n..])
  {
    hide EndpointHeader;
    var skip := SkipExtra(s[s[0]..]);
    SkipSettles(s[s[0]..]);
    assert s[s[0]..][skip.n..] == s[s[0] + skip.n..];
  }

  lemma {:induction false} EndpointsSettle(s: seq<Byte>, count: nat, order: ByteOrder)
    requires Settled(s) && ParseEndpoints(s, count, order).EndpointsOk?
    ensures Settled(s[ParseEndpoints(s, count, order).n..])
    decreases count
  {
    hide ParseEndpoint, SkipExtra;
    var e := ParseEndpoint(s, order);
    if count == 0 || e.NoEndpoint? {
      assert s[0..] == s;
    } else {
      EndpointSettles(s, order);
      EndpointsUnfold(s, count, order, e.endpoint, e.n);
      var rest := ParseEndpoints(s[e.n..], count - 1, order);
      EndpointsSettle(s[e.n..], count - 1, order);
      assert s[e.n..][rest.n..] == s[e.n + rest.n..];
    }
  }

  lemma AltSettles(s: seq<Byte>, order: ByteOrder)
    requires |s| >= INTERFACE_DESC_LENGTH
    requires var a := ParseAlt(s, order); a.AltCut? || a.AltOk?
    ensures Settled(s[ParseAlt(s, order).n..])
  {
    hide ParseEndpoints, SkipExtra, AltHeader;
    var t := s[s[0]..];
    var skip := SkipExtra(t);
    SkipSettles(t);
    var u := t[skip.n..];
    assert u == s[s[0] + skip.n..];
    if skip.Stop? {
      EndpointsSettle(u, s[4], order);
      var m := ParseEndpoints(u, s[4], order).n;
      assert u[m..] == s[s[0] + skip.n + m..];
    }
  }

  /** After an interface no class descriptor is left to skip: the descriptors in front of a later
      interface always belong to the one before. */
  lemma {:induction false} InterfaceSettles(s: seq<Byte>, number: Option<Byte>, order: ByteOrder)
    ensures var r := ParseInterface(s, number, order); r.InterfaceOk? && r.n > 0 ==> Settled(s[r.n..])
    decreases |s|
  {
    hide ParseAlt, SkipExtra;
    var r := ParseInterface(s, number, order);
    if r.InterfaceOk? && r.n > 0 {
      AltSettles(s, order);
    }
    if r.InterfaceOk? && r.n > 0 && ParseAlt(s, order).AltOk? {
      var a := ParseAlt(s, order);
      var own := if number.Some? then number.value else a.alt.bInterfaceNumber;
      InterfaceUnfold(s, number, order, a.alt, a.n);
      var rest := ParseInterface(s[a.n..], Some(own), order);
      if Continues(s[a.n..], own) {
        if rest.n > 0 {
          InterfaceSettles(s[a.n..], Some(own), order);
        }
        assert s[a.n..][rest.n..] == s[a.n + rest.n..];
      }
    }
  }

  // ------------------------------------------------------------- every byte counts

  /** The bytes an endpoint or an alternate setting is read from: its own descriptor, the class
      descriptors behind it, and for a setting those of its endpoints. */
  datatype EndpointSpan = EndpointSpan(header: seq<Byte>, run: seq<Byte>)
  datatype AltSpan = AltSpan(header: seq<Byte>, run: seq<Byte>, endpoints: seq<EndpointSpan>)

  function EndpointText(b: EndpointSpan): seq<Byte> {
    b.header + b.run
  }

  function EndpointsText(bs: seq<EndpointSpan>): seq<Byte> {
    if bs == [] then [] else EndpointText(bs[0]) + EndpointsText(bs[1..])
  }

  function AltText(b: AltSpan): seq<Byte> {
    b.header + b.run + EndpointsText(b.endpoints)
  }

  function AltsText(bs: seq<AltSpan>): seq<Byte> {
    if bs == [] then [] else AltText(bs[0]) + AltsText(bs[1..])
  }

  function InterfacesText(bs: seq<seq<AltSpan>>): seq<Byte> {
    if bs == [] then [] else AltsText(bs[0]) + InterfacesText(bs[1..])
  }

  /** What is saved of the class descriptors `run` in front of `follow`. */
  function Saved(run: seq<Byte>, follow: seq<Byte>): seq<Byte> {
    if Truncated(follow) then [] else run
  }

  /** A descriptor of this type, as long as its first byte says, and class descriptors behind it. */
  predicate Span(header: seq<Byte>, run: seq<Byte>, descriptorType: Byte, least: nat) {
    && least <= |header| && 2 <= |header|
    && header[0] == |header| && header[1] == descriptorType
    && ClassRun(run)
  }

  /** `e` says what the span says; `follow` is the rest of the input. */
  predicate TellsEndpoint(b: EndpointSpan, e: Endpoint, follow: seq<Byte>, order: ByteOrder) {
    && Span(b.header, b.run, 5, 7)
    && e == EndpointHeader(b.header, order).(extra := Saved(b.run, follow))
  }

  predicate TellsEndpoints(bs: seq<EndpointSpan>, es: seq<Endpoint>, follow: seq<Byte>, order: ByteOrder) {
    if bs == [] then es == []
    else
      && es != []
      && TellsEndpoint(bs[0], es[0], EndpointsText(bs[1..]) + follow, order)
      && TellsEndpoints(bs[1..], es[1..], follow, order)
  }

  /** A setting in front of a truncated descriptor keeps its announced count but has no endpoints. */
  predicate TellsAlt(b: AltSpan, a: AltSetting, follow: seq<Byte>, order: ByteOrder) {
    var behind := EndpointsText(b.endpoints) + follow;
    && Span(b.header, b.run, 4, 9)
    && TellsEndpoints(b.endpoints, a.endpoints, follow, order)
    && a == AltHeader(b.header).(extra := Saved(b.run, behind),
                                 endpoints := a.endpoints, bNumEndpoints := a.bNumEndpoints)
    && (if Truncated(behind) then a.endpoints == [] && a.bNumEndpoints == b.header[4]
        else a.bNumEndpoints == |a.endpoints| <= b.header[4])
  }

  predicate TellsAlts(bs: seq<AltSpan>, alts: seq<AltSetting>, number: Byte, follow: seq<Byte>, order: ByteOrder) {
    if bs == [] then alts == []
    else
      && alts != [] && alts[0].bInterfaceNumber == number
      && TellsAlt(bs[0], alts[0], AltsText(bs[1..]) + follow, order)
      && TellsAlts(bs[1..], alts[1..], number, follow, order)
  }

  /** Every interface has a setting, and all of its settings carry the same number. */
  predicate TellsInterfaces(bs: seq<seq<AltSpan>>, found: seq<seq<AltSetting>>, follow: seq<Byte>, order: ByteOrder) {
    if bs == [] then found == []
    else
      && found != [] && found[0] != []
      && TellsAlts(bs[0], found[0], found[0][0].bInterfaceNumber, InterfacesText(bs[1..]) + follow, order)
      && TellsInterfaces(bs[1..], found[1..], follow, order)
  }

  /** The class descriptors behind the first `k` bytes, and what follows them. */
  lemma RunBehind(s: seq<Byte>, k: nat)
    requires k <= |s| && !SkipExtra(s[k..]).Malformed?
    ensures var skip := SkipExtra(s[k..]);
            && ClassRun(s[k..k + skip.n])
            && s == s[..k] + s[k..k + skip.n] + s[k + skip.n..]
            && (skip.Short? <==> Truncated(s[k + skip.n..]))
  {
    hide SkipExtra, ClassRun, Truncated;
    SkipTakesRun(s[k..]);
    SkipSettles(s[k..]);
    SliceOfRest(s, k, SkipExtra(s[k..]).n);
  }

  lemma EndpointHeaderAlone(s: seq<Byte>, order: ByteOrder)
    requires |s| >= ENDPOINT_DESC_LENGTH && ENDPOINT_DESC_LENGTH <= s[0] <= |s|
    ensures EndpointHeader(s[..s[0]], order) == EndpointHeader(s, order)
    ensures EndpointHeader(s, order).extra == []
    ensures s[..s[0]][0] == s[0] && s[..s[0]][1] == s[1]
  {
  }

  lemma EndpointSpelled(s: seq<Byte>, order: ByteOrder) returns (b: EndpointSpan)
    requires ParseEndpoint(s, order).EndpointOk?
    ensures var e, n := ParseEndpoint(s, order).endpoint, ParseEndpoint(s, order).n;
            s == EndpointText(b) + s[n..] && TellsEndpoint(b, e, s[n..], order)
  {
    hide SkipExtra, ClassRun, Truncated, EndpointHeader;
    RunBehind(s, s[0]);
    EndpointHeaderAlone(s, order);
    b := EndpointSpan(s[..s[0]], s[s[0]..s[0] + SkipExtra(s[s[0]..]).n]);
  }

  lemma EndpointsTextCons(b: EndpointSpan, bs: seq<EndpointSpan>)
    ensures EndpointsText([b] + bs) == EndpointText(b) + EndpointsText(bs)
  {
    assert ([b] + bs)[1..] == bs;
  }

  lemma TellsEndpointsCons(b: EndpointSpan, bs: seq<EndpointSpan>, e: Endpoint, es: seq<Endpoint>,
                           follow: seq<Byte>, order: ByteOrder)
    requires TellsEndpoint(b, e, EndpointsText(bs) + follow, order) && TellsEndpoints(bs, es, follow, order)
    ensures TellsEndpoints([b] + bs, [e] + es, follow, order)
  {
    hide TellsEndpoint, EndpointsText;
    assert ([b] + bs)[1..] == bs && ([e] + es)[1..] == es;
  }

  lemma EndpointsEnd(s: seq<Byte>, count: nat, order: ByteOrder)
    requires ParseEndpoints(s, count, order).EndpointsOk?
    ensures count == 0 || !ParseEndpoint(s, order).EndpointOk? ==>
              ParseEndpoints(s, count, order) == EndpointsOk([], 0) && TellsEndpoints([], [], s, order)
  {
    hide ParseEndpoint;
  }

  lemma {:induction false} EndpointsSpelled(s: seq<Byte>, count: nat, order: ByteOrder)
    returns (bs: seq<EndpointSpan>)
    requires ParseEndpoints(s, count, order).EndpointsOk?
    ensures var r := ParseEndpoints(s, count, order);
            s == EndpointsText(bs) + s[r.n..] && TellsEndpoints(bs, r.endpoints, s[r.n..], order)
    decreases count
  {
    hide ParseEndpoint, ParseEndpoints, EndpointsText, EndpointText, TellsEndpoint, TellsEndpoints;
    EndpointsEnd(s, count, order);
    var e := ParseEndpoint(s, order);
    bs := [];
    if count > 0 && e.EndpointOk? {
      EndpointsUnfold(s, count, order, e.endpoint, e.n);
      var rest := ParseEndpoints(s[e.n..], count - 1, order);
      var b := EndpointSpelled(s, order);
      bs := EndpointsSpelled(s[e.n..], count - 1, order);
      RestOfRest(s, e.n, rest.n);
      TwoPieces(s, e.n, rest.n, EndpointText(b), EndpointsText(bs));
      TellsEndpointsCons(b, bs, e.endpoint, rest.endpoints, s[e.n + rest.n..], order);
      EndpointsTextCons(b, bs);
      bs := [b] + bs;
    } else {
      NoEndpointsText(s);
    }
  }

  lemma NoEndpointsText(s: seq<Byte>)
    ensures EndpointsText([]) == [] && s == EndpointsText([]) + s[0..]
  {
    assert s[0..] == s;
  }

  lemma AltSpelled(s: seq<Byte>, order: ByteOrder) returns (b: AltSpan)
    requires |s| >= INTERFACE_DESC_LENGTH
    requires var a := ParseAlt(s, order); a.AltCut? || a.AltOk?
    ensures var a := ParseAlt(s, order); s == AltText(b) + s[a.n..] && TellsAlt(b, a.alt, s[a.n..], order)
  {
    var skip := SkipExtra(s[s[0]..]);
    if skip.Stop? {
      b := WholeAltSpelled(s, order);
    } else {
      b := CutAltSpelled(s, order);
    }
  }

  /** The descriptor of a setting and the class descriptors behind it. */
  lemma AltFront(s: seq<Byte>, order: ByteOrder)
    requires |s| >= INTERFACE_DESC_LENGTH
    requires var a := ParseAlt(s, order); a.AltCut? || a.AltOk?
    ensures |s| >= s[0] && !SkipExtra(s[s[0]..]).Malformed?
    ensures var skip := SkipExtra(s[s[0]..]);
            var run, u := s[s[0]..s[0] + skip.n], s[s[0] + skip.n..];
            && Span(s[..s[0]], run, 4, 9)
            && AltHeader(s[..s[0]]) == AltHeader(s)
            && s == s[..s[0]] + run + u
            && (skip.Short? <==> Truncated(u))
  {
    hide ParseEndpoints, SkipExtra, ClassRun, Truncated, AltHeader;
    RunBehind(s, s[0]);
    AltHeaderAlone(s);
  }

  lemma AltHeaderAlone(s: seq<Byte>)
    requires |s| >= INTERFACE_DESC_LENGTH && INTERFACE_DESC_LENGTH <= s[0] <= |s|
    ensures AltHeader(s[..s[0]]) == AltHeader(s)
    ensures s[..s[0]][0] == s[0] && s[..s[0]][1] == s[1]
  {
  }

  lemma CutAltSpelled(s: seq<Byte>, order: ByteOrder) returns (b: AltSpan)
    requires |s| >= INTERFACE_DESC_LENGTH && ParseAlt(s, order).AltCut?
    ensures var a := ParseAlt(s, order); s == AltText(b) + s[a.n..] && TellsAlt(b, a.alt, s[a.n..], order)
  {
    hide SkipExtra, ClassRun, Truncated, ParseEndpoints;
    AltFront(s, order);
    var n := s[0] + SkipExtra(s[s[0]..]).n;
    b := AltSpan(s[..s[0]], s[s[0]..n], []);
    NoEndpointsText(s[n..]);
    assert s[n..][0..] == s[n..];
    hide Span;
  }

  lemma WholeAltSpelled(s: seq<Byte>, order: ByteOrder) returns (b: AltSpan)
    requires |s| >= INTERFACE_DESC_LENGTH && ParseAlt(s, order).AltOk?
    ensures var a := ParseAlt(s, order); s == AltText(b) + s[a.n..] && TellsAlt(b, a.alt, s[a.n..], order)
  {
    hide SkipExtra, ClassRun, Truncated, ParseEndpoints, EndpointsText, TellsEndpoints, Span;
    AltFront(s, order);
    var n := s[0] + SkipExtra(s[s[0]..]).n;
    var m := ParseEndpoints(s[n..], s[4], order).n;
    var eps := EndpointsSpelled(s[n..], s[4], order);
    b := AltSpan(s[..s[0]], s[s[0]..n], eps);
    TwoPieces(s, n, m, b.header + b.run, EndpointsText(eps));
    RestOfRest(s, n, m);
  }

  lemma AltsTextCons(b: AltSpan, bs: seq<AltSpan>)
    ensures AltsText([b] + bs) == AltText(b) + AltsText(bs)
  {
    assert ([b] + bs)[1..] == bs;
  }

  lemma TellsAltsCons(b: AltSpan, bs: seq<AltSpan>, a: AltSetting, alts: seq<AltSetting>,
                      follow: seq<Byte>, order: ByteOrder)
    requires TellsAlt(b, a, AltsText(bs) + follow, order)
    requires TellsAlts(bs, alts, a.bInterfaceNumber, follow, order)
    ensures TellsAlts([b] + bs, [a] + alts, a.bInterfaceNumber, follow, order)
  {
    hide TellsAlt, AltsText;
    assert ([b] + bs)[1..] == bs && ([a] + alts)[1..] == alts;
  }

  /** An interface has no setting here, or it has this one and others of its number behind it. */
  lemma FirstSetting(s: seq<Byte>, number: Option<Byte>, order: ByteOrder) returns (rest: InterfaceResult)
    ensures ParseInterface(s, number, order).InterfaceOk? ==>
              if |s| < INTERFACE_DESC_LENGTH || ParseAlt(s, order).NoAlt? then
                ParseInterface(s, number, order) == InterfaceOk([], 0)
              else
                var a := ParseAlt(s, order);
                && !a.AltError? && rest.InterfaceOk?
                && ParseInterface(s, number, order) == InterfaceOk([a.alt] + rest.alts, a.n + rest.n)
                && (rest == InterfaceOk([], 0) ||
                    (var own := if number.Some? then number.value else a.alt.bInterfaceNumber;
                     Continues(s[a.n..], own) && rest == ParseInterface(s[a.n..], Some(own), order)))
  {
    hide ParseAlt;
    rest := InterfaceOk([], 0);
    if |s| >= INTERFACE_DESC_LENGTH {
      var a := ParseAlt(s, order);
      if a.AltOk? || a.AltCut? {
        assert [a.alt] + [] == [a.alt];
      }
      if a.AltOk? {
        var own := if number.Some? then number.value else a.alt.bInterfaceNumber;
        if Continues(s[a.n..], own) {
          InterfaceUnfold(s, number, order, a.alt, a.n);
          hide ParseInterface;
          rest := ParseInterface(s[a.n..], Some(own), order);
        }
      }
    }
  }

  /** The number a setting has stands in its third byte. */
  lemma AltNumber(s: seq<Byte>, order: ByteOrder)
    requires |s| >= INTERFACE_DESC_LENGTH
    requires var a := ParseAlt(s, order); a.AltCut? || a.AltOk?
    ensures ParseAlt(s, order).alt.bInterfaceNumber == s[2]
  {
    hide SkipExtra, ParseEndpoints;
  }

  lemma {:induction false} AltsSpelled(s: seq<Byte>, number: Option<Byte>, order: ByteOrder)
    returns (bs: seq<AltSpan>)
    requires ParseInterface(s, number, order).InterfaceOk?
    requires number.Some? ==> Continues(s, number.value)
    ensures var r := ParseInterface(s, number, order);
            && s == AltsText(bs) + s[r.n..]
            && if r.n == 0 then r.alts == [] && bs == []
               else |s| >= INTERFACE_DESC_LENGTH && r.alts != [] && TellsAlts(bs, r.alts, s[2], s[r.n..], order)
    decreases |s|
  {
    hide ParseAlt, ParseInterface, AltsText, AltText, TellsAlt, TellsAlts;
    NoAlts(s, order);
    bs := [];
    var rest := FirstSetting(s, number, order);
    if |s| >= INTERFACE_DESC_LENGTH && !ParseAlt(s, order).NoAlt? {
      var a := ParseAlt(s, order);
      AltNumber(s, order);
      NoAlts(s[a.n..], order);
      if rest != InterfaceOk([], 0) {
        bs := AltsSpelled(s[a.n..], Some(if number.Some? then number.value else a.alt.bInterfaceNumber), order);
      }
      var b := AltSpelled(s, order);
      AltThenAlts(s, order, b, a.alt, a.n, bs, rest.alts, rest.n);
      bs := [b] + bs;
    }
  }

  lemma AltThenAlts(s: seq<Byte>, order: ByteOrder, b: AltSpan, a: AltSetting, n: nat,
                    bs: seq<AltSpan>, alts: seq<AltSetting>, m: nat)
    requires n + m <= |s| && s == AltText(b) + s[n..] && s[n..] == AltsText(bs) + s[n..][m..]
    requires TellsAlt(b, a, s[n..], order) && TellsAlts(bs, alts, a.bInterfaceNumber, s[n..][m..], order)
    ensures s == AltsText([b] + bs) + s[n + m..]
    ensures TellsAlts([b] + bs, [a] + alts, a.bInterfaceNumber, s[n + m..], order)
  {
    hide AltsText, AltText, TellsAlt, TellsAlts;
    RestOfRest(s, n, m);
    TwoPieces(s, n, m, AltText(b), AltsText(bs));
    TellsAltsCons(b, bs, a, alts, s[n + m..], order);
    AltsTextCons(b, bs);
  }

  lemma NoAlts(s: seq<Byte>, order: ByteOrder)
    ensures AltsText([]) == [] && s == AltsText([]) + s[0..]
    ensures forall number :: TellsAlts([], [], number, s[0..], order)
  {
    assert s[0..] == s;
  }

  lemma InterfacesTextCons(b: seq<AltSpan>, bs: seq<seq<AltSpan>>)
    ensures InterfacesText([b] + bs) == AltsText(b) + InterfacesText(bs)
  {
    assert ([b] + bs)[1..] == bs;
  }

  lemma TellsInterfacesCons(b: seq<AltSpan>, bs: seq<seq<AltSpan>>, alts: seq<AltSetting>,
                            found: seq<seq<AltSetting>>, follow: seq<Byte>, order: ByteOrder)
    requires alts != [] && TellsAlts(b, alts, alts[0].bInterfaceNumber, InterfacesText(bs) + follow, order)
    requires TellsInterfaces(bs, found, follow, order)
    ensures TellsInterfaces([b] + bs, [alts] + found, follow, order)
  {
    hide TellsAlts, InterfacesText;
    assert ([b] + bs)[1..] == bs && ([alts] + found)[1..] == found;
  }

  lemma NoInterfaces(s: seq<Byte>, order: ByteOrder)
    ensures s == InterfacesText([]) + s[0..] && TellsInterfaces([], [], s[0..], order)
  {
    assert s[0..] == s;
  }

  lemma NothingToParse(s: seq<Byte>, count: nat, saved: seq<Byte>, order: ByteOrder)
    requires count == 0 || SkipExtra(s) == Short(0)
    ensures ParseInterfaces(s, count, saved, order) == InterfacesOk([], saved, |s|)
  {
  }

  lemma {:induction false} InterfacesSpelled(s: seq<Byte>, count: nat, saved: seq<Byte>, order: ByteOrder)
    returns (bs: seq<seq<AltSpan>>)
    requires Settled(s) && ParseInterfaces(s, count, saved, order).InterfacesOk?
    ensures var r := ParseInterfaces(s, count, saved, order);
            && s == InterfacesText(bs) + s[|s| - r.left..]
            && TellsInterfaces(bs, r.interfaces, s[|s| - r.left..], order)
            && r.extra == saved
    decreases count
  {
    hide ParseInterface, SkipExtra, ParseInterfaces, Settled, Truncated, AltsText, InterfacesText, TellsAlts,
         TellsInterfaces;
    NoInterfaces(s, order);
    NothingSkipped(s);
    bs := [];
    if count == 0 || SkipExtra(s).Short? {
      NothingToParse(s, count, saved, order);
    } else {
      assert s[0..] == s && s[..0] == [];
      var one := ParseInterface(s, None, order);
      InterfacesUnfold(s, count, saved, order, 0, one);
      if one.n > 0 {
        InterfaceSettles(s, None, order);
        var rest := ParseInterfaces(s[one.n..], count - 1, saved, order);
        var m := |s| - one.n - rest.left;
        var b := AltsSpelled(s, None, order);
        bs := InterfacesSpelled(s[one.n..], count - 1, saved, order);
        TellsNumber(b, one.alts, s[2], s[one.n..], order);
        RestOfRest(s, one.n, m);
        TwoPieces(s, one.n, m, AltsText(b), InterfacesText(bs));
        TellsInterfacesCons(b, bs, one.alts, rest.interfaces, s[one.n + m..], order);
        InterfacesTextCons(b, bs);
        bs := [b] + bs;
      }
    }
  }

  lemma TellsNumber(bs: seq<AltSpan>, alts: seq<AltSetting>, number: Byte, follow: seq<Byte>, order: ByteOrder)
    requires alts != [] && TellsAlts(bs, alts, number, follow, order)
    ensures alts[0].bInterfaceNumber == number
  {
    hide TellsAlt, AltsText;
  }

  /** The input, piece by piece, and the tree. */
  ghost predicate ConfigSpelled(s: seq<Byte>, order: ByteOrder, run: seq<Byte>, spans: seq<seq<AltSpan>>,
                                leftover: seq<Byte>)
    requires ParseConfig(s, order).ConfigOk? && |s| >= CONFIG_SIZE && s[0] <= |s|
  {
    var c := ParseConfig(s, order).config;
    && s == s[..s[0]] + run + InterfacesText(spans) + leftover
    && c == ConfigHeader(s, order).(extra := Saved(run, InterfacesText(spans) + leftover),
                                    interfaces := c.interfaces, bNumInterfaces := |c.interfaces|)
    && |c.interfaces| <= s[4]
    && TellsInterfaces(spans, c.interfaces, leftover, order)
    && ParseConfig(s, order).left == |leftover|
    && ClassRun(run)
  }

  /** The main result on arbitrary input. Whenever a configuration is parsed, the input is its header,
      a run of class descriptors, the spans of the interfaces of the tree one after the other, and the
      leftover; each setting and each endpoint of the tree says what its own span says; and class
      descriptors are saved unless a truncated descriptor follows them, when nothing is. */
  lemma ConfigAccount(s: seq<Byte>, order: ByteOrder)
    returns (run: seq<Byte>, spans: seq<seq<AltSpan>>, leftover: seq<Byte>)
    ensures ParseConfig(s, order).ConfigOk? ==>
              && |s| >= 9 && 9 <= s[0] <= |s| && s[1] == 2
              && ConfigSpelled(s, order, run, spans, leftover)
  {
    hide ParseInterfaces, ClassRun, InterfacesText, TellsInterfaces, Saved;
    run, spans, leftover := [], [], [];
    if ParseConfig(s, order).ConfigOk? {
      run, spans, leftover := BodySpelled(s[s[0]..], s[4], order);
      assert s == s[..s[0]] + s[s[0]..];
    }
  }

  lemma BodySpelled(t: seq<Byte>, count: nat, order: ByteOrder)
    returns (run: seq<Byte>, spans: seq<seq<AltSpan>>, leftover: seq<Byte>)
    ensures var r := ParseInterfaces(t, count, [], order);
            r.InterfacesOk? ==>
              && t == run + (InterfacesText(spans) + leftover)
              && r.extra == Saved(run, InterfacesText(spans) + leftover)
              && TellsInterfaces(spans, r.interfaces, leftover, order)
              && r.left == |leftover|
              && ClassRun(run)
  {
    hide ParseInterface, SkipExtra, ParseInterfaces, Truncated, ClassRun, InterfacesText, TellsInterfaces;
    run, spans, leftover := [], [], t;
    NoInterfaces(t, order);
    if count == 0 {
      NothingToParse(t, count, [], order);
      EmptyRun(t);
    } else if ParseInterfaces(t, count, [], order).InterfacesOk? {
      var skip := SkipExtra(t);
      InterfacesStop(t, count, [], order);
      SkipTakesRun(t);
      SkipSettles(t);
      run, leftover := t[..skip.n], t[skip.n..];
      assert t == run + leftover;
      NoInterfaces(leftover, order);
      if skip.Stop? {
        SameAfterRun(t, count, order);
        spans := InterfacesSpelled(leftover, count, run, order);
        leftover := leftover[|leftover| - ParseInterfaces(leftover, count, run, order).left..];
      }
    }
  }

  /** After the class descriptors in front, the loop goes on as if it had begun there. */
  lemma SameAfterRun(t: seq<Byte>, count: nat, order: ByteOrder)
    requires count > 0 && SkipExtra(t).Stop?
    ensures var n := SkipExtra(t).n;
            ParseInterfaces(t, count, [], order) == ParseInterfaces(t[n..], count, t[..n], order)
  {
    hide ParseInterface, SkipExtra, ParseInterfaces;
    var n := SkipExtra(t).n;
    SkipStops(t);
    var u, one := t[n..], ParseInterface(t[n..], None, order);
    assert u[0..] == u && u[..0] == [];
    InterfacesUnfold(t, count, [], order, n, one);
    InterfacesUnfold(u, count, t[..n], order, 0, one);
    if one.InterfaceOk? {
      RestOfRest(t, n, one.n);
    }
  }

  lemma SkipStops(t: seq<Byte>)
    requires SkipExtra(t).Stop?
    ensures SkipExtra(t[SkipExtra(t).n..]) == Stop(0)
  {
    SkipSettles(t);
  }

  // ------------------------------------------------------------- when parsing fails

  /** An endpoint is refused exactly when no header is left, or when it is a whole descriptor that is too
      short for an endpoint or has broken data behind it. */
  lemma EndpointFailsIff(s: seq<Byte>, order: ByteOrder)
    ensures ParseEndpoint(s, order).EndpointError? <==>
            |s| < 2 || (s[1] == 5 && s[0] <= |s| && (s[0] < 7 || Broken(s[s[0]..])))
  {
    if |s| >= 2 && s[0] <= |s| {
      MalformedIff(s[s[0]..]);
      hide SkipExtra, EndpointHeader, Broken;
    }
  }

  /** The first `j` endpoints are there, and the one after them is refused. */
  ghost predicate FailsAfter(s: seq<Byte>, j: nat, order: ByteOrder) {
    var r := ParseEndpoints(s, j, order);
    r.EndpointsOk? && |r.endpoints| == j && ParseEndpoint(s[r.n..], order).EndpointError?
  }

  ghost predicate SomeFails(s: seq<Byte>, count: nat, order: ByteOrder) {
    exists j :: 0 <= j < count && FailsAfter(s, j, order)
  }

  lemma {:induction false} EndpointsFailIff(s: seq<Byte>, count: nat, order: ByteOrder)
    ensures ParseEndpoints(s, count, order).EndpointsError? <==> SomeFails(s, count, order)
    decreases count
  {
    hide ParseEndpoint;
    var e := ParseEndpoint(s, order);
    FailsAtOnce(s, order);
    if count > 0 && e.EndpointOk? {
      EndpointsUnfold(s, count, order, e.endpoint, e.n);
      EndpointsFailIff(s[e.n..], count - 1, order);
      hide ParseEndpoints, FailsAfter;
      if j :| 0 <= j < count && FailsAfter(s, j, order) {
        assert j > 0;
        FailsLater(s, j - 1, order);
      }
      if j :| 0 <= j < count - 1 && FailsAfter(s[e.n..], j, order) {
        FailsLater(s, j, order);
        assert FailsAfter(s, j + 1, order);
      }
    } else if j :| 0 <= j < count && FailsAfter(s, j, order) {
      assert j == 0;
    }
  }

  lemma FailsAtOnce(s: seq<Byte>, order: ByteOrder)
    ensures FailsAfter(s, 0, order) <==> ParseEndpoint(s, order).EndpointError?
  {
    hide ParseEndpoint;
    assert s[0..] == s;
  }

  lemma FailsLater(s: seq<Byte>, j: nat, order: ByteOrder)
    requires ParseEndpoint(s, order).EndpointOk?
    ensures FailsAfter(s, j + 1, order) <==> FailsAfter(s[ParseEndpoint(s, order).n..], j, order)
  {
    hide ParseEndpoint;
    var e := ParseEndpoint(s, order);
    EndpointsUnfold(s, j + 1, order, e.endpoint, e.n);
    var r := ParseEndpoints(s[e.n..], j, order);
    if r.EndpointsOk? {
      RestOfRest(s, e.n, r.n);
    }
  }

  /** An alternate setting is refused exactly when it is a whole interface descriptor that is too short,
      announces more than 32 endpoints, has broken data behind it, or has an endpoint that is refused. */
  lemma AltFailsIff(s: seq<Byte>, order: ByteOrder)
    requires |s| >= INTERFACE_DESC_LENGTH
    ensures ParseAlt(s, order).AltError? <==>
            && s[1] == 4 && s[0] <= |s|
            && (|| s[0] < 9 || s[4] > 32 || Broken(s[s[0]..])
                || (var skip := SkipExtra(s[s[0]..]);
                    skip.Stop? && SomeFails(s[s[0] + skip.n..], s[4], order)))
  {
    if s[0] <= |s| {
      MalformedIff(s[s[0]..]);
      var skip := SkipExtra(s[s[0]..]);
      if skip.Stop? {
        EndpointsFailIff(s[s[0] + skip.n..], s[4], order);
      }
      hide SkipExtra, ParseEndpoints, SomeFails, Broken, AltHeader;
    }
  }

  // ------------------------------------------------ where the tree is not the truth

  /** An endpoint's class descriptors are consumed, and saved exactly when no truncated descriptor
      follows them. */
  lemma EndpointExtraIff(s: seq<Byte>, order: ByteOrder)
    requires ParseEndpoint(s, order).EndpointOk?
    ensures var e, n := ParseEndpoint(s, order).endpoint, ParseEndpoint(s, order).n;
            && s[0] <= n <= |s|
            && ClassRun(s[s[0]..n])
            && (e.extra == s[s[0]..n] <==> !Truncated(s[n..]) || n == s[0])
  {
    hide EndpointHeader, SkipExtra, ClassRun, Truncated;
    RunBehind(s, s[0]);
    EndpointHeaderAlone(s, order);
  }

  /** The same for an alternate setting, whose class descriptors end where its endpoints begin. A
      truncated descriptor there also costs it all of its endpoints. */
  lemma AltExtraIff(s: seq<Byte>, order: ByteOrder)
    requires |s| >= INTERFACE_DESC_LENGTH
    requires var a := ParseAlt(s, order); a.AltCut? || a.AltOk?
    ensures var a, n := ParseAlt(s, order), s[0] + SkipExtra(s[s[0]..]).n;
            && s[0] <= n <= |s|
            && ClassRun(s[s[0]..n])
            && (a.AltCut? <==> Truncated(s[n..]))
            && (a.alt.extra == s[s[0]..n] <==> !Truncated(s[n..]) || n == s[0])
            && (Truncated(s[n..]) ==> a.alt.endpoints == [] && a.n == n)
  {
    hide ParseEndpoints, SkipExtra, ClassRun, Truncated;
    RunBehind(s, s[0]);
  }

  /** The endpoint count of a setting is the number of its endpoints exactly when the setting was not
      cut short by a truncated class descriptor, or announces none. */
  lemma EndpointCountIff(s: seq<Byte>, order: ByteOrder)
    requires |s| >= INTERFACE_DESC_LENGTH
    requires var a := ParseAlt(s, order); a.AltCut? || a.AltOk?
    ensures var a, n := ParseAlt(s, order).alt, s[0] + SkipExtra(s[s[0]..]).n;
            a.bNumEndpoints == |a.endpoints| <==> !Truncated(s[n..]) || s[4] == 0
  {
    hide ParseEndpoints;
    AltExtraIff(s, order);
    hide SkipExtra, Truncated, ClassRun;
  }
}
