/**
 The isochronous half of the Linux back end: one pass counts the URBs a packet list needs,
 a second pass packs the packets, and reaping copies the results back packet by packet.
 */
module IsoUrbs {
  import opened Usb

  const MAX_ISO_BUFFER_LENGTH := 49152 * 128
  const TWO_TO_THE_31 := 0x8000_0000
  const TWO_TO_THE_32 := 0x1_0000_0000
  const INT_MAX := 0x7fff_ffff

  /** unsigned int */
  type Word = x: int | 0 <= x < 0x1_0000_0000

  /** The value of an unsigned int stored in an int. */
  function ToInt(x: int): int {
    var w := x % TWO_TO_THE_32;
    if w < TWO_TO_THE_31 then w else w - TWO_TO_THE_32
  }

  function Sum(lens: seq<Word>): nat {
    if lens == [] then 0 else lens[0] + Sum(lens[1..])
  }

  lemma {:induction false} SumAppend(a: seq<Word>, b: seq<Word>)
    ensures Sum(a + b) == Sum(a) + Sum(b)
  {
    if a == [] {
      assert a + b == b;
    } else {
      SumAppend(a[1..], b);
      assert (a + b)[1..] == a[1..] + b;
    }
  }

  lemma SumSnoc(a: seq<Word>, x: Word)
    ensures Sum(a + [x]) == Sum(a) + x
  {
    SumAppend(a, [x]);
    assert Sum([x]) == x + Sum([x][1..]);
  }

  // ------------------------------------------------------------ pass 1: counting

  /** The counting loop, with the arithmetic of the C types: `space_remaining` is unsigned,
      `this_urb_len` is signed. None is LIBUSB_ERROR_INVALID_PARAM. */
  function CountFrom(lens: seq<Word>, thisLen: int, n: nat): Option<nat> {
    if lens == [] then Some(n)
    else if lens[0] > (MAX_ISO_BUFFER_LENGTH - thisLen) % TWO_TO_THE_32 then
      if ToInt(lens[0]) > MAX_ISO_BUFFER_LENGTH then None
      else CountFrom(lens[1..], ToInt(lens[0]), n + 1)
    else CountFrom(lens[1..], ToInt(thisLen + lens[0]), n)
  }

  function Count(lens: seq<Word>): Option<nat> {
    CountFrom(lens, 0, 1)
  }

  method CountUrbs(lens: seq<Word>) returns (r: Option<nat>)
    ensures r == Count(lens)
  {
    var thisLen, n := 0, 1;
    var i := 0;
    while i < |lens|
      invariant 0 <= i <= |lens|
      invariant Count(lens) == CountFrom(lens[i..], thisLen, n)
    {
      var space := (MAX_ISO_BUFFER_LENGTH - thisLen) % TWO_TO_THE_32;
      assert lens[i..][1..] == lens[i + 1..];
      if lens[i] > space {
        n := n + 1;
        thisLen := ToInt(lens[i]);
        if thisLen > MAX_ISO_BUFFER_LENGTH {
          return None;
        }
      } else {
        thisLen := ToInt(thisLen + lens[i]);
      }
      i := i + 1;
    }
    assert lens[i..] == [];
    return Some(n);
  }

  // ------------------------------------------------------------- pass 2: packing

  /** How many packets from the front of the list fit into `space` bytes. */
  function Swallow(lens: seq<Word>, space: nat): (k: nat)
    ensures k <= |lens|
  {
    if lens == [] || lens[0] > space then 0 else 1 + Swallow(lens[1..], space - lens[0])
  }

  /** An isochronous URB: where its buffer starts and the lengths of its packets. */
  datatype IsoUrb = IsoUrb(offset: nat, lengths: seq<Word>)

  function Pack(lens: seq<Word>, n: nat, offset: nat): (urbs: seq<IsoUrb>)
    ensures |urbs| == n
    decreases n
  {
    if n == 0 then []
    else
      var k := Swallow(lens, MAX_ISO_BUFFER_LENGTH);
      [IsoUrb(offset, lens[..k])] + Pack(lens[k..], n - 1, offset + Sum(lens[..k]))
  }

  /** The inner loop: swallow up all the packets one URB can take. */
  method SwallowPackets(lens: seq<Word>, from: nat) returns (packetOffset: nat, bytes: nat)
    requires from <= |lens|
    ensures packetOffset == from + Swallow(lens[from..], MAX_ISO_BUFFER_LENGTH)
    ensures packetOffset <= |lens| && bytes == Sum(lens[from..packetOffset])
  {
    var space: nat := MAX_ISO_BUFFER_LENGTH;
    packetOffset, bytes := from, 0;
    while packetOffset < |lens|
      invariant from <= packetOffset <= |lens|
      invariant from + Swallow(lens[from..], MAX_ISO_BUFFER_LENGTH) ==
                packetOffset + Swallow(lens[packetOffset..], space)
      invariant bytes == Sum(lens[from..packetOffset])
    {
      var packetLen := lens[packetOffset];
      if packetLen <= space {
        assert lens[packetOffset..][1..] == lens[packetOffset + 1..];
        assert lens[from..packetOffset + 1] == lens[from..packetOffset] + [packetLen];
        SumSnoc(lens[from..packetOffset], packetLen);
        packetOffset, space, bytes := packetOffset + 1, space - packetLen, bytes + packetLen;
      } else {
        break;
      }
    }
  }

  method PackUrbs(lens: seq<Word>, n: nat) returns (urbs: seq<IsoUrb>)
    ensures urbs == Pack(lens, n, 0)
  {
    hide Pack, Swallow, Sum;
    urbs := [];
    NothingPacked(lens, n);
    var packetOffset, urbBuffer: nat := 0, 0;
    var i := 0;
    while i < n
      invariant 0 <= i <= n && 0 <= packetOffset <= |lens|
      invariant Pack(lens, n, 0) == urbs + Pack(lens[packetOffset..], n - i, urbBuffer)
    {
      var next, bytes := SwallowPackets(lens, packetOffset);
      var urb := IsoUrb(urbBuffer, lens[packetOffset..next]);
      PackUnfold(lens, packetOffset, n - i, urbBuffer);
      AppendOne(urbs, urb, Pack(lens[next..], n - i - 1, urbBuffer + bytes));
      urbs := urbs + [urb];
      packetOffset, urbBuffer, i := next, urbBuffer + bytes, i + 1;
    }
    PackNone(lens[packetOffset..], urbBuffer, urbs);
  }

  lemma NothingPacked(lens: seq<Word>, n: nat)
    ensures [] + Pack(lens[0..], n, 0) == Pack(lens, n, 0)
  {
    assert lens[0..] == lens;
  }

  lemma PackNone(lens: seq<Word>, offset: nat, urbs: seq<IsoUrb>)
    ensures urbs + Pack(lens, 0, offset) == urbs
  {
  }

  lemma PackOnce(lens: seq<Word>, n: nat, offset: nat)
    requires n > 0
    ensures var k := Swallow(lens, MAX_ISO_BUFFER_LENGTH);
            Pack(lens, n, offset) == [IsoUrb(offset, lens[..k])] + Pack(lens[k..], n - 1, offset + Sum(lens[..k]))
  {
  }

  lemma PackUnfold(lens: seq<Word>, from: nat, n: nat, offset: nat)
    requires from <= |lens| && n > 0
    ensures var next := from + Swallow(lens[from..], MAX_ISO_BUFFER_LENGTH);
            && next <= |lens|
            && Pack(lens[from..], n, offset) ==
               [IsoUrb(offset, lens[from..next])] + Pack(lens[next..], n - 1, offset + Sum(lens[from..next]))
  {
    hide Pack, Swallow, Sum;
    PackOnce(lens[from..], n, offset);
    SliceOfRest(lens, from, Swallow(lens[from..], MAX_ISO_BUFFER_LENGTH));
  }

  // ----------------------------------------------------------- the passes agree

  predicate AllFit(lens: seq<Word>) {
    forall i :: 0 <= i < |lens| ==> lens[i] <= MAX_ISO_BUFFER_LENGTH
  }

  /** The number of URBs that packing with no preset count would need. */
  function Groups(lens: seq<Word>): nat
    requires AllFit(lens)
    decreases |lens|
  {
    if lens == [] then 0 else 1 + Groups(lens[Swallow(lens, MAX_ISO_BUFFER_LENGTH)..])
  }

  lemma AllFitDrop(lens: seq<Word>, k: nat)
    requires AllFit(lens) && k <= |lens|
    ensures AllFit(lens[k..])
  {
  }

  /** One round of the counting loop when nothing wraps. */
  lemma CountStep(lens: seq<Word>, thisLen: nat, n: nat)
    requires lens != [] && lens[0] <= INT_MAX && thisLen <= MAX_ISO_BUFFER_LENGTH
    ensures CountFrom(lens, thisLen, n) ==
            if lens[0] <= MAX_ISO_BUFFER_LENGTH - thisLen then CountFrom(lens[1..], thisLen + lens[0], n)
            else if lens[0] > MAX_ISO_BUFFER_LENGTH then None
            else CountFrom(lens[1..], lens[0], n + 1)
  {
    assert (MAX_ISO_BUFFER_LENGTH - thisLen) % TWO_TO_THE_32 == MAX_ISO_BUFFER_LENGTH - thisLen;
    ToIntSmall(lens[0]);
    if lens[0] <= MAX_ISO_BUFFER_LENGTH - thisLen {
      ToIntSmall(thisLen + lens[0]);
    }
  }

  lemma SwallowStep(lens: seq<Word>, space: nat)
    requires lens != [] && lens[0] <= space
    ensures var k := Swallow(lens[1..], space - lens[0]);
            Swallow(lens, space) == 1 + k && lens[1 + k..] == lens[1..][k..]
  {
  }

  /** The URBs still needed when the current one has `space` bytes left. */
  ghost function GroupsAfter(lens: seq<Word>, space: nat): nat
    requires AllFit(lens)
  {
    AllFitDrop(lens, Swallow(lens, space));
    Groups(lens[Swallow(lens, space)..])
  }

  lemma GroupsAfterStep(lens: seq<Word>, space: nat)
    requires AllFit(lens) && lens != []
    ensures AllFit(lens[1..])
    ensures GroupsAfter(lens, space) ==
            if lens[0] <= space then GroupsAfter(lens[1..], space - lens[0])
            else 1 + GroupsAfter(lens[1..], MAX_ISO_BUFFER_LENGTH - lens[0])
  {
    if lens[0] <= space {
      SwallowStep(lens, space);
    } else {
      SwallowStep(lens, MAX_ISO_BUFFER_LENGTH);
      assert lens[0..] == lens;
    }
  }

  lemma {:induction false} CountFromIsGroups(lens: seq<Word>, thisLen: nat, n: nat)
    requires AllFit(lens) && thisLen <= MAX_ISO_BUFFER_LENGTH
    ensures CountFrom(lens, thisLen, n) == Some(n + GroupsAfter(lens, MAX_ISO_BUFFER_LENGTH - thisLen))
    decreases |lens|
  {
    if lens == [] {
      NoGroups(lens);
    } else {
      CountStep(lens, thisLen, n);
      GroupsAfterStep(lens, MAX_ISO_BUFFER_LENGTH - thisLen);
      assert lens[0] <= MAX_ISO_BUFFER_LENGTH;
      hide CountFrom, GroupsAfter, AllFit;
      CountFromIsGroups(lens[1..], if lens[0] <= MAX_ISO_BUFFER_LENGTH - thisLen then thisLen + lens[0] else lens[0],
                        if lens[0] <= MAX_ISO_BUFFER_LENGTH - thisLen then n else n + 1);
    }
  }

  lemma CountIsGroups(lens: seq<Word>)
    requires AllFit(lens)
    ensures Count(lens) == Some(if lens == [] then 1 else Groups(lens))
  {
    CountFromIsGroups(lens, 0, 1);
  }

  ghost function Packets(urbs: seq<IsoUrb>): seq<Word> {
    if urbs == [] then [] else urbs[0].lengths + Packets(urbs[1..])
  }

  lemma PacketsCons(urb: IsoUrb, urbs: seq<IsoUrb>)
    ensures Packets([urb] + urbs) == urb.lengths + Packets(urbs)
  {
    assert ([urb] + urbs)[1..] == urbs;
  }

  lemma PacketsOfPack(lens: seq<Word>, n: nat, offset: nat)
    requires n > 0
    ensures var k := Swallow(lens, MAX_ISO_BUFFER_LENGTH);
            Packets(Pack(lens, n, offset)) == lens[..k] + Packets(Pack(lens[k..], n - 1, offset + Sum(lens[..k])))
  {
    hide Pack, Packets, Swallow, Sum;
    var k := Swallow(lens, MAX_ISO_BUFFER_LENGTH);
    PackOnce(lens, n, offset);
    PacketsCons(IsoUrb(offset, lens[..k]), Pack(lens[k..], n - 1, offset + Sum(lens[..k])));
  }

  /** Packing the counted number of URBs uses every packet, in order. */
  lemma {:induction false} PackUsesAll(lens: seq<Word>, n: nat, offset: nat)
    requires AllFit(lens) && n >= Groups(lens)
    ensures Packets(Pack(lens, n, offset)) == lens
    decreases n
  {
    hide AllFit, Groups, Pack, Packets, Swallow, Sum;
    if lens == [] {
      PackIsPrefix(lens, n, offset);
    } else {
      var k := Swallow(lens, MAX_ISO_BUFFER_LENGTH);
      GroupsUnfold(lens);
      PacketsOfPack(lens, n, offset);
      PackUsesAll(lens[k..], n - 1, offset + Sum(lens[..k]));
      assert lens[..k] + lens[k..] == lens;
    }
  }

  /** Packing takes packets from the front of the list and invents none. */
  lemma {:induction false} PackIsPrefix(lens: seq<Word>, n: nat, offset: nat)
    ensures Packets(Pack(lens, n, offset)) <= lens
    decreases n
  {
    if n > 0 {
      hide Pack, Packets, Swallow, Sum;
      var k := Swallow(lens, MAX_ISO_BUFFER_LENGTH);
      PackIsPrefix(lens[k..], n - 1, offset + Sum(lens[..k]));
      PacketsOfPack(lens, n, offset);
      PrefixOfRest(lens, k, Packets(Pack(lens[k..], n - 1, offset + Sum(lens[..k]))));
    }
  }

  lemma PrefixOfRest(lens: seq<Word>, k: nat, p: seq<Word>)
    requires k <= |lens| && p <= lens[k..]
    ensures lens[..k] + p <= lens
  {
    assert lens == lens[..k] + lens[k..];
  }

  lemma {:induction false} SwallowFits(lens: seq<Word>, space: nat)
    ensures Sum(lens[..Swallow(lens, space)]) <= space
  {
    if lens != [] && lens[0] <= space {
      SwallowFits(lens[1..], space - lens[0]);
      var k := Swallow(lens[1..], space - lens[0]);
      assert lens[..1 + k][1..] == lens[1..][..k];
    }
  }

  lemma {:induction false} PackWithinLimit(lens: seq<Word>, n: nat, offset: nat, i: nat)
    requires i < n
    ensures Sum(Pack(lens, n, offset)[i].lengths) <= MAX_ISO_BUFFER_LENGTH
    decreases n
  {
    var k := Swallow(lens, MAX_ISO_BUFFER_LENGTH);
    SwallowFits(lens, MAX_ISO_BUFFER_LENGTH);
    if i > 0 {
      PackWithinLimit(lens[k..], n - 1, offset + Sum(lens[..k]), i - 1);
    }
  }

  /** Each URB's buffer starts where the one before it ends. */
  ghost predicate Chained(urbs: seq<IsoUrb>, offset: nat) {
    urbs != [] ==> urbs[0].offset == offset && Chained(urbs[1..], offset + Sum(urbs[0].lengths))
  }

  lemma {:induction false} PackIsChained(lens: seq<Word>, n: nat, offset: nat)
    ensures Chained(Pack(lens, n, offset), offset)
    decreases n
  {
    if n > 0 {
      var k := Swallow(lens, MAX_ISO_BUFFER_LENGTH);
      PackIsChained(lens[k..], n - 1, offset + Sum(lens[..k]));
      PackOnce(lens, n, offset);
      hide Pack, Swallow, Sum;
      assert Pack(lens, n, offset)[1..] == Pack(lens[k..], n - 1, offset + Sum(lens[..k]));
    }
  }

  lemma {:induction false} ChainedOffset(urbs: seq<IsoUrb>, offset: nat, i: nat)
    requires Chained(urbs, offset) && i < |urbs|
    ensures urbs[i].offset == offset + Sum(Packets(urbs[..i]))
  {
    if i > 0 {
      ChainedOffset(urbs[1..], offset + Sum(urbs[0].lengths), i - 1);
      assert urbs[..i][1..] == urbs[1..][..i - 1];
      SumAppend(urbs[0].lengths, Packets(urbs[1..][..i - 1]));
    }
  }

  lemma {:induction false} PacketsSplit(urbs: seq<IsoUrb>, i: nat)
    requires i < |urbs|
    ensures Packets(urbs) == Packets(urbs[..i]) + urbs[i].lengths + Packets(urbs[i + 1..])
  {
    if i > 0 {
      PacketsSplit(urbs[1..], i - 1);
      assert urbs[..i][1..] == urbs[1..][..i - 1];
      assert urbs[i + 1..] == urbs[1..][i..];
    }
  }

  /** Packet j of URB i is packet `first + j` of the list and lies at that packet's offset. */
  ghost predicate WellPlaced(lens: seq<Word>, urbs: seq<IsoUrb>, i: nat, j: nat)
    requires i < |urbs| && j < |urbs[i].lengths|
  {
    var first := |Packets(urbs[..i])|;
    && first + j < |lens|
    && urbs[i].lengths[j] == lens[first + j]
    && urbs[i].offset + Sum(urbs[i].lengths[..j]) == Sum(lens[..first + j])
  }

  lemma ChainedPlaces(urbs: seq<IsoUrb>, i: nat, j: nat)
    requires Chained(urbs, 0) && i < |urbs| && j < |urbs[i].lengths|
    ensures WellPlaced(Packets(urbs), urbs, i, j)
  {
    var front, own, back := Packets(urbs[..i]), urbs[i].lengths, Packets(urbs[i + 1..]);
    ChainedOffset(urbs, 0, i);
    PacketsSplit(urbs, i);
    SumAppend(front, own[..j]);
    hide Chained, Packets, Sum;
    InTheMiddle(front, own, back, j);
  }

  /** The main result of packing. For every packet list whose packets fit, the count is accepted
      and exactly enough: all packets are packed in order, every packet lies where
      libusb_get_iso_packet_buffer says, and no URB is over the limit. */
  lemma IsoPassesAgree(lens: seq<Word>)
    requires AllFit(lens)
    ensures Count(lens).Some?
    ensures var urbs := Pack(lens, Count(lens).value, 0);
            && Packets(urbs) == lens
            && (forall i :: 0 <= i < |urbs| ==> Sum(urbs[i].lengths) <= MAX_ISO_BUFFER_LENGTH)
            && (forall i, j :: 0 <= i < |urbs| && 0 <= j < |urbs[i].lengths| ==> WellPlaced(lens, urbs, i, j))
  {
    CountIsGroups(lens);
    var n := Count(lens).value;
    var urbs := Pack(lens, n, 0);
    PackUsesAll(lens, n, 0);
    forall i | 0 <= i < |urbs|
      ensures Sum(urbs[i].lengths) <= MAX_ISO_BUFFER_LENGTH
    {
      PackWithinLimit(lens, n, 0, i);
    }
    PackIsChained(lens, n, 0);
    forall i, j | 0 <= i < |urbs| && 0 <= j < |urbs[i].lengths|
      ensures WellPlaced(lens, urbs, i, j)
    {
      ChainedPlaces(urbs, i, j);
    }
  }

  // ------------------------------------------------------------- the count is least

  /** `cut` splits the list into consecutive groups, none over the limit. */
  ghost predicate IsCut(lens: seq<Word>, cut: seq<nat>)
    decreases |cut|
  {
    if cut == [] then lens == []
    else
      && cut[0] <= |lens|
      && Sum(lens[..cut[0]]) <= MAX_ISO_BUFFER_LENGTH
      && IsCut(lens[cut[0]..], cut[1..])
  }

  lemma {:induction false} SwallowIsMost(lens: seq<Word>, space: nat, c: nat)
    requires c <= |lens| && Sum(lens[..c]) <= space
    ensures c <= Swallow(lens, space)
    decreases c
  {
    if c > 0 {
      assert lens[..c][1..] == lens[1..][..c - 1];
      SwallowIsMost(lens[1..], space - lens[0], c - 1);
    }
  }

  lemma GroupsUnfold(lens: seq<Word>)
    requires AllFit(lens) && lens != []
    ensures AllFit(lens[Swallow(lens, MAX_ISO_BUFFER_LENGTH)..])
    ensures Groups(lens) == 1 + Groups(lens[Swallow(lens, MAX_ISO_BUFFER_LENGTH)..])
  {
  }

  /** Dropping packets from the front never needs more URBs. */
  lemma {:induction false} GroupsMonotone(lens: seq<Word>, c: nat)
    requires AllFit(lens) && c <= |lens|
    ensures AllFit(lens[c..]) && Groups(lens[c..]) <= Groups(lens)
    decreases |lens|, c
  {
    hide AllFit, Groups;
    AllFitDrop(lens, c);
    if c == 0 {
      assert lens[0..] == lens;
    } else {
      AllFitDrop(lens, c - 1);
      GroupsMonotone(lens, c - 1);
      GroupsTail(lens[c - 1..]);
      RestOfRest(lens, c - 1, 1);
    }
  }

  lemma {:induction false} GroupsTail(s: seq<Word>)
    requires AllFit(s) && s != []
    ensures AllFit(s[1..]) && Groups(s[1..]) <= Groups(s)
    decreases |s|, 0
  {
    hide AllFit, Groups, Swallow;
    AllFitDrop(s, 1);
    if |s| == 1 {
      NoGroups(s[1..]);
    } else {
      var k, k' := Swallow(s, MAX_ISO_BUFFER_LENGTH), Swallow(s[1..], MAX_ISO_BUFFER_LENGTH);
      GroupsDropOne(s);
      GroupsMonotone(s[k..], k' + 1 - k);
    }
  }

  lemma NoGroups(lens: seq<Word>)
    requires AllFit(lens) && |lens| == 0
    ensures Groups(lens) == 0
  {
  }

  /** Both lists go on in the same list behind their first URBs. */
  lemma GroupsDropOne(s: seq<Word>)
    requires AllFit(s) && |s| >= 2
    ensures var k, k' := Swallow(s, MAX_ISO_BUFFER_LENGTH), Swallow(s[1..], MAX_ISO_BUFFER_LENGTH);
            && 1 <= k <= k' + 1
            && AllFit(s[1..]) && AllFit(s[k..]) && AllFit(s[k..][k' + 1 - k..])
            && Groups(s) == 1 + Groups(s[k..])
            && Groups(s[1..]) == 1 + Groups(s[k..][k' + 1 - k..])
  {
    hide AllFit, Groups, Swallow;
    SwallowLosesOne(s);
    GroupsUnfold(s);
    AllFitDrop(s, 1);
    GroupsUnfold(s[1..]);
    var k, k' := Swallow(s, MAX_ISO_BUFFER_LENGTH), Swallow(s[1..], MAX_ISO_BUFFER_LENGTH);
    RestOfRest(s, 1, k');
    RestOfRest(s, k, k' + 1 - k);
  }

  lemma SwallowLosesOne(s: seq<Word>)
    requires AllFit(s) && s != []
    ensures 1 <= Swallow(s, MAX_ISO_BUFFER_LENGTH) <= Swallow(s[1..], MAX_ISO_BUFFER_LENGTH) + 1
  {
    assert s[0] <= MAX_ISO_BUFFER_LENGTH;
    var k := Swallow(s, MAX_ISO_BUFFER_LENGTH);
    SwallowFits(s, MAX_ISO_BUFFER_LENGTH);
    assert s[..k][1..] == s[1..][..k - 1];
    SwallowIsMost(s[1..], MAX_ISO_BUFFER_LENGTH, k - 1);
  }

  lemma {:induction false} GroupsLeast(lens: seq<Word>, cut: seq<nat>)
    requires AllFit(lens) && IsCut(lens, cut)
    ensures Groups(lens) <= |cut|
    decreases |cut|
  {
    if cut != [] && lens != [] {
      GroupsLeast(lens[cut[0]..], cut[1..]);
      CutAtMost(lens, cut[0]);
    }
  }

  /** Cutting earlier than the greedy cut leaves no fewer groups. */
  lemma CutAtMost(lens: seq<Word>, c: nat)
    requires AllFit(lens) && lens != [] && c <= |lens| && Sum(lens[..c]) <= MAX_ISO_BUFFER_LENGTH
    requires AllFit(lens[c..])
    ensures Groups(lens) <= 1 + Groups(lens[c..])
  {
    hide Groups, Swallow, Sum, AllFit;
    var k := Swallow(lens, MAX_ISO_BUFFER_LENGTH);
    SwallowIsMost(lens, MAX_ISO_BUFFER_LENGTH, c);
    GroupsUnfold(lens);
    RestOfRest(lens, c, k - c);
    GroupsMonotone(lens[c..], k - c);
  }

  ghost function Sizes(urbs: seq<IsoUrb>): seq<nat> {
    seq(|urbs|, i requires 0 <= i < |urbs| => |urbs[i].lengths|)
  }

  lemma SizesCons(urb: IsoUrb, urbs: seq<IsoUrb>)
    ensures Sizes([urb] + urbs) == [|urb.lengths|] + Sizes(urbs)
    ensures Sizes([urb] + urbs)[0] == |urb.lengths| && Sizes([urb] + urbs)[1..] == Sizes(urbs)
  {
  }

  lemma {:induction false} PackIsCut(lens: seq<Word>, n: nat, offset: nat)
    requires AllFit(lens) && n >= Groups(lens)
    ensures IsCut(lens, Sizes(Pack(lens, n, offset)))
    decreases n
  {
    if n > 0 {
      var k := Swallow(lens, MAX_ISO_BUFFER_LENGTH);
      var urbs := Pack(lens, n, offset);
      var rest := Pack(lens[k..], n - 1, offset + Sum(lens[..k]));
      SwallowFits(lens, MAX_ISO_BUFFER_LENGTH);
      AllFitDrop(lens, k);
      PackIsCut(lens[k..], n - 1, offset + Sum(lens[..k]));
      assert urbs == [IsoUrb(offset, lens[..k])] + rest;
      hide Pack, Swallow, Groups, Sum;
      SizesCons(IsoUrb(offset, lens[..k]), rest);
    }
  }

  /** For a non-empty list the counted number of URBs is the least of all cuts of the list, and
      packing attains it. */
  lemma IsoCountMinimal(lens: seq<Word>)
    requires AllFit(lens) && lens != []
    ensures var n := Count(lens);
            && n.Some?
            && IsCut(lens, Sizes(Pack(lens, n.value, 0)))
            && forall cut :: IsCut(lens, cut) ==> n.value <= |cut|
  {
    CountIsGroups(lens);
    PackIsCut(lens, Groups(lens), 0);
    forall cut | IsCut(lens, cut)
      ensures Groups(lens) <= |cut|
    {
      GroupsLeast(lens, cut);
    }
  }

  // --------------------------------------------------- packets that do not fit

  lemma {:induction false} OversizeIsNeverPacked(lens: seq<Word>, n: nat, offset: nat, j: nat)
    requires j < |lens| && lens[j] > MAX_ISO_BUFFER_LENGTH
    ensures |Packets(Pack(lens, n, offset))| <= j
    decreases n
  {
    if n > 0 {
      var k := Swallow(lens, MAX_ISO_BUFFER_LENGTH);
      hide Pack, Packets, Swallow, Sum;
      SwallowStopsBefore(lens, MAX_ISO_BUFFER_LENGTH, j);
      PacketsOfPack(lens, n, offset);
      OversizeIsNeverPacked(lens[k..], n - 1, offset + Sum(lens[..k]), j - k);
    }
  }

  lemma {:induction false} SwallowStopsBefore(lens: seq<Word>, space: nat, j: nat)
    requires j < |lens| && lens[j] > space
    ensures Swallow(lens, space) <= j
  {
    if j > 0 && lens[0] <= space {
      SwallowStopsBefore(lens[1..], space - lens[0], j - 1);
    }
  }

  /** Exactly when a list is accepted and then packed without leaving packets behind. */
  lemma AcceptedAndPackedIff(lens: seq<Word>)
    ensures (Count(lens).Some? && Packets(Pack(lens, Count(lens).value, 0)) == lens) <==> AllFit(lens)
  {
    if AllFit(lens) {
      CountIsGroups(lens);
      PackUsesAll(lens, Count(lens).value, 0);
    } else if Count(lens).Some? {
      var j :| 0 <= j < |lens| && lens[j] > MAX_ISO_BUFFER_LENGTH;
      OversizeIsNeverPacked(lens, Count(lens).value, 0, j);
    }
  }

  lemma {:induction false} RejectedFromIff(lens: seq<Word>, thisLen: nat, n: nat)
    requires thisLen <= MAX_ISO_BUFFER_LENGTH
    requires forall i :: 0 <= i < |lens| ==> lens[i] <= INT_MAX
    ensures CountFrom(lens, thisLen, n).None? <==> !AllFit(lens)
    decreases |lens|
  {
    if lens != [] {
      CountStep(lens, thisLen, n);
      var rest := lens[1..];
      assert AllFit(lens) <==> lens[0] <= MAX_ISO_BUFFER_LENGTH && AllFit(rest) by {
        assert forall i :: 1 <= i < |lens| ==> lens[i] == rest[i - 1];
      }
      if lens[0] <= MAX_ISO_BUFFER_LENGTH - thisLen {
        RejectedFromIff(rest, thisLen + lens[0], n);
      } else if lens[0] <= MAX_ISO_BUFFER_LENGTH {
        RejectedFromIff(rest, lens[0], n + 1);
      }
    }
  }

  /** For lengths that fit in a signed int, a list is rejected exactly when a packet is too long. */
  lemma RejectedIff(lens: seq<Word>)
    requires forall i :: 0 <= i < |lens| ==> lens[i] <= INT_MAX
    ensures Count(lens).None? <==> !AllFit(lens)
  {
    RejectedFromIff(lens, 0, 1);
  }

  /** A length of 2^31 looks negative to the size check, is accepted, and is never packed. */
  lemma HugePacketSlipsThrough()
    ensures Count([0x8000_0000]) == Some(2)
    ensures Packets(Pack([0x8000_0000], 2, 0)) == []
  {
    var lens: seq<Word> := [0x8000_0000];
    assert CountFrom(lens[1..], ToInt(lens[0]), 2) == Some(2);
    OversizeIsNeverPacked(lens, 2, 0, 0);
  }

  // --------------------------------------------------- packet offsets in libusb.h

  /** libusb_get_iso_packet_buffer, as an offset into the transfer buffer (None for NULL). */
  method GetIsoPacketBuffer(lens: seq<Word>, packet: Word) returns (offset: Option<nat>)
    requires |lens| <= INT_MAX
    ensures offset == if packet < |lens| then Some(Sum(lens[..packet])) else None
  {
    if packet > INT_MAX {
      return None;
    }
    if packet >= |lens| {
      return None;
    }
    var off: nat := 0;
    for i := 0 to packet
      invariant off == Sum(lens[..i])
    {
      assert lens[..i + 1] == lens[..i] + [lens[i]];
      SumSnoc(lens[..i], lens[i]);
      off := off + lens[i];
    }
    return Some(off);
  }

  /** libusb_set_iso_packet_lengths */
  method SetIsoPacketLengths(lens: array<Word>, length: Word)
    modifies lens
    ensures lens[..] == seq(lens.Length, i => length)
  {
    for i := 0 to lens.Length
      invariant lens[..i] == seq(i, _ => length)
    {
      lens[i] := length;
    }
  }

  /** libusb_get_iso_packet_buffer_simple, with the int conversion and int product it uses. */
  function GetIsoPacketBufferSimple(lens: seq<Word>, packet: Word): Option<int> {
    if packet > INT_MAX || packet >= |lens| then None else Some(ToInt(ToInt(lens[0]) * packet))
  }

  lemma {:induction false} UniformSum(length: Word, n: nat)
    ensures Sum(seq(n, i => length)) == length * n
    decreases n
  {
    if n > 0 {
      UniformSum(length, n - 1);
      var s: seq<Word> := seq(n, i => length);
      assert s[1..] == seq(n - 1, i => length);
      assert length * n == length + length * (n - 1);
    }
  }

  lemma ToIntSmall(x: int)
    requires 0 <= x <= INT_MAX
    ensures ToInt(x) == x
  {
  }

  /** On packets of one length the multiplication gives the offset the summing form gives if and
      only if that offset fits in an int. */
  lemma SimpleAgreesIff(length: Word, n: nat, packet: Word)
    requires packet < n <= INT_MAX
    ensures var lens := seq(n, i => length);
            GetIsoPacketBufferSimple(lens, packet) == Some(Sum(lens[..packet])) <==> length * packet <= INT_MAX
  {
    var lens: seq<Word> := seq(n, i => length);
    UniformSum(length, packet);
    assert lens[..packet] == seq(packet, i => length);
    if packet > 0 && length * packet <= INT_MAX {
      assert length <= length * packet;
      ToIntSmall(length);
      ToIntSmall(length * packet);
    }
  }
}
