/** The NetFlow v9 exporter (softflowd/netflow9.c): flows packed into packets. */
module Nf9Export {
  import opened Bytes
  import opened Nf9Wire

  function AfOf(ends: Ends): int {
    match ends
    case Inet(_, _) => 2
    case Inet6(_, _) => 10
    case OtherFamily => 0
  }

  /** nf_flow_to_flowset: both directions of a flow at the end of a packet, or nothing. */
  method FlowToFlowset(flow: Flow, packet: array<u8>, off: nat, len: nat) returns (r: int, used: nat)
    requires off + len <= packet.Length
    modifies packet
    ensures packet[..off] == old(packet[..off])
    ensures if flow.ends.OtherFamily? || |Records(flow)| > len then r == -1 && used == 0
      else r == |Directions(flow)| && used == |Records(flow)| && packet[off..off + used] == Records(flow)
  {
    hide Record;
    if flow.ends.OtherFamily? {
      return -1, 0;
    }
    var freclen := RecordSize(flow.ends.Inet6?);
    var retLen, nflows := 0, 0;
    if flow.octetsA > 0 {
      if retLen + freclen > len {
        return -1, 0;
      }
      Copy(packet, off, Record(flow, false));
      retLen, nflows := freclen, 1;
    }
    if flow.octetsB > 0 {
      if retLen + freclen > len {
        return -1, 0;
      }
      ghost var before := packet[off..off + retLen];
      Copy(packet, off + retLen, Record(flow, true));
      assert packet[off..off + retLen] == packet[..off + retLen][off..];
      assert packet[off..off + retLen + freclen] == packet[off..off + retLen] + packet[off + retLen..off + retLen + freclen];
      retLen, nflows := retLen + freclen, nflows + 1;
    }
    r, used := nflows, retLen;
  }

  predicate SetsOk(sets: seq<DataSet>) {
    forall s <- sets :: SetOk(s) && SetLength(s) <= MAX_PACKET_SIZE && SetLength(s) % 4 == 0
  }

  /** The flows of an open flowset can stand together in one. */
  predicate CurOk(v6: bool, cur: seq<Flow>) {
    forall f <- cur :: Exportable(f) && f.ends.Inet6? == v6
  }

  /** The packet from start on: finished flowsets, and if dh is a position, one more
      flowset open there with the flows cur. */
  ghost predicate Laid(p: seq<u8>, start: nat, offset: nat, dh: int, sets: seq<DataSet>, v6: bool, cur: seq<Flow>) {
    && |p| == MAX_PACKET_SIZE && start <= offset <= |p| && start % 4 == 0 && SetsOk(sets) && CurOk(v6, cur)
    && var pos := start + |EncodeSets(sets)|;
      if dh < 0 then cur == [] && offset == pos && p[start..offset] == EncodeSets(sets)
      else
        && dh == pos && offset == dh + SET_HEADER_SIZE + |Body(cur)|
        && p[start..dh] == EncodeSets(sets)
        && p[dh..dh + 2] == Put16(TemplateId(v6))
        && p[dh + SET_HEADER_SIZE..offset] == Body(cur)
  }

  lemma {:induction false} SetsAligned(sets: seq<DataSet>)
    requires SetsOk(sets)
    ensures |EncodeSets(sets)| % 4 == 0
  {
    hide SetOk, EncodeSet, SetLength, Body;
    if sets != [] {
      var s := sets[|sets| - 1];
      SetsAligned(sets[..|sets| - 1]);
      assert SetLength(s) % 4 == 0;
      assert EncodeSets(sets) == EncodeSets(sets[..|sets| - 1]) + EncodeSet(s);
    }
  }

  function Padding(offset: nat): (n: nat)
    ensures n < 4 && (offset + n) % 4 == 0
  {
    if offset % 4 != 0 then 4 - offset % 4 else 0
  }

  /** What the bytes of a packet are after two of them, at dh + 2, changed. */
  lemma Slices(p: seq<u8>, p': seq<u8>, start: nat, dh: nat, offset: nat, end: nat)
    requires start <= dh && dh + 4 <= offset <= end <= |p| == |p'|
    requires p'[..dh + 2] == p[..dh + 2] && p'[dh + 4..] == p[dh + 4..]
    ensures p'[start..dh] == p[start..dh] && p'[dh..dh + 2] == p[dh..dh + 2]
    ensures p'[start..end] == p[start..dh] + (p[dh..dh + 2] + p'[dh + 2..dh + 4] + p[dh + 4..offset] + p[offset..end])
  {
    assert p[0..dh + 2] == p'[0..dh + 2] && p[dh + 4..|p|] == p'[dh + 4..|p|];
    SamePart(p, p', 0, dh + 2, start, dh);
    SamePart(p, p', 0, dh + 2, dh, dh + 2);
    SamePart(p, p', dh + 4, |p|, dh + 4, offset);
    SamePart(p, p', dh + 4, |p|, offset, end);
    Join(p', start, dh, end);
    Join(p', dh, dh + 2, end);
    Join(p', dh + 2, dh + 4, end);
    Join(p', dh + 4, offset, end);
  }

  lemma OneMoreSet(sets: seq<DataSet>, s: DataSet)
    requires SetsOk(sets) && SetOk(s) && SetLength(s) <= MAX_PACKET_SIZE && SetLength(s) % 4 == 0
    ensures SetsOk(sets + [s]) && EncodeSets(sets + [s]) == EncodeSets(sets) + EncodeSet(s)
    ensures SetFlows(sets + [s]) == SetFlows(sets) + s.flows
  {
    assert (sets + [s])[..|sets|] == sets;
  }

  lemma SetIs(s: DataSet)
    ensures SetOk(s) <==> s.flows != [] && CurOk(s.v6, s.flows) && |s.pad| < 4
    ensures SetOk(s) ==> SetLength(s) == SET_HEADER_SIZE + |Body(s.flows)| + |s.pad|
    ensures SetOk(s) && SetLength(s) <= MAX_PACKET_SIZE ==>
      EncodeSet(s) == Put16(TemplateId(s.v6)) + Put16(SetLength(s)) + Body(s.flows) + s.pad
  {
  }

  /** The padding and the length finish a flowset. */
  lemma ClosedSet(p: seq<u8>, p': seq<u8>, start: nat, offset: nat, dh: nat, sets: seq<DataSet>, v6: bool, cur: seq<Flow>)
    returns (sets': seq<DataSet>)
    requires Laid(p, start, offset, dh, sets, v6, cur) && cur != []
    requires |p'| == |p| && p'[..dh + 2] == p[..dh + 2] && p'[dh + 4..] == p[dh + 4..]
    requires offset + Padding(offset) <= MAX_PACKET_SIZE
    requires p'[dh + 2..dh + 4] == Put16(SET_HEADER_SIZE + |Body(cur)| + Padding(offset))
    ensures Laid(p', start, offset + Padding(offset), -1, sets', v6, [])
    ensures SetFlows(sets') == SetFlows(sets) + cur
  {
    hide EncodeSets, Body, SetFlows, SetsOk, SetOk, SetLength, EncodeSet, CurOk, Put16;
    var end := offset + Padding(offset);
    var s := DataSet(v6, cur, p[offset..end]);
    sets' := sets + [s];
    SetsAligned(sets);
    SetIs(s);
    NothingOpen(v6);
    Slices(p, p', start, dh, offset, end);
    OneMoreSet(sets, s);
  }

  lemma NothingOpen(v6: bool)
    ensures CurOk(v6, []) && Body([]) == [] && EncodeSets([]) == [] && SetsOk([])
  {
  }

  lemma OpenedSet(p: seq<u8>, p': seq<u8>, start: nat, offset: nat, sets: seq<DataSet>, v6: bool, v6': bool)
    requires Laid(p, start, offset, -1, sets, v6, []) && offset + SET_HEADER_SIZE <= MAX_PACKET_SIZE
    requires |p'| == |p| && p'[..offset] == p[..offset] && p'[offset..offset + 2] == Put16(TemplateId(v6'))
    ensures Laid(p', start, offset + SET_HEADER_SIZE, offset, sets, v6', [])
  {
    NothingOpen(v6');
    SamePart(p, p', 0, offset, start, offset);
  }

  lemma OneMoreFlow(v6: bool, cur: seq<Flow>, f: Flow)
    requires CurOk(v6, cur) && Exportable(f) && f.ends.Inet6? == v6
    ensures CurOk(v6, cur + [f]) && Body(cur + [f]) == Body(cur) + Records(f)
  {
    assert (cur + [f])[..|cur|] == cur;
  }

  lemma AddedFlow(p: seq<u8>, p': seq<u8>, start: nat, offset: nat, dh: nat, sets: seq<DataSet>, v6: bool,
                  cur: seq<Flow>, f: Flow)
    requires Laid(p, start, offset, dh, sets, v6, cur) && Exportable(f) && f.ends.Inet6? == v6
    requires |p'| == |p| && p'[..offset] == p[..offset]
    requires offset + |Records(f)| <= |p| && p'[offset..offset + |Records(f)|] == Records(f)
    ensures Laid(p', start, offset + |Records(f)|, dh, sets, v6, cur + [f])
  {
    hide EncodeSets, Body, Records, Put16, CurOk;
    OneMoreFlow(v6, cur, f);
    SamePart(p, p', 0, offset, start, dh);
    SamePart(p, p', 0, offset, dh, dh + 2);
    SamePart(p, p', 0, offset, dh + 4, offset);
    Join(p', dh + 4, offset, offset + |Records(f)|);
  }

  /** Only the bytes before the offset matter. */
  lemma SameLaid(p: seq<u8>, p': seq<u8>, start: nat, offset: nat, dh: int, sets: seq<DataSet>, v6: bool, cur: seq<Flow>)
    requires Laid(p, start, offset, dh, sets, v6, cur) && |p'| == |p| && p'[..offset] == p[..offset]
    ensures Laid(p', start, offset, dh, sets, v6, cur)
  {
    SamePart(p, p', 0, offset, start, offset);
    if dh >= 0 {
      SamePart(p, p', 0, offset, start, dh);
      SamePart(p, p', 0, offset, dh, dh + 2);
      SamePart(p, p', 0, offset, dh + 4, offset);
    }
  }

  /** Taking back the header of a flowset that got no flow. */
  lemma Yanked(p: seq<u8>, start: nat, offset: nat, dh: nat, sets: seq<DataSet>, v6: bool)
    requires Laid(p, start, offset, dh, sets, v6, [])
    ensures Laid(p, start, dh, -1, sets, v6, []) && dh + SET_HEADER_SIZE == offset
  {
  }

  /** Pad the open flowset and fill in its length; a flowset without flows has already
      been taken back. */
  method CloseSet(packet: array<u8>, offset: nat, dh: nat, dhLen: nat,
                  ghost start: nat, ghost sets: seq<DataSet>, ghost v6: bool, ghost cur: seq<Flow>)
    returns (end: nat, ghost sets': seq<DataSet>)
    requires packet.Length == MAX_PACKET_SIZE && start <= dh && dh + SET_HEADER_SIZE <= MAX_PACKET_SIZE
    requires if cur == [] then Laid(packet[..], start, offset, -1, sets, v6, []) && offset == dh && dhLen == SET_HEADER_SIZE
      else Laid(packet[..], start, offset, dh, sets, v6, cur) && dhLen == offset - dh
    modifies packet
    ensures packet[..start] == old(packet[..start])
    ensures Laid(packet[..], start, end, -1, sets', v6, []) && SetFlows(sets') == SetFlows(sets) + cur
  {
    hide EncodeSets, Body, Put16, CurOk, SetFlows, SetsOk;
    ghost var p := packet[..];
    SetsAligned(sets);
    end := offset;
    var len := dhLen;
    if offset % 4 != 0 {
      len := len + (4 - offset % 4);
      end := end + (4 - offset % 4);
    }
    Copy(packet, dh + 2, Put16(len));
    sets' := sets;
    if cur != [] {
      sets' := ClosedSet(p, packet[..], start, offset, dh, sets, v6, cur);
    } else {
      SameLaid(p, packet[..], start, offset, -1, sets, v6, []);
    }
  }

  /** The start of a flowset for flows of the given family. */
  method OpenSet(packet: array<u8>, flow: Flow, offset0: nat, ghost start: nat, ghost sets: seq<DataSet>, ghost v6: bool)
    returns (offset: nat)
    requires packet.Length == MAX_PACKET_SIZE && Laid(packet[..], start, offset0, -1, sets, v6, [])
    requires offset0 + SET_HEADER_SIZE <= MAX_PACKET_SIZE
    modifies packet
    ensures packet[..start] == old(packet[..start]) && offset == offset0 + SET_HEADER_SIZE
    ensures Laid(packet[..], start, offset, offset0, sets, !flow.ends.Inet?, [])
  {
    hide EncodeSets, Body, Put16, CurOk, SetsOk;
    ghost var p := packet[..];
    Copy(packet, offset0, Put16(TemplateId(!flow.ends.Inet?)));
    SamePart(p, packet[..], 0, offset0, 0, start);
    offset := offset0 + SET_HEADER_SIZE;
    OpenedSet(p, packet[..], start, offset0, sets, v6, !flow.ends.Inet?);
  }

  /** A flow goes to the end of the open flowset if it fits there. */
  method AddFlow(packet: array<u8>, flow: Flow, offset: nat, ghost start: nat, ghost dh: nat,
                 ghost sets: seq<DataSet>, ghost v6: bool, ghost cur: seq<Flow>)
    returns (r: int, inc: nat)
    requires packet.Length == MAX_PACKET_SIZE && Laid(packet[..], start, offset, dh, sets, v6, cur)
    requires flow.ends.Inet6? ==> v6
    requires flow.ends.Inet? ==> !v6
    modifies packet
    ensures packet[..start] == old(packet[..start])
    ensures if r > 0 then
        && Exportable(flow) && !flow.ends.OtherFamily? && flow.ends.Inet6? == v6 && r == |Directions(flow)| && inc == |Records(flow)|
        && Laid(packet[..], start, offset + inc, dh, sets, v6, cur + [flow])
      else
        Laid(packet[..], start, offset, dh, sets, v6, cur) && (offset <= 128 ==> !Exportable(flow))
  {
    hide EncodeSets, Body, Put16, CurOk, SetsOk;
    ghost var p := packet[..];
    RecordsSize(flow);
    r, inc := FlowToFlowset(flow, packet, offset, MAX_PACKET_SIZE - offset);
    SamePart(p, packet[..], 0, offset, 0, start);
    if r > 0 {
      AddedFlow(p, packet[..], start, offset, dh, sets, v6, cur, flow);
    } else {
      SameLaid(p, packet[..], start, offset, dh, sets, v6, cur);
    }
  }

  lemma RecordsSize(f: Flow)
    ensures !f.ends.OtherFamily? ==> |Records(f)| <= 110 && (|Directions(f)| > 0 <==> Exportable(f))
  {
  }

  lemma NextFlow(flows: seq<Flow>, j: nat, i: nat)
    requires j + i < |flows|
    ensures flows[j..j + i] + [flows[j + i]] == flows[j..j + i + 1]
    ensures CountRecords(flows[j..j + i + 1]) == CountRecords(flows[j..j + i]) + |Directions(flows[j + i])|
    ensures flows[j..j] == []
  {
    assert flows[j..j + i + 1][..i] == flows[j..j + i];
  }

  lemma NothingLaid(p: seq<u8>, start: nat)
    requires |p| == MAX_PACKET_SIZE && start <= 124 && start % 4 == 0
    ensures Laid(p, start, start, -1, [], false, [])
  {
  }

  lemma LaidIs(p: seq<u8>, start: nat, offset: nat, dh: int, sets: seq<DataSet>, v6: bool, cur: seq<Flow>)
    requires Laid(p, start, offset, dh, sets, v6, cur)
    ensures start <= offset <= MAX_PACKET_SIZE && (dh < 0 ==> Laid(p, start, offset, dh, sets, false, cur))
    ensures dh >= 0 ==> start <= dh && dh + SET_HEADER_SIZE <= MAX_PACKET_SIZE
  {
    NothingOpen(false);
  }

  lemma NoFlows()
    ensures SetFlows([]) == [] && CountRecords([]) == 0
  {
  }

  /** The inner loop: put flows from the j-th on into the packet until one does not fit. */
  method PackFlows(packet: array<u8>, flows: seq<Flow>, j: nat, start: nat)
    returns (offset: nat, i: nat, nflows: nat, ghost sets: seq<DataSet>)
    requires packet.Length == MAX_PACKET_SIZE && j < |flows| && 0 < start <= 124 && start % 4 == 0
    modifies packet
    ensures packet[..start] == old(packet[..start]) && j + i <= |flows|
    ensures Laid(packet[..], start, offset, -1, sets, false, []) && SetFlows(sets) == flows[j..j + i]
    ensures nflows == CountRecords(flows[j..j + i]) && (i > 0 <==> Exportable(flows[j]))
  {
    hide EncodeSets, Body, Put16, SetFlows, SetsOk, Records, CountRecords, Directions, Exportable, Laid;
    ghost var v6, cur := false, [];
    sets := [];
    var dh: int, dhLen: nat, lastAf: int, lastValid: nat := -1, 0, 0, 0;
    offset, i, nflows := start, 0, 0;
    NothingLaid(packet[..], start);
    NoFlows();
    while i + j < |flows|
      invariant j + i <= |flows| && packet[..start] == old(packet[..start])
      invariant Laid(packet[..], start, offset, dh, sets, v6, cur) && SetFlows(sets) + cur == flows[j..j + i]
      invariant nflows == CountRecords(flows[j..j + i]) && (i > 0 ==> Exportable(flows[j]))
      invariant if dh == -1 then i == 0 && sets == [] && cur == [] && offset == start
        else 0 < start <= dh <= MAX_PACKET_SIZE - SET_HEADER_SIZE && cur != [] && dhLen == offset - dh && lastAf == (if v6 then 10 else 2) && lastValid == 0
    {
      var flow := flows[i + j];
      LaidIs(packet[..], start, offset, dh, sets, v6, cur);
      if dh == -1 || AfOf(flow.ends) != lastAf {
        if dh != -1 {
          offset, sets := CloseSet(packet, offset, dh, dhLen, start, sets, v6, cur);
          cur := [];
          LaidIs(packet[..], start, offset, -1, sets, v6, cur);
        }
        if offset + SET_HEADER_SIZE > MAX_PACKET_SIZE {
          dh := -1;
          break;
        }
        dh := offset;
        lastAf := AfOf(flow.ends);
        lastValid := offset;
        dhLen := SET_HEADER_SIZE;
        offset := OpenSet(packet, flow, offset, start, sets, v6);
        v6 := !flow.ends.Inet?;
      }
      LaidIs(packet[..], start, offset, dh, sets, v6, cur);
      var r, inc := AddFlow(packet, flow, offset, start, dh, sets, v6, cur);
      NextFlow(flows, j, i);
      if r <= 0 {
        if lastValid != 0 {
          Yanked(packet[..], start, offset, dh, sets, v6);
          offset := lastValid;
        }
        break;
      }
      cur := cur + [flow];
      offset := offset + inc;
      dhLen := dhLen + inc;
      nflows := nflows + r;
      lastValid := 0;
      i := i + 1;
    }
    if dh != -1 {
      offset, sets := CloseSet(packet, offset, dh, dhLen, start, sets, v6, cur);
    }
    LaidIs(packet[..], start, offset, -1, sets, v6, []);
  }

  // ----- Whole packets -----

  /** Every record takes 31 bytes or more, so the 16-bit record count cannot overflow. */
  lemma {:induction false} CountFits(flows: seq<Flow>)
    requires forall f <- flows :: !f.ends.OtherFamily?
    ensures 31 * CountRecords(flows) <= |Body(flows)|
  {
    if flows != [] {
      CountFits(flows[..|flows| - 1]);
      hide Records, Directions;
      assert 31 * |Directions(flows[|flows| - 1])| <= |Records(flows[|flows| - 1])|;
    }
  }

  lemma {:induction false} CountConcat(a: seq<Flow>, b: seq<Flow>)
    ensures CountRecords(a + b) == CountRecords(a) + CountRecords(b)
  {
    if b == [] {
      assert a + b == a;
    } else {
      CountConcat(a, b[..|b| - 1]);
      assert (a + b)[..|a + b| - 1] == a + b[..|b| - 1];
    }
  }

  lemma CurIs(v6: bool, cur: seq<Flow>)
    requires CurOk(v6, cur)
    ensures forall f <- cur :: Exportable(f) && !f.ends.OtherFamily?
  {
  }

  lemma {:induction false} SetsCountFits(sets: seq<DataSet>)
    requires SetsOk(sets)
    ensures 31 * CountRecords(SetFlows(sets)) <= |EncodeSets(sets)|
  {
    if sets != [] {
      hide SetOk, SetLength, EncodeSet, Body, CountRecords, CurOk;
      var n := |sets| - 1;
      SetsCountFits(sets[..n]);
      CountConcat(SetFlows(sets[..n]), sets[n].flows);
      assert sets[n] in sets;
      SetIs(sets[n]);
      CurIs(sets[n].v6, sets[n].flows);
      CountFits(sets[n].flows);
    }
  }

  lemma {:induction false} NoSetNoFlow(sets: seq<DataSet>)
    requires SetsOk(sets)
    ensures sets == [] <==> SetFlows(sets) == []
    ensures forall f <- SetFlows(sets) :: Exportable(f)
  {
    if sets != [] {
      NoSetNoFlow(sets[..|sets| - 1]);
      assert sets[|sets| - 1] in sets;
    }
  }

  method BuildPacket(flows: seq<Flow>, j: nat, uptime: u32, time: u32, sequence: u32, templates: bool)
    returns (bytes: seq<u8>, i: nat, ghost p: Packet)
    requires j < |flows|
    ensures p.uptime == uptime && p.time == time && p.sequence == sequence && p.templates == templates
    ensures (i > 0 <==> Exportable(flows[j])) && j + i <= |flows| && SetFlows(p.sets) == flows[j..j + i]
    ensures i > 0 ==> PacketOk(p) && bytes == EncodePacket(p)
  {
    hide EncodeTemplate, EncodeSets, SetFlows, CountRecords, Put16, Put32;
    var packet := new u8[MAX_PACKET_SIZE](_ => 0);
    var offset := HEADER_SIZE;
    if templates {
      Copy(packet, offset, EncodeTemplate(false));
      offset := offset + TEMPLATE_SIZE;
      ghost var was := packet[..offset];
      Copy(packet, offset, EncodeTemplate(true));
      SamePart(was, packet[..], 0, offset, HEADER_SIZE, offset);
      Join(packet[..], HEADER_SIZE, offset, offset + TEMPLATE_SIZE);
      offset := offset + TEMPLATE_SIZE;
    }
    ghost var start, before := offset, packet[..offset];
    var nflows: nat;
    ghost var sets;
    offset, i, nflows, sets := PackFlows(packet, flows, j, offset);
    p := Packet(uptime, time, sequence, templates, sets);
    LaidIs(packet[..], start, offset, -1, sets, false, []);
    SetsCountFits(sets);
    NoSetNoFlow(sets);
    ghost var body := packet[..];
    SamePart(before, body, 0, start, HEADER_SIZE, start);
    Copy(packet, 0, Header(nflows, uptime, time, sequence));
    SamePart(body, packet[..], HEADER_SIZE, |body|, HEADER_SIZE, start);
    SamePart(body, packet[..], HEADER_SIZE, |body|, start, offset);
    Join(packet[..], 0, HEADER_SIZE, start);
    Join(packet[..], 0, start, offset);
    bytes := packet[..offset];
  }

  // ----- Whole runs -----

  /** The packets carry the flows, each flow in exactly one packet, in order. */
  ghost function PacketFlows(ps: seq<Packet>): seq<Flow> {
    if ps == [] then [] else PacketFlows(ps[..|ps| - 1]) + SetFlows(ps[|ps| - 1].sets)
  }

  ghost predicate Carry(sent: seq<seq<u8>>, ps: seq<Packet>) {
    |sent| == |ps| && forall k :: 0 <= k < |ps| ==> PacketOk(ps[k]) && sent[k] == EncodePacket(ps[k])
  }

  ghost function Flags(ps: seq<Packet>): (r: seq<bool>)
    ensures |r| == |ps| && forall k :: 0 <= k < |ps| ==> r[k] == ps[k].templates
  {
    if ps == [] then [] else Flags(ps[..|ps| - 1]) + [ps[|ps| - 1].templates]
  }

  /** Among any sixteen consecutive packets one carries the templates. */
  ghost predicate Regular(history: seq<bool>) {
    forall k: nat :: k + TEMPLATE_INTERVAL <= |history| ==> Window(history, k)
  }

  ghost predicate Window(history: seq<bool>, k: nat)
    requires k + TEMPLATE_INTERVAL <= |history|
  {
    exists i :: k <= i < k + TEMPLATE_INTERVAL && history[i]
  }

  /** The counter says how long ago the last templates went out. */
  ghost predicate Counts(history: seq<bool>, until: int) {
    until > 0 ==>
      && until < TEMPLATE_INTERVAL && |history| + until >= TEMPLATE_INTERVAL
      && history[|history| - (TEMPLATE_INTERVAL - until)]
  }

  lemma NextRegular(history: seq<bool>, until: int)
    requires Regular(history) && Counts(history, until)
    ensures var t := until <= 0;
            var history' := history + [t];
      Regular(history') && Counts(history', (if t then TEMPLATE_INTERVAL else until) - 1)
  {
    var t := until <= 0;
    var h := history + [t];
    forall k: nat | k + TEMPLATE_INTERVAL <= |h| ensures Window(h, k) {
      if k + TEMPLATE_INTERVAL <= |history| {
        assert Window(history, k);
        var i :| k <= i < k + TEMPLATE_INTERVAL && history[i];
        assert h[i];
      } else {
        assert h[if t then |history| else |history| - (TEMPLATE_INTERVAL - until)];
      }
    }
  }

  /** The position of the first flow that cannot be exported. */
  ghost function FirstBad(flows: seq<Flow>): (r: nat)
    ensures r <= |flows| && (forall k :: 0 <= k < r ==> Exportable(flows[k])) && (r < |flows| ==> !Exportable(flows[r]))
  {
    if flows == [] then 0
    else if Exportable(flows[0]) then 1 + FirstBad(flows[1..])
    else 0
  }

  /** A packet ends before the first such flow. */
  lemma NotPast(flows: seq<Flow>, j: nat, i: nat, p: Packet)
    requires j + i <= |flows| && SetFlows(p.sets) == flows[j..j + i] && j <= FirstBad(flows)
    requires i > 0 ==> PacketOk(p)
    ensures j + i <= FirstBad(flows)
  {
    hide Exportable, SetFlows;
    if i > 0 {
      NoSetNoFlow(p.sets);
      assert forall k :: j <= k < j + i ==> flows[k] == flows[j..j + i][k - j];
    }
  }

  /** The number of flows exported before a packet, modulo 2^32. */
  ghost function Sequence(before: seq<Packet>, exported: u64): u32 {
    (exported + |PacketFlows(before)|) % 0x1_0000_0000
  }

  /** Every packet is stamped with the uptime, with the time at which it was made, and with
      the number of flows exported before it. */
  ghost predicate Stamped(ps: seq<Packet>, exported: u64, uptime: u32, clock: nat -> u32) {
    forall k :: 0 <= k < |ps| ==>
      ps[k].uptime == uptime && ps[k].time == clock(k) && ps[k].sequence == Sequence(ps[..k], exported)
  }

  /** So it stands in the bytes of its header (section 5.1 of RFC 3954), with the version, the
      number of records and the source, which is 0. */
  ghost predicate HeadedBy(bytes: seq<u8>, count: nat, uptime: u32, time: u32, sequence: u32) {
    && |bytes| >= 20 && Get16(bytes, 0) == 9 && Get16(bytes, 2) == count
    && Get32(bytes, 4) == uptime && Get32(bytes, 8) == time && Get32(bytes, 12) == sequence && Get32(bytes, 16) == 0
  }

  ghost predicate Headed(sent: seq<seq<u8>>, ps: seq<Packet>, exported: u64, uptime: u32, clock: nat -> u32) {
    |sent| == |ps| && forall k :: 0 <= k < |ps| ==>
      HeadedBy(sent[k], CountRecords(SetFlows(ps[k].sets)), uptime, clock(k), Sequence(ps[..k], exported))
  }

  lemma PacketHeaded(p: Packet)
    requires PacketOk(p)
    ensures HeadedBy(EncodePacket(p), CountRecords(SetFlows(p.sets)), p.uptime, p.time, p.sequence)
  {
    hide Put16, Put32, Get16, Get32, EncodeSets, Templates, CountRecords, SetFlows, SetOk, SetLength;
    var count := CountRecords(SetFlows(p.sets));
    var bytes := EncodePacket(p);
    assert bytes[0..2] == Put16(9) && bytes[2..4] == Put16(count) && bytes[4..8] == Put32(p.uptime);
    assert bytes[8..12] == Put32(p.time) && bytes[12..16] == Put32(p.sequence) && bytes[16..20] == Put32(0);
    GetPut16(bytes, 0, 9);
    GetPut16(bytes, 2, count);
    GetPut32(bytes, 4, p.uptime);
    GetPut32(bytes, 8, p.time);
    GetPut32(bytes, 12, p.sequence);
    GetPut32(bytes, 16, 0);
  }

  lemma NothingStamped(exported: u64, uptime: u32, clock: nat -> u32)
    ensures Stamped([], exported, uptime, clock) && Headed([], [], exported, uptime, clock)
  {
  }

  lemma OneMoreStamp(sent: seq<seq<u8>>, ps: seq<Packet>, bytes: seq<u8>, p: Packet, exported: u64, uptime: u32, clock: nat -> u32)
    requires Stamped(ps, exported, uptime, clock) && Headed(sent, ps, exported, uptime, clock)
    requires PacketOk(p) && bytes == EncodePacket(p) && p.uptime == uptime && p.time == clock(|ps|)
    requires p.sequence == Sequence(ps, exported)
    ensures Stamped(ps + [p], exported, uptime, clock) && Headed(sent + [bytes], ps + [p], exported, uptime, clock)
  {
    hide PacketOk, EncodePacket, SetFlows, Sequence, CountRecords, HeadedBy;
    var all, bytes' := ps + [p], sent + [bytes];
    PacketHeaded(p);
    forall k | 0 <= k < |all|
      ensures all[k].uptime == uptime && all[k].time == clock(k) && all[k].sequence == Sequence(all[..k], exported)
      ensures HeadedBy(bytes'[k], CountRecords(SetFlows(all[k].sets)), uptime, clock(k), Sequence(all[..k], exported))
    {
      if k < |ps| {
        assert all[..k] == ps[..k] && all[k] == ps[k] && bytes'[k] == sent[k];
      } else {
        assert all[..k] == ps && all[k] == p && bytes'[k] == bytes;
      }
    }
  }

  class Exporter {
    var untilTemplate: int  // nf9_pkts_until_template
    ghost var history: seq<bool>  // of every packet sent, whether it carried the templates
    ghost var failed: bool

    /** Unless a send failed, the templates go out regularly. */
    ghost predicate Valid()
      reads this
    {
      !failed ==> Regular(history) && Counts(history, untilTemplate)
    }

    constructor ()
      ensures Valid() && untilTemplate == -1 && history == [] && !failed
    {
      untilTemplate, history, failed := -1, [], false;
    }

    /** netflow9_resend_template. */
    method ResendTemplate()
      requires Valid()
      modifies this`untilTemplate
      ensures Valid() && untilTemplate <= 0
    {
      if untilTemplate > 0 {
        untilTemplate := 0;
      }
    }

    /** The start of a round of the loop: a packet for the flows from the j-th on, with the
        templates if they are due. */
    method Fill(flows: seq<Flow>, j: nat, exported: u64, uptime: u32, time: u32)
      returns (bytes: seq<u8>, i: nat, ghost p: Packet)
      requires j < |flows|
      modifies this`untilTemplate
      ensures p.templates == (old(untilTemplate) <= 0)
      ensures p.uptime == uptime && p.time == time && p.sequence == (exported + j) % 0x1_0000_0000
      ensures untilTemplate == if old(untilTemplate) <= 0 then TEMPLATE_INTERVAL else old(untilTemplate)
      ensures (i > 0 <==> Exportable(flows[j])) && j + i <= |flows| && SetFlows(p.sets) == flows[j..j + i]
      ensures i > 0 ==> PacketOk(p) && bytes == EncodePacket(p)
    {
      var templates := untilTemplate <= 0;
      if templates {
        untilTemplate := TEMPLATE_INTERVAL;
      }
      bytes, i, p := BuildPacket(flows, j, uptime, time, (exported + j) % 0x1_0000_0000, templates);
    }

    /** The loop of send_netflow_v9 for a number of rounds, whatever the flows are. It comes
        to the first flow that cannot be exported, never past it, and never to its end. */
    method Rounds(flows: seq<Flow>, rounds: nat, exported: u64, uptime: u32, clock: nat -> u32) returns (j: nat, packets: nat)
      requires Valid()
      modifies this
      ensures Valid() && j <= FirstBad(flows) && (rounds >= FirstBad(flows) ==> j == FirstBad(flows))
      ensures packets == rounds || (packets < rounds && j == |flows|)
      ensures FirstBad(flows) < |flows| ==> packets == rounds && j < |flows|
    {
      hide Exportable, PacketOk, EncodePacket, Regular, Counts, SetFlows;
      DueNow(history);
      if untilTemplate == -1 {
        untilTemplate := 0;
      }
      j, packets := 0, 0;
      while packets < rounds && j < |flows|
        invariant packets <= rounds && j <= FirstBad(flows) && Valid()
        invariant packets >= FirstBad(flows) ==> j == FirstBad(flows)
        invariant j >= packets || j == FirstBad(flows)
      {
        ghost var was := untilTemplate;
        var bytes, i;
        ghost var p;
        bytes, i, p := Fill(flows, j, exported, uptime, clock(packets));
        NotPast(flows, j, i, p);
        if !failed { NextRegular(history, was); }
        history := history + [was <= 0];
        untilTemplate := untilTemplate - 1;
        packets := packets + 1;
        j := j + i;
      }
    }

    /** send_netflow_v9. The clock gives the time at each packet; sendOk says which sends
        succeed. The result is the number of packets, or -1 if and only if a send fails. */
    method Send(flows: seq<Flow>, exported: u64, uptime: u32, clock: nat -> u32, sendOk: nat -> bool)
      returns (result: int, exported': nat, sent: seq<seq<u8>>, ghost ps: seq<Packet>)
      requires Valid() && forall f <- flows :: Exportable(f)
      modifies this
      ensures Valid() && Carry(sent, ps) && history == old(history) + Flags(ps)
      ensures flows != [] && old(untilTemplate) <= 0 && ps != [] ==> ps[0].templates
      ensures forall k :: 0 <= k < |sent| ==> sendOk(k)
      ensures Stamped(ps, exported, uptime, clock) && Headed(sent, ps, exported, uptime, clock)
      ensures if result == -1 then
          PacketFlows(ps) <= flows && exported' == exported && failed && !sendOk(|sent|)
        else
          PacketFlows(ps) == flows && exported' == exported + |flows| && result == |sent| && failed == old(failed)
    {
      hide Exportable, PacketOk, EncodePacket, PacketFlows, Regular, Counts, Flags, SetFlows, Carry, Stamped, Headed;
      NoPackets();
      NothingStamped(exported, uptime, clock);
      DueNow(history);
      sent, ps, result := [], [], 0;
      var j := 0;
      if untilTemplate == -1 {
        untilTemplate := 0;
      }
      while j < |flows|
        invariant j <= |flows| && Carry(sent, ps) && history == old(history) + Flags(ps) && result == |sent| == |ps|
        invariant forall k :: 0 <= k < |sent| ==> sendOk(k)
        invariant Stamped(ps, exported, uptime, clock) && Headed(sent, ps, exported, uptime, clock)
        invariant PacketFlows(ps) == flows[..j] && Valid() && failed == old(failed)
        invariant old(untilTemplate) <= 0 ==> if ps == [] then untilTemplate <= 0 else ps[0].templates
        decreases |flows| - j
      {
        ghost var was := untilTemplate;
        var bytes, i;
        ghost var p;
        assert Exportable(flows[j]) by { assert flows[j] in flows; }
        bytes, i, p := Fill(flows, j, exported, uptime, clock(result));
        if !sendOk(result) {
          failed := true;
          assert flows[..j] <= flows;
          return -1, exported, sent, ps;
        }
        if !failed { NextRegular(history, was); }
        history := history + [p.templates];
        OneMorePacket(sent, ps, bytes, p);
        OneMoreStamp(sent, ps, bytes, p, exported, uptime, clock);
        sent, ps := sent + [bytes], ps + [p];
        result := result + 1;
        untilTemplate := untilTemplate - 1;
        assert flows[..j + i] == flows[..j] + flows[j..j + i];
        j := j + i;
      }
      assert flows[..|flows|] == flows;
      exported' := exported + j;
    }
  }

  lemma DueNow(history: seq<bool>)
    ensures forall until :: until <= 0 ==> Counts(history, until)
  {
  }

  lemma NoPackets()
    ensures Carry([], []) && Flags([]) == [] && PacketFlows([]) == []
  {
  }

  lemma OneMorePacket(sent: seq<seq<u8>>, ps: seq<Packet>, bytes: seq<u8>, p: Packet)
    requires Carry(sent, ps) && PacketOk(p) && bytes == EncodePacket(p)
    ensures Carry(sent + [bytes], ps + [p]) && Flags(ps + [p]) == Flags(ps) + [p.templates]
    ensures PacketFlows(ps + [p]) == PacketFlows(ps) + SetFlows(p.sets)
  {
    hide PacketOk, EncodePacket, SetFlows;
    var all, bytes' := ps + [p], sent + [bytes];
    assert all[..|ps|] == ps && all[|ps|] == p;
    forall k | 0 <= k < |all| ensures PacketOk(all[k]) && bytes'[k] == EncodePacket(all[k]) {
      if k < |ps| { assert all[k] == ps[k] && bytes'[k] == sent[k]; }
    }
  }
}
