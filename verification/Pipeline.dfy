/** The way of a flow record from a packet to the log: process_flow of flowd/flowd.c. */
module Pipeline {
  import opened Addr
  import AddrMatch
  import opened Bytes
  import opened FlowRecord
  import F = Filter
  import opened Nf9Collect
  import opened OutputLog
  import H = Nf9Handlers
  import Nf9Session
  import opened Nf9Wire
  import P = Peers
  import R = Nf9RoundTrip
  import X = Nf9Export
  import opened PeerState
  import S = Store
  import opened StoreRoundTrip

  // ----- What the log can take -----

  /** The flags of an address as the collector leaves them: the one for its family, and
      none if it has no family. */
  predicate Flagged(fs: Fields, af: AddrMatch.Family, four: nat, six: nat) {
    match af
    case Inet => four in fs
    case Inet6 => six in fs
    case OtherFamily => four !in fs && six !in fs
  }

  ghost predicate Storable(f: StoreFlow) {
    && Flagged(f.fields, f.agent.af, AGENT_ADDR4, AGENT_ADDR6) && Flagged(f.fields, f.src.af, SRC_ADDR4, SRC_ADDR6)
    && Flagged(f.fields, f.dst.af, DST_ADDR4, DST_ADDR6) && Flagged(f.fields, f.gateway.af, GATEWAY_ADDR4, GATEWAY_ADDR6)
    && forall b <- f.fields :: b < S.BODY_FIELDS
  }

  const NUMBER_FIELDS: Fields :=
    {OCTETS, PACKETS, PROTO_FLAGS_TOS, SRCDST_PORT, AS_INFO, IF_INDICES, FLOW_TIMES, FLOW_ENGINE_INFO}

  lemma NumberRecord(kind: nat, f: StoreFlow, data: seq<u8>)
    requires CheckRecLen(kind, |data|) && !IsAddr(kind)
    ensures var g := RecToFlow(kind, f, data);
      && g.agent == f.agent && g.src == f.src && g.dst == f.dst && g.gateway == f.gateway
      && f.fields <= g.fields <= f.fields + NUMBER_FIELDS
  {
    hide Copy1, Copy2, Copy4, Copy8;
  }

  lemma FlaggedSame(fs: Fields, fs': Fields, af: AddrMatch.Family, four: nat, six: nat)
    requires fs <= fs' <= fs + NUMBER_FIELDS && four !in NUMBER_FIELDS && six !in NUMBER_FIELDS
    ensures Flagged(fs, af, four, six) <==> Flagged(fs', af, four, six)
  {
  }

  lemma AddressStorable(kind: nat, f: StoreFlow, data: seq<u8>)
    requires CheckRecLen(kind, |data|) && IsAddr(kind) && Storable(f)
    ensures Storable(RecToFlow(kind, f, data))
  {
    hide Copy1, Copy2, Copy4, Copy8;
  }

  lemma RecordStorable(kind: nat, f: StoreFlow, data: seq<u8>)
    requires CheckRecLen(kind, |data|) && Storable(f)
    ensures Storable(RecToFlow(kind, f, data))
  {
    hide RecToFlow, CheckRecLen, Flagged, IsAddr;
    if IsAddr(kind) {
      AddressStorable(kind, f, data);
    } else {
      NumberRecord(kind, f, data);
      var g := RecToFlow(kind, f, data);
      FlaggedSame(f.fields, g.fields, f.agent.af, AGENT_ADDR4, AGENT_ADDR6);
      FlaggedSame(f.fields, g.fields, f.src.af, SRC_ADDR4, SRC_ADDR6);
      FlaggedSame(f.fields, g.fields, f.dst.af, DST_ADDR4, DST_ADDR6);
      FlaggedSame(f.fields, g.fields, f.gateway.af, GATEWAY_ADDR4, GATEWAY_ADDR6);
    }
  }

  lemma {:induction false} DecodedStorable(rs: seq<Nf9Record>, f: StoreFlow, data: seq<u8>)
    requires RecordsOk(rs) && Total(rs) <= |data| && Storable(f)
    ensures Storable(Decode(rs, f, data))
  {
    hide RecToFlow, CheckRecLen, Storable;
    if rs != [] {
      var n := |rs| - 1;
      var at := Total(rs[..n]);
      DecodedStorable(rs[..n], f, data);
      RecordStorable(rs[n].kind, Decode(rs[..n], f, data), data[at..at + rs[n].len]);
    }
  }

  lemma BlankStorable(m: Meta)
    ensures Storable(Blank(m))
  {
  }

  lemma {:induction false} AllStorable(t: Nf9Template, m: Meta, data: seq<u8>, n: nat)
    requires RecordsOk(t.records) && t.totalLen == Total(t.records) && n * t.totalLen <= |data|
    ensures forall f <- DecodeAll(t, m, data, n) :: Storable(f)
  {
    hide Storable, Decode, Blank, RecordsOk, Total;
    if n > 0 {
      LastRecord(n, t.totalLen);
      AllStorable(t, m, data, n - 1);
      BlankStorable(m);
      DecodedStorable(t.records, Blank(m), data[(n - 1) * t.totalLen..]);
    }
  }

  lemma SetStorable(st: State, lim: Limits, pkt: seq<u8>, id: nat, len: nat, m: Meta)
    requires len <= |pkt| && StoredOk(st.sources, lim) && OneSet(st, lim, pkt, id, len, m).Good?
    ensures forall f <- OneSet(st, lim, pkt, id, len, m).value :: Storable(f)
  {
    hide Storable, DecodeAll, TemplateSet, RecordsOk, SourcesOk;
    if id >= 256 && len >= 4 {
      var p := FindPlace(st.sources, m.sourceId, Get16(pkt, 0));
      if p.Place? {
        var t := st.sources[p.source].templates[p.template];
        var n := |pkt[4..len]| / t.totalLen;
        Fits(|pkt[4..len]|, t.totalLen);
        AllStorable(t, m, pkt[4..len], n);
      }
    }
  }

  /** Every record that comes out of any NetFlow v9 packet can be written to the log. */
  lemma {:induction false} PacketsStorable(st: State, lim: Limits, pkt: seq<u8>, offset: nat, m: Meta)
    requires StoredOk(st.sources, lim) && lim.maxSources > 0 && lim.maxTemplates > 0
    ensures forall f <- ReadSets(st, lim, pkt, offset, m).flows :: Storable(f)
    decreases |pkt| - offset
  {
    hide Storable, OneSet, StoredOk;
    if offset < |pkt| && offset + 4 <= |pkt| {
      var id, len := Get16(pkt, offset), Get16(pkt, offset + 2);
      if offset + len <= |pkt| {
        var o := OneSet(st, lim, pkt[offset..], id, len, m);
        OneSetKeeps(st, lim, pkt[offset..], id, len, m);
        if o.Good? {
          SetStorable(st, lim, pkt[offset..], id, len, m);
          if offset + len < |pkt| && len > 0 {
            PacketsStorable(o.state, lim, pkt, offset + len, m);
          }
        }
      }
    }
  }

  /** A store mask that treats the two forms of each address alike, as the configuration's
      keywords do. */
  predicate PairedMask(mask: Fields) {
    && mask <= S.ALL_FIELDS
    && (AGENT_ADDR4 in mask <==> AGENT_ADDR6 in mask) && (SRC_ADDR4 in mask <==> SRC_ADDR6 in mask)
    && (DST_ADDR4 in mask <==> DST_ADDR6 in mask) && (GATEWAY_ADDR4 in mask <==> GATEWAY_ADDR6 in mask)
  }

  function Masked(f: StoreFlow, mask: Fields): StoreFlow {
    f.(fields := f.fields * mask)
  }

  lemma FlaggedSound(fs: Fields, mask: Fields, af: AddrMatch.Family, four: nat, six: nat)
    requires Flagged(fs, af, four, six) && (four in mask <==> six in mask)
    ensures S.SoundAddr(fs * mask, af, four, six)
  {
  }

  lemma StorableSound(f: StoreFlow, mask: Fields)
    requires Storable(f) && PairedMask(mask)
    ensures var g := Masked(f, mask); S.Sound(g) && S.HEADER + S.CalcFlowLen(S.Chosen(g)) <= 1024
    ensures var g := Masked(f, mask); S.Chosen(g) <= S.ALL_FIELDS && !S.BothForms(S.Chosen(g))
  {
    hide Flagged, S.SoundAddr, S.CalcFlowLen, S.Chosen, S.BothForms, S.ALL_FIELDS;
    FlaggedSound(f.fields, mask, f.agent.af, AGENT_ADDR4, AGENT_ADDR6);
    FlaggedSound(f.fields, mask, f.src.af, SRC_ADDR4, SRC_ADDR6);
    FlaggedSound(f.fields, mask, f.dst.af, DST_ADDR4, DST_ADDR6);
    FlaggedSound(f.fields, mask, f.gateway.af, GATEWAY_ADDR4, GATEWAY_ADDR6);
    ResolvesSound(Masked(f, mask));
    FitsBuffer(S.Chosen(Masked(f, mask)));
  }

  lemma FilteredStorable(rs: seq<F.Rule>, f: StoreFlow, zone: F.Zone)
    requires Storable(f)
    ensures Storable(F.Filtered(rs, f, zone).1)
    ensures F.Filtered(rs, f, zone).1 == f.(fields := F.Filtered(rs, f, zone).1.fields, tag := F.Filtered(rs, f, zone).1.tag)
  {
    hide F.Winner;
  }

  /** The entry for a flow that passes. */
  function EntryOf(f: StoreFlow, mask: Fields): LogEntry {
    LogEntry(Masked(f, mask), S.Chosen(Masked(f, mask)))
  }

  /** What process_flow adds to the log: nothing for a flow whose addresses differ in
      family, or that the filter discards. */
  ghost function Logged(rs: seq<F.Rule>, f: StoreFlow, zone: F.Zone, mask: Fields): (es: seq<LogEntry>)
    ensures |es| <= 1
  {
    if f.src.af != f.dst.af then []
    else
      var (action, f') := F.Filtered(rs, f, zone);
      if action.Discard? then [] else [EntryOf(f', mask)]
  }

  lemma LoggedOk(rs: seq<F.Rule>, f: StoreFlow, zone: F.Zone, mask: Fields)
    requires Storable(f) && PairedMask(mask)
    ensures forall e <- Logged(rs, f, zone, mask) :: e.fields <= S.ALL_FIELDS && !S.BothForms(e.fields)
  {
    hide Storable, F.Filtered, S.Chosen, S.BothForms, S.ALL_FIELDS, PairedMask;
    FilteredStorable(rs, f, zone);
    StorableSound(F.Filtered(rs, f, zone).1, mask);
  }

  /** Answers of the operating system, by the number of the flow. */
  datatype System = System(mallocOk: bool, reallocOk: nat -> bool, replies: seq<WriteReply>, calls: Calls)

  /** The serialising end of process_flow; a storable record never ends the program. */
  method StoreFlowRecord(f: StoreFlow, mask: Fields, log: Log, sys: System)
    requires Storable(f) && PairedMask(mask) && log.Valid() && !log.exited
    modifies log`exited, log`flushed, log`corrupt, log`accepted, log.queue, log.queue.queue, log.file
    ensures log.Valid() && (log.queue.queue == old(log.queue.queue) || fresh(log.queue.queue))
    ensures log.accepted == if log.exited then old(log.accepted) else old(log.accepted) + [EntryOf(f, mask)]
  {
    hide Storable, S.Serialised, S.Sound, S.Chosen, S.BothForms, S.ALL_FIELDS, S.Encoded, LogOf, PairedMask;
    var fbuf := new u8[1024](_ => 0);
    ghost var g := Masked(f, mask);
    StorableSound(f, mask);
    WritableExactly(g, fbuf.Length);
    var r, f' := S.SerialiseMasked(f, mask, fbuf);
    log.Accept(fbuf[..r.value], EntryOf(f, mask), sys.mallocOk, sys.reallocOk, sys.replies, sys.calls);
  }

  /** process_flow. */
  method ProcessFlow(f: StoreFlow, entries: seq<F.FilterRule>, zone: F.Zone, mask: Fields, log: Log, sys: System,
                     ghost past: seq<StoreFlow>)
    returns (ghost past': seq<StoreFlow>)
    requires Storable(f) && PairedMask(mask) && log.Valid() && !log.exited
    requires F.Apart(entries) && F.Counted(F.Counters(entries), F.RulesOf(entries), past, zone)
    modifies entries, log`exited, log`flushed, log`corrupt, log`accepted, log.queue, log.queue.queue, log.file
    ensures log.Valid() && (log.queue.queue == old(log.queue.queue) || fresh(log.queue.queue))
    ensures past' == past + if f.src.af == f.dst.af then [f] else []
    ensures F.Counted(F.Counters(entries), F.RulesOf(entries), past', zone)
    ensures if log.exited then log.accepted == old(log.accepted)
      else log.accepted == old(log.accepted) + Logged(F.RulesOf(entries), f, zone, mask)
  {
    hide Storable, F.Filtered, F.Counted, F.Counters, F.Apart, LogOf, S.Encoded, EntryOf, PairedMask, Log.Valid;
    if f.src.af != f.dst.af {
      past' := past;
      assert past + [] == past;
      return;
    }
    FilteredStorable(F.RulesOf(entries), f, zone);
    past' := past + [f];
    var action, f' := F.FilterFlow(f, entries, zone, past);
    if action.Discard? {
      return;
    }
    StoreFlowRecord(f', mask, log, sys);
  }

  ghost function LoggedAll(rs: seq<F.Rule>, fs: seq<StoreFlow>, zone: F.Zone, mask: Fields): seq<LogEntry> {
    if fs == [] then [] else LoggedAll(rs, fs[..|fs| - 1], zone, mask) + Logged(rs, fs[|fs| - 1], zone, mask)
  }

  /** The records of a packet, one after the other. */
  method ProcessFlows(fs: seq<StoreFlow>, entries: seq<F.FilterRule>, zone: F.Zone, mask: Fields, log: Log,
                      system: nat -> System, ghost past: seq<StoreFlow>)
    returns (ghost past': seq<StoreFlow>)
    requires (forall f <- fs :: Storable(f)) && PairedMask(mask) && log.Valid() && !log.exited
    requires F.Apart(entries) && F.Counted(F.Counters(entries), F.RulesOf(entries), past, zone)
    modifies entries, log`exited, log`flushed, log`corrupt, log`accepted, log.queue, log.queue.queue, log.file
    ensures log.Valid() && (log.queue.queue == old(log.queue.queue) || fresh(log.queue.queue))
    ensures F.Counted(F.Counters(entries), F.RulesOf(entries), past', zone)
    ensures !log.exited ==> log.accepted == old(log.accepted) + LoggedAll(F.RulesOf(entries), fs, zone, mask)
  {
    hide Storable, F.Counted, F.Counters, F.Apart, LogOf, S.Encoded, PairedMask, Logged, Log.Valid;
    past' := past;
    ghost var rs := F.RulesOf(entries);
    for i := 0 to |fs|
      invariant log.Valid() && !log.exited && (log.queue.queue == old(log.queue.queue) || fresh(log.queue.queue))
      invariant F.Counted(F.Counters(entries), rs, past', zone)
      invariant log.accepted == old(log.accepted) + LoggedAll(rs, fs[..i], zone, mask)
    {
      assert fs[..i + 1][..i] == fs[..i] && fs[i] in fs;
      past' := ProcessFlow(fs[i], entries, zone, mask, log, system(i), past');
      if log.exited {
        return;
      }
    }
    assert fs[..|fs|] == fs;
  }

  // ----- From one end to the other -----

  const TRAFFIC_FIELDS: Fields :=
    {SRC_ADDR4, SRC_ADDR6, DST_ADDR4, DST_ADDR6, SRCDST_PORT, PACKETS, OCTETS, PROTO_FLAGS_TOS}

  /** A record that came from a flow, tagged or not. */
  ghost predicate PlainOrTagged(c: StoreFlow) {
    R.Plain(c.(fields := c.fields - {TAG}))
  }

  lemma PlainStorable(c: StoreFlow)
    requires PlainOrTagged(c)
    ensures Storable(c)
  {
    assert forall b <- c.fields :: b == TAG || b in c.fields - {TAG};
  }

  lemma PlainIs(c: StoreFlow)
    requires R.Plain(c)
    ensures PlainOrTagged(c)
  {
    assert c.fields - {TAG} == c.fields;
  }

  lemma SelectedAddress(a: Raw, four: bool, six: bool)
    requires a.scope == 0 && !(four && six)
    requires (a.af.Inet? ==> four) && (a.af.Inet6? ==> six) && !a.af.OtherFamily?
    ensures ToXAddr(SelectedAddr(a, four, six)) == ToXAddr(a)
  {
    if four {
      R.GetInside4(a.bytes[..4], ZERO16[4..]);
      R.GetInside4(a.bytes[..4], a.bytes[4..]);
      assert a.bytes == a.bytes[..4] + a.bytes[4..];
    }
  }

  lemma ChosenPlain(c: StoreFlow, mask: Fields)
    requires PlainOrTagged(c) && PairedMask(mask) && TRAFFIC_FIELDS <= mask
    ensures var fs := S.Chosen(Masked(c, mask));
      && (SRC_ADDR4 in fs <==> c.src.af.Inet?) && (SRC_ADDR6 in fs <==> c.src.af.Inet6?)
      && (DST_ADDR4 in fs <==> c.dst.af.Inet?) && (DST_ADDR6 in fs <==> c.dst.af.Inet6?)
      && SRCDST_PORT in fs && PACKETS in fs && OCTETS in fs && PROTO_FLAGS_TOS in fs
  {
  }

  /** The log keeps the traffic that a record describes. */
  lemma LoggedTraffic(c: StoreFlow, mask: Fields)
    requires PlainOrTagged(c) && PairedMask(mask) && TRAFFIC_FIELDS <= mask
    ensures var e := EntryOf(c, mask);
      && e.fields <= S.ALL_FIELDS && !S.BothForms(e.fields)
      && R.TrafficOf(Restored(e.flow, e.fields)) == R.TrafficOf(c)
  {
    hide S.Chosen, S.BothForms, S.ALL_FIELDS, S.Checksum, S.Covered, PairedMask, ToXAddr, SelectedAddr;
    PlainStorable(c);
    StorableSound(c, mask);
    ChosenPlain(c, mask);
    var fs := S.Chosen(Masked(c, mask));
    SelectedAddress(c.src, SRC_ADDR4 in fs, SRC_ADDR6 in fs);
    SelectedAddress(c.dst, DST_ADDR4 in fs, DST_ADDR6 in fs);
  }

  lemma {:induction false} RestoredConcat(a: seq<Entry>, b: seq<Entry>)
    ensures RestoredAll(a + b) == RestoredAll(a) + RestoredAll(b)
  {
    hide Restored;
    if a == [] {
      assert a + b == b;
    } else {
      RestoredConcat(a[1..], b);
      assert (a + b)[1..] == a[1..] + b;
    }
  }

  /** A record that process_flow does not drop. */
  ghost predicate Passes(rs: seq<F.Rule>, f: StoreFlow, zone: F.Zone) {
    f.src.af == f.dst.af && !F.Filtered(rs, f, zone).0.Discard?
  }

  ghost function PassedAll(rs: seq<F.Rule>, fs: seq<StoreFlow>, zone: F.Zone): seq<StoreFlow> {
    if fs == [] then []
    else PassedAll(rs, fs[..|fs| - 1], zone) + if Passes(rs, fs[|fs| - 1], zone) then [fs[|fs| - 1]] else []
  }

  lemma {:induction false} NoneDropped(rs: seq<F.Rule>, fs: seq<StoreFlow>, zone: F.Zone)
    requires forall f <- fs :: Passes(rs, f, zone)
    ensures PassedAll(rs, fs, zone) == fs
  {
    hide Passes;
    if fs != [] {
      assert fs[|fs| - 1] in fs;
      NoneDropped(rs, fs[..|fs| - 1], zone);
    }
  }

  /** A record that passes, tagged if the filter says so, has the traffic it had. */
  lemma FilteredTraffic(rs: seq<F.Rule>, c: StoreFlow, zone: F.Zone)
    requires R.Plain(c)
    ensures var c' := F.Filtered(rs, c, zone).1; PlainOrTagged(c') && R.TrafficOf(c') == R.TrafficOf(c)
  {
    hide F.Winner, ToXAddr;
    PlainIs(c);
    var c' := F.Filtered(rs, c, zone).1;
    assert c'.fields - {TAG} == c.fields - {TAG};
  }

  lemma OneRestored(e: Entry)
    ensures RestoredAll([e]) == [Restored(e.flow, e.fields)]
  {
    hide Restored;
    assert [e][1..] == [];
  }

  ghost predicate AllEntries(es: seq<LogEntry>) {
    forall e <- es :: e.fields <= S.ALL_FIELDS && !S.BothForms(e.fields)
  }

  /** Under any rules the log describes the traffic of exactly the records that the filter
      does not discard. */
  lemma {:induction false} AllLoggedTraffic(rs: seq<F.Rule>, fs: seq<StoreFlow>, zone: F.Zone, mask: Fields, es: seq<Entry>)
    requires (forall c <- fs :: R.Plain(c)) && PairedMask(mask) && TRAFFIC_FIELDS <= mask
    requires es == LoggedAll(rs, fs, zone, mask)
    ensures R.TrafficOfAll(RestoredAll(es)) == R.TrafficOfAll(PassedAll(rs, fs, zone))
  {
    hide R.Plain, PairedMask, EntryOf, Restored, R.TrafficOf, S.BothForms, S.ALL_FIELDS, F.Filtered, PlainOrTagged;
    if fs != [] {
      var n := |fs| - 1;
      assert fs[n] in fs;
      var f := F.Filtered(rs, fs[n], zone).1;
      FilteredTraffic(rs, fs[n], zone);
      LoggedTraffic(f, mask);
      var passed := PassedAll(rs, fs[..n], zone);
      if Passes(rs, fs[n], zone) {
        var before: seq<Entry>, last: Entry := es[..|es| - 1], es[|es| - 1];
        assert before == LoggedAll(rs, fs[..n], zone, mask) && last == EntryOf(f, mask) && es == before + [last];
        AllLoggedTraffic(rs, fs[..n], zone, mask, before);
        RestoredConcat(before, [last]);
        OneRestored(last);
        R.TrafficConcat(RestoredAll(before), [Restored(last.flow, last.fields)]);
        R.TrafficConcat(passed, [fs[n]]);
        R.OneTraffic(Restored(last.flow, last.fields));
        R.OneTraffic(fs[n]);
      } else {
        assert es == LoggedAll(rs, fs[..n], zone, mask) && PassedAll(rs, fs, zone) == passed;
        AllLoggedTraffic(rs, fs[..n], zone, mask, es);
      }
    }
  }

  /** From softflowd's flows to flowd's log, under any rules: the records that are collected
      describe the traffic of the flows carried, which are all of them or those before a send
      that failed, one for each direction with octets, in their order, and what a reader of the log finds is the traffic of those that are not discarded. */
  method ExportToLog(exporter: X.Exporter, peers: P.Peers, peer: Peer, flows: seq<Flow>, exported: u64, uptime: u32,
                     clock: nat -> u32, sendOk: nat -> bool, sec: nat -> u32, usec: nat -> u32, entries: seq<F.FilterRule>,
                     zone: F.Zone, mask: Fields, log: Log, system: nat -> System, last: System, ghost past: seq<StoreFlow>)
    returns (result: int, collected: seq<StoreFlow>, ghost carried: seq<Flow>)
    requires exporter.Valid() && exporter.untilTemplate <= 0 && forall f <- flows :: Exportable(f)
    requires peers.Valid() && H.AllStored(peers) && peer in peers.list.elems
    requires R.LimitsOk(H.LimitsOf(peers)) && !R.Crowded(peer.nf9, peers.maxTemplates)
    requires PairedMask(mask) && TRAFFIC_FIELDS <= mask
    requires F.Apart(entries) && F.Counted(F.Counters(entries), F.RulesOf(entries), past, zone)
    requires log.Valid() && !log.exited && log.accepted == [] && log.base == []
    modifies exporter, peers.list, peers.list.dom`next, peers.list.dom`prev, peer, entries
    modifies log`exited, log`flushed, log`corrupt, log`accepted, log.queue, log.queue.queue, log.file
    ensures log.Valid() && (forall f <- flows :: !f.ends.OtherFamily?) && carried <= flows
    ensures (result == -1 ==> exists k: nat :: !sendOk(k)) && (result != -1 ==> carried == flows)
    ensures R.TrafficOfAll(collected) == R.FlowTraffic(carried)
    ensures var rs := F.RulesOf(entries);
      !log.exited ==>
        && R.TrafficOfAll(ReadLog(log.file.bytes).0) == R.TrafficOfAll(PassedAll(rs, collected, zone))
        && ReadLog(log.file.bytes).1 == S.Err(S.Eof)
        && ((forall c <- collected :: Passes(rs, c, zone)) ==> R.TrafficOfAll(ReadLog(log.file.bytes).0) == R.FlowTraffic(carried))
  {
    hide R.Plain, Exportable, R.LimitsOk, R.Crowded, P.Peers.Valid, H.AllStored, R.TrafficOfAll, R.FlowTraffic, X.Exporter.Valid,
         PairedMask, LogOf, S.Encoded, ReadLog, RestoredAll, Storable, F.Counted, F.Apart, F.Counters, Logged, Log.Valid,
         OutputLog.Whole, Passes, PlainOrTagged, PassedAll;
    ghost var rs := F.RulesOf(entries);
    ghost var ps;
    result, collected, carried, ps := Nf9Session.Session(exporter, peers, peer, flows, exported, uptime, clock, sendOk, sec, usec);
    forall c | c in collected ensures Storable(c) {
      PlainIs(c);
      PlainStorable(c);
    }
    ghost var past';
    past' := ProcessFlows(collected, entries, zone, mask, log, system, past);
    if log.exited {
      return;
    }
    log.Flush(last.replies, last.calls);
    if log.exited {
      return;
    }
    LogIsReadable(log);
    NotCorrupt(log);
    assert log.accepted[..|log.accepted|] == log.accepted;
    assert [] + LoggedAll(rs, collected, zone, mask) == LoggedAll(rs, collected, zone, mask);
    AllLoggedTraffic(rs, collected, zone, mask, log.accepted);
    if forall c <- collected :: Passes(rs, c, zone) {
      NoneDropped(rs, collected, zone);
    }
  }

  lemma NotCorrupt(log: Log)
    requires log.Valid() && !log.exited
    ensures !log.corrupt
  {
  }
}
