/** The handlers of flowd/flowd.c that update a peer's NetFlow v9 state from a packet, step
    by step, against the reading of whole packets in Nf9Collect. */
module Nf9Handlers {
  import opened Addr
  import opened Bytes
  import opened FlowRecord
  import opened Nf9Collect
  import opened Nf9Wire
  import opened PeerState
  import Lru
  import P = Peers
  import SplayTree
  import TailQueue

  ghost function StateOf(peer: Peer): State
    reads peer
  {
    State(peer.nf9, peer.ninvalid, peer.noTemplate)
  }

  ghost predicate PeerOk(peer: Peer, lim: Limits)
    reads peer
  {
    && lim.maxSources > 0 && lim.maxTemplates > 0
    && peer.Nf9Valid(lim.maxSources, lim.maxTemplates) && StoredOk(peer.nf9, lim)
  }

  /** How a handler ends: with a read beyond the packet, a division by zero or no progress;
      with the packet given up; or so that the packet is read on. */
  datatype Ending = Crashed | Dropped | Passed

  /** The outcome that an ending and the state it leaves amount to. */
  ghost function Ended<T>(e: Ending, st: State, value: T): Outcome<T> {
    match e
    case Crashed => Fault
    case Dropped => Bad(st)
    case Passed => Good(st, value)
  }

  /** The records of one template. */
  method TakeRecords(pkt: seq<u8>, len: nat, offset0: nat, count: nat, maxLen: nat) returns (r: RecordList)
    requires len <= |pkt|
    ensures r == ReadRecords(pkt, len, offset0, count, [], 0, maxLen)
  {
    var recs: seq<Nf9Record> := [];
    var total: nat, offset := 0, offset0;
    for i := 0 to count
      invariant offset == offset0 + 4 * i
      invariant ReadRecords(pkt, len, offset0, count, [], 0, maxLen) == ReadRecords(pkt, len, offset, count - i, recs, total, maxLen)
    {
      if offset >= len {
        return RecordsBad;
      }
      if offset + 4 > |pkt| {
        return RecordsFault;
      }
      var rec := Nf9Record(Get16(pkt, offset), Get16(pkt, offset + 2));
      offset := offset + 4;
      total := total + rec.len;
      if total > maxLen {
        return RecordsBad;
      }
      if !CheckRecLen(rec.kind, rec.len) {
        return RecordsBad;
      }
      recs := recs + [rec];
    }
    r := RecordList(recs, total);
  }

  /** The end of a template's round: the records go into the peer's state. */
  method KeepTemplate(peer: Peer, lim: Limits, sid: nat, tid: nat, records: seq<Nf9Record>, total: nat)
    requires PeerOk(peer, lim) && RecordsOk(records) && total == Total(records) <= lim.maxLen
    modifies peer`nf9, peer`numSources
    ensures PeerOk(peer, lim) && peer.nf9 == StoreTemplate(old(peer.nf9), lim, sid, tid, records, total)
  {
    StoreTemplateKeeps(peer.nf9, lim, sid, tid, records, total);
    hide StoredOk, WithTemplate, Filled, SourcesOk;
    var p := peer.FindTemplate(sid, tid);
    StoredIs(peer.nf9, lim);
    if p.Nowhere? {
      WithTemplateKeeps(peer.nf9, lim, sid, tid);
      p := peer.NewTemplate(lim.maxSources, lim.maxTemplates, sid, tid);
    }
    FilledIds(peer.nf9, p, records, total);
    peer.FillTemplate(p, records, total);
    StoredIs(peer.nf9, lim);
  }

  /** One round of process_netflow_v9_template. */
  method TakeTemplate(peer: Peer, lim: Limits, pkt: seq<u8>, len: nat, offset: nat, sid: nat) returns (e: Ending, next: nat)
    requires PeerOk(peer, lim) && offset < len <= |pkt|
    modifies peer`nf9, peer`numSources, peer`ninvalid
    ensures PeerOk(peer, lim) && next > offset
    ensures ReadTemplates(old(StateOf(peer)), lim, pkt, len, offset, sid) ==
      if e.Passed? then ReadTemplates(StateOf(peer), lim, pkt, len, next, sid) else Ended(e, StateOf(peer), ())
  {
    hide StoredOk, StoreTemplate, ReadRecords, RecordsOk, Peer.Nf9Valid, Total;
    if offset + 4 > |pkt| {
      return Crashed, offset + 4;
    }
    var tid, count: nat := Get16(pkt, offset), Get16(pkt, offset + 2);
    next := offset + 4;
    NoRecords();
    RecordsRead(pkt, len, next, count, [], 0, lim.maxLen);
    var r := TakeRecords(pkt, len, next, count, lim.maxLen);
    if r.RecordsFault? {
      return Crashed, next;
    }
    if r.RecordsBad? {
      peer.ninvalid := peer.ninvalid + 1;
      return Dropped, next;
    }
    KeepTemplate(peer, lim, sid, tid, r.records, r.total);
    next := next + 4 * count;
    e := Passed;
  }

  /** process_netflow_v9_template. */
  method ProcessTemplate(peer: Peer, lim: Limits, pkt: seq<u8>, len: nat, sid: nat) returns (e: Ending)
    requires PeerOk(peer, lim) && len <= |pkt|
    modifies peer`nf9, peer`numSources, peer`ninvalid
    ensures PeerOk(peer, lim)
    ensures TemplateSet(old(StateOf(peer)), lim, pkt, len, sid) == Ended(e, StateOf(peer), ())
  {
    if len < 4 {
      peer.ninvalid := peer.ninvalid + 1;
      return Dropped;
    }
    hide PeerOk;
    var offset := 4;
    while offset < len
      invariant PeerOk(peer, lim)
      invariant ReadTemplates(old(StateOf(peer)), lim, pkt, len, 4, sid) == ReadTemplates(StateOf(peer), lim, pkt, len, offset, sid)
      decreases len - offset
    {
      e, offset := TakeTemplate(peer, lim, pkt, len, offset, sid);
      if !e.Passed? {
        return;
      }
    }
    e := Passed;
  }

  /** nf9_flowset_to_store. */
  method FlowsetToStore(pkt: seq<u8>, t: Nf9Template, lim: Limits, m: Meta) returns (f: StoreFlow)
    requires TemplateOk(t, lim.maxLen) && t.totalLen <= |pkt|
    ensures f == Decode(t.records, Blank(m), pkt)
  {
    hide RecToFlow, Blank;
    f := Blank(m);
    var offset := 0;
    for i := 0 to |t.records|
      invariant offset == Total(t.records[..i]) <= t.totalLen && f == Decode(t.records[..i], Blank(m), pkt)
    {
      var rec := t.records[i];
      TotalPrefix(t.records, i);
      assert t.records[..i + 1][..i] == t.records[..i] && rec in t.records;
      f := RecToFlow(rec.kind, f, pkt[offset..offset + rec.len]);
      offset := offset + rec.len;
    }
    assert t.records[..|t.records|] == t.records;
  }

  /** process_netflow_v9_data: all records are decoded before the first is processed. */
  method ProcessData(peer: Peer, lim: Limits, pkt: seq<u8>, len: nat, sid: nat, m: Meta)
    returns (e: Ending, flows: seq<StoreFlow>)
    requires PeerOk(peer, lim) && len <= |pkt|
    modifies peer`ninvalid, peer`noTemplate
    ensures PeerOk(peer, lim)
    ensures DataFlowset(old(StateOf(peer)), lim, pkt, len, sid, m) == Ended(e, StateOf(peer), flows)
    ensures !e.Passed? ==> flows == []
  {
    flows := [];
    if len < 4 {
      peer.ninvalid := peer.ninvalid + 1;
      return Dropped, [];
    }
    var p := peer.FindTemplate(sid, Get16(pkt, 0));
    if p.Nowhere? {
      peer.noTemplate := peer.noTemplate + 1;
      return Passed, [];
    }
    hide SourcesOk, TemplateOk, DataRecords;
    e, flows := TakeData(StateOf(peer), peer.nf9[p.source].templates[p.template], lim, m, pkt[4..len]);
  }

  method TakeData(ghost st: State, t: Nf9Template, lim: Limits, m: Meta, data: seq<u8>)
    returns (e: Ending, flows: seq<StoreFlow>)
    requires TemplateOk(t, lim.maxLen)
    ensures DataRecords(st, t, lim, data, m) == Ended(e, st, flows)
    ensures !e.Passed? ==> flows == []
  {
    hide DecodeAll, RecordsOk;
    if t.totalLen == 0 {
      return Crashed, [];
    }
    var n := |data| / t.totalLen;
    if n == 0 || n > 0x4000 {
      return Dropped, [];
    }
    Fits(|data|, t.totalLen);
    flows := DecodeRecords(t, lim, m, data, n);
    e := Passed;
  }

  method DecodeRecords(t: Nf9Template, lim: Limits, m: Meta, data: seq<u8>, n: nat) returns (flows: seq<StoreFlow>)
    requires TemplateOk(t, lim.maxLen) && t.totalLen > 0 && n * t.totalLen <= |data|
    ensures flows == DecodeAll(t, m, data, n)
  {
    hide Decode, RecordsOk, Total;
    flows := [];
    var offset := 0;
    for i := 0 to n
      invariant offset == i * t.totalLen
      invariant offset <= |data| && flows == DecodeAll(t, m, data, i)
    {
      NextRecord(i, n, t.totalLen, |data|);
      var f := FlowsetToStore(data[offset..], t, lim, m);
      flows := flows + [f];
      offset := offset + t.totalLen;
    }
  }

  lemma NextRecord(i: nat, n: nat, size: nat, len: nat)
    requires i < n && n * size <= len
    ensures i * size + size == (i + 1) * size <= len
  {
    assert (n - i - 1) * size >= 0;
    assert n * size == (i + 1) * size + (n - i - 1) * size;
  }

  /** The switch over flowset types. */
  method ProcessSet(peer: Peer, lim: Limits, pkt: seq<u8>, id: nat, len: nat, m: Meta) returns (e: Ending, flows: seq<StoreFlow>)
    requires PeerOk(peer, lim) && len <= |pkt|
    modifies peer`nf9, peer`numSources, peer`ninvalid, peer`noTemplate
    ensures PeerOk(peer, lim)
    ensures OneSet(old(StateOf(peer)), lim, pkt, id, len, m) == Ended(e, StateOf(peer), flows)
    ensures !e.Passed? ==> flows == []
  {
    hide TemplateSet, DataFlowset, StoredOk;
    e, flows := Passed, [];
    if id == TEMPLATE_FLOWSET_ID {
      e := ProcessTemplate(peer, lim, pkt, len, m.sourceId);
    } else if id == OPTIONS_FLOWSET_ID {
    } else if id < MIN_RECORD_FLOWSET_ID {
    } else {
      e, flows := ProcessData(peer, lim, pkt, len, m.sourceId, m);
    }
  }

  /** What a packet came to, or comes to so far: read to its end, given up, or never left. */
  datatype Reached = ToEnd | GivenUp | Never

  ghost function RunOf(w: Reached, st: State, flows: seq<StoreFlow>): Run {
    if w.Never? then Stuck(flows) else Run(st, flows, w.ToEnd?)
  }

  /** One round of the loop of process_netflow_v9; more says whether another follows. */
  method NextSet(peer: Peer, lim: Limits, pkt: seq<u8>, offset: nat, m: Meta)
    returns (more: bool, next: nat, flows: seq<StoreFlow>, w: Reached)
    requires PeerOk(peer, lim)
    modifies peer`nf9, peer`numSources, peer`ninvalid, peer`noTemplate
    ensures PeerOk(peer, lim)
    ensures ReadSets(old(StateOf(peer)), lim, pkt, offset, m) ==
      if more then After(flows, ReadSets(StateOf(peer), lim, pkt, next, m)) else RunOf(w, StateOf(peer), flows)
    ensures more ==> offset < next < |pkt|
  {
    hide OneSet, StoredOk, Peer.Nf9Valid;
    more, next, flows, w := false, offset, [], GivenUp;
    if offset >= |pkt| {
      peer.ninvalid := peer.ninvalid + 1;
      return;
    }
    if offset + 4 > |pkt| {
      w := Never;
      return;
    }
    var id, len: nat := Get16(pkt, offset), Get16(pkt, offset + 2);
    if offset + len > |pkt| {
      peer.ninvalid := peer.ninvalid + 1;
      return;
    }
    var e;
    e, flows := ProcessSet(peer, lim, pkt[offset..], id, len, m);
    if !e.Passed? {
      w := if e.Crashed? then Never else GivenUp;
      return;
    }
    next := offset + len;
    if next == |pkt| {
      w := ToEnd;
      return;
    }
    if len == 0 {
      w := Never;
      return;
    }
    more := true;
  }

  /** The loop of process_netflow_v9. */
  method ProcessSets(peer: Peer, lim: Limits, pkt: seq<u8>, m: Meta) returns (flows: seq<StoreFlow>, w: Reached)
    requires PeerOk(peer, lim)
    modifies peer`nf9, peer`numSources, peer`ninvalid, peer`noTemplate
    ensures PeerOk(peer, lim)
    ensures ReadSets(old(StateOf(peer)), lim, pkt, HEADER_SIZE, m) == RunOf(w, StateOf(peer), flows)
  {
    hide ReadSets, StoredOk, Peer.Nf9Valid;
    flows, w := [], GivenUp;
    var offset, more := HEADER_SIZE, true;
    while more
      invariant PeerOk(peer, lim)
      invariant ReadSets(old(StateOf(peer)), lim, pkt, HEADER_SIZE, m) ==
        if more then After(flows, ReadSets(StateOf(peer), lim, pkt, offset, m)) else RunOf(w, StateOf(peer), flows)
      decreases if more && offset < |pkt| then |pkt| - offset else 0, more
    {
      var next, more', flows';
      more', next, flows', w := NextSet(peer, lim, pkt, offset, m);
      flows := flows + flows';
      offset, more := next, more';
    }
  }

  function LimitsOf(peers: P.Peers): Limits {
    Limits(peers.maxSources, peers.maxTemplates, peers.maxTemplateLen)
  }

  /** Every stored template of every peer is in order. */
  ghost predicate AllStored(peers: P.Peers)
    reads peers.list, peers.list.dom
  {
    forall p <- peers.list.elems :: p in peers.list.dom && StoredOk(p.nf9, LimitsOf(peers))
  }

  ghost function Reading(peers: P.Peers, peer: Peer, pkt: seq<u8>, recvSec: u32, recvUsec: u32): (r: Run)
    requires StoredOk(peer.nf9, LimitsOf(peers)) && peers.maxSources > 0 && peers.maxTemplates > 0
    reads peer
  {
    ReadPacket(StateOf(peer), LimitsOf(peers), pkt, recvSec, recvUsec, peer.from)
  }

  /** The part of process_netflow_v9 that reads the packet. */
  method ReadInto(peers: P.Peers, peer: Peer, pkt: seq<u8>, recvSec: u32, recvUsec: u32)
    returns (flows: seq<StoreFlow>, w: Reached)
    requires PeerOk(peer, LimitsOf(peers))
    modifies peer`nf9, peer`numSources, peer`ninvalid, peer`noTemplate
    ensures PeerOk(peer, LimitsOf(peers))
    ensures old(Reading(peers, peer, pkt, recvSec, recvUsec)) == RunOf(w, StateOf(peer), flows)
  {
    hide ReadSets, StoredOk, Peer.Nf9Valid;
    if |pkt| < HEADER_SIZE {
      peer.ninvalid := peer.ninvalid + 1;
      return [], GivenUp;
    }
    flows, w := ProcessSets(peer, LimitsOf(peers), pkt, MetaOf(pkt, recvSec, recvUsec, peer.from));
  }

  /** process_netflow_v9: the flows that it passes on to process_flow and the new state of
      the peer; a peer with flows in a packet read to its end heads the list. A packet on
      which the program does not come to an end in order leaves the list as it was. */
  method ProcessPacket(peers: P.Peers, peer: Peer, pkt: seq<u8>, recvSec: u32, recvUsec: u32)
    returns (flows: seq<StoreFlow>, w: Reached)
    requires peers.Valid() && AllStored(peers) && peer in peers.list.elems
    modifies peers.list, peers.list.dom`next, peers.list.dom`prev, peer
    ensures peers.Valid() && AllStored(peers) && peers.list.dom == old(peers.list.dom) && peer in peers.list.elems
    ensures old(Reading(peers, peer, pkt, recvSec, recvUsec)) == RunOf(w, StateOf(peer), flows)
    ensures if w.ToEnd? && flows != [] then
        && P.Addrs(peers.list.elems) == Lru.Step(peers.maxPeers, old(P.Addrs(peers.list.elems)), Lru.Use(peer.from))
        && peer.nflows == old(peer.nflows) + |flows| && peer.npackets == old(peer.npackets) + 1 && peer.lastVersion == 9
      else peers.list.elems == old(peers.list.elems)
  {
    hide SplayTree.PeerTree.Valid, TailQueue.PeerList.Valid, StoredOk, Reading, P.Addrs, Lru.Step, SourcesOk;
    P.ListFacts(peers.list);
    flows, w := ReadInto(peers, peer, pkt, recvSec, recvUsec);
    if w.ToEnd? && flows != [] {
      ghost var was := peers.list.elems;
      ghost var k := peers.UpdatePeer(peer, |flows|, 9);
      P.FrontedIs(was, k);
      P.ListFacts(peers.list);
    }
  }
}
