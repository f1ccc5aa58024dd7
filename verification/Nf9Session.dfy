/** softflowd's exporter and flowd's collector together, from flows to flow records. */
module Nf9Session {
  import Addr
  import opened Bytes
  import opened FlowRecord
  import H = Nf9Handlers
  import opened Nf9Collect
  import R = Nf9RoundTrip
  import opened Nf9Wire
  import opened PeerState
  import P = Peers
  import S = Nf9Stamps
  import SplayTree
  import TailQueue
  import X = Nf9Export

  lemma PrefixCarried(sent: seq<seq<u8>>, ps: seq<Packet>, k: nat)
    requires X.Carry(sent, ps) && k <= |ps|
    ensures |sent| == |ps| && X.Carry(sent[..k], ps[..k])
  {
    hide PacketOk, EncodePacket;
  }

  /** Every packet of the run can be read after those before it. */
  lemma NextRead(st: State, lim: Limits, sent: seq<seq<u8>>, ps: seq<Packet>, k: nat,
                 sec: nat -> u32, usec: nat -> u32, agent: Addr.HostAddr)
    requires StoredOk(st.sources, lim) && R.LimitsOk(lim) && !R.Crowded(st.sources, lim.maxTemplates)
    requires X.Carry(sent, ps) && k < |ps| && ps[0].templates
    ensures |sent| == |ps|
    ensures var r := R.ReadAll(st, lim, sent[..k], sec, usec, agent); var r' := R.ReadAll(st, lim, sent[..k + 1], sec, usec, agent);
      && r'.Run? && r'.finished
      && (r.Run? ==> var one := ReadPacket(r.state, lim, sent[k], sec(k), usec(k), agent);
        one.Run? && r' == Run(one.state, r.flows + one.flows, r.finished && one.finished))
  {
    hide StoredOk, R.LimitsOk, R.Crowded, R.CollectedRun, R.KnowingBoth, ReadPacket, X.Carry;
    PrefixCarried(sent, ps, k + 1);
    R.ExportIsCollected(st, lim, sent[..k + 1], ps[..k + 1], sec, usec, agent);
    assert sent[..k + 1][..k] == sent[..k] && sent[..k + 1][k] == sent[k];
  }

  /** Flows sent by an exporter that owes its templates, and its packets taken in order by
      the collector: the records that come out describe the traffic of the flows carried, one
      for each direction with octets, in the order of the flows. All flows are carried, or
      those before a send that failed. Each record says of its packet what the exporter put
      there: its uptime, the time, and the number of flows exported before. */
  method Session(exporter: X.Exporter, peers: P.Peers, peer: Peer, flows: seq<Flow>, exported: u64, uptime: u32,
                 clock: nat -> u32, sendOk: nat -> bool, sec: nat -> u32, usec: nat -> u32)
    returns (result: int, collected: seq<StoreFlow>, ghost carried: seq<Flow>, ghost ps: seq<Packet>)
    requires exporter.Valid() && exporter.untilTemplate <= 0 && forall f <- flows :: Exportable(f)
    requires peers.Valid() && H.AllStored(peers) && peer in peers.list.elems
    requires R.LimitsOk(H.LimitsOf(peers)) && !R.Crowded(peer.nf9, peers.maxTemplates)
    modifies exporter, peers.list, peers.list.dom`next, peers.list.dom`prev, peer
    ensures exporter.Valid() && peers.Valid() && H.AllStored(peers)
    ensures (forall f <- flows :: !f.ends.OtherFamily?) && carried <= flows
    ensures result == -1 ==> exists k: nat :: !sendOk(k)
    ensures result != -1 ==> carried == flows
    ensures R.TrafficOfAll(collected) == R.FlowTraffic(carried) && forall c <- collected :: R.Plain(c)
    ensures X.PacketFlows(ps) == carried
    ensures S.StampsOf(collected) == S.RunStamps(ps, exported, uptime, clock, sec, usec, peer.from)
  {
    hide R.Plain, Exportable, R.LimitsOk, R.Crowded, R.CollectedRun, R.KnowingBoth, R.ReadAll, ReadPacket, X.Carry, P.Peers.Valid, H.AllStored,
         R.TrafficOfAll, R.FlowTraffic, S.StampsOf, S.RunStamps, X.Stamped, X.Headed, X.Exporter.Valid, TailQueue.PeerList.Valid, StoredOk;
    var exported', sent;
    PeerStored(peers, peer);
    result, exported', sent, ps := exporter.Send(flows, exported, uptime, clock, sendOk);
    carried := X.PacketFlows(ps);
    OneOfTwo(flows);
    ghost var st, lim := H.StateOf(peer), H.LimitsOf(peers);
    R.NothingRead(st, lim, sec, usec, peer.from);
    R.NothingCarried(sent, ps);
    collected := [];
    var k := 0;
    while k < |sent|
      invariant k <= |sent| && peers.list.dom == old(peers.list.dom) && exporter.Valid()
      invariant peers.Valid() && H.AllStored(peers) && peer in peers.list.elems
      invariant R.ReadAll(st, lim, sent[..k], sec, usec, peer.from) == Run(H.StateOf(peer), collected, true)
    {
      NextRead(st, lim, sent, ps, k, sec, usec, peer.from);
      PeerStored(peers, peer);
      var more, w;
      more, w := H.ProcessPacket(peers, peer, sent[k], sec(k), usec(k));
      collected := collected + more;
      k := k + 1;
    }
    assert sent[..|sent|] == sent;
    R.RunCollected(st, lim, sent, ps, sec, usec, peer.from);
    S.RunStamped(ps, exported, uptime, clock, sec, usec, peer.from);
  }

  lemma OneOfTwo(flows: seq<Flow>)
    requires forall f <- flows :: Exportable(f)
    ensures forall f <- flows :: !f.ends.OtherFamily?
  {
  }

  lemma PeerStored(peers: P.Peers, peer: Peer)
    requires peers.Valid() && H.AllStored(peers) && peer in peers.list.elems
    ensures StoredOk(peer.nf9, H.LimitsOf(peers)) && peers.maxSources > 0 && peers.maxTemplates > 0
  {
    hide StoredOk, SplayTree.PeerTree.Valid, TailQueue.PeerList.Valid;
  }
}
