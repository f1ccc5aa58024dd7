/** The table of known senders (flowd/peer.c): a splay tree for lookup by address and a
    list for eviction, over the same peers. */
module Peers {
  import opened Addr
  import AddrMatch
  import Lru
  import opened PeerState
  import SplayTree
  import TailQueue
  import opened Sequences

  /** struct allowed_device. */
  datatype Allowed = Allowed(addr: XAddr, masklen: nat)

  /** An empty list of allowed devices allows every sender. */
  ghost predicate IsAllowed(allowed: seq<Allowed>, a: HostAddr) {
    allowed == [] || exists d <- allowed :: AddrMatch.NetMatch(a, d.addr, d.masklen)
  }

  /** The search that new_peer and scrub_peers share. */
  method Authorised(allowed: seq<Allowed>, a: HostAddr) returns (ok: bool)
    ensures ok <==> IsAllowed(allowed, a)
  {
    if allowed == [] {
      return true;
    }
    for i := 0 to |allowed|
      invariant forall j :: 0 <= j < i ==> !AddrMatch.NetMatch(a, allowed[j].addr, allowed[j].masklen)
    {
      var r := AddrMatch.NetmatchCmp(a, allowed[i].addr, allowed[i].masklen);
      if r == 0 {
        assert allowed[i] in allowed;
        return true;
      }
    }
    ok := false;
  }

  ghost function Addrs(s: seq<Peer>): (r: seq<HostAddr>)
    ensures |r| == |s| && forall i :: 0 <= i < |s| ==> r[i] == s[i].from
  {
    if s == [] then [] else [s[0].from] + Addrs(s[1..])
  }

  /** No two peers of the table have one address. */
  ghost predicate DistinctAddrs(s: set<Peer>) {
    forall x <- s, y <- s :: x.from == y.from ==> x == y
  }

  lemma TreeFacts(tree: SplayTree.PeerTree)
    requires tree.Valid()
    ensures DistinctAddrs(tree.dom) && forall x :: x in tree.Contents() <==> x in tree.dom
    ensures forall i :: 0 <= i < |tree.Contents()| ==> tree.Contents()[i] in tree.dom
  {
    var t := tree.shape;
    SplayTree.NodesAreInorder(t);
    var s := SplayTree.Inorder(t);
    forall x, y | x in tree.dom && y in tree.dom && x.from == y.from ensures x == y {
      var i :| 0 <= i < |s| && s[i] == x;
      var j :| 0 <= j < |s| && s[j] == y;
    }
  }

  lemma ListFacts(list: TailQueue.PeerList)
    requires list.Valid()
    ensures Distinct(list.elems) && forall x :: x in list.elems <==> x in list.dom
  {
  }

  class Peers {
    const tree: SplayTree.PeerTree
    const list: TailQueue.PeerList
    const maxPeers: nat
    const maxTemplates: nat
    const maxSources: nat
    const maxTemplateLen: nat
    var numPeers: nat
    var numForced: nat

    /** Tree and list hold the same peers, with distinct addresses and lists in bounds. */
    ghost predicate Consistent()
      reads tree, list, tree.dom, list.dom
    {
      && tree.Valid() && list.Valid() && tree.dom == list.dom
      && maxPeers > 0 && maxSources > 0 && maxTemplates > 0
      && forall p <- list.elems :: p.Nf9Valid(maxSources, maxTemplates)
    }

    ghost predicate Valid()
      reads this, tree, list, tree.dom, list.dom
    {
      Consistent() && numPeers == |list.elems| <= maxPeers
    }

    constructor (maxPeers: nat, maxTemplates: nat, maxSources: nat, maxTemplateLen: nat)
      requires maxPeers > 0 && maxTemplates > 0 && maxSources > 0
      ensures Valid() && list.elems == [] && fresh(tree) && fresh(list) && fresh(list.dom)
      ensures this.maxPeers == maxPeers && this.maxTemplates == maxTemplates
      ensures this.maxSources == maxSources && this.maxTemplateLen == maxTemplateLen
    {
      tree := new SplayTree.PeerTree();
      list := new TailQueue.PeerList();
      this.maxPeers, this.maxTemplates, this.maxSources, this.maxTemplateLen :=
        maxPeers, maxTemplates, maxSources, maxTemplateLen;
      numPeers, numForced := 0, 0;
    }

    /** find_peer. */
    method FindPeer(addr: HostAddr) returns (r: Peer?)
      requires Valid()
      modifies tree, tree.dom`left, tree.dom`right
      ensures Valid() && tree.dom == old(tree.dom)
      ensures if r == null then addr !in Addrs(list.elems) else r in list.elems && r.from == addr
    {
      hide SplayTree.PeerTree.Valid, TailQueue.PeerList.Valid, SplayTree.PeerTree.Contents;
      r := tree.Find(addr);
      TreeFacts(tree);
      ListFacts(list);
      if r == null {
        forall i | 0 <= i < |list.elems| ensures Addrs(list.elems)[i] != addr {
          assert list.elems[i] in list.dom;
        }
      }
    }

    /** delete_peer. */
    method DeletePeer(peer: Peer) returns (ghost k: nat)
      requires Consistent() && peer in list.elems && numPeers > 0
      modifies this`numPeers, tree, list, list.dom`left, list.dom`right, list.dom`next, list.dom`prev
      ensures Consistent() && numPeers == old(numPeers) - 1
      ensures k < |old(list.elems)| && old(list.elems)[k] == peer
      ensures list.elems == RemovedAt(old(list.elems), k) && list.dom == old(list.dom) - {peer}
      ensures forall p <- list.elems :: p.nf9 == old(p.nf9)
    {
      hide SplayTree.PeerTree.Valid, TailQueue.PeerList.Valid, SplayTree.PeerTree.Contents;
      ListFacts(list);
      k := list.Remove(peer);
      var found: bool;
      ghost var i;
      TreeFacts(tree);
      ghost var contents, d := tree.Contents(), tree.dom;
      assert peer in contents;
      found, i := tree.Remove(peer.from);
      assert contents[i] in contents && contents[i] in d && peer in d;
      forall p | p in list.elems ensures p.Nf9Valid(maxSources, maxTemplates) {
        assert p in old(list.elems);
      }
      numPeers := numPeers - 1;
    }

    /** new_peer, for a sender that find_peer did not find. */
    method NewPeer(allowed: seq<Allowed>, addr: HostAddr) returns (peer: Peer?)
      requires Valid() && addr !in Addrs(list.elems)
      modifies this, tree, list, list.dom`left, list.dom`right, list.dom`next, list.dom`prev
      ensures Valid() && (peer != null <==> IsAllowed(allowed, addr))
      ensures if peer == null then list.elems == old(list.elems) && numForced == old(numForced)
        else
          && fresh(peer) && peer.from == addr && peer.nf9 == [] && peer.ninvalid == 0 && peer.noTemplate == 0
          && list.elems == [peer] + Trimmed(old(list.elems), maxPeers)
          && Addrs(list.elems) == Lru.Step(maxPeers, old(Addrs(list.elems)), Lru.Use(addr))
          && numForced == old(numForced) + if |old(list.elems)| == maxPeers then 1 else 0
      ensures forall p <- list.dom :: p in old(list.dom) || p == peer
      ensures forall p <- list.elems :: p != peer ==> p in old(list.elems) && p.nf9 == old(p.nf9)
    {
      hide SplayTree.PeerTree.Valid, TailQueue.PeerList.Valid, SplayTree.PeerTree.Contents, Addrs, Trimmed;
      hide IsAllowed, Lru.Step, Peer.Nf9Valid, RemovedAt, Distinct;
      var ok := Authorised(allowed, addr);
      if !ok {
        return null;
      }
      ghost var was := list.elems;
      TrimmedLacks(was, addr, maxPeers);
      ListFacts(list);
      numPeers := numPeers + 1;
      if numPeers > maxPeers {
        numForced := numForced + 1;
        var lru := list.Last();
        ghost var k := DeletePeer(lru);
        DropLast(was, k);
      }
      TrimmedIs(was, maxPeers);
      peer := Enter(addr);
      UseAddrs(was, peer, maxPeers);
    }

    /** The end of new_peer: a blank record goes to the front of the list and into the tree. */
    method Enter(addr: HostAddr) returns (peer: Peer)
      requires Consistent() && addr !in Addrs(list.elems)
      modifies this, tree, list, list.dom`left, list.dom`right, list.dom`next, list.dom`prev
      ensures Consistent() && fresh(peer) && peer.from == addr && peer.nf9 == [] && peer.ninvalid == 0 && peer.noTemplate == 0
      ensures list.elems == [peer] + old(list.elems) && list.dom == old(list.dom) + {peer}
      ensures numPeers == old(numPeers) && numForced == old(numForced)
      ensures forall p <- old(list.elems) :: p.nf9 == old(p.nf9)
    {
      hide SplayTree.PeerTree.Valid, TailQueue.PeerList.Valid, SplayTree.PeerTree.Contents;
      hide Distinct, Addrs, SourcesOk, InsertedAt;
      ListFacts(list);
      TreeFacts(tree);
      peer := new Peer(addr);
      NoSources(maxSources, maxTemplates);
      list.InsertHead(peer);
      var there: Peer?;
      ghost var i;
      ghost var contents := tree.Contents();
      there, i := tree.Insert(peer);
      if there != null {
        assert there in contents;
        NotInTable(old(list.elems), there);
      }
    }

    method MoveToFront(peer: Peer) returns (ghost k: nat)
      requires list.Valid() && peer in list.elems
      modifies list, list.dom`next, list.dom`prev
      ensures list.Valid() && list.dom == old(list.dom) && k < |old(list.elems)| && old(list.elems)[k] == peer
      ensures list.elems == Fronted(old(list.elems), k)
    {
      hide TailQueue.PeerList.Valid, Fronted;
      ghost var was := list.elems;
      ListFacts(list);
      FirstIs(list);
      if peer != list.first {
        k := list.Remove(peer);
        RemovedHas(was, k);
        list.InsertHead(peer);
      } else {
        k := 0;
        FrontedIs(was, k);
      }
    }

    /** update_peer: a peer that sent valid data goes to the front of the list. */
    method UpdatePeer(peer: Peer, nflows: nat, version: nat) returns (ghost k: nat)
      requires Valid() && peer in list.elems
      modifies list, list.dom`next, list.dom`prev, peer`nflows, peer`npackets, peer`lastVersion
      ensures Valid() && k < |old(list.elems)| && old(list.elems)[k] == peer
      ensures list.elems == Fronted(old(list.elems), k) && list.dom == old(list.dom)
      ensures Addrs(list.elems) == Lru.Step(maxPeers, old(Addrs(list.elems)), Lru.Use(peer.from))
      ensures peer.nflows == old(peer.nflows) + nflows && peer.npackets == old(peer.npackets) + 1
      ensures peer.lastVersion == version && peer.ninvalid == old(peer.ninvalid) && peer.noTemplate == old(peer.noTemplate)
      ensures forall p <- list.elems :: p.nf9 == old(p.nf9)
    {
      hide SplayTree.PeerTree.Valid, TailQueue.PeerList.Valid, SplayTree.PeerTree.Contents, Addrs, Fronted;
      hide Lru.Step, Peer.Nf9Valid, Distinct;
      TreeFacts(tree);
      ListFacts(list);
      ghost var was := list.elems;
      k := MoveToFront(peer);
      FrontedIs(was, k);
      FrontAddrs(was, k, maxPeers);
      peer.nflows := peer.nflows + nflows;
      peer.npackets := peer.npackets + 1;
      peer.lastVersion := version;
    }

    /** One round of scrub_peers. */
    method ScrubOne(allowed: seq<Allowed>, peer: Peer, ghost was: seq<Peer>, ghost j: nat) returns (npeer: Peer?)
      requires Valid() && j < |was| && was[j] == peer && list.elems == Kept(allowed, was[..j]) + was[j..]
      modifies this, tree, list, list.dom`left, list.dom`right, list.dom`next, list.dom`prev
      ensures Valid() && list.elems == Kept(allowed, was[..j + 1]) + was[j + 1..] && list.dom <= old(list.dom)
      ensures npeer == if j + 1 < |was| then was[j + 1] else null
      ensures forall p <- list.elems :: p in old(list.elems) && p.nf9 == old(p.nf9)
    {
      hide SplayTree.PeerTree.Valid, TailQueue.PeerList.Valid, SplayTree.PeerTree.Contents, RemovedAt, Kept;
      ghost var at := |Kept(allowed, was[..j])|;
      KeptNext(allowed, was, j);
      npeer := list.Next(peer, at);
      var ok := Authorised(allowed, peer.from);
      ListFacts(list);
      if !ok {
        ghost var k := DeletePeer(peer);
        assert k == at;
        CutAt(Kept(allowed, was[..j]), was, j);
      }
    }

    /** scrub_peers: drop the peers that a new configuration does not allow. */
    method ScrubPeers(allowed: seq<Allowed>)
      requires Valid()
      modifies this, tree, list, list.dom`left, list.dom`right, list.dom`next, list.dom`prev
      ensures Valid() && list.elems == Kept(allowed, old(list.elems)) && list.dom <= old(list.dom)
      ensures forall p <- list.elems :: IsAllowed(allowed, p.from) && p.nf9 == old(p.nf9)
    {
      hide SplayTree.PeerTree.Valid, TailQueue.PeerList.Valid, SplayTree.PeerTree.Contents, RemovedAt;
      hide Peer.Nf9Valid, Distinct, IsAllowed;
      ghost var was, j := list.elems, 0;
      if allowed == [] {
        KeptAll(was);
        NoneListed();
        return;
      }
      FirstIs(list);
      ListFacts(list);
      var peer := list.first;
      while peer != null
        invariant Valid() && j <= |was| && list.elems == Kept(allowed, was[..j]) + was[j..]
        invariant peer == if j < |was| then was[j] else null
        invariant list.dom <= old(list.dom)
        invariant forall p <- old(list.elems) :: p in list.elems ==> p.nf9 == old(p.nf9)
        decreases |was| - j
      {
        peer := ScrubOne(allowed, peer, was, j);
        j := j + 1;
      }
      assert was[..j] == was;
      KeptAllowed(allowed, was);
    }
  }

  /** The peers of a list that are allowed, in their order. */
  ghost function Kept(allowed: seq<Allowed>, s: seq<Peer>): seq<Peer> {
    if s == [] then []
    else Kept(allowed, s[..|s| - 1]) + if IsAllowed(allowed, s[|s| - 1].from) then [s[|s| - 1]] else []
  }

  lemma {:induction false} KeptAllowed(allowed: seq<Allowed>, s: seq<Peer>)
    ensures forall p :: p in Kept(allowed, s) <==> p in s && IsAllowed(allowed, p.from)
  {
    if s != [] {
      KeptAllowed(allowed, s[..|s| - 1]);
      assert s == s[..|s| - 1] + [s[|s| - 1]];
    }
  }

  lemma {:induction false} KeptAll(s: seq<Peer>)
    ensures Kept([], s) == s
  {
    if s != [] {
      KeptAll(s[..|s| - 1]);
      assert s == s[..|s| - 1] + [s[|s| - 1]];
    }
  }

  lemma NoneListed()
    ensures forall a :: IsAllowed([], a)
  {
  }

  lemma KeptNext(allowed: seq<Allowed>, s: seq<Peer>, j: nat)
    requires j < |s|
    ensures var kept := Kept(allowed, s[..j]);
      && Kept(allowed, s[..j + 1]) == kept + (if IsAllowed(allowed, s[j].from) then [s[j]] else [])
      && (kept + s[j..])[|kept|] == s[j] && kept + s[j..] == kept + [s[j]] + s[j + 1..]
  {
    assert s[..j + 1][..j] == s[..j];
  }

  lemma CutAt(a: seq<Peer>, s: seq<Peer>, j: nat)
    requires j < |s|
    ensures RemovedAt(a + s[j..], |a|) == a + s[j + 1..]
  {
  }

  lemma FirstIs(list: TailQueue.PeerList)
    requires list.Valid()
    ensures list.first == if list.elems == [] then null else list.elems[0]
  {
  }

  lemma RemovedHas(s: seq<Peer>, k: nat)
    requires k < |s| && Distinct(s)
    ensures forall p <- RemovedAt(s, k) :: p in s && p != s[k]
    ensures [s[k]] + RemovedAt(s, k) == Fronted(s, k)
  {
  }

  lemma FrontedIs(s: seq<Peer>, k: nat)
    requires k < |s|
    ensures k == 0 ==> Fronted(s, k) == s
    ensures forall p :: p in Fronted(s, k) <==> p in s
    ensures |Fronted(s, k)| == |s|
  {
  }

  lemma FrontAddrs(s: seq<Peer>, k: nat, max: nat)
    requires k < |s| && Distinct(s) && max > 0
    requires forall x <- s, y <- s :: x.from == y.from ==> x == y
    ensures Addrs(Fronted(s, k)) == Lru.Step(max, Addrs(s), Lru.Use(s[k].from))
  {
    hide Addrs, Fronted, Lru.Step, Distinct;
    FrontedAddrs(s, k);
    AddrsDistinct(s);
    FrontedStep(Addrs(s), k, max);
  }

  lemma FrontedAddrs(s: seq<Peer>, k: nat)
    requires k < |s|
    ensures Addrs(Fronted(s, k)) == Fronted(Addrs(s), k)
  {
    hide Addrs, Fronted;
    FrontedAt(s, k, 0);
    FrontedAt(Addrs(s), k, 0);
    forall i | 0 <= i < |s| ensures Addrs(Fronted(s, k))[i] == Fronted(Addrs(s), k)[i] {
      FrontedAt(s, k, i);
      FrontedAt(Addrs(s), k, i);
    }
  }

  lemma AddrsDistinct(s: seq<Peer>)
    requires Distinct(s) && forall x <- s, y <- s :: x.from == y.from ==> x == y
    ensures Distinct(Addrs(s))
  {
    forall i, j | 0 <= i < j < |s| ensures Addrs(s)[i] != Addrs(s)[j] {
      assert s[i] in s && s[j] in s;
    }
  }

  lemma NoSources(maxSources: nat, maxTemplates: nat)
    ensures SourcesOk([], maxSources, maxTemplates)
  {
  }

  lemma NotInTable(s: seq<Peer>, p: Peer)
    requires p in s
    ensures p.from in Addrs(s)
  {
    var i :| 0 <= i < |s| && s[i] == p;
    assert Addrs(s)[i] == p.from;
  }

  lemma DropLast(s: seq<Peer>, k: nat)
    requires k < |s| && s[k] == s[|s| - 1] && Distinct(s)
    ensures RemovedAt(s, k) == s[..|s| - 1]
  {
  }

  lemma TrimmedIs<T>(s: seq<T>, max: nat)
    ensures Trimmed(s, max) == if |s| >= max > 0 && s != [] then s[..|s| - 1] else s
  {
  }

  lemma TrimmedLacks(s: seq<Peer>, addr: HostAddr, max: nat)
    requires addr !in Addrs(s)
    ensures addr !in Addrs(Trimmed(s, max))
  {
    forall i | 0 <= i < |Trimmed(s, max)| ensures Addrs(Trimmed(s, max))[i] != addr {
      assert Addrs(s)[i] == s[i].from;
    }
  }

  /** The addresses after a new peer has come in front of a list with room for max. */
  lemma UseAddrs(s: seq<Peer>, p: Peer, max: nat)
    requires p.from !in Addrs(s) && max > 0
    ensures Addrs([p] + Trimmed(s, max)) == Lru.Step(max, Addrs(s), Lru.Use(p.from))
  {
  }
}
