/** What the source and template lists of a peer hold after any history of template uses,
    and which uses a packet makes (flowd/peer.c, flowd/flowd.c). */
module Nf9History {
  import opened Addr
  import opened Bytes
  import opened FlowRecord
  import Lru
  import opened Nf9Collect
  import opened Nf9Wire
  import opened PeerState
  import opened Sequences

  /** A template of a source is created or updated. */
  datatype TemplateUse = TemplateUse(sid: nat, tid: nat)

  /** In the list of sources each is a use of its source. */
  function SourceUses(h: seq<TemplateUse>): seq<Lru.Op<nat>> {
    if h == [] then [] else SourceUses(h[..|h| - 1]) + [Lru.Use(h[|h| - 1].sid)]
  }

  /** In the list of a source it is a use of the template; a source that was evicted in
      between has started again with an empty list. */
  function TemplateUses(h: seq<TemplateUse>, sid: nat, maxSources: nat): seq<Lru.Op<nat>>
    requires maxSources > 0
  {
    if h == [] then []
    else
      var before, u := h[..|h| - 1], h[|h| - 1];
      if u.sid != sid then TemplateUses(before, sid, maxSources)
      else (if sid in Lru.Run(maxSources, SourceUses(before)) then TemplateUses(before, sid, maxSources) else []) + [Lru.Use(u.tid)]
  }

  /** The lists are those of the history, and the counters count them. */
  ghost predicate Follows(s: seq<Nf9Source>, h: seq<TemplateUse>, maxSources: nat, maxTemplates: nat)
    requires maxSources > 0 && maxTemplates > 0
  {
    && SourcesOk(s, maxSources, maxTemplates) && SourceIds(s) == Lru.Run(maxSources, SourceUses(h))
    && forall src <- s :: FollowsIn(src, h, maxSources, maxTemplates)
  }

  ghost predicate FollowsIn(src: Nf9Source, h: seq<TemplateUse>, maxSources: nat, maxTemplates: nat)
    requires maxSources > 0 && maxTemplates > 0
  {
    src.numTemplates == |src.templates| && TemplateIds(src.templates) == Lru.Run(maxTemplates, TemplateUses(h, src.id, maxSources))
  }

  lemma NothingUsed(maxSources: nat, maxTemplates: nat)
    requires maxSources > 0 && maxTemplates > 0
    ensures Follows([], [], maxSources, maxTemplates)
  {
  }

  lemma OneMore(cap: nat, ops: seq<Lru.Op<nat>>, op: Lru.Op<nat>)
    requires cap > 0
    ensures Lru.Run(cap, ops + [op]) == Lru.Step(cap, Lru.Run(cap, ops), op)
  {
    assert (ops + [op])[..|ops|] == ops;
  }

  lemma UsesMore(h: seq<TemplateUse>, u: TemplateUse, maxSources: nat)
    requires maxSources > 0
    ensures SourceUses(h + [u]) == SourceUses(h) + [Lru.Use(u.sid)]
    ensures Lru.Run(maxSources, SourceUses(h + [u])) == Lru.Step(maxSources, Lru.Run(maxSources, SourceUses(h)), Lru.Use(u.sid))
    ensures TemplateUses(h + [u], u.sid, maxSources) ==
      (if u.sid in Lru.Run(maxSources, SourceUses(h)) then TemplateUses(h, u.sid, maxSources) else []) + [Lru.Use(u.tid)]
    ensures forall sid: nat :: sid != u.sid ==> TemplateUses(h + [u], sid, maxSources) == TemplateUses(h, sid, maxSources)
  {
    assert (h + [u])[..|h|] == h;
    OneMore(maxSources, SourceUses(h), Lru.Use(u.sid));
  }

  lemma AmongIds(s: seq<Nf9Source>, sid: nat)
    ensures sid in SourceIds(s) <==> IndexOf(s, sid) < |s|
  {
    var k := IndexOf(s, sid);
    if k < |s| { assert SourceIds(s)[k] == sid; }
  }

  /** A list whose first source has had the use, and whose others are old ones. */
  lemma UsedFollows(s: seq<Nf9Source>, r: seq<Nf9Source>, h: seq<TemplateUse>, u: TemplateUse, maxSources: nat, maxTemplates: nat)
    requires maxSources > 0 && maxTemplates > 0 && Follows(s, h, maxSources, maxTemplates)
    requires SourcesOk(r, maxSources, maxTemplates) && r != [] && r[0].id == u.sid
    requires SourceIds(r) == Lru.Step(maxSources, SourceIds(s), Lru.Use(u.sid))
    requires var k := IndexOf(s, u.sid); var before := if k < |s| then s[k].templates else [];
      TemplateIds(r[0].templates) == Lru.Step(maxTemplates, TemplateIds(before), Lru.Use(u.tid))
    requires forall src <- r[1..] :: src in s && src.id != u.sid
    ensures Follows(r, h + [u], maxSources, maxTemplates)
  {
    hide Lru.Step, SourceUses, TemplateUses, SourceIds, TemplateIds, IndexOf, Distinct;
    UsesMore(h, u, maxSources);
    AmongIds(s, u.sid);
    NoIds();
    var k := IndexOf(s, u.sid);
    var before := if k < |s| then TemplateUses(h, u.sid, maxSources) else [];
    OneMore(maxTemplates, before, Lru.Use(u.tid));
    if k < |s| { assert s[k] in s; }
    assert r[0] in r;
    forall src | src in r ensures FollowsIn(src, h + [u], maxSources, maxTemplates) {
      if src != r[0] { assert src in r[1..]; }
    }
  }

  /** A new template. */
  lemma CreateFollows(s: seq<Nf9Source>, h: seq<TemplateUse>, u: TemplateUse, maxSources: nat, maxTemplates: nat)
    requires maxSources > 0 && maxTemplates > 0 && Follows(s, h, maxSources, maxTemplates)
    requires FindPlace(s, u.sid, u.tid) == Nowhere
    ensures Follows(WithTemplate(s, u.sid, u.tid, maxSources, maxTemplates), h + [u], maxSources, maxTemplates)
  {
    hide Lru.Step, SourceIds, TemplateIds, IndexOf, Distinct, FindPlace, SourcesOk, FollowsIn, Lru.Run;
    WithTemplateIsLru(s, u.sid, u.tid, maxSources, maxTemplates);
    UsedFollows(s, WithTemplate(s, u.sid, u.tid, maxSources, maxTemplates), h, u, maxSources, maxTemplates);
  }

  /** An update of a template that is stored. */
  lemma UpdateFollows(s: seq<Nf9Source>, h: seq<TemplateUse>, u: TemplateUse, maxSources: nat, maxTemplates: nat)
    requires maxSources > 0 && maxTemplates > 0 && Follows(s, h, maxSources, maxTemplates)
    requires FindPlace(s, u.sid, u.tid).Place?
    ensures Follows(Touched(s, u.sid, u.tid), h + [u], maxSources, maxTemplates)
  {
    hide Lru.Step, SourceIds, TemplateIds, IndexOf, TemplateIndexOf, Distinct, SourcesOk, FollowsIn, Lru.Run, Touched;
    TouchedIsLru(s, u.sid, u.tid, maxSources, maxTemplates);
    TouchedSome(s, u.sid, u.tid);
    UsedFollows(s, Touched(s, u.sid, u.tid), h, u, maxSources, maxTemplates);
  }

  lemma TouchedSome(s: seq<Nf9Source>, sid: nat, tid: nat)
    requires s != []
    ensures Touched(s, sid, tid) != []
  {
  }

  /** Records that are written into a stored template use nothing. */
  lemma FillFollows(s: seq<Nf9Source>, h: seq<TemplateUse>, p: Place, records: seq<Nf9Record>, total: nat, maxSources: nat, maxTemplates: nat)
    requires maxSources > 0 && maxTemplates > 0 && Follows(s, h, maxSources, maxTemplates)
    requires p.Place? && p.source < |s| && p.template < |s[p.source].templates|
    ensures Follows(Filled(s, p, records, total), h, maxSources, maxTemplates)
  {
    hide Lru.Run, SourceUses, TemplateUses, SourceIds, TemplateIds, Distinct;
    FilledIds(s, p, records, total);
    var r := Filled(s, p, records, total);
    forall src | src in r ensures FollowsIn(src, h, maxSources, maxTemplates) && SourceOk(src, maxTemplates) {
      var i :| 0 <= i < |r| && r[i] == src;
      assert s[i] in s && FollowsIn(s[i], h, maxSources, maxTemplates) && SourceOk(s[i], maxTemplates);
    }
  }

  /** In every state that follows a history the sources are strictly ordered by their last
      use, most recent first, and so are the templates of each source; all counters are
      list lengths and within their maxima. */
  lemma StrictlyRecent(s: seq<Nf9Source>, h: seq<TemplateUse>, maxSources: nat, maxTemplates: nat)
    requires maxSources > 0 && maxTemplates > 0 && Follows(s, h, maxSources, maxTemplates)
    ensures Distinct(SourceIds(s)) && |s| <= maxSources && Lru.ByRecency(SourceUses(h), SourceIds(s))
    ensures forall src <- s ::
      && Distinct(TemplateIds(src.templates)) && src.numTemplates == |src.templates| <= maxTemplates
      && Lru.ByRecency(TemplateUses(h, src.id, maxSources), TemplateIds(src.templates))
  {
    hide Lru.Run, SourceUses, TemplateUses, Lru.ByRecency, Distinct;
    Lru.RunInvariant(maxSources, SourceUses(h));
    forall src | src in s
      ensures Distinct(TemplateIds(src.templates)) && |src.templates| <= maxTemplates
        && Lru.ByRecency(TemplateUses(h, src.id, maxSources), TemplateIds(src.templates))
    {
      assert FollowsIn(src, h, maxSources, maxTemplates);
      Lru.RunInvariant(maxTemplates, TemplateUses(h, src.id, maxSources));
    }
  }

  // ----- What a packet uses -----

  function UseOf(s: seq<Nf9Source>, sid: nat, tid: nat): seq<TemplateUse> {
    if FindPlace(s, sid, tid).Place? then [] else [TemplateUse(sid, tid)]
  }

  lemma StoreFollows(s: seq<Nf9Source>, h: seq<TemplateUse>, lim: Limits, sid: nat, tid: nat, records: seq<Nf9Record>, total: nat)
    requires lim.maxSources > 0 && lim.maxTemplates > 0 && Follows(s, h, lim.maxSources, lim.maxTemplates)
    ensures Follows(StoreTemplate(s, lim, sid, tid, records, total), h + UseOf(s, sid, tid), lim.maxSources, lim.maxTemplates)
  {
    hide Follows, Filled, WithTemplate;
    var p := FindPlace(s, sid, tid);
    if p.Place? {
      assert h + [] == h;
      FillFollows(s, h, p, records, total, lim.maxSources, lim.maxTemplates);
    } else {
      var u := TemplateUse(sid, tid);
      CreateFollows(s, h, u, lim.maxSources, lim.maxTemplates);
      NewFirst(s, sid, tid, lim.maxSources, lim.maxTemplates);
      FillFollows(WithTemplate(s, sid, tid, lim.maxSources, lim.maxTemplates), h + [u], Place(0, 0), records, total,
                  lim.maxSources, lim.maxTemplates);
    }
  }

  lemma NewFirst(s: seq<Nf9Source>, sid: nat, tid: nat, maxSources: nat, maxTemplates: nat)
    ensures var r := WithTemplate(s, sid, tid, maxSources, maxTemplates); r != [] && r[0].templates != []
  {
  }

  /** The templates that a template flowset creates, from a position on. */
  ghost function TemplatesUsed(st: State, lim: Limits, pkt: seq<u8>, len: nat, offset: nat, sid: nat): seq<TemplateUse>
    requires len <= |pkt|
    decreases len - offset
  {
    if offset >= len || offset + 4 > |pkt| then []
    else
      var tid, count: nat := Get16(pkt, offset), Get16(pkt, offset + 2);
      match ReadRecords(pkt, len, offset + 4, count, [], 0, lim.maxLen)
      case RecordsFault => []
      case RecordsBad => []
      case RecordList(records, total) =>
        UseOf(st.sources, sid, tid)
        + TemplatesUsed(st.(sources := StoreTemplate(st.sources, lim, sid, tid, records, total)),
                        lim, pkt, len, offset + 4 + 4 * count, sid)
  }

  ghost function SetUsed(st: State, lim: Limits, pkt: seq<u8>, id: nat, len: nat, sid: nat): seq<TemplateUse>
    requires len <= |pkt|
  {
    if id == TEMPLATE_FLOWSET_ID && len >= 4 then TemplatesUsed(st, lim, pkt, len, 4, sid) else []
  }

  /** And those that a packet creates. */
  ghost function SetsUsed(st: State, lim: Limits, pkt: seq<u8>, offset: nat, m: Meta): seq<TemplateUse>
    requires StoredOk(st.sources, lim) && lim.maxSources > 0 && lim.maxTemplates > 0
    decreases |pkt| - offset
  {
    if offset + 4 > |pkt| then []
    else
      var id, len := Get16(pkt, offset), Get16(pkt, offset + 2);
      if offset + len > |pkt| then []
      else
        OneSetKeeps(st, lim, pkt[offset..], id, len, m);
        SetUsed(st, lim, pkt[offset..], id, len, m.sourceId)
        + match OneSet(st, lim, pkt[offset..], id, len, m)
          case Good(st', _) => if len == 0 || offset + len == |pkt| then [] else SetsUsed(st', lim, pkt, offset + len, m)
          case _ => []
  }

  ghost function PacketUsed(st: State, lim: Limits, pkt: seq<u8>, recvSec: u32, recvUsec: u32, agent: HostAddr): seq<TemplateUse>
    requires StoredOk(st.sources, lim) && lim.maxSources > 0 && lim.maxTemplates > 0
  {
    if |pkt| < HEADER_SIZE then [] else SetsUsed(st, lim, pkt, HEADER_SIZE, MetaOf(pkt, recvSec, recvUsec, agent))
  }

  lemma {:induction false} TemplatesFollow(st: State, lim: Limits, pkt: seq<u8>, len: nat, offset: nat, sid: nat, h: seq<TemplateUse>)
    requires len <= |pkt| && lim.maxSources > 0 && lim.maxTemplates > 0 && Follows(st.sources, h, lim.maxSources, lim.maxTemplates)
    ensures var o := ReadTemplates(st, lim, pkt, len, offset, sid);
      o.Fault? || Follows(o.state.sources, h + TemplatesUsed(st, lim, pkt, len, offset, sid), lim.maxSources, lim.maxTemplates)
    decreases len - offset
  {
    hide Follows, ReadRecords, StoreTemplate, UseOf, Get16;
    assert h + [] == h;
    if offset < len && offset + 4 <= |pkt| {
      var tid, count: nat := Get16(pkt, offset), Get16(pkt, offset + 2);
      var r := ReadRecords(pkt, len, offset + 4, count, [], 0, lim.maxLen);
      if r.RecordList? {
        StoreFollows(st.sources, h, lim, sid, tid, r.records, r.total);
        var st' := st.(sources := StoreTemplate(st.sources, lim, sid, tid, r.records, r.total));
        var u := UseOf(st.sources, sid, tid);
        TemplatesFollow(st', lim, pkt, len, offset + 4 + 4 * count, sid, h + u);
        var more := TemplatesUsed(st', lim, pkt, len, offset + 4 + 4 * count, sid);
        assert h + u + more == h + (u + more);
      }
    }
  }

  lemma SetFollows(st: State, lim: Limits, pkt: seq<u8>, id: nat, len: nat, m: Meta, h: seq<TemplateUse>)
    requires len <= |pkt| && StoredOk(st.sources, lim) && lim.maxSources > 0 && lim.maxTemplates > 0
    requires Follows(st.sources, h, lim.maxSources, lim.maxTemplates)
    ensures var o := OneSet(st, lim, pkt, id, len, m);
      o.Fault? || Follows(o.state.sources, h + SetUsed(st, lim, pkt, id, len, m.sourceId), lim.maxSources, lim.maxTemplates)
  {
    hide Follows, ReadTemplates, TemplatesUsed, StoredOk, DecodeAll;
    assert h + [] == h;
    if id == TEMPLATE_FLOWSET_ID && len >= 4 {
      TemplatesFollow(st, lim, pkt, len, 4, m.sourceId, h);
    }
  }

  lemma {:induction false} SetsFollow(st: State, lim: Limits, pkt: seq<u8>, offset: nat, m: Meta, h: seq<TemplateUse>)
    requires StoredOk(st.sources, lim) && lim.maxSources > 0 && lim.maxTemplates > 0
    requires Follows(st.sources, h, lim.maxSources, lim.maxTemplates)
    ensures var r := ReadSets(st, lim, pkt, offset, m);
      r.Run? ==> Follows(r.state.sources, h + SetsUsed(st, lim, pkt, offset, m), lim.maxSources, lim.maxTemplates)
    decreases |pkt| - offset
  {
    hide Follows, OneSet, SetUsed, StoredOk, Get16;
    assert h + [] == h;
    if offset + 4 <= |pkt| {
      var id, len := Get16(pkt, offset), Get16(pkt, offset + 2);
      if offset + len <= |pkt| {
        OneSetKeeps(st, lim, pkt[offset..], id, len, m);
        SetFollows(st, lim, pkt[offset..], id, len, m, h);
        var o := OneSet(st, lim, pkt[offset..], id, len, m);
        var used := SetUsed(st, lim, pkt[offset..], id, len, m.sourceId);
        assert used + [] == used;
        if o.Good? && len > 0 && offset + len < |pkt| {
          SetsFollow(o.state, lim, pkt, offset + len, m, h + used);
          var more := SetsUsed(o.state, lim, pkt, offset + len, m);
          assert h + used + more == h + (used + more);
        }
      }
    }
  }

  /** Every packet that is left in order takes lists that follow a history to lists that
      follow it with the packet's new templates. */
  lemma PacketFollows(st: State, lim: Limits, pkt: seq<u8>, recvSec: u32, recvUsec: u32, agent: HostAddr, h: seq<TemplateUse>)
    requires StoredOk(st.sources, lim) && lim.maxSources > 0 && lim.maxTemplates > 0
    requires Follows(st.sources, h, lim.maxSources, lim.maxTemplates)
    ensures var r := ReadPacket(st, lim, pkt, recvSec, recvUsec, agent);
      r.Run? ==> Follows(r.state.sources, h + PacketUsed(st, lim, pkt, recvSec, recvUsec, agent), lim.maxSources, lim.maxTemplates)
  {
    hide Follows, ReadSets, SetsUsed, StoredOk;
    assert h + [] == h;
    if |pkt| >= HEADER_SIZE {
      SetsFollow(st, lim, pkt, HEADER_SIZE, MetaOf(pkt, recvSec, recvUsec, agent), h);
    }
  }
}
