/** On which packets the NetFlow v9 collector (flowd/flowd.c) reads beyond the packet,
    divides by zero or makes no progress. */
module Nf9Hazards {
  import opened Addr
  import opened Bytes
  import opened FlowRecord
  import Lru
  import opened Nf9Collect
  import opened Nf9Wire
  import opened PeerState

  // ----- Records of a template -----

  /** The n records that stand from a position on. */
  function RecordsAt(pkt: seq<u8>, offset: nat, n: nat): (rs: seq<Nf9Record>)
    requires offset + 4 * n <= |pkt|
    ensures |rs| == n
  {
    if n == 0 then []
    else RecordsAt(pkt, offset, n - 1) + [Nf9Record(Get16(pkt, offset + 4 * n - 4), Get16(pkt, offset + 4 * n - 2))]
  }

  ghost predicate Acceptable(rs: seq<Nf9Record>, maxLen: nat) {
    RecordsOk(rs) && Total(rs) <= maxLen
  }

  /** After n acceptable records the next one begins inside the flowset, and the packet's
      end cuts it. */
  ghost predicate CutRecord(pkt: seq<u8>, len: nat, offset: nat, n: nat, maxLen: nat) {
    offset + 4 * n < len && offset + 4 * n <= |pkt| < offset + 4 * n + 4 && Acceptable(RecordsAt(pkt, offset, n), maxLen)
  }

  /** All the records are there, each begins inside the flowset, and they are acceptable. */
  ghost predicate AllThere(pkt: seq<u8>, len: nat, offset: nat, count: nat, maxLen: nat) {
    && (count > 0 ==> offset + 4 * count < len + 4)
    && offset + 4 * count <= |pkt| && Acceptable(RecordsAt(pkt, offset, count), maxLen)
  }

  lemma OneMoreRecord(pkt: seq<u8>, offset: nat, k: nat, maxLen: nat)
    requires offset + 4 * k + 4 <= |pkt| && Acceptable(RecordsAt(pkt, offset, k), maxLen)
    ensures var rec := Nf9Record(Get16(pkt, offset + 4 * k), Get16(pkt, offset + 4 * k + 2));
      && RecordsAt(pkt, offset, k + 1) == RecordsAt(pkt, offset, k) + [rec]
      && Total(RecordsAt(pkt, offset, k + 1)) == Total(RecordsAt(pkt, offset, k)) + rec.len
      && (Acceptable(RecordsAt(pkt, offset, k + 1), maxLen) <==>
            CheckRecLen(rec.kind, rec.len) && Total(RecordsAt(pkt, offset, k)) + rec.len <= maxLen)
  {
    hide CheckRecLen, Get16;
    var rs, rs' := RecordsAt(pkt, offset, k), RecordsAt(pkt, offset, k + 1);
    assert rs'[..k] == rs && rs'[k] in rs';
    assert forall r <- rs :: r in rs';
  }

  lemma {:induction false} FewerAcceptable(pkt: seq<u8>, offset: nat, j: nat, k: nat, maxLen: nat)
    requires j <= k && offset + 4 * k <= |pkt| && Acceptable(RecordsAt(pkt, offset, k), maxLen)
    ensures Acceptable(RecordsAt(pkt, offset, j), maxLen)
    decreases k - j
  {
    hide CheckRecLen, Get16;
    if j < k {
      var rs, rs' := RecordsAt(pkt, offset, k - 1), RecordsAt(pkt, offset, k);
      assert rs'[..k - 1] == rs && forall r <- rs :: r in rs';
      FewerAcceptable(pkt, offset, j, k - 1, maxLen);
    }
  }

  ghost predicate SomeCut(pkt: seq<u8>, len: nat, offset: nat, k: nat, count: nat, maxLen: nat) {
    exists n :: k <= n < count && CutRecord(pkt, len, offset, n, maxLen)
  }

  /** The loop over records from the k-th on: when it reads beyond the packet, and when it
      gets through. */
  lemma {:induction false} RecordsFrom(pkt: seq<u8>, len: nat, offset: nat, k: nat, count: nat, maxLen: nat)
    requires k <= count && len <= |pkt| && offset + 4 * k <= |pkt| && Acceptable(RecordsAt(pkt, offset, k), maxLen)
    requires k > 0 ==> offset + 4 * k < len + 4
    ensures var done := RecordsAt(pkt, offset, k); var r := ReadRecords(pkt, len, offset + 4 * k, count - k, done, Total(done), maxLen);
      && (r.RecordsFault? <==> SomeCut(pkt, len, offset, k, count, maxLen))
      && (r.RecordList? <==> AllThere(pkt, len, offset, count, maxLen))
      && (r.RecordList? ==> r.records == RecordsAt(pkt, offset, count) && r.total == Total(r.records))
    decreases count - k
  {
    hide CheckRecLen, Get16, Acceptable, RecordsAt, Total;
    var at := offset + 4 * k;
    if k < count && at < len {
      if at + 4 > |pkt| {
        assert CutRecord(pkt, len, offset, k, maxLen);
      } else {
        OneMoreRecord(pkt, offset, k, maxLen);
        if Acceptable(RecordsAt(pkt, offset, k + 1), maxLen) {
          RecordsFrom(pkt, len, offset, k + 1, count, maxLen);
        } else {
          Rejected(pkt, len, offset, k + 1, count, maxLen);
        }
        assert !CutRecord(pkt, len, offset, k, maxLen);
        assert SomeCut(pkt, len, offset, k, count, maxLen) <==> SomeCut(pkt, len, offset, k + 1, count, maxLen);
      }
    }
  }

  lemma Rejected(pkt: seq<u8>, len: nat, offset: nat, k: nat, count: nat, maxLen: nat)
    requires k <= count && offset + 4 * k <= |pkt| && !Acceptable(RecordsAt(pkt, offset, k), maxLen)
    ensures !SomeCut(pkt, len, offset, k, count, maxLen) && !AllThere(pkt, len, offset, count, maxLen)
  {
    hide Acceptable, RecordsAt;
    if SomeCut(pkt, len, offset, k, count, maxLen) {
      var n :| k <= n < count && CutRecord(pkt, len, offset, n, maxLen);
      FewerAcceptable(pkt, offset, k, n, maxLen);
    }
    if AllThere(pkt, len, offset, count, maxLen) {
      FewerAcceptable(pkt, offset, k, count, maxLen);
    }
  }

  lemma RecordsExactly(pkt: seq<u8>, len: nat, offset: nat, count: nat, maxLen: nat)
    requires len <= |pkt| && offset <= |pkt|
    ensures var r := ReadRecords(pkt, len, offset, count, [], 0, maxLen);
      && (r.RecordsFault? <==> SomeCut(pkt, len, offset, 0, count, maxLen))
      && (r.RecordList? <==> AllThere(pkt, len, offset, count, maxLen))
      && (r.RecordList? ==> r.records == RecordsAt(pkt, offset, count) && r.total == Total(r.records))
  {
    hide ReadRecords, SomeCut, AllThere;
    NoRecords();
    assert RecordsAt(pkt, offset, 0) == [];
    RecordsFrom(pkt, len, offset, 0, count, maxLen);
  }

  // ----- Template flowsets -----

  /** The position behind n more templates, all of them acceptable; -1 if they are not. */
  ghost function Behind(pkt: seq<u8>, len: nat, offset: nat, n: nat, maxLen: nat): int
    decreases n
  {
    if n == 0 then offset
    else if offset >= len || offset + 4 > |pkt| then -1
    else
      var count: nat := Get16(pkt, offset + 2);
      if AllThere(pkt, len, offset + 4, count, maxLen) then Behind(pkt, len, offset + 4 + 4 * count, n - 1, maxLen) else -1
  }

  /** A template begins here, and the packet's end cuts its header or one of its records. */
  ghost predicate CutHere(pkt: seq<u8>, len: nat, p: int, maxLen: nat) {
    && 0 <= p < len
    && (p + 4 > |pkt| || SomeCut(pkt, len, p + 4, 0, Get16(pkt, p + 2), maxLen))
  }

  ghost predicate CutTemplate(pkt: seq<u8>, len: nat, offset: nat, maxLen: nat) {
    exists n: nat :: CutHere(pkt, len, Behind(pkt, len, offset, n, maxLen), maxLen)
  }

  lemma NextTemplate(pkt: seq<u8>, len: nat, offset: nat, maxLen: nat)
    requires offset < len && offset + 4 <= |pkt| && AllThere(pkt, len, offset + 4, Get16(pkt, offset + 2), maxLen)
    ensures CutTemplate(pkt, len, offset, maxLen) <==>
      CutHere(pkt, len, offset, maxLen) || CutTemplate(pkt, len, offset + 4 + 4 * Get16(pkt, offset + 2), maxLen)
  {
    hide AllThere, SomeCut, Get16, CutHere;
    var next := offset + 4 + 4 * Get16(pkt, offset + 2);
    if CutTemplate(pkt, len, offset, maxLen) {
      var n: nat :| CutHere(pkt, len, Behind(pkt, len, offset, n, maxLen), maxLen);
      if n > 0 { assert CutHere(pkt, len, Behind(pkt, len, next, n - 1, maxLen), maxLen); }
    }
    if CutHere(pkt, len, offset, maxLen) { assert CutHere(pkt, len, Behind(pkt, len, offset, 0, maxLen), maxLen); }
    if CutTemplate(pkt, len, next, maxLen) {
      var n: nat :| CutHere(pkt, len, Behind(pkt, len, next, n, maxLen), maxLen);
      assert Behind(pkt, len, offset, n + 1, maxLen) == Behind(pkt, len, next, n, maxLen);
    }
  }

  lemma LastTemplate(pkt: seq<u8>, len: nat, offset: nat, maxLen: nat)
    requires offset >= len || offset + 4 > |pkt| || !AllThere(pkt, len, offset + 4, Get16(pkt, offset + 2), maxLen)
    ensures CutTemplate(pkt, len, offset, maxLen) <==> CutHere(pkt, len, offset, maxLen)
  {
    hide AllThere, SomeCut, Get16;
    if CutHere(pkt, len, offset, maxLen) { assert CutHere(pkt, len, Behind(pkt, len, offset, 0, maxLen), maxLen); }
  }

  lemma NotBoth(pkt: seq<u8>, len: nat, offset: nat, count: nat, maxLen: nat)
    requires AllThere(pkt, len, offset, count, maxLen)
    ensures !SomeCut(pkt, len, offset, 0, count, maxLen)
  {
  }

  lemma {:induction false} TemplatesExactly(st: State, lim: Limits, pkt: seq<u8>, len: nat, offset: nat, sid: nat)
    requires len <= |pkt|
    ensures ReadTemplates(st, lim, pkt, len, offset, sid).Fault? <==> CutTemplate(pkt, len, offset, lim.maxLen)
    decreases len - offset
  {
    hide AllThere, SomeCut, CutTemplate, ReadRecords, StoreTemplate, Get16;
    if offset < len && offset + 4 <= |pkt| {
      var tid, count: nat := Get16(pkt, offset), Get16(pkt, offset + 2);
      RecordsExactly(pkt, len, offset + 4, count, lim.maxLen);
      var r := ReadRecords(pkt, len, offset + 4, count, [], 0, lim.maxLen);
      if r.RecordList? {
        NextTemplate(pkt, len, offset, lim.maxLen);
        NotBoth(pkt, len, offset + 4, count, lim.maxLen);
        TemplatesExactly(st.(sources := StoreTemplate(st.sources, lim, sid, tid, r.records, r.total)),
                         lim, pkt, len, offset + 4 + 4 * count, sid);
      } else {
        LastTemplate(pkt, len, offset, lim.maxLen);
      }
    } else {
      LastTemplate(pkt, len, offset, lim.maxLen);
    }
  }

  // ----- Packets -----

  /** A template without records is found under the flowset's number. */
  ghost predicate EmptyTemplate(s: seq<Nf9Source>, sid: nat, tid: nat) {
    var p := FindPlace(s, sid, tid);
    p.Place? && s[p.source].templates[p.template].records == []
  }

  /** The flowset at a position brings the collector out of its packet, or to a halt. */
  ghost predicate Hazard(st: State, lim: Limits, pkt: seq<u8>, offset: nat, sid: nat) {
    && offset < |pkt|
    && (offset + 4 > |pkt|
        || (var id, len := Get16(pkt, offset), Get16(pkt, offset + 2);
            && offset + len <= |pkt|
            && ((len == 0 && TEMPLATE_FLOWSET_ID < id < MIN_RECORD_FLOWSET_ID)
                || (len >= 4 && id == TEMPLATE_FLOWSET_ID && CutTemplate(pkt[offset..], len, 4, lim.maxLen))
                || (len >= 4 && id >= MIN_RECORD_FLOWSET_ID && EmptyTemplate(st.sources, sid, id)))))
  }

  /** Where the collector is after n more flowsets, if it reads on behind all of them. */
  datatype Spot = Elsewhere | Spot(state: State, offset: nat)

  ghost function Later(st: State, lim: Limits, pkt: seq<u8>, offset: nat, m: Meta, n: nat): Spot
    requires StoredOk(st.sources, lim) && lim.maxSources > 0 && lim.maxTemplates > 0
    decreases n
  {
    if n == 0 then Spot(st, offset)
    else if offset + 4 > |pkt| then Elsewhere
    else
      var id, len := Get16(pkt, offset), Get16(pkt, offset + 2);
      if len == 0 || offset + len >= |pkt| then Elsewhere
      else
        OneSetKeeps(st, lim, pkt[offset..], id, len, m);
        match OneSet(st, lim, pkt[offset..], id, len, m)
        case Good(st', _) => Later(st', lim, pkt, offset + len, m, n - 1)
        case _ => Elsewhere
  }

  ghost predicate HazardLater(st: State, lim: Limits, pkt: seq<u8>, offset: nat, m: Meta, n: nat)
    requires StoredOk(st.sources, lim) && lim.maxSources > 0 && lim.maxTemplates > 0
  {
    var s := Later(st, lim, pkt, offset, m, n);
    s.Spot? && Hazard(s.state, lim, pkt, s.offset, m.sourceId)
  }

  ghost predicate ComesToHazard(st: State, lim: Limits, pkt: seq<u8>, offset: nat, m: Meta)
    requires StoredOk(st.sources, lim) && lim.maxSources > 0 && lim.maxTemplates > 0
  {
    exists n: nat :: HazardLater(st, lim, pkt, offset, m, n)
  }

  lemma {:induction false} NoneEmptyTotal(rs: seq<Nf9Record>)
    requires RecordsOk(rs)
    ensures Total(rs) == 0 <==> rs == []
  {
    if rs != [] {
      assert rs[|rs| - 1] in rs;
    }
  }

  /** Of one flowset that lies in the packet. */
  lemma SetExactly(st: State, lim: Limits, pkt: seq<u8>, id: nat, len: nat, m: Meta)
    requires 4 <= |pkt| && len <= |pkt| && id == Get16(pkt, 0) && StoredOk(st.sources, lim)
    ensures OneSet(st, lim, pkt, id, len, m).Fault? <==>
      || (len >= 4 && id == TEMPLATE_FLOWSET_ID && CutTemplate(pkt, len, 4, lim.maxLen))
      || (len >= 4 && id >= MIN_RECORD_FLOWSET_ID && EmptyTemplate(st.sources, m.sourceId, id))
    ensures id >= MIN_RECORD_FLOWSET_ID && len < 4 ==> OneSet(st, lim, pkt, id, len, m).Bad?
    ensures id == TEMPLATE_FLOWSET_ID && len < 4 ==> OneSet(st, lim, pkt, id, len, m).Bad?
    ensures TEMPLATE_FLOWSET_ID < id < MIN_RECORD_FLOWSET_ID ==> OneSet(st, lim, pkt, id, len, m) == Good(st, [])
  {
    hide CutTemplate, ReadTemplates, DecodeAll, SourcesOk;
    if id == TEMPLATE_FLOWSET_ID {
      TemplatesExactly(st, lim, pkt, len, 4, m.sourceId);
    } else if id >= MIN_RECORD_FLOWSET_ID {
      var p := FindPlace(st.sources, m.sourceId, id);
      if p.Place? {
        NoneEmptyTotal(st.sources[p.source].templates[p.template].records);
      }
    }
  }

  lemma {:induction false} SetsExactly(st: State, lim: Limits, pkt: seq<u8>, offset: nat, m: Meta)
    requires StoredOk(st.sources, lim) && lim.maxSources > 0 && lim.maxTemplates > 0
    ensures ReadSets(st, lim, pkt, offset, m).Stuck? <==> ComesToHazard(st, lim, pkt, offset, m)
    decreases |pkt| - offset
  {
    hide OneSet, StoredOk, Hazard;
    if Hazard(st, lim, pkt, offset, m.sourceId) {
      assert HazardLater(st, lim, pkt, offset, m, 0);
      HazardStops(st, lim, pkt, offset, m);
    } else if offset < |pkt| {
      NoHazard(st, lim, pkt, offset, m);
      var id, len := Get16(pkt, offset), Get16(pkt, offset + 2);
      if len > 0 && offset + len < |pkt| && OneSet(st, lim, pkt[offset..], id, len, m).Good? {
        OneSetKeeps(st, lim, pkt[offset..], id, len, m);
        var st' := OneSet(st, lim, pkt[offset..], id, len, m).state;
        SetsExactly(st', lim, pkt, offset + len, m);
        LaterStep(st, lim, pkt, offset, m, st');
      } else {
        assert forall n: nat :: n > 0 ==> Later(st, lim, pkt, offset, m, n) == Elsewhere;
      }
    } else {
      assert forall n: nat :: n > 0 ==> Later(st, lim, pkt, offset, m, n) == Elsewhere;
    }
  }

  lemma LaterStep(st: State, lim: Limits, pkt: seq<u8>, offset: nat, m: Meta, st': State)
    requires StoredOk(st.sources, lim) && lim.maxSources > 0 && lim.maxTemplates > 0 && StoredOk(st'.sources, lim)
    requires offset + 4 <= |pkt| && !Hazard(st, lim, pkt, offset, m.sourceId)
    requires var len := Get16(pkt, offset + 2);
      && len > 0 && offset + len < |pkt|
      && var o := OneSet(st, lim, pkt[offset..], Get16(pkt, offset), len, m); o.Good? && o.state == st'
    ensures ComesToHazard(st, lim, pkt, offset, m) <==> ComesToHazard(st', lim, pkt, offset + Get16(pkt, offset + 2), m)
  {
    hide OneSet, StoredOk, Hazard, Get16;
    var next := offset + Get16(pkt, offset + 2);
    assert forall n: nat :: Later(st, lim, pkt, offset, m, n + 1) == Later(st', lim, pkt, next, m, n);
    if ComesToHazard(st, lim, pkt, offset, m) {
      var n: nat :| HazardLater(st, lim, pkt, offset, m, n);
      assert n > 0;
      assert Later(st, lim, pkt, offset, m, n - 1 + 1) == Later(st', lim, pkt, next, m, n - 1);
      assert HazardLater(st', lim, pkt, next, m, n - 1);
    }
    if ComesToHazard(st', lim, pkt, next, m) {
      var n: nat :| HazardLater(st', lim, pkt, next, m, n);
      assert HazardLater(st, lim, pkt, offset, m, n + 1);
    }
  }

  lemma SameStart(pkt: seq<u8>, offset: nat)
    requires offset + 4 <= |pkt|
    ensures Get16(pkt[offset..], 0) == Get16(pkt, offset) && |pkt[offset..]| == |pkt| - offset
  {
  }

  lemma HazardStops(st: State, lim: Limits, pkt: seq<u8>, offset: nat, m: Meta)
    requires StoredOk(st.sources, lim) && lim.maxSources > 0 && lim.maxTemplates > 0
    requires Hazard(st, lim, pkt, offset, m.sourceId)
    ensures ReadSets(st, lim, pkt, offset, m) == Stuck([])
  {
    hide OneSet, StoredOk, CutTemplate, EmptyTemplate, Get16;
    if offset + 4 <= |pkt| {
      SameStart(pkt, offset);
      SetExactly(st, lim, pkt[offset..], Get16(pkt, offset), Get16(pkt, offset + 2), m);
    }
  }

  /** The flows of the next n flowsets. */
  ghost function FlowsBefore(st: State, lim: Limits, pkt: seq<u8>, offset: nat, m: Meta, n: nat): seq<StoreFlow>
    requires StoredOk(st.sources, lim) && lim.maxSources > 0 && lim.maxTemplates > 0
    decreases n
  {
    if n == 0 || offset + 4 > |pkt| then []
    else
      var id, len := Get16(pkt, offset), Get16(pkt, offset + 2);
      if len == 0 || offset + len >= |pkt| then []
      else
        OneSetKeeps(st, lim, pkt[offset..], id, len, m);
        match OneSet(st, lim, pkt[offset..], id, len, m)
        case Good(st', flows) => flows + FlowsBefore(st', lim, pkt, offset + len, m, n - 1)
        case _ => []
  }

  /** What has been processed of a packet that is never left in order: the flows of exactly
      the flowsets before the harmful one. */
  lemma {:induction false} StuckFlows(st: State, lim: Limits, pkt: seq<u8>, offset: nat, m: Meta, n: nat)
    requires StoredOk(st.sources, lim) && lim.maxSources > 0 && lim.maxTemplates > 0 && HazardLater(st, lim, pkt, offset, m, n)
    ensures ReadSets(st, lim, pkt, offset, m) == Stuck(FlowsBefore(st, lim, pkt, offset, m, n))
    decreases n
  {
    hide OneSet, StoredOk, Hazard, Get16;
    if n == 0 {
      HazardStops(st, lim, pkt, offset, m);
    } else {
      var id, len := Get16(pkt, offset), Get16(pkt, offset + 2);
      OneSetKeeps(st, lim, pkt[offset..], id, len, m);
      StuckFlows(OneSet(st, lim, pkt[offset..], id, len, m).state, lim, pkt, offset + len, m, n - 1);
    }
  }

  lemma NoHazard(st: State, lim: Limits, pkt: seq<u8>, offset: nat, m: Meta)
    requires StoredOk(st.sources, lim) && lim.maxSources > 0 && lim.maxTemplates > 0
    requires offset < |pkt| && !Hazard(st, lim, pkt, offset, m.sourceId)
    ensures offset + 4 <= |pkt|
    ensures var id, len := Get16(pkt, offset), Get16(pkt, offset + 2);
      offset + len <= |pkt| ==> var o := OneSet(st, lim, pkt[offset..], id, len, m); !o.Fault? && (len == 0 ==> o.Bad?)
  {
    hide OneSet, StoredOk, CutTemplate, EmptyTemplate, Get16;
    SameStart(pkt, offset);
    var len := Get16(pkt, offset + 2);
    if offset + len <= |pkt| {
      SetExactly(st, lim, pkt[offset..], Get16(pkt, offset), len, m);
    }
  }

  /** The collector leaves its packet, divides by zero or makes no progress if and only if
      it comes to a flowset whose header the packet's end cuts, an options or reserved
      flowset of length zero, a template flowset with a header or record that the packet's
      end cuts, or a data flowset whose template has no records. */
  lemma StuckExactly(st: State, lim: Limits, pkt: seq<u8>, recvSec: u32, recvUsec: u32, agent: HostAddr)
    requires StoredOk(st.sources, lim) && lim.maxSources > 0 && lim.maxTemplates > 0
    ensures ReadPacket(st, lim, pkt, recvSec, recvUsec, agent).Stuck? <==>
      |pkt| >= HEADER_SIZE && ComesToHazard(st, lim, pkt, HEADER_SIZE, MetaOf(pkt, recvSec, recvUsec, agent))
  {
    hide ReadSets, StoredOk, ComesToHazard;
    if |pkt| >= HEADER_SIZE {
      SetsExactly(st, lim, pkt, HEADER_SIZE, MetaOf(pkt, recvSec, recvUsec, agent));
    }
  }

  // ----- Packets that are in order -----

  /** Every template has a record, and lies in its flowset. */
  ghost predicate Lists(pkt: seq<u8>, len: nat, offset: nat)
    requires len <= |pkt|
    decreases len - offset
  {
    offset >= len
    || (offset + 4 <= len
        && var count: nat := Get16(pkt, offset + 2);
           count >= 1 && offset + 4 + 4 * count <= len && Lists(pkt, len, offset + 4 + 4 * count))
  }

  /** Every flowset covers its header, and those with templates are in order, as far as the
      flowsets lie in the packet. */
  ghost predicate Orderly(pkt: seq<u8>, offset: nat)
    decreases |pkt| - offset
  {
    offset >= |pkt|
    || (offset + 4 <= |pkt|
        && var id, len: nat := Get16(pkt, offset), Get16(pkt, offset + 2);
           && len >= 4
           && (offset + len > |pkt| || ((id == TEMPLATE_FLOWSET_ID ==> Lists(pkt[offset..], len, 4)) && Orderly(pkt, offset + len))))
  }

  ghost predicate OrderlyPacket(pkt: seq<u8>) {
    |pkt| >= HEADER_SIZE ==> Orderly(pkt, HEADER_SIZE)
  }

  /** No stored template is without records. */
  ghost predicate NoneEmpty(s: seq<Nf9Source>) {
    forall src <- s :: NoneEmptyIn(src.templates)
  }

  ghost predicate NoneEmptyIn(ts: seq<Nf9Template>) {
    forall t <- ts :: t.records != []
  }

  lemma FilledNoneEmpty(s: seq<Nf9Source>, p: Place, records: seq<Nf9Record>, total: nat)
    requires p.Place? && p.source < |s| && p.template < |s[p.source].templates| && records != []
    requires forall i :: 0 <= i < |s| && i != p.source ==> NoneEmptyIn(s[i].templates)
    requires forall j :: 0 <= j < |s[p.source].templates| && j != p.template ==> s[p.source].templates[j].records != []
    ensures NoneEmpty(Filled(s, p, records, total))
  {
    var s' := Filled(s, p, records, total);
    forall src | src in s' ensures NoneEmptyIn(src.templates) {
      var i :| 0 <= i < |s'| && s'[i] == src;
    }
  }

  lemma StoreNoneEmpty(s: seq<Nf9Source>, lim: Limits, sid: nat, tid: nat, records: seq<Nf9Record>, total: nat)
    requires StoredOk(s, lim) && lim.maxSources > 0 && lim.maxTemplates > 0 && NoneEmpty(s) && records != []
    ensures NoneEmpty(StoreTemplate(s, lim, sid, tid, records, total))
  {
    hide Filled;
    var p := FindPlace(s, sid, tid);
    if p.Place? {
      assert forall i :: 0 <= i < |s| ==> s[i] in s;
      FilledNoneEmpty(s, p, records, total);
    } else {
      NewNoneEmpty(s, lim, sid, tid);
      FilledNoneEmpty(WithTemplate(s, sid, tid, lim.maxSources, lim.maxTemplates), Place(0, 0), records, total);
    }
  }

  lemma NewNoneEmpty(s: seq<Nf9Source>, lim: Limits, sid: nat, tid: nat)
    requires StoredOk(s, lim) && lim.maxSources > 0 && lim.maxTemplates > 0 && NoneEmpty(s)
    requires FindPlace(s, sid, tid).Nowhere?
    ensures var r := WithTemplate(s, sid, tid, lim.maxSources, lim.maxTemplates);
      && (forall i :: 0 < i < |r| ==> NoneEmptyIn(r[i].templates))
      && r[0].templates != [] && forall j :: 0 < j < |r[0].templates| ==> r[0].templates[j].records != []
  {
    hide SourceIds, TemplateIds, Lru.Step, WithTemplate, SourcesOk, IndexOf, FindPlace;
    StoredIs(s, lim);
    WithTemplateIsLru(s, sid, tid, lim.maxSources, lim.maxTemplates);
    var r := WithTemplate(s, sid, tid, lim.maxSources, lim.maxTemplates);
    assert forall i :: 0 < i < |r| ==> r[i] in r[1..];
    FirstNoneEmpty(s, lim, sid, tid);
  }

  lemma FirstNoneEmpty(s: seq<Nf9Source>, lim: Limits, sid: nat, tid: nat)
    requires NoneEmpty(s)
    ensures var ts := WithTemplate(s, sid, tid, lim.maxSources, lim.maxTemplates)[0].templates;
      ts != [] && forall j :: 0 < j < |ts| ==> ts[j].records != []
  {
    var k := IndexOf(s, sid);
    var before := if k < |s| then s[k].templates else [];
    if k < |s| { assert s[k] in s; }
    var ts := WithTemplate(s, sid, tid, lim.maxSources, lim.maxTemplates)[0].templates;
    assert ts == [Nf9Template(tid, [], 0)] + Trimmed(before, lim.maxTemplates);
    forall j | 0 < j < |ts| ensures ts[j].records != [] {
      assert ts[j] == before[j - 1];
    }
  }

  lemma NoCut(pkt: seq<u8>, len: nat, offset: nat, count: nat, maxLen: nat)
    requires len <= |pkt| && offset + 4 * count <= len
    ensures !SomeCut(pkt, len, offset, 0, count, maxLen)
  {
  }

  lemma {:induction false} ListsRun(st: State, lim: Limits, pkt: seq<u8>, len: nat, offset: nat, sid: nat)
    requires len <= |pkt| && Lists(pkt, len, offset) && NoneEmpty(st.sources)
    requires StoredOk(st.sources, lim) && lim.maxSources > 0 && lim.maxTemplates > 0
    ensures var o := ReadTemplates(st, lim, pkt, len, offset, sid); !o.Fault? && NoneEmpty(o.state.sources)
    decreases len - offset
  {
    hide StoreTemplate, ReadRecords, Get16, NoneEmpty, StoredOk, SomeCut, AllThere;
    if offset < len {
      var tid, count: nat := Get16(pkt, offset), Get16(pkt, offset + 2);
      RecordsExactly(pkt, len, offset + 4, count, lim.maxLen);
      NoCut(pkt, len, offset + 4, count, lim.maxLen);
      NoRecords();
      RecordsRead(pkt, len, offset + 4, count, [], 0, lim.maxLen);
      var r := ReadRecords(pkt, len, offset + 4, count, [], 0, lim.maxLen);
      if r.RecordList? {
        StoreTemplateKeeps(st.sources, lim, sid, tid, r.records, r.total);
        StoreNoneEmpty(st.sources, lim, sid, tid, r.records, r.total);
        ListsRun(st.(sources := StoreTemplate(st.sources, lim, sid, tid, r.records, r.total)),
                 lim, pkt, len, offset + 4 + 4 * count, sid);
      }
    }
  }

  lemma OrderlySet(st: State, lim: Limits, pkt: seq<u8>, id: nat, len: nat, m: Meta)
    requires 4 <= len <= |pkt| && id == Get16(pkt, 0) && (id == TEMPLATE_FLOWSET_ID ==> Lists(pkt, len, 4))
    requires StoredOk(st.sources, lim) && lim.maxSources > 0 && lim.maxTemplates > 0 && NoneEmpty(st.sources)
    ensures var o := OneSet(st, lim, pkt, id, len, m); !o.Fault? && NoneEmpty(o.state.sources)
  {
    hide ReadTemplates, CutTemplate, StoredOk, DecodeAll;
    SetExactly(st, lim, pkt, id, len, m);
    if id == TEMPLATE_FLOWSET_ID {
      ListsRun(st, lim, pkt, len, 4, m.sourceId);
    } else if id >= MIN_RECORD_FLOWSET_ID {
      NotEmptyTemplate(st.sources, m.sourceId, id);
    }
  }

  lemma NotEmptyTemplate(s: seq<Nf9Source>, sid: nat, tid: nat)
    requires NoneEmpty(s)
    ensures !EmptyTemplate(s, sid, tid)
  {
    var p := FindPlace(s, sid, tid);
    if p.Place? { assert s[p.source] in s && s[p.source].templates[p.template] in s[p.source].templates; }
  }

  lemma {:induction false} OrderlyRun(st: State, lim: Limits, pkt: seq<u8>, offset: nat, m: Meta)
    requires Orderly(pkt, offset) && NoneEmpty(st.sources)
    requires StoredOk(st.sources, lim) && lim.maxSources > 0 && lim.maxTemplates > 0
    ensures var r := ReadSets(st, lim, pkt, offset, m); r.Run? && NoneEmpty(r.state.sources)
    decreases |pkt| - offset
  {
    hide OneSet, StoredOk, Lists, NoneEmpty, Get16;
    if offset < |pkt| {
      SameStart(pkt, offset);
      var id, len: nat := Get16(pkt, offset), Get16(pkt, offset + 2);
      if offset + len <= |pkt| {
        OrderlySet(st, lim, pkt[offset..], id, len, m);
        OneSetKeeps(st, lim, pkt[offset..], id, len, m);
        var o := OneSet(st, lim, pkt[offset..], id, len, m);
        if o.Good? && offset + len < |pkt| { OrderlyRun(o.state, lim, pkt, offset + len, m); }
      }
    }
  }

  /** A caller can check this much: if every flowset of a packet covers its header, every
      template has a record and lies in its flowset, and no stored template is empty, then
      the packet is read in order, and afterwards no stored template is empty. */
  lemma OrderlyRuns(st: State, lim: Limits, pkt: seq<u8>, recvSec: u32, recvUsec: u32, agent: HostAddr)
    requires OrderlyPacket(pkt) && NoneEmpty(st.sources)
    requires StoredOk(st.sources, lim) && lim.maxSources > 0 && lim.maxTemplates > 0
    ensures var r := ReadPacket(st, lim, pkt, recvSec, recvUsec, agent); r.Run? && NoneEmpty(r.state.sources)
  {
    hide ReadSets, StoredOk, Orderly, NoneEmpty;
    if |pkt| >= HEADER_SIZE {
      OrderlyRun(st, lim, pkt, HEADER_SIZE, MetaOf(pkt, recvSec, recvUsec, agent));
    }
  }

  // ----- Packets on which it happens -----

  /** Two bytes are left behind the last flowset, here an options flowset. */
  lemma BytesLeft(st: State, lim: Limits, h: seq<u8>, x: u8, y: u8, recvSec: u32, recvUsec: u32, agent: HostAddr)
    requires StoredOk(st.sources, lim) && lim.maxSources > 0 && lim.maxTemplates > 0 && |h| == HEADER_SIZE
    ensures ReadPacket(st, lim, h + [0, 1, 0, 4] + [x, y], recvSec, recvUsec, agent).Stuck?
  {
    hide ReadSets, StoredOk;
    var pkt := h + [0, 1, 0, 4] + [x, y];
    var m := MetaOf(pkt, recvSec, recvUsec, agent);
    assert Get16(pkt, 20) == 1 && Get16(pkt, 22) == 4;
    var s := Later(st, lim, pkt, HEADER_SIZE, m, 1);
    assert OneSet(st, lim, pkt[20..], 1, 4, m) == Good(st, []);
    assert Later(st, lim, pkt, 24, m, 0) == Spot(st, 24);
    assert s == Spot(st, 24) && Hazard(st, lim, pkt, 24, m.sourceId);
    assert HazardLater(st, lim, pkt, HEADER_SIZE, m, 1);
    StuckExactly(st, lim, pkt, recvSec, recvUsec, agent);
  }

  /** An options flowset of length zero is not the last. */
  lemma LengthZero(st: State, lim: Limits, h: seq<u8>, rest: seq<u8>, recvSec: u32, recvUsec: u32, agent: HostAddr)
    requires StoredOk(st.sources, lim) && lim.maxSources > 0 && lim.maxTemplates > 0 && |h| == HEADER_SIZE
    ensures ReadPacket(st, lim, h + [0, 1, 0, 0] + rest, recvSec, recvUsec, agent).Stuck?
  {
    hide ReadSets, StoredOk;
    var pkt := h + [0, 1, 0, 0] + rest;
    var m := MetaOf(pkt, recvSec, recvUsec, agent);
    assert Get16(pkt, 20) == 1 && Get16(pkt, 22) == 0;
    assert Later(st, lim, pkt, HEADER_SIZE, m, 0) == Spot(st, HEADER_SIZE) && Hazard(st, lim, pkt, HEADER_SIZE, m.sourceId);
    assert HazardLater(st, lim, pkt, HEADER_SIZE, m, 0);
    StuckExactly(st, lim, pkt, recvSec, recvUsec, agent);
  }

  const ONE_EMPTY := [Nf9Source(0, 1, [Nf9Template(256, [], 0)])]

  lemma OneEmpty(lim: Limits)
    requires lim.maxSources > 0 && lim.maxTemplates > 0
    ensures StoredOk(ONE_EMPTY, lim) && FindPlace(ONE_EMPTY, 0, 256) == Place(0, 0) && EmptyTemplate(ONE_EMPTY, 0, 256)
    ensures StoredOk([], lim) && FindPlace([], 0, 256) == Nowhere
    ensures WithTemplate([], 0, 256, lim.maxSources, lim.maxTemplates) == ONE_EMPTY
    ensures Filled(ONE_EMPTY, Place(0, 0), [], 0) == ONE_EMPTY
  {
    NoRecords();
    assert SourceIds(ONE_EMPTY) == [0] && TemplateIds(ONE_EMPTY[0].templates) == [256];
    assert IndexOf(ONE_EMPTY, 0) == 0 && TemplateIndexOf(ONE_EMPTY[0].templates, 256) == 0;
    var s := WithSource([], 0, lim.maxSources);
    assert s == [Nf9Source(0, 0, [])];
    assert AddTemplate(s[0], 256, lim.maxTemplates) == ONE_EMPTY[0];
    var src := ONE_EMPTY[0];
    assert src.templates[0 := Nf9Template(256, [], 0)] == src.templates && ONE_EMPTY[0 := src] == ONE_EMPTY;
  }

  lemma SourceZero(h: seq<u8>, rest: seq<u8>, recvSec: u32, recvUsec: u32, agent: HostAddr)
    requires |h| == HEADER_SIZE && h[16..] == [0, 0, 0, 0]
    ensures MetaOf(h + rest, recvSec, recvUsec, agent).sourceId == 0
  {
    assert h[16] == h[16..][0] && h[17] == h[16..][1] && h[18] == h[16..][2] && h[19] == h[16..][3];
  }

  /** A template with count zero is stored as one without records. */
  lemma CountZeroStored(lim: Limits, h: seq<u8>, recvSec: u32, recvUsec: u32, agent: HostAddr)
    requires lim.maxSources > 0 && lim.maxTemplates > 0 && |h| == HEADER_SIZE && h[16..] == [0, 0, 0, 0]
    ensures StoredOk([], lim)
    ensures ReadPacket(State([], 0, 0), lim, h + [0, 0, 0, 8, 1, 0, 0, 0], recvSec, recvUsec, agent)
      == Run(State(ONE_EMPTY, 0, 0), [], true)
  {
    hide StoredOk, WithTemplate, FindPlace, EmptyTemplate, MetaOf, Filled;
    var pkt := h + [0, 0, 0, 8, 1, 0, 0, 0];
    var m := MetaOf(pkt, recvSec, recvUsec, agent);
    var st := State([], 0, 0);
    OneEmpty(lim);
    SourceZero(h, [0, 0, 0, 8, 1, 0, 0, 0], recvSec, recvUsec, agent);
    assert Get16(pkt, 20) == 0 && Get16(pkt, 22) == 8;
    var part := pkt[20..];
    assert part == [0, 0, 0, 8, 1, 0, 0, 0];
    assert Get16(part, 4) == 256 && Get16(part, 6) == 0;
    assert StoreTemplate([], lim, 0, 256, [], 0) == ONE_EMPTY;
    assert ReadTemplates(State(ONE_EMPTY, 0, 0), lim, part, 8, 8, 0) == Good(State(ONE_EMPTY, 0, 0), ());
    assert OneSet(st, lim, part, 0, 8, m) == Good(State(ONE_EMPTY, 0, 0), []);
  }

  /** And then a data flowset of its number comes. */
  lemma NoRecordsStored(lim: Limits, h: seq<u8>, recvSec: u32, recvUsec: u32, agent: HostAddr)
    requires lim.maxSources > 0 && lim.maxTemplates > 0 && |h| == HEADER_SIZE && h[16..] == [0, 0, 0, 0]
    ensures StoredOk(ONE_EMPTY, lim)
    ensures ReadPacket(State(ONE_EMPTY, 0, 0), lim, h + [1, 0, 0, 4], recvSec, recvUsec, agent).Stuck?
  {
    hide ReadSets, StoredOk, EmptyTemplate, MetaOf;
    var st := State(ONE_EMPTY, 0, 0);
    var pkt := h + [1, 0, 0, 4];
    var m := MetaOf(pkt, recvSec, recvUsec, agent);
    OneEmpty(lim);
    SourceZero(h, [1, 0, 0, 4], recvSec, recvUsec, agent);
    assert Get16(pkt, 20) == 256 && Get16(pkt, 22) == 4;
    assert Hazard(st, lim, pkt, HEADER_SIZE, m.sourceId);
    assert HazardLater(st, lim, pkt, HEADER_SIZE, m, 0);
    StuckExactly(st, lim, pkt, recvSec, recvUsec, agent);
  }

  const CUT: seq<u8> := [0, 0, 0, 9, 1, 0, 0, 1, 0]

  lemma CutIs(maxLen: nat)
    ensures CutTemplate(CUT, 9, 4, maxLen)
  {
    NoRecords();
    assert Get16(CUT, 6) == 1;
    assert CutRecord(CUT, 9, 8, 0, maxLen);
    assert CutHere(CUT, 9, Behind(CUT, 9, 4, 0, maxLen), maxLen);
  }

  /** A record of a template is cut by the packet's end. */
  lemma RecordCut(st: State, lim: Limits, h: seq<u8>, recvSec: u32, recvUsec: u32, agent: HostAddr)
    requires StoredOk(st.sources, lim) && lim.maxSources > 0 && lim.maxTemplates > 0 && |h| == HEADER_SIZE
    ensures ReadPacket(st, lim, h + CUT, recvSec, recvUsec, agent).Stuck?
  {
    hide ReadSets, StoredOk, MetaOf, CutTemplate;
    var pkt := h + CUT;
    var m := MetaOf(pkt, recvSec, recvUsec, agent);
    CutIs(lim.maxLen);
    assert pkt[20..] == CUT && Get16(pkt, 20) == 0 && Get16(pkt, 22) == 9;
    assert Hazard(st, lim, pkt, HEADER_SIZE, m.sourceId);
    assert HazardLater(st, lim, pkt, HEADER_SIZE, m, 0);
    StuckExactly(st, lim, pkt, recvSec, recvUsec, agent);
  }
}
