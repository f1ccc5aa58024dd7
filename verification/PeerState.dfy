/** The per-peer records of flowd/peer.h and the NetFlow v9 part of flowd/peer.c. */
module PeerState {
  import opened Addr
  import opened Lru
  import opened Sequences

  datatype Nf9Record = Nf9Record(kind: nat, len: nat)

  /** A template; records is empty until the template handler fills it in. */
  datatype Nf9Template = Nf9Template(id: nat, records: seq<Nf9Record>, totalLen: nat)

  /** A source of a peer with its templates, the last created first. */
  datatype Nf9Source = Nf9Source(id: nat, numTemplates: nat, templates: seq<Nf9Template>)

  ghost function SourceIds(s: seq<Nf9Source>): (r: seq<nat>)
    ensures |r| == |s| && forall i :: 0 <= i < |s| ==> r[i] == s[i].id
  {
    if s == [] then [] else [s[0].id] + SourceIds(s[1..])
  }

  ghost function TemplateIds(s: seq<Nf9Template>): (r: seq<nat>)
    ensures |r| == |s| && forall i :: 0 <= i < |s| ==> r[i] == s[i].id
  {
    if s == [] then [] else [s[0].id] + TemplateIds(s[1..])
  }

  /** Where the template with the given id is stored. */
  datatype Place = Nowhere | Place(source: nat, template: nat)

  /** The bounds that the three limits impose, with counters that count. */
  ghost predicate SourceOk(src: Nf9Source, maxTemplates: nat) {
    && src.numTemplates == |src.templates| <= maxTemplates
    && Distinct(TemplateIds(src.templates))
  }

  ghost predicate SourcesOk(s: seq<Nf9Source>, maxSources: nat, maxTemplates: nat) {
    && |s| <= maxSources && Distinct(SourceIds(s))
    && forall src <- s :: SourceOk(src, maxTemplates)
  }

  function IndexOf(s: seq<Nf9Source>, sid: nat): (k: nat)
    ensures k <= |s| && (k < |s| ==> s[k].id == sid) && forall j :: 0 <= j < k ==> s[j].id != sid
  {
    if s == [] || s[0].id == sid then 0 else 1 + IndexOf(s[1..], sid)
  }

  function TemplateIndexOf(s: seq<Nf9Template>, tid: nat): (k: nat)
    ensures k <= |s| && (k < |s| ==> s[k].id == tid) && forall j :: 0 <= j < k ==> s[j].id != tid
  {
    if s == [] || s[0].id == tid then 0 else 1 + TemplateIndexOf(s[1..], tid)
  }

  /** Where a template of a source is. */
  function FindPlace(s: seq<Nf9Source>, sid: nat, tid: nat): (p: Place)
    ensures p.Place? ==> p.source < |s| && p.template < |s[p.source].templates|
    ensures p.Place? ==> s[p.source].id == sid && s[p.source].templates[p.template].id == tid
  {
    var k := IndexOf(s, sid);
    if k == |s| then Nowhere
    else
      var j := TemplateIndexOf(s[k].templates, tid);
      if j == |s[k].templates| then Nowhere else Place(k, j)
  }

  function Fronted<T>(s: seq<T>, i: nat): seq<T>
    requires i < |s|
  {
    [s[i]] + s[..i] + s[i + 1..]
  }

  lemma FrontedAt<T>(s: seq<T>, k: nat, i: nat)
    requires k < |s| && i < |s|
    ensures |Fronted(s, k)| == |s|
    ensures Fronted(s, k)[i] == if i == 0 then s[k] else if i <= k then s[i - 1] else s[i]
  {
  }

  /** A list with room for one more entry: a full one gives up its last entry. */
  function Trimmed<T>(s: seq<T>, max: nat): seq<T>
  {
    if |s| >= max > 0 && s != [] then s[..|s| - 1] else s
  }

  /** The source list once source sid heads it. */
  function WithSource(s: seq<Nf9Source>, sid: nat, maxSources: nat): (r: seq<Nf9Source>)
    ensures r != [] && r[0].id == sid
  {
    var k := IndexOf(s, sid);
    if k < |s| then Fronted(s, k) else [Nf9Source(sid, 0, [])] + Trimmed(s, maxSources)
  }

  function AddTemplate(src: Nf9Source, tid: nat, maxTemplates: nat): Nf9Source {
    var ts := [Nf9Template(tid, [], 0)] + Trimmed(src.templates, maxTemplates);
    src.(templates := ts, numTemplates := |ts|)
  }

  /** What peer_nf9_new_template makes of the source list. */
  function WithTemplate(s: seq<Nf9Source>, sid: nat, tid: nat, maxSources: nat, maxTemplates: nat): seq<Nf9Source> {
    var r := WithSource(s, sid, maxSources);
    [AddTemplate(r[0], tid, maxTemplates)] + r[1..]
  }

  /** A new template is a use of its source in the peer's list and of itself in the
      source's list; every other source stays as it was. */
  lemma WithTemplateIsLru(s: seq<Nf9Source>, sid: nat, tid: nat, maxSources: nat, maxTemplates: nat)
    requires SourcesOk(s, maxSources, maxTemplates) && maxSources > 0 && maxTemplates > 0
    requires FindPlace(s, sid, tid) == Nowhere
    ensures var r := WithTemplate(s, sid, tid, maxSources, maxTemplates);
            var before := if IndexOf(s, sid) < |s| then s[IndexOf(s, sid)].templates else [];
      && SourceIds(r) == Step(maxSources, SourceIds(s), Use(sid))
      && TemplateIds(r[0].templates) == Step(maxTemplates, TemplateIds(before), Use(tid))
      && SourcesOk(r, maxSources, maxTemplates)
      && (forall src <- r[1..] :: src in s && src.id != sid)
  {
    hide SourceIds, TemplateIds, Step, Trimmed, Distinct, WithSource, IndexOf;
    var before := if IndexOf(s, sid) < |s| then s[IndexOf(s, sid)].templates else [];
    var t := WithSource(s, sid, maxSources);
    var src := AddTemplate(t[0], tid, maxTemplates);
    StepKeeps(maxSources, SourceIds(s), Use(sid));
    SourceStep(s, sid, maxSources);
    WithSourceKeeps(s, sid, maxSources, maxTemplates);
    if IndexOf(s, sid) < |s| {
      NotAmong(s, sid, tid);
      assert s[IndexOf(s, sid)] in s;
    } else {
      NoIds();
    }
    TemplateStep(before, tid, maxTemplates);
    NewestOk(before, tid, maxTemplates);
    SameIds(t, src);
    assert SourceOk(src, maxTemplates);
  }

  lemma NoIds()
    ensures TemplateIds([]) == [] && Distinct(TemplateIds([]))
  {
  }

  lemma NotAmong(s: seq<Nf9Source>, sid: nat, tid: nat)
    requires FindPlace(s, sid, tid) == Nowhere && IndexOf(s, sid) < |s|
    ensures tid !in TemplateIds(s[IndexOf(s, sid)].templates)
  {
    assert TemplateIndexOf(s[IndexOf(s, sid)].templates, tid) == |s[IndexOf(s, sid)].templates|;
  }

  lemma NewestOk(ts: seq<Nf9Template>, tid: nat, max: nat)
    requires Distinct(TemplateIds(ts)) && |ts| <= max && max > 0
    ensures Distinct(Step(max, TemplateIds(ts), Use(tid))) && |Step(max, TemplateIds(ts), Use(tid))| <= max
  {
    StepKeeps(max, TemplateIds(ts), Use(tid));
  }

  lemma SameIds(s: seq<Nf9Source>, src: Nf9Source)
    requires s != [] && src.id == s[0].id
    ensures SourceIds([src] + s[1..]) == SourceIds(s)
  {
  }

  lemma WithSourceKeeps(s: seq<Nf9Source>, sid: nat, maxSources: nat, maxTemplates: nat)
    requires SourcesOk(s, maxSources, maxTemplates) && maxSources > 0
    ensures var r := WithSource(s, sid, maxSources); var k := IndexOf(s, sid);
      && r[0] == (if k < |s| then s[k] else Nf9Source(sid, 0, []))
      && |r| <= maxSources
      && forall src <- r[1..] :: src in s && src.id != sid
  {
    var k := IndexOf(s, sid);
    if k < |s| {
      FrontedKeeps(s, k);
    } else {
      TrimmedKeeps(s, sid, maxSources);
    }
  }

  lemma FrontedKeeps(s: seq<Nf9Source>, k: nat)
    requires k < |s| && Distinct(SourceIds(s))
    ensures |Fronted(s, k)| == |s| && Fronted(s, k)[0] == s[k]
    ensures forall src <- Fronted(s, k)[1..] :: src in s && src.id != s[k].id
  {
    hide SourceIds, Fronted;
    FrontedAt(s, k, 0);
    forall i | 1 <= i < |s| ensures Fronted(s, k)[i] in s && Fronted(s, k)[i].id != s[k].id {
      FrontedAt(s, k, i);
      assert SourceIds(s)[if i <= k then i - 1 else i] != SourceIds(s)[k];
    }
  }

  lemma TrimmedKeeps(s: seq<Nf9Source>, sid: nat, max: nat)
    requires IndexOf(s, sid) == |s| <= max && max > 0
    ensures |Trimmed(s, max)| < max && forall src <- Trimmed(s, max) :: src in s && src.id != sid
  {
  }

  lemma SourceStep(s: seq<Nf9Source>, sid: nat, max: nat)
    requires Distinct(SourceIds(s)) && max > 0
    ensures SourceIds(WithSource(s, sid, max)) == Step(max, SourceIds(s), Use(sid))
  {
    var k, ids := IndexOf(s, sid), SourceIds(s);
    if k < |s| {
      FrontedStep(ids, k, max);
      FrontedIds(s, k);
    } else {
      assert sid !in ids;
      TrimmedIds(s, max);
    }
  }

  lemma FrontedIds(s: seq<Nf9Source>, k: nat)
    requires k < |s|
    ensures SourceIds(Fronted(s, k)) == Fronted(SourceIds(s), k)
  {
    hide SourceIds, Fronted;
    FrontedAt(s, k, 0);
    FrontedAt(SourceIds(s), k, 0);
    forall i | 0 <= i < |s| ensures SourceIds(Fronted(s, k))[i] == Fronted(SourceIds(s), k)[i] {
      FrontedAt(s, k, i);
      FrontedAt(SourceIds(s), k, i);
    }
  }

  lemma TrimmedIds(s: seq<Nf9Source>, max: nat)
    ensures SourceIds([Nf9Source(0, 0, [])] + Trimmed(s, max))[1..] == Trimmed(SourceIds(s), max)
    ensures forall sid :: SourceIds([Nf9Source(sid, 0, [])] + Trimmed(s, max)) == [sid] + Trimmed(SourceIds(s), max)
  {
    forall sid ensures SourceIds([Nf9Source(sid, 0, [])] + Trimmed(s, max)) == [sid] + Trimmed(SourceIds(s), max) {
    }
  }

  lemma TemplateStep(s: seq<Nf9Template>, tid: nat, max: nat)
    requires tid !in TemplateIds(s) && max > 0
    ensures TemplateIds([Nf9Template(tid, [], 0)] + Trimmed(s, max)) == Step(max, TemplateIds(s), Use(tid))
  {
  }

  /** The same list, reached by changing the source before it moves. */
  lemma WithTemplateAt(s: seq<Nf9Source>, sid: nat, tid: nat, maxSources: nat, maxTemplates: nat)
    ensures var r := WithTemplate(s, sid, tid, maxSources, maxTemplates); var k := IndexOf(s, sid);
      if k < |s| then r == Fronted(s[k := AddTemplate(s[k], tid, maxTemplates)], k)
      else r == Fronted(WithSource(s, sid, maxSources)[0 := AddTemplate(Nf9Source(sid, 0, []), tid, maxTemplates)], 0)
  {
    hide AddTemplate, Trimmed;
    var k := IndexOf(s, sid);
    if k < |s| {
      FrontedChanged(s, k, AddTemplate(s[k], tid, maxTemplates));
    } else {
      var r := WithSource(s, sid, maxSources);
      FrontedFirst(r[0 := AddTemplate(Nf9Source(sid, 0, []), tid, maxTemplates)]);
    }
  }

  lemma FrontedChanged<T>(s: seq<T>, k: nat, x: T)
    requires k < |s|
    ensures [x] + Fronted(s, k)[1..] == Fronted(s[k := x], k)
  {
  }

  lemma FrontedFirst<T>(s: seq<T>)
    requires s != []
    ensures Fronted(s, 0) == s && [s[0]] + s[1..] == s
  {
  }

  ghost function Filled(s: seq<Nf9Source>, p: Place, records: seq<Nf9Record>, totalLen: nat): seq<Nf9Source>
    requires p.Place? && p.source < |s| && p.template < |s[p.source].templates|
  {
    var src := s[p.source];
    var t := Nf9Template(src.templates[p.template].id, records, totalLen);
    s[p.source := src.(templates := src.templates[p.template := t])]
  }

  /** What peer_nf9_template_update makes of the source list. */
  ghost function Touched(s: seq<Nf9Source>, sid: nat, tid: nat): seq<Nf9Source> {
    var k := IndexOf(s, sid);
    if k == |s| then s
    else
      var j := TemplateIndexOf(s[k].templates, tid);
      if j == |s[k].templates| then s
      else [s[k].(templates := Fronted(s[k].templates, j))] + Fronted(s, k)[1..]
  }

  /** An update of a stored template is a use of its source and of itself; counters and
      maxima hold afterwards, and every other source stays as it was. */
  lemma TouchedIsLru(s: seq<Nf9Source>, sid: nat, tid: nat, maxSources: nat, maxTemplates: nat)
    requires SourcesOk(s, maxSources, maxTemplates) && maxSources > 0 && maxTemplates > 0
    requires IndexOf(s, sid) < |s| && TemplateIndexOf(s[IndexOf(s, sid)].templates, tid) < |s[IndexOf(s, sid)].templates|
    ensures var r := Touched(s, sid, tid);
      && SourceIds(r) == Step(maxSources, SourceIds(s), Use(sid))
      && TemplateIds(r[0].templates) == Step(maxTemplates, TemplateIds(s[IndexOf(s, sid)].templates), Use(tid))
      && SourcesOk(r, maxSources, maxTemplates) && r[0].id == sid
      && forall src <- r[1..] :: src in s && src.id != sid
  {
    hide SourceIds, TemplateIds, Step, IndexOf, TemplateIndexOf, Fronted, Distinct;
    var k := IndexOf(s, sid);
    var ts := s[k].templates;
    var j := TemplateIndexOf(ts, tid);
    assert s[k] in s;
    FrontedKeeps(s, k);
    FrontedSize(ts, j);
    StepKeeps(maxSources, SourceIds(s), Use(sid));
    StepKeeps(maxTemplates, TemplateIds(ts), Use(tid));
    FrontedStep(SourceIds(s), k, maxSources);
    FrontedStep(TemplateIds(ts), j, maxTemplates);
    FrontedIds(s, k);
    FrontedTemplateIds(ts, j);
    SameIds(Fronted(s, k), s[k].(templates := Fronted(ts, j)));
  }

  lemma TouchedKeeps(s: seq<Nf9Source>, sid: nat, tid: nat, maxSources: nat, maxTemplates: nat)
    requires SourcesOk(s, maxSources, maxTemplates) && maxSources > 0 && maxTemplates > 0
    ensures SourcesOk(Touched(s, sid, tid), maxSources, maxTemplates) && |Touched(s, sid, tid)| == |s|
  {
    hide SourcesOk;
    var k := IndexOf(s, sid);
    if k < |s| && TemplateIndexOf(s[k].templates, tid) < |s[k].templates| {
      TouchedIsLru(s, sid, tid, maxSources, maxTemplates);
    }
  }

  lemma FrontedSize<T>(s: seq<T>, k: nat)
    requires k < |s|
    ensures |Fronted(s, k)| == |s|
  {
  }

  lemma FrontedStep<K>(ids: seq<K>, k: nat, max: nat)
    requires Distinct(ids) && k < |ids| && max > 0
    ensures Fronted(ids, k) == Step(max, ids, Use(ids[k]))
  {
    WithoutAt(ids, k);
  }

  lemma FrontedTemplateIds(s: seq<Nf9Template>, k: nat)
    requires k < |s|
    ensures TemplateIds(Fronted(s, k)) == Fronted(TemplateIds(s), k)
  {
    hide TemplateIds, Fronted;
    FrontedAt(s, k, 0);
    FrontedAt(TemplateIds(s), k, 0);
    forall i | 0 <= i < |s| ensures TemplateIds(Fronted(s, k))[i] == Fronted(TemplateIds(s), k)[i] {
      FrontedAt(s, k, i);
      FrontedAt(TemplateIds(s), k, i);
    }
  }

  /** struct peer_state: the sender's address, its place in the splay tree and in the
      peer list, its NetFlow v9 sources and its counters. */
  class Peer {
    const from: HostAddr
    var left: Peer?
    var right: Peer?
    var next: Peer?  // tqe_next
    var prev: Peer?  // tqe_prev: the element whose next field it addresses, null for the queue head
    var nf9: seq<Nf9Source>
    var numSources: nat
    var npackets: nat
    var nflows: nat
    var ninvalid: nat
    var noTemplate: nat
    var lastVersion: nat

    constructor (from: HostAddr)
      ensures this.from == from && nf9 == [] && numSources == 0
      ensures left == null && right == null && next == null && prev == null
      ensures npackets == nflows == ninvalid == noTemplate == lastVersion == 0
    {
      this.from := from;
      left, right, next, prev := null, null, null, null;
      nf9, numSources := [], 0;
      npackets, nflows, ninvalid, noTemplate, lastVersion := 0, 0, 0, 0, 0;
    }

    ghost predicate Nf9Valid(maxSources: nat, maxTemplates: nat)
      reads this`nf9, this`numSources
    {
      numSources == |nf9| && SourcesOk(nf9, maxSources, maxTemplates)
    }

    /** peer_nf9_lookup_source: the position of the source, or -1. */
    method LookupSource(sid: nat) returns (k: int)
      ensures -1 <= k < |nf9|
      ensures if k < 0 then IndexOf(nf9, sid) == |nf9| else k == IndexOf(nf9, sid)
    {
      k := 0;
      while k < |nf9|
        invariant 0 <= k <= |nf9| && forall j :: 0 <= j < k ==> nf9[j].id != sid
      {
        if nf9[k].id == sid {
          return k;
        }
        k := k + 1;
      }
      k := -1;
    }

    /** peer_nf9_lookup_template. */
    method LookupTemplate(k: nat, tid: nat) returns (j: int)
      requires k < |nf9|
      ensures -1 <= j < |nf9[k].templates|
      ensures if j < 0 then TemplateIndexOf(nf9[k].templates, tid) == |nf9[k].templates|
        else j == TemplateIndexOf(nf9[k].templates, tid)
    {
      var ts := nf9[k].templates;
      j := 0;
      while j < |ts|
        invariant 0 <= j <= |ts| && forall i :: 0 <= i < j ==> ts[i].id != tid
      {
        if ts[j].id == tid {
          return j;
        }
        j := j + 1;
      }
      j := -1;
    }

    /** peer_nf9_find_template. */
    method FindTemplate(sid: nat, tid: nat) returns (p: Place)
      ensures p == FindPlace(nf9, sid, tid)
    {
      var k := LookupSource(sid);
      if k < 0 {
        return Nowhere;
      }
      var j := LookupTemplate(k, tid);
      if j < 0 {
        return Nowhere;
      }
      p := Place(k, j);
    }

    /** peer_nf9_source_delete, on the last source. */
    method DeleteLastSource()
      requires nf9 != [] && numSources > 0
      modifies this`nf9, this`numSources
      ensures nf9 == old(nf9)[..|old(nf9)| - 1] && numSources == old(numSources) - 1
    {
      var src := nf9[|nf9| - 1];
      while src.templates != []
        decreases |src.templates|
      {
        src := src.(templates := src.templates[1..]);
      }
      numSources := numSources - 1;
      nf9 := nf9[..|nf9| - 1];
    }

    /** peer_nf9_new_source. */
    method NewSource(maxSources: nat, sid: nat)
      requires numSources == |nf9| <= maxSources && maxSources > 0
      modifies this`nf9, this`numSources
      ensures nf9 == [Nf9Source(sid, 0, [])] + Trimmed(old(nf9), maxSources) && numSources == |nf9|
    {
      numSources := numSources + 1;
      if numSources > maxSources {
        DeleteLastSource();
      }
      nf9 := [Nf9Source(sid, 0, [])] + nf9;
    }

    /** Changes the k-th source and moves it to the front if it is not there. */
    method ToFront(k: nat)
      requires k < |nf9|
      modifies this`nf9
      ensures nf9 == Fronted(old(nf9), k)
    {
      if k != 0 {
        nf9 := [nf9[k]] + nf9[..k] + nf9[k + 1..];
      }
    }

    /** peer_nf9_new_template. */
    method NewTemplate(maxSources: nat, maxTemplates: nat, sid: nat, tid: nat) returns (p: Place)
      requires Nf9Valid(maxSources, maxTemplates) && maxSources > 0 && maxTemplates > 0
      requires FindPlace(nf9, sid, tid) == Nowhere
      modifies this`nf9, this`numSources
      ensures nf9 == WithTemplate(old(nf9), sid, tid, maxSources, maxTemplates)
      ensures Nf9Valid(maxSources, maxTemplates) && p == Place(0, 0) && FindPlace(nf9, sid, tid) == p
    {
      hide SourceIds, TemplateIds, Distinct, Step;
      WithTemplateIsLru(nf9, sid, tid, maxSources, maxTemplates);
      WithTemplateAt(nf9, sid, tid, maxSources, maxTemplates);
      var k := LookupSource(sid);
      if k < 0 {
        NewSource(maxSources, sid);
        k := 0;
      } else {
        assert nf9[k] in nf9;
      }
      assert nf9[k].numTemplates == |nf9[k].templates| <= maxTemplates;
      GrowSource(k, maxTemplates, tid);
      ToFront(k);
      p := Place(0, 0);
    }

    /** A new template heads its source's list, which gives up its last one when full. */
    method GrowSource(k: nat, maxTemplates: nat, tid: nat)
      requires k < |nf9| && nf9[k].numTemplates == |nf9[k].templates| <= maxTemplates && maxTemplates > 0
      modifies this`nf9
      ensures nf9 == old(nf9)[k := AddTemplate(old(nf9)[k], tid, maxTemplates)]
    {
      var src := nf9[k];
      src := src.(numTemplates := src.numTemplates + 1);
      if src.numTemplates > maxTemplates {
        src := src.(templates := src.templates[..|src.templates| - 1], numTemplates := src.numTemplates - 1);
      }
      src := src.(templates := [Nf9Template(tid, [], 0)] + src.templates);
      nf9 := nf9[k := src];
    }

    /** The template handler's writes through the pointer it holds. */
    method FillTemplate(p: Place, records: seq<Nf9Record>, totalLen: nat)
      requires p.Place? && p.source < |nf9| && p.template < |nf9[p.source].templates|
      modifies this`nf9
      ensures nf9 == Filled(old(nf9), p, records, totalLen)
    {
      var src := nf9[p.source];
      var t := src.templates[p.template].(records := records, totalLen := totalLen);
      nf9 := nf9[p.source := src.(templates := src.templates[p.template := t])];
    }

    /** peer_nf9_template_update. */
    method TemplateUpdate(sid: nat, tid: nat, ghost maxSources: nat, ghost maxTemplates: nat)
      requires Nf9Valid(maxSources, maxTemplates) && maxSources > 0 && maxTemplates > 0
      modifies this`nf9
      ensures nf9 == Touched(old(nf9), sid, tid) && Nf9Valid(maxSources, maxTemplates)
    {
      TouchedKeeps(nf9, sid, tid, maxSources, maxTemplates);
      var k := LookupSource(sid);
      if k < 0 {
        return;
      }
      var j := LookupTemplate(k, tid);
      if j < 0 {
        return;
      }
      var src := nf9[k];
      FrontedFirst(src.templates);
      ToFront(k);
      FrontedFirst(nf9);
      if j != 0 {
        src := src.(templates := [src.templates[j]] + src.templates[..j] + src.templates[j + 1..]);
        nf9 := [src] + nf9[1..];
      }
    }
  }
}
