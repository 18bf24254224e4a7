/** An affiliate: data and a bounded, expiring set of endpoints (internal/state/affiliate.go). */
module Affiliates {
  import opened Basics

  datatype Endpoint = Endpoint(data: Bytes, expiry: Time)

  datatype Record = Record(id: Id, expiry: Time, data: Bytes, endpoints: seq<Endpoint>)

  /** What List, Watch and the events show of an affiliate: no expiries. */
  datatype Info = Info(id: Id, data: Bytes, endpoints: seq<Bytes>)

  function Names(eps: seq<Endpoint>): (names: seq<Bytes>)
    ensures |names| == |eps|
    ensures forall i :: 0 <= i < |eps| ==> names[i] == eps[i].data
  {
    seq(|eps|, i requires 0 <= i < |eps| => eps[i].data)
  }

  function InfoOf(rec: Record): Info {
    Info(rec.id, rec.data, Names(rec.endpoints))
  }

  ghost predicate ValidEndpoints(eps: seq<Endpoint>) {
    NoDuplicates(Names(eps)) && |eps| <= AFFILIATE_ENDPOINTS_MAX
  }

  /** The least index holding `d`, or |eps|. */
  function IndexOf(eps: seq<Endpoint>, d: Bytes): (i: nat)
    ensures i <= |eps|
    ensures i < |eps| ==> eps[i].data == d
    ensures forall j :: 0 <= j < i ==> eps[j].data != d
    ensures i == |eps| <==> d !in Names(eps)
  {
    if eps == [] then 0
    else
      var last := |eps| - 1;
      assert Names(eps) == Names(eps[..last]) + [eps[last].data];
      var i := IndexOf(eps[..last], d);
      if i < last || eps[last].data == d then i else |eps|
  }

  /** The endpoints as a finite map from bytes to expiry: what is left once order is forgotten. */
  ghost function View(eps: seq<Endpoint>): (v: map<Bytes, Time>)
    ensures forall d :: d in v <==> d in Names(eps)
  {
    if eps == [] then map[]
    else
      var last := |eps| - 1;
      assert Names(eps) == Names(eps[..last]) + [eps[last].data];
      View(eps[..last])[eps[last].data := eps[last].expiry]
  }

  lemma {:induction false} ViewAt(eps: seq<Endpoint>, i: nat)
    requires i < |eps| && NoDuplicates(Names(eps))
    ensures eps[i].data in View(eps) && View(eps)[eps[i].data] == eps[i].expiry
  {
    var last := |eps| - 1;
    assert Names(eps)[..last] == Names(eps[..last]);
    if i < last {
      NoDuplicatesDiffer(Names(eps), i, last);
      ViewAt(eps[..last], i);
    }
  }

  // ----- merging -----

  datatype Merged = Merged(endpoints: seq<Endpoint>, changed: bool, overflow: bool)

  function Raise(eps: seq<Endpoint>, i: nat, e: Time): seq<Endpoint>
    requires i < |eps|
  {
    eps[i := Endpoint(eps[i].data, Max(eps[i].expiry, e))]
  }

  /** The endpoint loop of MergeEndpoints, request by request. */
  function Merge(eps: seq<Endpoint>, req: seq<Bytes>, e: Time): (m: Merged)
    ensures m.overflow ==> !m.changed
    decreases |req|
  {
    if req == [] then Merged(eps, false, false)
    else if IndexOf(eps, req[0]) < |eps| then Merge(Raise(eps, IndexOf(eps, req[0]), e), req[1..], e)
    else if |eps| >= AFFILIATE_ENDPOINTS_MAX then Merged(eps, false, true)
    else
      var m := Merge(eps + [Endpoint(req[0], e)], req[1..], e);
      m.(changed := !m.overflow)
  }

  lemma MergeUnfold(eps: seq<Endpoint>, req: seq<Bytes>, e: Time)
    requires req != []
    ensures req[0] in Names(eps) ==>
              IndexOf(eps, req[0]) < |eps| &&
              Merge(eps, req, e) == Merge(Raise(eps, IndexOf(eps, req[0]), e), req[1..], e)
    ensures req[0] !in Names(eps) && |eps| >= AFFILIATE_ENDPOINTS_MAX ==>
              Merge(eps, req, e) == Merged(eps, false, true)
    ensures req[0] !in Names(eps) && |eps| < AFFILIATE_ENDPOINTS_MAX ==>
              var m := Merge(eps + [Endpoint(req[0], e)], req[1..], e);
              Merge(eps, req, e) == m.(changed := !m.overflow)
  {
  }

  /** `rest` is what remains of the merge `whole` once the loop has `added` something or not. */
  ghost predicate Continues(whole: Merged, rest: Merged, added: bool) {
    && rest.endpoints == whole.endpoints
    && rest.overflow == whole.overflow
    && (whole.changed <==> !whole.overflow && (added || rest.changed))
  }

  /** MergeEndpoints on a whole record: the affiliate's own expiry moves only on success. */
  function MergeRecord(rec: Record, req: seq<Bytes>, e: Time): Record {
    var m := Merge(rec.endpoints, req, e);
    rec.(endpoints := m.endpoints, expiry := if m.overflow then rec.expiry else Max(rec.expiry, e))
  }

  /** An affiliate that the cluster updates in place; `owner` records which cluster holds it. */
  class Affiliate {
    const id: Id
    var expiry: Time
    var data: Bytes
    var endpoints: seq<Endpoint>
    ghost const owner: object

    function Value(): Record
      reads this
    {
      Record(id, expiry, data, endpoints)
    }

    constructor (id: Id, ghost owner: object)
      ensures Value() == Record(id, ZERO_TIME, [], [])
      ensures this.owner == owner
    {
      this.id, this.expiry, this.data, this.endpoints := id, ZERO_TIME, [], [];
      this.owner := owner;
    }

    constructor Restored(rec: Record, ghost owner: object)
      ensures Value() == rec
      ensures this.owner == owner
    {
      this.id, this.expiry, this.data, this.endpoints := rec.id, rec.expiry, rec.data, rec.endpoints;
      this.owner := owner;
    }

    method FindEndpointIndex(d: Bytes) returns (idx: int)
      ensures d in Names(endpoints) ==> 0 <= idx < |endpoints| && idx == IndexOf(endpoints, d)
      ensures d !in Names(endpoints) ==> idx == -1
    {
      for i := 0 to |endpoints|
        invariant forall j :: 0 <= j < i ==> endpoints[j].data != d
      {
        if endpoints[i].data == d {
          assert Names(endpoints)[i] == d;
          return i;
        }
      }
      assert IndexOf(endpoints, d) == |endpoints|;
      return -1;
    }

    method MergeEndpoints(req: seq<Bytes>, e: Time) returns (changed: bool, ok: bool)
      modifies this
      ensures Value() == MergeRecord(old(Value()), req, e)
      ensures var m := Merge(old(endpoints), req, e);
              ok == !m.overflow && changed == m.changed
    {
      var added := false;
      ghost var whole := Merge(endpoints, req, e);
      assert req[0..] == req;
      for i := 0 to |req|
        invariant expiry == old(expiry) && data == old(data)
        invariant Continues(whole, Merge(endpoints, req[i..], e), added)
      {
        ghost var before := endpoints;
        MergeUnfold(before, req[i..], e);
        assert req[i..][1..] == req[i + 1..] && req[i..][0] == req[i];
        var idx := FindEndpointIndex(req[i]);
        if idx >= 0 {
          if endpoints[idx].expiry < e {
            endpoints := endpoints[idx := Endpoint(endpoints[idx].data, e)];
          }
          assert endpoints == Raise(before, idx, e);
          continue;
        }
        if |endpoints| >= AFFILIATE_ENDPOINTS_MAX {
          return false, false;
        }
        endpoints := endpoints + [Endpoint(req[i], e)];
        added := true;
      }
      if expiry < e {
        expiry := e;
      }
      return added, true;
    }

    method ToInfo() returns (info: Info)
      ensures info == InfoOf(Value())
    {
      var out: seq<Bytes> := [];
      for i := 0 to |endpoints|
        invariant out == Names(endpoints)[..i]
      {
        out := out + [endpoints[i].data];
      }
      info := Info(id, data, out);
    }
  }
}
