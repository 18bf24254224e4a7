/** The expiries and the data an affiliate ends up with, as closed forms over the history of its cluster's table. */
module ExpiryLaws {
  import opened Basics
  import opened Affiliates
  import opened Registry
  import MergeLaws
  import UpdateLaws
  import PruneLaws

  datatype Op =
    | Update(req: UpdateRequest, now: Time)
    | Remove(id: Id)
    | Prune(now: Time)

  function Perform(t: Table, op: Op): Table {
    match op
    case Update(req, now) => UpdateTable(t, req, now)
    case Remove(id) => t - {id}
    case Prune(now) => PruneTable(t, now)
  }

  /** The table after a history that starts from any table. */
  function PerformAll(t: Table, ops: seq<Op>): Table
    decreases |ops|
  {
    if ops == [] then t else Perform(PerformAll(t, ops[..|ops| - 1]), ops[|ops| - 1])
  }

  /** An update of `id`; its stamp is the expiry it asks for. */
  predicate Updates(op: Op, id: Id) {
    op.Update? && op.req.id == id
  }

  function Stamp(op: Op): Time
    requires op.Update?
  {
    op.now + op.req.ttl
  }

  /** A duration is a signed 64-bit count of nanoseconds, and the clock reads 1970 or later. */
  predicate Representable(op: Op) {
    op.Update? ==> op.now >= 0 && op.req.ttl >= -0x8000_0000_0000_0000
  }

  /** Since its creation `id` was neither deleted nor dropped by a prune. Updates of it may have failed. */
  ghost predicate Lives(t: Table, ops: seq<Op>, id: Id)
    decreases |ops|
  {
    if ops == [] then id !in t
    else
      var before, op := PerformAll(t, ops[..|ops| - 1]), ops[|ops| - 1];
      && Lives(t, ops[..|ops| - 1], id)
      && Representable(op)
      && match op
         case Update(_, _) => true
         case Remove(id') => id' == id ==> id !in before
         case Prune(now) => id in before ==> before[id].expiry > now
  }

  // ----- what one update of the history did -----

  /** Operation i updates `id` and is not refused for want of room; it may still fail for too many endpoints. */
  ghost predicate Stores(t: Table, ops: seq<Op>, i: nat, id: Id) {
    i < |ops| && Updates(ops[i], id) && !Refused(PerformAll(t, ops[..i]), ops[i].req)
  }

  /** Operation i puts new data in place. */
  ghost predicate Resets(t: Table, ops: seq<Op>, i: nat, id: Id) {
    Stores(t, ops, i, id) && ops[i].req.data != []
  }

  /** Operation i has a say in the affiliate's expiry: it puts new data in place, or all its endpoints fit. */
  ghost predicate Counts(t: Table, ops: seq<Op>, i: nat, id: Id) {
    && Stores(t, ops, i, id)
    && (ops[i].req.data != [] ||
        MergeLaws.Fits(Target(PerformAll(t, ops[..i]), id).endpoints, ops[i].req.endpoints))
  }

  /** Operation i names endpoint `d`, and `d` fits when it is reached. */
  ghost predicate Mentions(t: Table, ops: seq<Op>, i: nat, id: Id, d: Bytes) {
    && Stores(t, ops, i, id)
    && MergeLaws.Accepted(Target(PerformAll(t, ops[..i]), id).endpoints, ops[i].req.endpoints, d)
  }

  /** What an operation did is not changed by those that follow. */
  lemma SameBefore(t: Table, ops: seq<Op>, op: Op, i: nat, id: Id)
    requires i < |ops|
    ensures Stores(t, ops + [op], i, id) <==> Stores(t, ops, i, id)
    ensures Resets(t, ops + [op], i, id) <==> Resets(t, ops, i, id)
    ensures Counts(t, ops + [op], i, id) <==> Counts(t, ops, i, id)
    ensures forall d :: Mentions(t, ops + [op], i, id, d) <==> Mentions(t, ops, i, id, d)
  {
    assert (ops + [op])[..i] == ops[..i] && (ops + [op])[i] == ops[i];
  }

  lemma LastDid(t: Table, ops: seq<Op>, op: Op, id: Id)
    ensures var before, n := PerformAll(t, ops), |ops|;
            && (Stores(t, ops + [op], n, id) <==> Updates(op, id) && !Refused(before, op.req))
            && (Resets(t, ops + [op], n, id) <==> Updates(op, id) && !Refused(before, op.req) && op.req.data != [])
            && (Counts(t, ops + [op], n, id) <==>
                  Updates(op, id) && !Refused(before, op.req) &&
                  (op.req.data != [] || MergeLaws.Fits(Target(before, id).endpoints, op.req.endpoints)))
            && forall d :: Mentions(t, ops + [op], n, id, d) <==>
                 Updates(op, id) && !Refused(before, op.req) &&
                 MergeLaws.Accepted(Target(before, id).endpoints, op.req.endpoints, d)
  {
    assert (ops + [op])[..|ops|] == ops && (ops + [op])[|ops|] == op;
  }

  /** The position of the last operation that put new data in place; 0 when none did. */
  ghost function LastData(t: Table, ops: seq<Op>, id: Id): (p: nat)
    ensures p <= |ops|
    decreases |ops|
  {
    if ops == [] then 0
    else if Resets(t, ops, |ops| - 1, id) then |ops| - 1
    else LastData(t, ops[..|ops| - 1], id)
  }

  lemma {:induction false} LastDataIs(t: Table, ops: seq<Op>, id: Id)
    ensures forall i: nat :: LastData(t, ops, id) < i ==> !Resets(t, ops, i, id)
    ensures (exists i: nat :: Resets(t, ops, i, id)) ==> Resets(t, ops, LastData(t, ops, id), id)
    decreases |ops|
  {
    if ops != [] {
      var front, op := ops[..|ops| - 1], ops[|ops| - 1];
      assert ops == front + [op];
      LastDataIs(t, front, id);
      forall i: nat | i < |front|
        ensures Resets(t, ops, i, id) <==> Resets(t, front, i, id)
      {
        SameBefore(t, front, op, i, id);
      }
    }
  }

  lemma {:induction false} PerformAllValid(t: Table, ops: seq<Op>)
    requires ValidTable(t)
    ensures ValidTable(PerformAll(t, ops))
    decreases |ops|
  {
    if ops != [] {
      var before, op := PerformAll(t, ops[..|ops| - 1]), ops[|ops| - 1];
      PerformAllValid(t, ops[..|ops| - 1]);
      match op
      case Update(req, now) => UpdateLaws.UpdateKeepsValid(before, req, now);
      case Remove(id) =>
        assert (before - {id}).Keys <= before.Keys;
        SubsetCardinality((before - {id}).Keys, before.Keys);
      case Prune(now) => PruneLaws.PruneKeepsValid(before, now);
    }
  }

  /** A step of the history changes the record of `id` only if it stores an update of `id` or prunes its endpoints. */
  lemma RecordStep(before: Table, op: Op, id: Id)
    requires op.Remove? && op.id == id ==> id !in before
    requires op.Prune? && id in before ==> before[id].expiry > op.now
    ensures Updates(op, id) && !Refused(before, op.req) ==>
              Perform(before, op) == before[id := UpdatedRecord(Target(before, id), op.req, op.now)]
    ensures !(Updates(op, id) && !Refused(before, op.req)) ==>
              (id in Perform(before, op) <==> id in before) &&
              (id in before ==>
                 Perform(before, op)[id] == if op.Prune? then PrunedRecord(before[id], op.now) else before[id])
  {
  }

  ghost predicate EverStored(t: Table, ops: seq<Op>, id: Id) {
    exists i: nat :: Stores(t, ops, i, id)
  }

  lemma EverStoredStep(t: Table, ops: seq<Op>, op: Op, id: Id)
    ensures EverStored(t, ops + [op], id) <==> EverStored(t, ops, id) || Stores(t, ops + [op], |ops|, id)
  {
    if EverStored(t, ops, id) {
      var i: nat :| Stores(t, ops, i, id);
      SameBefore(t, ops, op, i, id);
    }
    if EverStored(t, ops + [op], id) && !Stores(t, ops + [op], |ops|, id) {
      var i: nat :| Stores(t, ops + [op], i, id);
      SameBefore(t, ops, op, i, id);
    }
  }

  /** The affiliate exists exactly once an update of it was stored. */
  lemma {:induction false} ExistsIffStored(t: Table, ops: seq<Op>, id: Id)
    requires Lives(t, ops, id)
    ensures id in PerformAll(t, ops) <==> EverStored(t, ops, id)
    decreases |ops|
  {
    if ops != [] {
      var front, op := ops[..|ops| - 1], ops[|ops| - 1];
      assert ops == front + [op];
      ExistsIffStored(t, front, id);
      EverStoredStep(t, front, op, id);
      LastDid(t, front, op, id);
      RecordStep(PerformAll(t, front), op, id);
    }
  }

  // ----- the expiry of the affiliate -----

  ghost predicate AnyCounts(t: Table, ops: seq<Op>, id: Id, from: nat) {
    exists i: nat :: from <= i && Counts(t, ops, i, id)
  }

  /** `x` is the greatest stamp among the operations at `from` or later that count; the zero time if none does. */
  ghost predicate GreatestStamp(t: Table, ops: seq<Op>, id: Id, from: nat, x: Time) {
    && (if AnyCounts(t, ops, id, from) then exists i: nat :: from <= i && Counts(t, ops, i, id) && Stamp(ops[i]) == x
        else x == ZERO_TIME)
    && forall i: nat :: from <= i && Counts(t, ops, i, id) ==> Stamp(ops[i]) <= x
  }

  lemma GreatestSkip(t: Table, ops: seq<Op>, op: Op, id: Id, from: nat, x: Time)
    requires GreatestStamp(t, ops, id, from, x) && !Counts(t, ops + [op], |ops|, id)
    ensures GreatestStamp(t, ops + [op], id, from, x)
  {
    var all := ops + [op];
    forall i: nat | i < |ops|
      ensures Counts(t, all, i, id) <==> Counts(t, ops, i, id)
      ensures all[i] == ops[i]
    {
      SameBefore(t, ops, op, i, id);
    }
    if AnyCounts(t, ops, id, from) {
      var i: nat :| from <= i && Counts(t, ops, i, id) && Stamp(ops[i]) == x;
      assert Counts(t, all, i, id) && Stamp(all[i]) == x;
    }
  }

  lemma GreatestRaise(t: Table, ops: seq<Op>, op: Op, id: Id, from: nat, x: Time)
    requires GreatestStamp(t, ops, id, from, x) && Counts(t, ops + [op], |ops|, id) && from <= |ops|
    requires Representable(op)
    ensures GreatestStamp(t, ops + [op], id, from, Max(x, Stamp(op)))
  {
    var all := ops + [op];
    assert all[|ops|] == op;
    forall i: nat | i < |ops|
      ensures Counts(t, all, i, id) <==> Counts(t, ops, i, id)
      ensures all[i] == ops[i]
    {
      SameBefore(t, ops, op, i, id);
    }
    if x > Stamp(op) {
      var i: nat :| from <= i && Counts(t, ops, i, id) && Stamp(ops[i]) == x;
      assert Counts(t, all, i, id) && Stamp(all[i]) == x;
    }
  }

  lemma GreatestReset(t: Table, ops: seq<Op>, op: Op, id: Id)
    requires Counts(t, ops + [op], |ops|, id)
    ensures GreatestStamp(t, ops + [op], id, |ops|, Stamp(op))
  {
    assert (ops + [op])[|ops|] == op;
  }

  /** What one more operation does to the expiry, in the terms of the closed form. */
  lemma ExpiryStep(before: Table, op: Op, id: Id)
    requires ValidTable(before) && (op.Remove? && op.id == id ==> id !in before)
    requires op.Prune? && id in before ==> before[id].expiry > op.now
    ensures var x, x' := Target(before, id).expiry, Target(Perform(before, op), id).expiry;
            var stored := Updates(op, id) && !Refused(before, op.req);
            x' == if stored && op.req.data != [] then Stamp(op)
                  else if stored && MergeLaws.Fits(Target(before, id).endpoints, op.req.endpoints) then
                    Max(x, Stamp(op))
                  else x
  {
    RecordStep(before, op, id);
    if Updates(op, id) && !Refused(before, op.req) {
      UpdateLaws.TargetValid(before, id);
      UpdateLaws.RecordExactly(Target(before, id), op.req, op.now, Stamp(op));
    } else if id in before {
      PruneLaws.RecordExactly(before[id], if op.Prune? then op.now else 0);
    }
  }

  /**
   * From any table without the affiliate, through updates that succeed or fail: its stored expiry is the
   * greatest expiry asked for by the last operation that put new data in place and the later ones all of whose
   * endpoints fit; or, without data, by all of those; or the zero time, if there are none.
   */
  lemma {:induction false} ExpiryClosedForm(t: Table, ops: seq<Op>, id: Id)
    requires ValidTable(t) && Lives(t, ops, id)
    ensures GreatestStamp(t, ops, id, LastData(t, ops, id), Target(PerformAll(t, ops), id).expiry)
    decreases |ops|
  {
    if ops != [] {
      var front, op := ops[..|ops| - 1], ops[|ops| - 1];
      assert ops == front + [op];
      ExpiryClosedForm(t, front, id);
      PerformAllValid(t, front);
      ExpiryStep(PerformAll(t, front), op, id);
      LastDid(t, front, op, id);
      if Resets(t, ops, |front|, id) {
        GreatestReset(t, front, op, id);
      } else if Counts(t, ops, |front|, id) {
        GreatestRaise(t, front, op, id, LastData(t, front, id), Target(PerformAll(t, front), id).expiry);
      } else {
        GreatestSkip(t, front, op, id, LastData(t, front, id), Target(PerformAll(t, front), id).expiry);
      }
    }
  }

  // ----- the data -----

  lemma DataStep(before: Table, op: Op, id: Id)
    requires ValidTable(before) && (op.Remove? && op.id == id ==> id !in before)
    requires op.Prune? && id in before ==> before[id].expiry > op.now
    ensures Target(Perform(before, op), id).data ==
              if Updates(op, id) && !Refused(before, op.req) && op.req.data != [] then op.req.data
              else Target(before, id).data
  {
    RecordStep(before, op, id);
    if Updates(op, id) && !Refused(before, op.req) {
      UpdateLaws.TargetValid(before, id);
      UpdateLaws.RecordExactly(Target(before, id), op.req, op.now, Stamp(op));
    } else if id in before {
      PruneLaws.RecordExactly(before[id], if op.Prune? then op.now else 0);
    }
  }

  /**
   * From any table without the affiliate, prunes and failing updates included: its stored data is that of the
   * last operation that put data in place, or empty if none did.
   */
  lemma {:induction false} DataClosedForm(t: Table, ops: seq<Op>, id: Id)
    requires ValidTable(t) && Lives(t, ops, id)
    ensures var p := LastData(t, ops, id);
            Target(PerformAll(t, ops), id).data == if Resets(t, ops, p, id) then ops[p].req.data else []
    decreases |ops|
  {
    if ops != [] {
      var front, op := ops[..|ops| - 1], ops[|ops| - 1];
      assert ops == front + [op];
      DataClosedForm(t, front, id);
      PerformAllValid(t, front);
      DataStep(PerformAll(t, front), op, id);
      LastDid(t, front, op, id);
      var p := LastData(t, front, id);
      if !Resets(t, ops, |front|, id) && p < |front| {
        SameBefore(t, front, op, p, id);
      }
    }
  }

  // ----- the endpoints -----

  ghost function EndpointsOf(t: Table, id: Id): map<Bytes, Time> {
    View(Target(t, id).endpoints)
  }

  /** Where the updates that count for endpoint `d` begin: after the last prune that found it absent or lapsed. */
  ghost function Since(t: Table, ops: seq<Op>, id: Id, d: Bytes): (from: nat)
    ensures from <= |ops|
    decreases |ops|
  {
    if ops == [] then 0
    else
      var front, op := ops[..|ops| - 1], ops[|ops| - 1];
      var v := EndpointsOf(PerformAll(t, front), id);
      if op.Prune? && (d !in v || v[d] <= op.now) then |ops| else Since(t, front, id, d)
  }

  /** `x` is the greatest stamp among the operations at `from` or later that mention the endpoint. */
  ghost predicate GreatestMention(t: Table, ops: seq<Op>, id: Id, d: Bytes, from: nat, x: Time) {
    && (exists i: nat :: from <= i && Mentions(t, ops, i, id, d) && Stamp(ops[i]) == x)
    && forall i: nat :: from <= i && Mentions(t, ops, i, id, d) ==> Stamp(ops[i]) <= x
  }

  /** An endpoint that is stored has the greatest stamp naming it; one that is not was not named. */
  ghost predicate Explained(t: Table, ops: seq<Op>, id: Id, d: Bytes, from: nat, v: map<Bytes, Time>) {
    if d in v then GreatestMention(t, ops, id, d, from, v[d])
    else forall i: nat :: from <= i ==> !Mentions(t, ops, i, id, d)
  }

  lemma MentionSkip(t: Table, ops: seq<Op>, op: Op, id: Id, d: Bytes, from: nat, v: map<Bytes, Time>)
    requires Explained(t, ops, id, d, from, v) && !Mentions(t, ops + [op], |ops|, id, d)
    ensures Explained(t, ops + [op], id, d, from, v)
  {
    var all := ops + [op];
    forall i: nat | i < |ops|
      ensures Mentions(t, all, i, id, d) <==> Mentions(t, ops, i, id, d)
      ensures all[i] == ops[i]
    {
      SameBefore(t, ops, op, i, id);
    }
    if d in v {
      var i: nat :| from <= i && Mentions(t, ops, i, id, d) && Stamp(ops[i]) == v[d];
      assert Mentions(t, all, i, id, d) && Stamp(all[i]) == v[d];
    }
  }

  lemma MentionRaise(t: Table, ops: seq<Op>, op: Op, id: Id, d: Bytes, from: nat,
                     v: map<Bytes, Time>, v': map<Bytes, Time>)
    requires Explained(t, ops, id, d, from, v) && Mentions(t, ops + [op], |ops|, id, d) && from <= |ops|
    requires d in v' && v'[d] == if d in v then Max(v[d], Stamp(op)) else Stamp(op)
    ensures Explained(t, ops + [op], id, d, from, v')
  {
    var all := ops + [op];
    assert all[|ops|] == op;
    forall i: nat | i < |ops|
      ensures Mentions(t, all, i, id, d) <==> Mentions(t, ops, i, id, d)
      ensures all[i] == ops[i]
    {
      SameBefore(t, ops, op, i, id);
    }
    if d in v && v[d] > Stamp(op) {
      var i: nat :| from <= i && Mentions(t, ops, i, id, d) && Stamp(ops[i]) == v[d];
      assert Mentions(t, all, i, id, d) && Stamp(all[i]) == v[d];
    }
  }

  function Lasting(v: map<Bytes, Time>, now: Time): map<Bytes, Time> {
    map d | d in v && v[d] > now :: v[d]
  }

  lemma LastingPut(v: map<Bytes, Time>, d: Bytes, e: Time, now: Time)
    requires d !in v
    ensures Lasting(v[d := e], now) == if e > now then Lasting(v, now)[d := e] else Lasting(v, now)
  {
  }

  /** The live endpoints, seen as a map. */
  lemma {:induction false} LiveView(eps: seq<Endpoint>, now: Time)
    requires NoDuplicates(Names(eps))
    ensures View(Live(eps, now)) == Lasting(View(eps), now)
  {
    if eps != [] {
      var front, last := eps[..|eps| - 1], eps[|eps| - 1];
      assert eps == front + [last];
      assert Names(eps)[..|front|] == Names(front);
      LiveView(front, now);
      LiveViewSnoc(front, last, now);
    }
  }

  lemma LiveViewSnoc(front: seq<Endpoint>, last: Endpoint, now: Time)
    requires last.data !in Names(front) && View(Live(front, now)) == Lasting(View(front), now)
    ensures View(Live(front + [last], now)) == Lasting(View(front + [last]), now)
  {
    LastingPut(View(front), last.data, last.expiry, now);
    MergeLaws.ViewSnoc(front, last);
    MergeLaws.ViewSnoc(Live(front, now), last);
    PruneLaws.LiveSnoc(front, last, now);
    assert Live(front, now) + [] == Live(front, now);
  }

  lemma EndpointsPruned(before: Table, now: Time, id: Id)
    requires ValidTable(before) && (id in before ==> before[id].expiry > now)
    ensures EndpointsOf(PruneTable(before, now), id) == Lasting(EndpointsOf(before, id), now)
  {
    if id in before {
      LiveView(before[id].endpoints, now);
    }
  }

  lemma EndpointsUpdated(before: Table, op: Op, id: Id, e: Time, merged: seq<Endpoint>)
    requires ValidTable(before) && Updates(op, id) && !Refused(before, op.req) && e == Stamp(op)
    requires merged == Target(Perform(before, op), id).endpoints
    ensures MergeLaws.Joined(Target(before, id).endpoints, op.req.endpoints, e, merged)
  {
    UpdateLaws.TargetValid(before, id);
    TargetUpdated(before, op, id);
    UpdateLaws.UpdatedView(Target(before, id), op.req, op.now, e, merged);
  }

  lemma TargetUpdated(before: Table, op: Op, id: Id)
    requires Updates(op, id) && !Refused(before, op.req)
    ensures Target(Perform(before, op), id) == UpdatedRecord(Target(before, id), op.req, op.now)
  {
    RecordStep(before, op, id);
  }

  lemma EndpointsElsewhere(before: Table, op: Op, id: Id)
    requires op.Remove? && op.id == id ==> id !in before
    requires !op.Prune? && !(Updates(op, id) && !Refused(before, op.req))
    ensures EndpointsOf(Perform(before, op), id) == EndpointsOf(before, id)
  {
    RecordStep(before, op, id);
  }

  /**
   * From any table without the affiliate, prunes and failing updates included: each stored endpoint's expiry
   * is the greatest asked for by an operation that merged it since it was last added, and an endpoint that is
   * not stored was not merged since.
   */
  lemma {:induction false} EndpointClosedForm(t: Table, ops: seq<Op>, id: Id, d: Bytes)
    requires ValidTable(t) && Lives(t, ops, id)
    ensures Explained(t, ops, id, d, Since(t, ops, id, d), EndpointsOf(PerformAll(t, ops), id))
    decreases |ops|
  {
    if ops != [] {
      var front, op := ops[..|ops| - 1], ops[|ops| - 1];
      assert ops == front + [op];
      EndpointClosedForm(t, front, id, d);
      PerformAllValid(t, front);
      ExplainedStep(t, front, op, id, d, Since(t, front, id, d));
    }
  }

  lemma ExplainedStep(t: Table, front: seq<Op>, op: Op, id: Id, d: Bytes, from: nat)
    requires var before := PerformAll(t, front);
             && ValidTable(before) && from <= |front| && Explained(t, front, id, d, from, EndpointsOf(before, id))
             && (op.Remove? && op.id == id ==> id !in before)
             && (op.Prune? && id in before ==> before[id].expiry > op.now)
    ensures var before := PerformAll(t, front);
            var v := EndpointsOf(before, id);
            var from' := if op.Prune? && (d !in v || v[d] <= op.now) then |front| + 1 else from;
            Explained(t, front + [op], id, d, from', EndpointsOf(Perform(before, op), id))
  {
    var before := PerformAll(t, front);
    var v := EndpointsOf(before, id);
    LastDid(t, front, op, id);
    if Updates(op, id) && !Refused(before, op.req) {
      EndpointsUpdated(before, op, id, Stamp(op), Target(Perform(before, op), id).endpoints);
      MergedExplained(t, front, op, id, d, from, v, EndpointsOf(Perform(before, op), id));
    } else {
      MentionSkip(t, front, op, id, d, from, v);
      if op.Prune? {
        EndpointsPruned(before, op.now, id);
      } else {
        EndpointsElsewhere(before, op, id);
      }
    }
  }

  lemma MergedExplained(t: Table, front: seq<Op>, op: Op, id: Id, d: Bytes, from: nat,
                        v: map<Bytes, Time>, v': map<Bytes, Time>)
    requires Explained(t, front, id, d, from, v) && from <= |front|
    requires Stores(t, front + [op], |front|, id) && op.Update?
    requires var eps := Target(PerformAll(t, front), id).endpoints;
             && (Mentions(t, front + [op], |front|, id, d) <==> MergeLaws.Accepted(eps, op.req.endpoints, d))
             && v' == MergeLaws.Join(v, MergeLaws.AcceptedSet(eps, op.req.endpoints), Stamp(op))
    ensures Explained(t, front + [op], id, d, from, v')
  {
    if Mentions(t, front + [op], |front|, id, d) {
      MentionRaise(t, front, op, id, d, from, v, v');
    } else {
      MentionSkip(t, front, op, id, d, from, v);
    }
  }
}
