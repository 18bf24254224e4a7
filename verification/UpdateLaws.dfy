/** What updates keep, and when a watching client's copy follows them. */
module UpdateLaws {
  import opened Basics
  import opened Affiliates
  import opened Registry
  import MergeLaws

  lemma UpdatedRecordValid(rec: Record, req: UpdateRequest, now: Time)
    requires ValidRecord(rec)
    ensures ValidRecord(UpdatedRecord(rec, req, now))
    ensures UpdatedRecord(rec, req, now).id == rec.id
  {
    MergeLaws.MergeValid(rec.endpoints, req.endpoints, now + req.ttl);
  }

  lemma TableGrowth(t: Table, id: Id, rec: Record)
    ensures |t[id := rec]| == if id in t then |t| else |t| + 1
  {
    var t' := t[id := rec];
    assert t'.Keys == t.Keys + {id};
    assert id in t ==> t'.Keys == t.Keys;
  }

  /** At most 1024 affiliates, at most 64 distinct endpoints each, every record under its own id. */
  lemma UpdateKeepsValid(t: Table, req: UpdateRequest, now: Time)
    requires ValidTable(t)
    ensures ValidTable(UpdateTable(t, req, now))
  {
    EmptyRecordValid(req.id);
    UpdatedRecordValid(Target(t, req.id), req, now);
    TableGrowth(t, req.id, UpdatedRecord(Target(t, req.id), req, now));
  }

  lemma EmptyRecordValid(id: Id)
    ensures ValidRecord(Record(id, ZERO_TIME, [], []))
  {
    assert Names([]) == [];
  }

  // ----- exactly what is stored -----

  /**
   * The record an update leaves, whether or not its endpoints fit: new data replaces the old and sets the
   * expiry; without data only a merge that fits may raise it, and a merge that does not fit leaves it alone.
   */
  lemma RecordExactly(rec: Record, req: UpdateRequest, now: Time, e: Time)
    requires ValidEndpoints(rec.endpoints) && e == now + req.ttl
    ensures var r := UpdatedRecord(rec, req, now);
            && r.id == rec.id
            && r.data == (if |req.data| > 0 then req.data else rec.data)
            && r.expiry == (if |req.data| > 0 then e
                            else if MergeLaws.Fits(rec.endpoints, req.endpoints) && rec.expiry < e then e
                            else rec.expiry)
            && MergeLaws.Joined(rec.endpoints, req.endpoints, e, r.endpoints)
  {
    var m := MergeReportFor(rec.endpoints, req.endpoints, e);
    FieldsBy(rec, req, now, e, m.overflow);
    UpdatedView(rec, req, now, e, UpdatedRecord(rec, req, now).endpoints);
  }

  lemma FieldsBy(rec: Record, req: UpdateRequest, now: Time, e: Time, overflow: bool)
    requires e == now + req.ttl && overflow == Merge(rec.endpoints, req.endpoints, e).overflow
    ensures var r := UpdatedRecord(rec, req, now);
            && r.id == rec.id
            && r.data == (if |req.data| > 0 then req.data else rec.data)
            && r.expiry == (if |req.data| > 0 then e else if !overflow && rec.expiry < e then e else rec.expiry)
  {
  }

  lemma UpdatedView(rec: Record, req: UpdateRequest, now: Time, e: Time, merged: seq<Endpoint>)
    requires ValidEndpoints(rec.endpoints) && e == now + req.ttl && merged == UpdatedRecord(rec, req, now).endpoints
    ensures MergeLaws.Joined(rec.endpoints, req.endpoints, e, merged)
  {
    UpdatedEndpoints(rec, req, now);
    MergeLaws.MergeJoined(rec.endpoints, req.endpoints, e, merged);
  }

  /**
   * The table an update leaves: unchanged when a new affiliate would be the 1025th; otherwise the affiliate's
   * record is the updated one, from the stored record or an empty one with a zero expiry, and no other changes.
   */
  lemma TableExactly(t: Table, req: UpdateRequest, now: Time)
    ensures req.id !in t && |t| >= 1024 ==> UpdateTable(t, req, now) == t
    ensures req.id in t || |t| < 1024 ==>
              var rec := if req.id in t then t[req.id] else Record(req.id, -62_135_596_800_000_000_000, [], []);
              UpdateTable(t, req, now) == t[req.id := UpdatedRecord(rec, req, now)]
  {
  }

  // ----- agreement -----

  /** The requested endpoints that would make the affiliate hold more than 64. */
  ghost predicate TooMany(t: Table, req: UpdateRequest) {
    !MergeLaws.Fits(Target(t, req.id).endpoints, req.endpoints)
  }

  /** A failing merge that shows nothing: the affiliate was already full and its data is not replaced. */
  ghost predicate SilentFailure(t: Table, req: UpdateRequest) {
    var rec := Target(t, req.id);
    |rec.endpoints| == 64 && (req.data == [] || req.data == rec.data)
  }

  ghost function EventOf(t: Table, req: UpdateRequest, now: Time): Option<Event> {
    var outcome := UpdateOutcome(t, req, now);
    if outcome.Updated? then outcome.event else None
  }

  /** Which of the results an update has is decided by the sizes of two sets. */
  lemma OutcomeOf(t: Table, req: UpdateRequest, now: Time)
    requires ValidTable(t)
    ensures UpdateOutcome(t, req, now) == TooManyAffiliates <==> req.id !in t && |t| == 1024
    ensures UpdateOutcome(t, req, now) == TooManyEndpoints <==> !Refused(t, req) && TooMany(t, req)
    ensures UpdateOutcome(t, req, now) == Updated(None) <==> !Refused(t, req) && Quiet(t, req)
  {
    var m := MergeReportOf(t, req, now, now + req.ttl);
  }

  /** Nothing to announce: no data, and every requested endpoint is already there. */
  ghost predicate Quiet(t: Table, req: UpdateRequest) {
    && !TooMany(t, req) && req.data == []
    && Elems(req.endpoints) <= Elems(Names(Target(t, req.id).endpoints))
  }

  lemma MergeReportOf(t: Table, req: UpdateRequest, now: Time, e: Time) returns (m: Merged)
    requires ValidTable(t) && e == now + req.ttl
    ensures m == Merge(Target(t, req.id).endpoints, req.endpoints, e)
    ensures m.overflow <==> TooMany(t, req)
    ensures req.data == [] && !m.overflow && !m.changed <==> Quiet(t, req)
  {
    TargetValid(t, req.id);
    m := MergeReportFor(Target(t, req.id).endpoints, req.endpoints, e);
  }

  lemma MergeReportFor(eps: seq<Endpoint>, req: seq<Bytes>, e: Time) returns (m: Merged)
    requires ValidEndpoints(eps)
    ensures m == Merge(eps, req, e)
    ensures m.overflow <==> !MergeLaws.Fits(eps, req)
    ensures !m.overflow && !m.changed <==> MergeLaws.Fits(eps, req) && Elems(req) <= Elems(Names(eps))
  {
    MergeLaws.MergeReport(eps, req, e);
    m := Merge(eps, req, e);
  }

  lemma TargetValid(t: Table, id: Id)
    requires ValidTable(t)
    ensures ValidEndpoints(Target(t, id).endpoints)
  {
    EmptyRecordValid(id);
  }

  lemma UpdatedEndpoints(rec: Record, req: UpdateRequest, now: Time)
    ensures UpdatedRecord(rec, req, now).endpoints == Merge(rec.endpoints, req.endpoints, now + req.ttl).endpoints
  {
  }

  lemma UpdatedInfo(rec: Record, req: UpdateRequest, now: Time, names: seq<Bytes>)
    requires names == Names(Merge(rec.endpoints, req.endpoints, now + req.ttl).endpoints)
    ensures InfoOf(UpdatedRecord(rec, req, now)) ==
              Info(rec.id, if req.data == [] then rec.data else req.data, names)
  {
  }

  /**
   * An update announces its affiliate as it now stands unless it fails, or it carries no data and only endpoints
   * that were there.
   */
  lemma EventExactly(t: Table, req: UpdateRequest, now: Time)
    requires ValidTable(t)
    ensures EventOf(t, req, now) == None <==>
              || (req.id !in t && |t| == 1024) || TooMany(t, req)
              || (|req.data| == 0 && forall d :: d in req.endpoints ==> d in Names(Target(t, req.id).endpoints))
    ensures EventOf(t, req, now).Some? ==>
              req.id in UpdateTable(t, req, now) &&
              EventOf(t, req, now).value == Upsert(InfoOf(UpdateTable(t, req, now)[req.id]))
  {
    OutcomeOf(t, req, now);
    SubsetExactly(req.endpoints, Names(Target(t, req.id).endpoints));
  }

  lemma SubsetExactly(a: seq<Bytes>, b: seq<Bytes>)
    ensures Elems(a) <= Elems(b) <==> forall d :: d in a ==> d in b
  {
    if Elems(a) <= Elems(b) {
      forall d | d in a
        ensures d in b
      {
        assert d in Elems(a);
      }
    }
  }

  /** What an update without an event shows of the affiliate is what was shown before. */
  lemma QuietMerge(rec: Record, req: UpdateRequest, now: Time)
    requires ValidEndpoints(rec.endpoints) && MergeLaws.Fits(rec.endpoints, req.endpoints)
    requires req.data == [] && Elems(req.endpoints) <= Elems(Names(rec.endpoints))
    ensures InfoOf(UpdatedRecord(rec, req, now)) == InfoOf(rec)
  {
    var names := QuietNames(rec.endpoints, req.endpoints, now + req.ttl);
    UpdatedInfo(rec, req, now, names);
  }

  lemma QuietNames(eps: seq<Endpoint>, req: seq<Bytes>, e: Time) returns (names: seq<Bytes>)
    requires ValidEndpoints(eps) && MergeLaws.Fits(eps, req) && Elems(req) <= Elems(Names(eps))
    ensures names == Names(Merge(eps, req, e).endpoints) == Names(eps)
  {
    MergeLaws.UnchangedNames(eps, req, e);
    names := Names(eps);
  }

  /** A failing merge leaves a full affiliate; one that was full already shows the same endpoints. */
  lemma OverflowShows(rec: Record, req: UpdateRequest, now: Time) returns (names: seq<Bytes>)
    requires ValidEndpoints(rec.endpoints) && !MergeLaws.Fits(rec.endpoints, req.endpoints)
    ensures InfoOf(UpdatedRecord(rec, req, now)) ==
              Info(rec.id, if req.data == [] then rec.data else req.data, names)
    ensures |names| == 64
    ensures |rec.endpoints| == 64 ==> names == Names(rec.endpoints)
  {
    names := MergeLaws.OverflowNames(rec.endpoints, req.endpoints, now + req.ttl);
    UpdatedInfo(rec, req, now, names);
  }

  /** What the update does to the one affiliate it names, as a client sees it. */
  lemma UpdateShows(t: Table, req: UpdateRequest, now: Time, m: Mirror)
    requires ValidTable(t) && AgreesAt(m, t, req.id)
    ensures AgreesAt(ApplyOption(m, EventOf(t, req, now)), UpdateTable(t, req, now), req.id) <==>
              Refused(t, req) || !TooMany(t, req) || SilentFailure(t, req)
  {
    OutcomeOf(t, req, now);
    if !Refused(t, req) {
      var rec := Target(t, req.id);
      EmptyRecordValid(req.id);
      if TooMany(t, req) {
        var names := OverflowShows(rec, req, now);
        assert |Names(rec.endpoints)| == |rec.endpoints|;
      } else if EventOf(t, req, now).None? {
        QuietMerge(rec, req, now);
        assert Names(rec.endpoints) == [] <==> rec.endpoints == [];
      }
    }
  }

  /** A client in agreement stays in agreement exactly unless the update fails after showing part of itself. */
  lemma UpdateKeepsAgreement(t: Table, req: UpdateRequest, now: Time, m: Mirror)
    requires ValidTable(t) && Agrees(m, t)
    ensures Agrees(ApplyOption(m, EventOf(t, req, now)), UpdateTable(t, req, now)) <==>
              Refused(t, req) || !TooMany(t, req) || SilentFailure(t, req)
  {
    UpdateShows(t, req, now, m);
    UpdateElsewhere(t, req, now, m);
  }

  lemma UpdateElsewhere(t: Table, req: UpdateRequest, now: Time, m: Mirror)
    requires ValidTable(t)
    ensures forall id :: id != req.id ==>
              (AgreesAt(ApplyOption(m, EventOf(t, req, now)), UpdateTable(t, req, now), id) <==> AgreesAt(m, t, id))
  {
    EventNames(t, req, now);
  }

  lemma EventNames(t: Table, req: UpdateRequest, now: Time)
    requires ValidTable(t)
    ensures EventOf(t, req, now).Some? ==> EventId(EventOf(t, req, now).value) == req.id
  {
  }

  lemma DeleteKeepsAgreement(t: Table, id: Id, m: Mirror)
    requires Agrees(m, t)
    ensures Agrees(ApplyOption(m, DeleteEvent(t, id)), t - {id})
    ensures id !in ApplyOption(m, DeleteEvent(t, id))
  {
    assert AgreesAt(m, t, id);
    var m' := ApplyOption(m, DeleteEvent(t, id));
    forall k
      ensures AgreesAt(m', t - {id}, k)
    {
      assert AgreesAt(m, t, k);
    }
  }

  /** The copy an update leaves behind when it fails midway: an overflow of a new affiliate with 65 endpoints. */
  lemma OverflowBreaksAgreement(req: UpdateRequest, now: Time)
    requires |Elems(req.endpoints)| == 65
    ensures Agrees(map[], map[])
    ensures UpdateOutcome(map[], req, now) == TooManyEndpoints
    ensures !Agrees(ApplyOption(map[], EventOf(map[], req, now)), UpdateTable(map[], req, now))
  {
    assert Names([]) == [];
    assert Elems(Names([])) + Elems(req.endpoints) == Elems(req.endpoints);
    OutcomeOf(map[], req, now);
    UpdateKeepsAgreement(map[], req, now, map[]);
  }
}
