/** What MergeEndpoints computes, stated without its loop: a bounded union that is a join of expiries. */
module MergeLaws {
  import opened Basics
  import opened Affiliates

  /** The order new endpoints are added in: first occurrences in the request, not seen before. */
  function FirstSeen(seen: seq<Bytes>, req: seq<Bytes>): seq<Bytes>
    decreases |req|
  {
    if req == [] then []
    else if req[0] in seen then FirstSeen(seen, req[1..])
    else [req[0]] + FirstSeen(seen + [req[0]], req[1..])
  }

  /** The union of a view with the requested endpoints, each requested expiry raised to at least `e`. */
  ghost function Join(v: map<Bytes, Time>, req: set<Bytes>, e: Time): map<Bytes, Time> {
    map d | d in v.Keys + req ::
      if d !in req then v[d] else if d in v then Max(v[d], e) else e
  }

  ghost predicate Fits(eps: seq<Endpoint>, req: seq<Bytes>) {
    |Elems(Names(eps)) + Elems(req)| <= 64
  }

  lemma RaiseKeepsNames(eps: seq<Endpoint>, i: nat, e: Time)
    requires i < |eps|
    ensures Names(Raise(eps, i, e)) == Names(eps)
  {
  }

  lemma ViewSnoc(eps: seq<Endpoint>, x: Endpoint)
    ensures View(eps + [x]) == View(eps)[x.data := x.expiry]
    ensures Names(eps + [x]) == Names(eps) + [x.data]
  {
    assert (eps + [x])[..|eps|] == eps;
  }

  lemma {:induction false} RaiseView(eps: seq<Endpoint>, i: nat, e: Time)
    requires i < |eps| && NoDuplicates(Names(eps))
    ensures View(Raise(eps, i, e)) == Join(View(eps), {eps[i].data}, e)
    decreases |eps|
  {
    var front, x := eps[..|eps| - 1], eps[|eps| - 1];
    assert eps == front + [x];
    ViewSnoc(front, x);
    assert Names(eps)[..|front|] == Names(front);
    if i == |front| {
      var y := Endpoint(x.data, Max(x.expiry, e));
      assert Raise(eps, i, e) == front + [y];
      ViewSnoc(front, y);
      JoinLast(View(front), x.data, x.expiry, e);
    } else {
      assert Raise(eps, i, e) == Raise(front, i, e) + [x];
      ViewSnoc(Raise(front, i, e), x);
      RaiseView(front, i, e);
      NoDuplicatesDiffer(Names(eps), i, |front|);
      JoinElsewhere(View(front), x.data, x.expiry, eps[i].data, e);
    }
  }

  lemma JoinLast(v: map<Bytes, Time>, d: Bytes, t: Time, e: Time)
    ensures v[d := Max(t, e)] == Join(v[d := t], {d}, e)
  {
  }

  lemma JoinElsewhere(v: map<Bytes, Time>, k: Bytes, t: Time, d: Bytes, e: Time)
    requires k != d
    ensures Join(v, {d}, e)[k := t] == Join(v[k := t], {d}, e)
  {
  }

  lemma AppendNames(eps: seq<Endpoint>, d: Bytes, e: Time)
    ensures Names(eps + [Endpoint(d, e)]) == Names(eps) + [d]
  {
  }

  lemma AppendView(eps: seq<Endpoint>, d: Bytes, e: Time)
    requires d !in Names(eps)
    ensures View(eps + [Endpoint(d, e)]) == Join(View(eps), {d}, e)
  {
    ViewSnoc(eps, Endpoint(d, e));
  }

  lemma JoinJoin(v: map<Bytes, Time>, a: set<Bytes>, b: set<Bytes>, e: Time)
    ensures Join(Join(v, a, e), b, e) == Join(v, a + b, e)
  {
  }

  lemma JoinCommutes(v: map<Bytes, Time>, a: set<Bytes>, ea: Time, b: set<Bytes>, eb: Time)
    ensures Join(Join(v, a, ea), b, eb) == Join(Join(v, b, eb), a, ea)
  {
  }

  /** One request that finds its endpoint or room for it. */
  ghost function Step(eps: seq<Endpoint>, d: Bytes, e: Time): seq<Endpoint> {
    var i := IndexOf(eps, d);
    if i < |eps| then Raise(eps, i, e) else eps + [Endpoint(d, e)]
  }

  ghost predicate HasRoom(eps: seq<Endpoint>, d: Bytes) {
    d in Names(eps) || |eps| < 64
  }

  lemma StepKeeps(eps: seq<Endpoint>, d: Bytes, e: Time)
    requires ValidEndpoints(eps) && HasRoom(eps, d)
    ensures ValidEndpoints(Step(eps, d, e))
    ensures Names(Step(eps, d, e)) == Names(eps) + if d in Names(eps) then [] else [d]
    ensures View(Step(eps, d, e)) == Join(View(eps), {d}, e)
    ensures Elems(Names(Step(eps, d, e))) == Elems(Names(eps)) + {d}
  {
    if d in Names(eps) {
      RaiseKeepsNames(eps, IndexOf(eps, d), e);
      RaiseView(eps, IndexOf(eps, d), e);
      assert Names(eps) + [] == Names(eps);
    } else {
      AppendNames(eps, d, e);
      AppendView(eps, d, e);
      NoDuplicatesAppend(Names(eps), d);
    }
  }

  /** A request list is one Step followed by the rest of the list. */
  lemma MergeSteps(eps: seq<Endpoint>, req: seq<Bytes>, e: Time)
    requires req != [] && HasRoom(eps, req[0])
    ensures var m := Merge(Step(eps, req[0], e), req[1..], e);
            Merge(eps, req, e) == Merged(m.endpoints, !m.overflow && (m.changed || req[0] !in Names(eps)), m.overflow)
  {
    MergeUnfold(eps, req, e);
  }

  /** The success half of a merge that fits; the failure half is MergeStopsAtFirstOverflow. */
  ghost predicate MergedExactly(eps: seq<Endpoint>, req: seq<Bytes>, e: Time, m: Merged) {
    && AddsExactly(eps, req, m)
    && View(m.endpoints) == Join(View(eps), Elems(req), e)
  }

  ghost predicate AddsExactly(eps: seq<Endpoint>, req: seq<Bytes>, m: Merged) {
    && !m.overflow
    && ValidEndpoints(m.endpoints)
    && Names(m.endpoints) == Names(eps) + FirstSeen(Names(eps), req)
    && Elems(Names(m.endpoints)) == Elems(Names(eps)) + Elems(req)
    && (m.changed <==> !(Elems(req) <= Elems(Names(eps))))
  }

  lemma ElemsHead<T>(s: seq<T>)
    requires s != []
    ensures Elems(s) == {s[0]} + Elems(s[1..])
  {
  }

  lemma StepFits(eps: seq<Endpoint>, req: seq<Bytes>, e: Time)
    requires ValidEndpoints(eps) && req != [] && HasRoom(eps, req[0])
    ensures Elems(Names(eps)) + Elems(req) == Elems(Names(Step(eps, req[0], e))) + Elems(req[1..])
    ensures Fits(eps, req) <==> Fits(Step(eps, req[0], e), req[1..])
  {
    StepKeeps(eps, req[0], e);
    ElemsHead(req);
  }

  lemma {:induction false} MergeAdds(eps: seq<Endpoint>, req: seq<Bytes>, e: Time)
    requires ValidEndpoints(eps) && Fits(eps, req)
    ensures AddsExactly(eps, req, Merge(eps, req, e))
    decreases |req|
  {
    if req == [] {
      assert Elems(req) == {};
    } else {
      var r := Step(eps, req[0], e);
      FitsHasRoom(eps, req);
      StepKeeps(eps, req[0], e);
      MergeSteps(eps, req, e);
      StepFits(eps, req, e);
      MergeAdds(r, req[1..], e);
      FirstSeenStep(Names(eps), Names(r), req);
    }
  }

  lemma {:induction false} MergeJoins(eps: seq<Endpoint>, req: seq<Bytes>, e: Time)
    requires ValidEndpoints(eps) && Fits(eps, req)
    ensures View(Merge(eps, req, e).endpoints) == Join(View(eps), Elems(req), e)
    decreases |req|
  {
    if req == [] {
      assert View(eps) == Join(View(eps), {}, e);
    } else {
      var r := Step(eps, req[0], e);
      FitsHasRoom(eps, req);
      StepKeeps(eps, req[0], e);
      MergeSteps(eps, req, e);
      StepFits(eps, req, e);
      MergeJoins(r, req[1..], e);
      JoinJoin(View(eps), {req[0]}, Elems(req[1..]), e);
      ElemsHead(req);
    }
  }

  lemma MergeFits(eps: seq<Endpoint>, req: seq<Bytes>, e: Time)
    requires ValidEndpoints(eps) && Fits(eps, req)
    ensures MergedExactly(eps, req, e, Merge(eps, req, e))
  {
    MergeAdds(eps, req, e);
    MergeJoins(eps, req, e);
  }

  lemma FirstSeenStep(seen: seq<Bytes>, seen': seq<Bytes>, req: seq<Bytes>)
    requires req != [] && seen' == seen + if req[0] in seen then [] else [req[0]]
    ensures seen + FirstSeen(seen, req) == seen' + FirstSeen(seen', req[1..])
    ensures Elems(req) <= Elems(seen) <==> req[0] in seen && Elems(req[1..]) <= Elems(seen')
  {
    if req[0] in seen {
      assert seen' == seen;
    } else {
      var tail := FirstSeen(seen + [req[0]], req[1..]);
      assert FirstSeen(seen, req) == [req[0]] + tail;
      assert seen + ([req[0]] + tail) == (seen + [req[0]]) + tail;
    }
    ElemsHead(req);
  }

  lemma FitsHasRoom(eps: seq<Endpoint>, req: seq<Bytes>)
    requires ValidEndpoints(eps) && Fits(eps, req)
    requires req != []
    ensures HasRoom(eps, req[0])
  {
    NoDuplicatesCardinality(Names(eps));
    var s := Elems(Names(eps));
    if req[0] !in Names(eps) {
      assert |s + {req[0]}| == |s| + 1;
      SubsetCardinality(s + {req[0]}, s + Elems(req));
    }
  }

  lemma {:induction false} NothingFirstSeen(seen: seq<Bytes>, req: seq<Bytes>)
    requires Elems(req) <= Elems(seen)
    ensures FirstSeen(seen, req) == []
    decreases |req|
  {
    if req != [] {
      ElemsHead(req);
      assert req[0] in Elems(seen);
      NothingFirstSeen(seen, req[1..]);
    }
  }

  /** Where a merge stops: at the first request that would be the 65th distinct endpoint. */
  ghost predicate OverflowsAt(eps: seq<Endpoint>, req: seq<Bytes>, k: nat) {
    && k < |req|
    && |Elems(Names(eps)) + Elems(req[..k])| == 64
    && req[k] !in Elems(Names(eps)) + Elems(req[..k])
  }

  /** Exactly the requests before the first overflow are merged, and the affiliate is then full. */
  lemma MergeStopsAtFirstOverflow(eps: seq<Endpoint>, req: seq<Bytes>, e: Time) returns (k: nat)
    requires ValidEndpoints(eps) && !Fits(eps, req)
    ensures OverflowsAt(eps, req, k)
    ensures MergedExactly(eps, req[..k], e, Merge(eps, req[..k], e))
    ensures Merge(eps, req, e) == Merged(Merge(eps, req[..k], e).endpoints, false, true)
    ensures |Merge(eps, req, e).endpoints| == 64
  {
    k := FindOverflow(eps, req, e);
    MergeFits(eps, req[..k], e);
    var names := Names(Merge(eps, req[..k], e).endpoints);
    NoDuplicatesCardinality(names);
    assert Elems(names) == Elems(Names(eps)) + Elems(req[..k]);
  }

  /** The merge overflows at request k, having merged the requests before it. */
  ghost predicate StopsAt(eps: seq<Endpoint>, req: seq<Bytes>, e: Time, k: nat) {
    OverflowsAt(eps, req, k) && Merge(eps, req, e) == Merged(Merge(eps, req[..k], e).endpoints, false, true)
  }

  lemma {:induction false} FindOverflow(eps: seq<Endpoint>, req: seq<Bytes>, e: Time) returns (k: nat)
    requires ValidEndpoints(eps) && !Fits(eps, req)
    ensures StopsAt(eps, req, e, k)
    decreases |req|
  {
    if req == [] {
      EmptyFits(eps);
      assert false;
    }
    if !HasRoom(eps, req[0]) {
      k := 0;
      OverflowNow(eps, req, e);
    } else {
      var r := Step(eps, req[0], e);
      StepKeeps(eps, req[0], e);
      StepFits(eps, req, e);
      var k' := FindOverflow(r, req[1..], e);
      k := k' + 1;
      OverflowLater(eps, req, e, k');
    }
  }

  lemma OverflowNow(eps: seq<Endpoint>, req: seq<Bytes>, e: Time)
    requires ValidEndpoints(eps) && req != [] && !HasRoom(eps, req[0])
    ensures StopsAt(eps, req, e, 0)
  {
    MergeUnfold(eps, req, e);
    NoDuplicatesCardinality(Names(eps));
    assert Elems(Names(eps)) + Elems(req[..0]) == Elems(Names(eps));
  }

  lemma OverflowLater(eps: seq<Endpoint>, req: seq<Bytes>, e: Time, k: nat)
    requires ValidEndpoints(eps) && req != [] && HasRoom(eps, req[0])
    requires StopsAt(Step(eps, req[0], e), req[1..], e, k)
    ensures StopsAt(eps, req, e, k + 1)
  {
    PrefixElems(req, k + 1);
    StepKeeps(eps, req[0], e);
    StepFits(eps, req[..k + 1], e);
    MergeSteps(eps, req, e);
    MergeSteps(eps, req[..k + 1], e);
  }

  /** A requested endpoint that still fits when it is reached: merged even by a request that fails later. */
  ghost predicate Accepted(eps: seq<Endpoint>, req: seq<Bytes>, d: Bytes) {
    exists j :: 0 <= j < |req| && req[j] == d && Fits(eps, req[..j + 1])
  }

  ghost function AcceptedSet(eps: seq<Endpoint>, req: seq<Bytes>): set<Bytes> {
    set d | d in req && Accepted(eps, req, d)
  }

  /** Whether or not the merge fails, exactly the accepted endpoints are joined in. */
  lemma MergeJoinsAccepted(eps: seq<Endpoint>, req: seq<Bytes>, e: Time)
    requires ValidEndpoints(eps)
    ensures View(Merge(eps, req, e).endpoints) == Join(View(eps), AcceptedSet(eps, req), e)
  {
    if Fits(eps, req) {
      AllAccepted(eps, req);
      MergeJoins(eps, req, e);
    } else {
      var k := MergeStopsAtFirstOverflow(eps, req, e);
      FirstAccepted(eps, req, k);
    }
  }

  ghost predicate IsJoin(v: map<Bytes, Time>, merged: map<Bytes, Time>, accepted: set<Bytes>, e: Time) {
    merged == Join(v, accepted, e)
  }

  /** These are the endpoints with exactly the accepted ones of a request joined in. */
  ghost predicate Joined(eps: seq<Endpoint>, req: seq<Bytes>, e: Time, merged: seq<Endpoint>) {
    IsJoin(View(eps), View(merged), AcceptedSet(eps, req), e)
  }

  lemma MergeJoined(eps: seq<Endpoint>, req: seq<Bytes>, e: Time, merged: seq<Endpoint>)
    requires ValidEndpoints(eps) && merged == Merge(eps, req, e).endpoints
    ensures Joined(eps, req, e, merged)
  {
    MergeJoinsAccepted(eps, req, e);
  }

  lemma AllAccepted(eps: seq<Endpoint>, req: seq<Bytes>)
    requires Fits(eps, req)
    ensures AcceptedSet(eps, req) == Elems(req)
  {
    forall d | d in req
      ensures Accepted(eps, req, d)
    {
      var j :| 0 <= j < |req| && req[j] == d;
      assert req[..j + 1] + req[j + 1..] == req;
      FitsPrefix(eps, req[..j + 1], req[j + 1..]);
    }
  }

  lemma FirstAccepted(eps: seq<Endpoint>, req: seq<Bytes>, k: nat)
    requires OverflowsAt(eps, req, k)
    ensures AcceptedSet(eps, req) == Elems(req[..k])
  {
    forall d | d in req[..k]
      ensures Accepted(eps, req, d)
    {
      var j :| 0 <= j < k && req[..k][j] == d;
      assert req[..j + 1] + req[j + 1..k] == req[..k];
      FitsPrefix(eps, req[..j + 1], req[j + 1..k]);
    }
    forall d | d in req && Accepted(eps, req, d)
      ensures d in req[..k]
    {
      var j :| 0 <= j < |req| && req[j] == d && Fits(eps, req[..j + 1]);
      if j >= k {
        NoneLater(eps, req, k, j);
      }
      assert req[..k][j] == d;
    }
  }

  lemma NoneLater(eps: seq<Endpoint>, req: seq<Bytes>, k: nat, j: nat)
    requires OverflowsAt(eps, req, k) && k <= j < |req|
    ensures !Fits(eps, req[..j + 1])
  {
    var upTo := Elems(Names(eps)) + Elems(req[..k]);
    assert req[..j + 1][k] == req[k];
    forall d | d in req[..k]
      ensures d in req[..j + 1]
    {
      var i :| 0 <= i < k && req[..k][i] == d;
      assert req[..j + 1][i] == d;
    }
    assert |upTo + {req[k]}| == |upTo| + 1;
    SubsetCardinality(upTo + {req[k]}, Elems(Names(eps)) + Elems(req[..j + 1]));
  }

  lemma EmptyFits(eps: seq<Endpoint>)
    requires ValidEndpoints(eps)
    ensures Fits(eps, [])
  {
    NoDuplicatesCardinality(Names(eps));
    assert Elems(Names(eps)) + Elems([]) == Elems(Names(eps));
  }

  lemma PrefixElems(req: seq<Bytes>, k: nat)
    requires 0 < k <= |req|
    ensures req[..k][0] == req[0] && req[..k][1..] == req[1..][..k - 1]
    ensures Elems(req[..k]) == {req[0]} + Elems(req[1..][..k - 1])
  {
    ElemsHead(req[..k]);
  }

  /** MergeEndpoints succeeds exactly when the union fits, and never breaks the endpoint invariant. */
  lemma MergeExact(eps: seq<Endpoint>, req: seq<Bytes>, e: Time)
    requires ValidEndpoints(eps)
    ensures var m := Merge(eps, req, e);
            && ValidEndpoints(m.endpoints)
            && (m.overflow <==> !Fits(eps, req))
            && (!m.overflow ==> MergedExactly(eps, req, e, m))
  {
    if Fits(eps, req) {
      MergeFits(eps, req, e);
    } else {
      var k := MergeStopsAtFirstOverflow(eps, req, e);
    }
  }

  lemma MergeValid(eps: seq<Endpoint>, req: seq<Bytes>, e: Time)
    requires ValidEndpoints(eps)
    ensures ValidEndpoints(Merge(eps, req, e).endpoints)
  {
    MergeExact(eps, req, e);
  }

  lemma MergeReport(eps: seq<Endpoint>, req: seq<Bytes>, e: Time)
    requires ValidEndpoints(eps)
    ensures Merge(eps, req, e).overflow <==> !Fits(eps, req)
    ensures Merge(eps, req, e).changed <==> Fits(eps, req) && !(Elems(req) <= Elems(Names(eps)))
  {
    MergeExact(eps, req, e);
  }

  lemma UnchangedNames(eps: seq<Endpoint>, req: seq<Bytes>, e: Time)
    requires ValidEndpoints(eps) && Fits(eps, req) && Elems(req) <= Elems(Names(eps))
    ensures Names(Merge(eps, req, e).endpoints) == Names(eps)
  {
    MergeAdds(eps, req, e);
    NothingFirstSeen(Names(eps), req);
    assert Names(eps) + [] == Names(eps);
  }

  lemma OverflowNames(eps: seq<Endpoint>, req: seq<Bytes>, e: Time) returns (names: seq<Bytes>)
    requires ValidEndpoints(eps) && !Fits(eps, req)
    ensures names == Names(Merge(eps, req, e).endpoints)
    ensures |names| == 64
    ensures |eps| == 64 ==> names == Names(eps)
  {
    var k := MergeStopsAtFirstOverflow(eps, req, e);
    names := Names(Merge(eps, req, e).endpoints);
    var added := FirstSeen(Names(eps), req[..k]);
    assert |Names(eps) + added| == |eps| + |added|;
    if added == [] {
      assert Names(eps) + [] == Names(eps);
    }
  }

  // ----- merge is a join -----

  /** Merging A then B and merging B then A leave the same endpoints with the same expiries. */
  lemma MergeCommutes(eps: seq<Endpoint>, a: seq<Bytes>, ea: Time, b: seq<Bytes>, eb: Time)
    requires ValidEndpoints(eps) && Fits(eps, a + b)
    ensures var ab := Merge(Merge(eps, a, ea).endpoints, b, eb);
            var ba := Merge(Merge(eps, b, eb).endpoints, a, ea);
            !ab.overflow && !ba.overflow && View(ab.endpoints) == View(ba.endpoints)
  {
    ElemsConcat(a, b);
    ElemsConcat(b, a);
    MergeInSequence(eps, a, ea, b, eb);
    assert Elems(a + b) == Elems(b + a);
    MergeInSequence(eps, b, eb, a, ea);
    JoinCommutes(View(eps), Elems(a), ea, Elems(b), eb);
  }

  lemma MergeInSequence(eps: seq<Endpoint>, a: seq<Bytes>, ea: Time, b: seq<Bytes>, eb: Time)
    requires ValidEndpoints(eps) && Elems(a + b) == Elems(a) + Elems(b) && Fits(eps, a + b)
    ensures
      var m1 := Merge(eps, a, ea);
      var m2 := Merge(m1.endpoints, b, eb);
      && MergedExactly(eps, a, ea, m1) && MergedExactly(m1.endpoints, b, eb, m2)
            && View(m2.endpoints) == Join(Join(View(eps), Elems(a), ea), Elems(b), eb)
  {
    FitsPrefix(eps, a, b);
    MergeFits(eps, a, ea);
    var m1 := Merge(eps, a, ea);
    assert Elems(Names(m1.endpoints)) + Elems(b) == Elems(Names(eps)) + Elems(a + b);
    MergeFits(m1.endpoints, b, eb);
  }

  /** Merging a concatenated request is merging its halves in turn, down to the order of endpoints. */
  lemma {:induction false} MergeConcat(eps: seq<Endpoint>, a: seq<Bytes>, b: seq<Bytes>, e: Time)
    requires ValidEndpoints(eps) && Fits(eps, a + b)
    ensures var m1 := Merge(eps, a, e);
            var m2 := Merge(m1.endpoints, b, e);
            Merge(eps, a + b, e) == Merged(m2.endpoints, m1.changed || m2.changed, false)
    decreases |a|
  {
    if a == [] {
      assert a + b == b;
      MergeFits(eps, b, e);
    } else {
      var rest := a[1..] + b;
      assert (a + b)[1..] == rest;
      var r := Step(eps, a[0], e);
      FitsHasRoom(eps, a + b);
      StepKeeps(eps, a[0], e);
      StepFits(eps, a + b, e);
      MergeConcat(r, a[1..], b, e);
      FitsPrefix(r, a[1..], b);
      MergeFits(r, a[1..], e);
      MergeSteps(eps, a, e);
      MergeSteps(eps, a + b, e);
    }
  }

  lemma FitsPrefix(eps: seq<Endpoint>, a: seq<Bytes>, b: seq<Bytes>)
    requires Fits(eps, a + b)
    ensures Fits(eps, a)
  {
    ElemsConcat(a, b);
    SubsetCardinality(Elems(Names(eps)) + Elems(a), Elems(Names(eps)) + Elems(a + b));
  }

  /** Repeating a merge at the same or an earlier expiry is a no-op that reports no change. */
  lemma {:induction false} MergeIdempotent(eps: seq<Endpoint>, req: seq<Bytes>, e: Time)
    requires ValidEndpoints(eps)
    requires forall d :: d in req ==> d in View(eps) && View(eps)[d] >= e
    ensures Merge(eps, req, e) == Merged(eps, false, false)
    decreases |req|
  {
    if req != [] {
      MergeUnfold(eps, req, e);
      var i := IndexOf(eps, req[0]);
      assert req[0] in View(eps);
      ViewAt(eps, i);
      assert Raise(eps, i, e) == eps;
      MergeIdempotent(eps, req[1..], e);
    }
  }

  lemma MergeTwice(eps: seq<Endpoint>, req: seq<Bytes>, e: Time)
    requires ValidEndpoints(eps) && Fits(eps, req)
    ensures var m := Merge(eps, req, e);
            !m.overflow && Merge(m.endpoints, req, e) == Merged(m.endpoints, false, false)
  {
    MergeFits(eps, req, e);
    MergeIdempotent(Merge(eps, req, e).endpoints, req, e);
  }
}
