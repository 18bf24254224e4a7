/** The RPC handlers over the registry (internal/server/cluster_server.go). */
module Server {
  import opened Basics
  import opened Affiliates
  import opened Registry
  import opened Validation
  import opened Clusters
  import S = State
  import Discovery
  import MergeLaws
  import UpdateLaws
  import Flat
  import W = WatchRuns
  import V = WatchViews

  /** What a handler returns to its caller. */
  datatype Response = Success | Rejected(reason: Rejection) | ResourceExhausted(cause: StateError)

  /** The wire form of an affiliate, and a message of a Watch stream. */
  datatype ProtoAffiliate = ProtoAffiliate(id: Id, data: Bytes, endpoints: seq<Bytes>)
  datatype WatchResponse = WatchResponse(deleted: bool, affiliates: seq<ProtoAffiliate>)

  function ToProto(info: Info): ProtoAffiliate {
    ProtoAffiliate(info.id, info.data, info.endpoints)
  }

  function ToProtoAll(infos: seq<Info>): (r: seq<ProtoAffiliate>)
    ensures |r| == |infos|
  {
    if infos == [] then [] else ToProtoAll(infos[..|infos| - 1]) + [ToProto(infos[|infos| - 1])]
  }

  /** The message for one event; a tombstone carries the id only. */
  function ResponseOf(ev: Event): WatchResponse {
    match ev
    case Upsert(info) => WatchResponse(false, [ToProto(info)])
    case Delete(id) => WatchResponse(true, [ProtoAffiliate(id, [], [])])
  }

  /** An upsert is announced with all that is shown of the affiliate, a delete with the id alone. */
  ghost predicate Announces(m: WatchResponse, ev: Event) {
    && |m.affiliates| == 1
    && var p := m.affiliates[0];
       match ev
       case Upsert(info) =>
         !m.deleted && p.id == info.id && p.data == info.data && p.endpoints == info.endpoints
       case Delete(id) => m.deleted && p.id == id && p.data == [] && p.endpoints == []
  }

  lemma ResponseExactly(ev: Event)
    ensures Announces(ResponseOf(ev), ev)
  {
  }

  /** What a client does with a message: store the affiliates, or forget them. */
  function Absorb(m: Mirror, r: WatchResponse): Mirror {
    if r.deleted then Forget(m, r.affiliates) else Store(m, r.affiliates)
  }

  function Store(m: Mirror, ps: seq<ProtoAffiliate>): Mirror {
    if ps == [] then m
    else
      var p := ps[|ps| - 1];
      Store(m, ps[..|ps| - 1])[p.id := Info(p.id, p.data, p.endpoints)]
  }

  function Forget(m: Mirror, ps: seq<ProtoAffiliate>): Mirror {
    if ps == [] then m else Forget(m, ps[..|ps| - 1]) - {ps[|ps| - 1].id}
  }

  function AbsorbAll(m: Mirror, rs: seq<WatchResponse>): Mirror {
    if rs == [] then m else Absorb(AbsorbAll(m, rs[..|rs| - 1]), rs[|rs| - 1])
  }

  /** The snapshot message, which is not sent when there is nothing in it. */
  function SnapshotMessages(infos: seq<Info>): seq<WatchResponse> {
    if infos == [] then [] else [WatchResponse(false, ToProtoAll(infos))]
  }

  /** Nothing is sent for an empty snapshot; any other is one message with every affiliate as it is. */
  lemma SnapshotMessagesExactly(infos: seq<Info>)
    ensures |infos| == 0 ==> SnapshotMessages(infos) == []
    ensures |infos| > 0 ==>
              && |SnapshotMessages(infos)| == 1 && !SnapshotMessages(infos)[0].deleted
              && |SnapshotMessages(infos)[0].affiliates| == |infos|
              && forall i :: 0 <= i < |infos| ==>
                   SnapshotMessages(infos)[0].affiliates[i] ==
                     ProtoAffiliate(infos[i].id, infos[i].data, infos[i].endpoints)
  {
    ToProtoAt(infos);
  }

  lemma {:induction false} ToProtoAt(infos: seq<Info>)
    ensures forall i :: 0 <= i < |infos| ==>
              ToProtoAll(infos)[i] == ProtoAffiliate(infos[i].id, infos[i].data, infos[i].endpoints)
  {
    if infos != [] {
      ToProtoAt(infos[..|infos| - 1]);
    }
  }

  function EventMessages(evs: seq<Event>): seq<WatchResponse> {
    if evs == [] then [] else EventMessages(evs[..|evs| - 1]) + [ResponseOf(evs[|evs| - 1])]
  }

  lemma {:induction false} StoreListing(infos: seq<Info>)
    ensures Store(map[], ToProtoAll(infos)) == FromListing(infos)
  {
    if infos != [] {
      StoreListing(infos[..|infos| - 1]);
      var ps := ToProtoAll(infos);
      assert ps[..|ps| - 1] == ToProtoAll(infos[..|infos| - 1]);
    }
  }

  lemma MessageApplies(m: Mirror, ev: Event)
    ensures Absorb(m, ResponseOf(ev)) == Apply(m, ev)
  {
    var ps := ResponseOf(ev).affiliates;
    assert ps[..0] == [];
    assert Store(m, []) == m && Forget(m, []) == m;
  }

  /** A client that absorbs the messages of a stream has what replaying its events on its snapshot gives. */
  lemma {:induction false} StreamRebuilds(infos: seq<Info>, evs: seq<Event>)
    ensures AbsorbAll(map[], SnapshotMessages(infos) + EventMessages(evs)) == Replay(FromListing(infos), evs)
    decreases |evs|
  {
    var head := SnapshotMessages(infos);
    if evs == [] {
      assert head + [] == head;
      if infos != [] {
        StoreListing(infos);
        assert head[..0] == [];
        assert AbsorbAll(map[], []) == map[];
      }
    } else {
      var front, ev := evs[..|evs| - 1], evs[|evs| - 1];
      var all := head + EventMessages(evs);
      assert all[..|all| - 1] == head + EventMessages(front);
      StreamRebuilds(infos, front);
      MessageApplies(Replay(FromListing(infos), front), ev);
    }
  }

  /**
   * In every run of a new or restored cluster without a visibly failing update, a client that absorbs its
   * snapshot, listed in any order, and the messages sent since has the server's table as it was at the
   * commit they reach.
   */
  lemma MessagesFollowServer(start: ClusterValue, acts: seq<W.Action>, w: W.World, i: nat, infos: seq<Info>)
    requires start.subs == [] && ValidTable(start.table)
    requires W.After(start, acts) == Some(w) && V.CleanRun(start, acts)
    requires i < |w.clients| && IsListing(w.clients[i].listed, infos)
    ensures var c := w.clients[i];
            c.start + |c.sent| < |w.past| &&
            Agrees(AbsorbAll(map[], SnapshotMessages(infos) + EventMessages(c.sent)), w.past[c.start + |c.sent|])
  {
    V.EveryRunConsistent(start, acts);
    V.ClientFollowsServer(start, acts, w, i);
    ListingMirror(w.clients[i].listed, infos);
    StreamRebuilds(infos, w.clients[i].sent);
  }

  // ----- unary handlers -----

  function UpdateResponse(s: Discovery.Clusters, msg: UpdateMessage, now: Time): Response
    requires CheckUpdate(msg).None?
  {
    var t := Discovery.ClusterFor(s, msg.clusterId, now).table;
    match UpdateOutcome(t, ToRequest(msg), now)
    case Updated(_) => Success
    case TooManyAffiliates => ResourceExhausted(ErrTooManyAffiliates)
    case TooManyEndpoints => ResourceExhausted(ErrTooManyEndpoints)
  }

  /** The affiliates an update of this cluster finds. */
  ghost function Found(s: Discovery.Clusters, clusterId: Id): Table {
    if clusterId in s then s[clusterId].table else map[]
  }

  /** The endpoints of an affiliate; none if there is no such affiliate. */
  ghost function EndpointsOf(t: Table, id: Id): seq<Endpoint> {
    if id in t then t[id].endpoints else []
  }

  /**
   * How a legal update is answered: too many affiliates if it would be the 1025th, too many endpoints if its
   * affiliate would have more than 64, and success otherwise.
   */
  lemma AnswersExactly(s: Discovery.Clusters, msg: UpdateMessage, now: Time)
    requires Discovery.Valid(s) && CheckUpdate(msg).None?
    ensures var t, r := Found(s, msg.clusterId), UpdateResponse(s, msg, now);
            var many := |Elems(Names(EndpointsOf(t, msg.affiliateId))) + Elems(msg.endpoints)| > 64;
            && (r == ResourceExhausted(ErrTooManyAffiliates) <==> msg.affiliateId !in t && |t| == 1024)
            && (r == ResourceExhausted(ErrTooManyEndpoints) <==> (msg.affiliateId in t || |t| < 1024) && many)
            && (r == Success <==> (msg.affiliateId in t || |t| < 1024) && !many)
  {
    UpdateLaws.OutcomeOf(Found(s, msg.clusterId), ToRequest(msg), now);
  }

  /**
   * What a legal update leaves: the cluster exists, no other cluster and no other affiliate changes, and, unless
   * it would be the 1025th, the affiliate has the message's data, or its old data if that is empty; the expiry
   * of the message if it carries data or raises the old one and all endpoints fit; and the endpoints that fit
   * joined in with that expiry.
   */
  lemma UpdateStores(s: Discovery.Clusters, msg: UpdateMessage, now: Time, e: Time, s': Discovery.Clusters)
    requires Discovery.Valid(s) && CheckUpdate(msg).None? && e == now + msg.ttl.value
    requires s' == Discovery.Do(s, Discovery.Update(msg, now))
    ensures s'.Keys == s.Keys + {msg.clusterId}
    ensures forall c :: c in s && c != msg.clusterId ==> s'[c] == s[c]
    ensures LeftBy(Found(s, msg.clusterId), msg, e, s'[msg.clusterId].table)
  {
    var t := Found(s, msg.clusterId);
    UpdateLeaves(s, msg, now, s');
    TableLeft(t, msg, ToRequest(msg), now, e, s'[msg.clusterId].table);
  }

  /** The table t with the message's affiliate stored in it, or unchanged if that would be the 1025th. */
  ghost predicate LeftBy(t: Table, msg: UpdateMessage, e: Time, t': Table) {
    var id := msg.affiliateId;
    if id in t || |t| < 1024 then
      t'.Keys == t.Keys + {id} && (forall k :: k in t && k != id ==> t'[k] == t[k]) && Stored(t, msg, e, t'[id])
    else t' == t
  }

  /** The record an update leaves of its affiliate; a new one starts at the year 1 with nothing. */
  ghost predicate Stored(t: Table, msg: UpdateMessage, e: Time, rec: Record) {
    var id := msg.affiliateId;
    StoredFrom(if id in t then t[id] else Record(id, -62_135_596_800_000_000_000, [], []), msg, e, rec)
  }

  ghost predicate StoredFrom(was: Record, msg: UpdateMessage, e: Time, rec: Record) {
    var fits := |Elems(Names(was.endpoints)) + Elems(msg.endpoints)| <= 64;
    && rec.id == was.id
    && rec.data == (if |msg.data| > 0 then msg.data else was.data)
    && rec.expiry == (if |msg.data| > 0 || (fits && was.expiry < e) then e else was.expiry)
    && MergeLaws.Joined(was.endpoints, msg.endpoints, e, rec.endpoints)
  }

  lemma TableLeft(t: Table, msg: UpdateMessage, req: UpdateRequest, now: Time, e: Time, t': Table)
    requires ValidTable(t) && CheckUpdate(msg).None? && req == ToRequest(msg) && e == now + req.ttl
    requires t' == UpdateTable(t, req, now)
    ensures LeftBy(t, msg, e, t')
  {
    UpdateLaws.TableExactly(t, req, now);
    if req.id in t || |t| < 1024 {
      UpdateLaws.TargetValid(t, req.id);
      UpdateLaws.RecordExactly(Target(t, req.id), req, now, e);
      assert StoredFrom(Target(t, req.id), msg, e, t'[req.id]);
    }
  }

  lemma UpdateLeaves(s: Discovery.Clusters, msg: UpdateMessage, now: Time, s': Discovery.Clusters)
    requires CheckUpdate(msg).None? && s' == Discovery.Do(s, Discovery.Update(msg, now))
    ensures s'.Keys == s.Keys + {msg.clusterId}
    ensures forall c :: c in s && c != msg.clusterId ==> s'[c] == s[c]
    ensures s'[msg.clusterId].table == UpdateTable(Found(s, msg.clusterId), ToRequest(msg), now)
  {
    var c := Discovery.ClusterFor(s, msg.clusterId, now);
    assert s' == s[msg.clusterId := UpdateCluster(c, ToRequest(msg), now)];
    UpdatedTable(c, ToRequest(msg), now);
  }

  lemma UpdatedTable(c: ClusterValue, req: UpdateRequest, now: Time)
    ensures UpdateCluster(c, req, now).table == UpdateTable(c.table, req, now)
  {
  }

  /** ClusterFor and then an update in place are the update of the service. */
  lemma DoUpdate(s: Discovery.Clusters, msg: UpdateMessage, now: Time)
    requires CheckUpdate(msg).None?
    ensures var c := msg.clusterId;
            var s1 := s[c := Discovery.ClusterFor(s, c, now)];
            && Discovery.Do(s, Discovery.Update(msg, now)) == s1[c := UpdateCluster(s1[c], ToRequest(msg), now)]
            && UpdateResponse(s, msg, now) ==
                 var err := ErrorOf(UpdateOutcome(s1[c].table, ToRequest(msg), now));
                 if err.Some? then ResourceExhausted(err.value) else Success
  {
  }

  lemma RejectedExactly(s: Discovery.Clusters, msg: UpdateMessage, now: Time)
    ensures CheckUpdate(msg).Some? <==> !Acceptable(msg)
    ensures CheckUpdate(msg).Some? ==> Discovery.Do(s, Discovery.Update(msg, now)) == s
  {
    UpdateExactly(msg);
  }

  /** The handler's checks, in its order; the first that fails counts. */
  method CheckMessage(msg: UpdateMessage) returns (e: Option<Rejection>)
    ensures e == CheckUpdate(msg)
  {
    e := CheckClusterID(msg.clusterId);
    if e.None? {
      e := CheckAffiliateID(msg.affiliateId);
    }
    if e.None? {
      e := CheckData(msg.data);
    }
    if e.None? {
      e := CheckEndpoints(msg.endpoints);
    }
    if e.None? {
      e := CheckTTL(msg.ttl);
    }
  }

  method AffiliateUpdate(state: S.State, msg: UpdateMessage, now: Time) returns (r: Response)
    requires state.Valid()
    modifies state, state.objects
    ensures state.Valid()
    ensures state.model == Discovery.Do(old(state.model), Discovery.Update(msg, now))
    ensures CheckUpdate(msg).Some? ==> r == Rejected(CheckUpdate(msg).value)
    ensures CheckUpdate(msg).None? ==> r == UpdateResponse(old(state.model), msg, now)
    ensures r.Rejected? <==> !Acceptable(msg)
    ensures r.Rejected? ==> state.model == old(state.model)
  {
    RejectedExactly(state.model, msg, now);
    var e := CheckMessage(msg);
    if e.Some? {
      r := Rejected(e.value);
    } else {
      r := UpdateChecked(state, msg, now);
    }
  }

  method UpdateChecked(state: S.State, msg: UpdateMessage, now: Time) returns (r: Response)
    requires state.Valid() && CheckUpdate(msg).None?
    modifies state, state.objects
    ensures state.Valid()
    ensures state.model == Discovery.Do(old(state.model), Discovery.Update(msg, now))
    ensures r == UpdateResponse(old(state.model), msg, now) && !r.Rejected?
  {
    DoUpdate(state.model, msg, now);
    var c := state.ClusterFor(msg.clusterId, now);
    var err := state.UpdateIn(c, ToRequest(msg), now);
    r := if err.Some? then ResourceExhausted(err.value) else Success;
  }

  method AffiliateDelete(state: S.State, clusterId: Id, affiliateId: Id, now: Time) returns (r: Response)
    requires state.Valid()
    modifies state, state.objects
    ensures state.Valid()
    ensures state.model == Discovery.Do(old(state.model), Discovery.Remove(clusterId, affiliateId, now))
    ensures r == if CheckClusterID(clusterId).Some? then Rejected(CheckClusterID(clusterId).value)
                 else if CheckAffiliateID(affiliateId).Some? then Rejected(CheckAffiliateID(affiliateId).value)
                 else Success
    ensures r.Rejected? <==> !(LegalId(clusterId) && LegalId(affiliateId))
    ensures clusterId !in old(state.model) || r.Rejected? ==> state.model == old(state.model)
  {
    ClusterIDExactly(clusterId);
    AffiliateIDExactly(affiliateId);
    var e := CheckClusterID(clusterId);
    if e.Some? {
      return Rejected(e.value);
    }
    e := CheckAffiliateID(affiliateId);
    if e.Some? {
      return Rejected(e.value);
    }
    DeleteChecked(state, clusterId, affiliateId, now);
    return Success;
  }

  method DeleteChecked(state: S.State, clusterId: Id, affiliateId: Id, now: Time)
    requires state.Valid() && CheckClusterID(clusterId).None? && CheckAffiliateID(affiliateId).None?
    modifies state, state.objects
    ensures state.Valid()
    ensures state.model == Discovery.Do(old(state.model), Discovery.Remove(clusterId, affiliateId, now))
  {
    DoRemove(state.model, clusterId, affiliateId, now);
    var c := state.GetCluster(clusterId);
    if c != null {
      state.DeleteIn(c, affiliateId, now);
    }
  }

  lemma DoRemove(s: Discovery.Clusters, c: Id, id: Id, now: Time)
    requires CheckClusterID(c).None? && CheckAffiliateID(id).None?
    ensures Discovery.Do(s, Discovery.Remove(c, id, now)) ==
              if c in s then s[c := DeleteFromCluster(s[c], id, now)] else s
  {
  }

  /** The affiliates of a cluster; none, and no error, when there is no such cluster. */
  method List(state: S.State, clusterId: Id) returns (r: Response, affiliates: seq<Info>)
    requires state.Valid()
    ensures CheckClusterID(clusterId).Some? ==> r == Rejected(CheckClusterID(clusterId).value) && affiliates == []
    ensures CheckClusterID(clusterId).None? ==>
              r == Success && IsListing(Flat.TableAt(state.model, clusterId), affiliates)
    ensures r.Rejected? <==> !LegalId(clusterId)
  {
    ClusterIDExactly(clusterId);
    var e := CheckClusterID(clusterId);
    if e.Some? {
      return Rejected(e.value), [];
    }
    var c := state.GetCluster(clusterId);
    if c == null {
      return Success, [];
    }
    state.Stored(clusterId);
    affiliates := c.ListAffiliates();
    r := Success;
  }

  // ----- watching -----

  lemma MoveOver<T>(done: seq<T>, todo: seq<T>)
    ensures todo != [] ==> (done + [todo[0]]) + todo[1..] == done + todo
  {
    if todo != [] {
      assert [todo[0]] + todo[1..] == todo;
    }
  }

  /** How a Watch stream ends. */
  datatype End = Canceled | LostUpdate(cause: string) | Aborted | EndOfStream | SendFailed

  /** Which ready case a select takes, and whether the send that may follow succeeds. */
  datatype Choice = ContextDone | TakeError | TakeEvent(sent: bool)

  /** One Watch call: its subscription, the messages sent, and the events they announce. */
  class WatchStream {
    const sub: Subscription
    ghost const snapshot: seq<Info>
    var sent: seq<WatchResponse>
    ghost var taken: seq<Event>

    constructor (sub: Subscription, snapshot: seq<Info>)
      ensures this.sub == sub && this.snapshot == snapshot && taken == []
      ensures sent == SnapshotMessages(snapshot)
    {
      this.sub, this.snapshot := sub, snapshot;
      sent, taken := SnapshotMessages(snapshot), [];
    }

    /** The stream has sent the snapshot and one message for each event taken, in order. */
    ghost predicate Faithful()
      reads this
    {
      sent == SnapshotMessages(snapshot) + EventMessages(taken)
    }

    /** One round of the select loop; a case may only be taken when it is ready. */
    method Iterate(choice: Choice) returns (end: Option<End>)
      requires Faithful() && sub.Issued()
      requires choice.TakeError? ==> sub.errCh != [] || sub.channelsClosed
      requires choice.TakeEvent? ==> sub.ch != [] || sub.channelsClosed
      modifies this`sent, this`taken, sub`ch, sub`errCh, sub.cluster`subs
      ensures sub.Issued()
      ensures choice == ContextDone ==> end == Some(Canceled)
      ensures choice == TakeError ==>
                end == if old(sub.errCh) != [] then Some(LostUpdate(old(sub.errCh)[0])) else Some(Aborted)
      ensures choice.TakeEvent? && old(sub.ch) == [] ==> end == Some(EndOfStream)
      ensures !choice.TakeEvent? || old(sub.ch) == [] ==>
                && sent == old(sent) && taken == old(taken) && sub.ch == old(sub.ch)
                && sub.cluster.Value() == old(sub.cluster.Value())
      ensures choice.TakeEvent? && old(sub.ch) != [] ==>
                && sub.ch == old(sub.ch)[1..]
                && taken == (if choice.sent then old(taken) + [old(sub.ch)[0]] else old(taken))
                && end == (if choice.sent then None else Some(SendFailed))
      ensures end.None? <==> choice == TakeEvent(true) && old(sub.ch) != []
      ensures end.None? ==> sent == old(sent) + [ResponseOf(old(sub.ch)[0])]
      ensures end.Some? ==> sent == old(sent)
      ensures !choice.TakeError? ==> sub.errCh == old(sub.errCh)
      ensures Faithful()
    {
      match choice {
        case ContextDone => return Some(Canceled);
        case TakeError =>
          var e := sub.ReceiveError();
          return Some(if e.Some? then LostUpdate(e.value) else Aborted);
        case TakeEvent(ok) =>
          if |sub.ch| == 0 {
            return Some(EndOfStream);
          }
          var ev := sub.Receive();
          if !ok {
            return Some(SendFailed);
          }
          Send(ev);
          return None;
      }
    }

    /** Sends the message for an event. */
    method Send(ev: Event)
      requires Faithful()
      modifies this`sent, this`taken
      ensures Faithful() && sent == old(sent) + [ResponseOf(ev)] && taken == old(taken) + [ev]
    {
      assert (taken + [ev])[..|taken|] == taken;
      sent := sent + [ResponseOf(ev)];
      taken := taken + [ev];
    }

    /** One round once the subscription was closed: it goes on only by sending the next buffered event. */
    method LastRound(choice: Choice) returns (end: Option<End>)
      requires Faithful() && sub.Issued() && sub.closed && sub.channelsClosed
      modifies this`sent, this`taken, sub`ch, sub`errCh, sub.cluster`subs
      ensures Faithful() && sub.Issued()
      ensures end.None? ==>
                && |taken| == |old(taken)| + 1 && old(taken) <= taken
                && taken + sub.ch == old(taken) + old(sub.ch) && sub.errCh == old(sub.errCh)
      ensures end.Some? ==> taken == old(taken)
      ensures end.Some? && end.value.LostUpdate? ==> old(sub.errCh) == [end.value.cause]
      ensures end == Some(EndOfStream) ==> old(sub.ch) == []
      ensures choice == TakeEvent(true) && old(sub.ch) == [] ==> end == Some(EndOfStream)
      ensures choice == TakeEvent(true) && old(sub.ch) != [] ==> end == None
    {
      assert sub.Holds(sub.cluster, sub.id - 1, sub.cluster.subs[sub.id - 1]);
      MoveOver(taken, sub.ch);
      end := Iterate(choice);
    }

    /**
     * The loop after the subscription was closed, under any sequence of select choices: it ends within
     * one round more than there are buffered events, having sent a prefix of them; only a select that
     * takes the error tells the client about a lost update.
     */
    method Drain(choices: nat -> Choice) returns (end: End, rounds: nat)
      requires Faithful() && sub.Issued() && sub.closed && sub.channelsClosed
      modifies this`sent, this`taken, sub`ch, sub`errCh, sub.cluster`subs
      ensures rounds <= |old(sub.ch)| + 1
      ensures Faithful() && old(taken) <= taken <= old(taken) + old(sub.ch)
      ensures end.LostUpdate? ==> old(sub.errCh) == [end.cause]
      ensures end.EndOfStream? ==> taken == old(taken) + old(sub.ch)
      ensures (forall i: nat :: choices(i) == TakeEvent(true)) ==> end == EndOfStream
    {
      rounds := 0;
      ghost var all, before := sub.ch, taken;
      while true
        invariant Faithful() && sub.Issued() && sub.closed && sub.channelsClosed
        invariant sub.errCh == old(sub.errCh)
        invariant before <= taken && |taken| == |before| + rounds && taken + sub.ch == before + all
        decreases |sub.ch|
      {
        var choice := choices(rounds);
        var e := LastRound(choice);
        rounds := rounds + 1;
        if e.Some? {
          return e.value, rounds;
        }
      }
    }
  }

  /** Subscribe and send the snapshot; the cluster is created if it does not exist. */
  method StartWatch(state: S.State, clusterId: Id, now: Time) returns (r: Response, stream: WatchStream?)
    requires state.Valid()
    modifies state, state.objects
    ensures state.Valid()
    ensures state.model == Discovery.Do(old(state.model), Discovery.Watch(clusterId, now))
    ensures CheckClusterID(clusterId).Some? <==> stream == null
    ensures stream == null ==> r == Rejected(CheckClusterID(clusterId).value)
    ensures stream != null ==>
              && r == Success && stream.Faithful() && stream.taken == []
              && IsSnapshot(Discovery.ClusterFor(old(state.model), clusterId, now), stream.snapshot)
              && Registered(state, clusterId, stream.sub)
              && !stream.sub.closed && stream.sub.ch == [] && stream.sub.errCh == []
              && (stream.sent == [] <==> stream.snapshot == [])
    ensures stream == null <==> !LegalId(clusterId)
    ensures stream == null ==> state.model == old(state.model)
  {
    ClusterIDExactly(clusterId);
    var e := CheckClusterID(clusterId);
    if e.Some? {
      return Rejected(e.value), null;
    }
    var snapshot, sub := Subscribe(state, clusterId, now);
    stream := new WatchStream(sub, snapshot);
    assert SnapshotMessages(snapshot) + [] == SnapshotMessages(snapshot);
    r := Success;
  }

  /** The subscription is the one registered under its id in the object the registry holds for the cluster. */
  ghost predicate Registered(state: S.State, clusterId: Id, sub: Subscription)
    reads state, sub.cluster
  {
    && clusterId in state.clusters && sub.cluster == state.clusters[clusterId]
    && 1 <= sub.id <= |sub.cluster.issued| && sub.cluster.issued[sub.id - 1] == sub
    && sub.id in sub.cluster.subscribers && sub.cluster.subscribers[sub.id] == sub
  }

  method Subscribe(state: S.State, clusterId: Id, now: Time) returns (snapshot: seq<Info>, sub: Subscription)
    requires state.Valid() && CheckClusterID(clusterId).None?
    modifies state, state.objects
    ensures state.Valid()
    ensures state.model == Discovery.Do(old(state.model), Discovery.Watch(clusterId, now))
    ensures IsSnapshot(Discovery.ClusterFor(old(state.model), clusterId, now), snapshot)
    ensures Registered(state, clusterId, sub)
    ensures !sub.closed && sub.ch == [] && sub.errCh == []
  {
    DoWatch(state.model, clusterId, now);
    var c := state.ClusterFor(clusterId, now);
    snapshot, sub := state.SubscribeIn(c);
  }

  lemma DoWatch(s: Discovery.Clusters, c: Id, now: Time)
    requires CheckClusterID(c).None?
    ensures var s1 := s[c := Discovery.ClusterFor(s, c, now)];
            Discovery.Do(s, Discovery.Watch(c, now)) == s1[c := SubscribeTo(s1[c])]
  {
  }
}
