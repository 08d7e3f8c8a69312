/** The match-request endpoints as transitions of the store. Each handler takes
    the caller the role gate returned; the gate itself is in `Dependencies`. */
module MatchRequests {
  import opened Common
  import opened Model
  import opened Schemas

  const MentorNotFound: HttpError := HttpError(400, "Mentor not found")
  const OtherMentee: HttpError := HttpError(403, "Cannot create request for other mentee")
  const ActiveToMentor: HttpError := HttpError(400, "Already have an active request to this mentor")
  const MultipleRequests: HttpError := HttpError(400, "Cannot send multiple requests simultaneously")
  const RequestNotFound: HttpError := HttpError(404, "Match request not found")
  const AlreadyAccepted: HttpError := HttpError(400, "Already have an accepted mentee")

  /** Some user has this id and the mentor role. */
  predicate MentorExists(us: seq<User>, id: int) {
    exists j | 0 <= j < |us| :: us[j].id == id && us[j].role == Mentor
  }

  /** Some request for this (mentor, mentee) pair is pending or accepted. */
  predicate HasActiveRequest(rs: seq<MatchRequest>, mentorId: int, menteeId: int) {
    exists j | 0 <= j < |rs| :: rs[j].mentorId == mentorId && rs[j].menteeId == menteeId && IsActive(rs[j].status)
  }

  /** Some request of this mentee, to any mentor, is pending. */
  predicate HasPendingRequest(rs: seq<MatchRequest>, menteeId: int) {
    exists j | 0 <= j < |rs| :: rs[j].menteeId == menteeId && rs[j].status == Pending
  }

  /** Some request to this mentor is accepted. */
  predicate HasAcceptedRequest(rs: seq<MatchRequest>, mentorId: int) {
    exists j | 0 <= j < |rs| :: rs[j].mentorId == mentorId && rs[j].status == Accepted
  }

  /** Which reference a handler matches the caller against. */
  datatype Side = MentorSide | MenteeSide

  function OwnerId(r: MatchRequest, side: Side): nat {
    match side
    case MentorSide => r.mentorId
    case MenteeSide => r.menteeId
  }

  /** The request has the id and the caller on the given side. */
  predicate Owned(r: MatchRequest, requestId: int, callerId: int, side: Side) {
    r.id == requestId && OwnerId(r, side) == callerId
  }

  /** The query `filter(id == request_id, <side> == caller).first()`. */
  function FindOwned(rs: seq<MatchRequest>, requestId: int, callerId: int, side: Side): (r: Option<nat>)
    ensures r.Some? ==> r.value < |rs| && Owned(rs[r.value], requestId, callerId, side)
    ensures r.None? <==> forall j | 0 <= j < |rs| :: !Owned(rs[j], requestId, callerId, side)
  {
    FirstIndex(rs, (q: MatchRequest) => Owned(q, requestId, callerId, side))
  }

  /** Only the status of request `i` differs between `before` and `after`. */
  predicate OnlyStatusChanged(before: seq<MatchRequest>, after: seq<MatchRequest>, i: nat, st: Status) {
    && |after| == |before|
    && i < |before|
    && after[i] == before[i].(status := st)
    && forall j | 0 <= j < |before| && j != i :: after[j] == before[j]
  }

  function SetStatus(s: Store, i: nat, st: Status): (s': Store)
    requires i < |s.requests|
    ensures s'.users == s.users && OnlyStatusChanged(s.requests, s'.requests, i, st)
  {
    Store(s.users, s.requests[i := s.requests[i].(status := st)])
  }

  /** `create_match_request`, with its checks in source order: the mentor must
      exist (400), the caller must be the mentee (403), the pair must have no
      active request (400), the mentee no pending one (400). The message is not
      checked. */
  function Create(s: Store, caller: User, body: MatchRequestCreate): (o: Outcome<RequestView>)
    ensures o.result.Err? ==> o.store == s
    ensures !MentorExists(s.users, body.mentorId) ==> o.result == Err(MentorNotFound)
    ensures MentorExists(s.users, body.mentorId) && caller.id != body.menteeId ==>
              o.result == Err(OtherMentee)
    ensures MentorExists(s.users, body.mentorId) && caller.id == body.menteeId
            && HasActiveRequest(s.requests, body.mentorId, body.menteeId) ==>
              o.result == Err(ActiveToMentor)
    ensures MentorExists(s.users, body.mentorId) && caller.id == body.menteeId
            && !HasActiveRequest(s.requests, body.mentorId, body.menteeId)
            && HasPendingRequest(s.requests, body.menteeId) ==>
              o.result == Err(MultipleRequests)
    ensures o.result.Ok? <==>
              && MentorExists(s.users, body.mentorId) && caller.id == body.menteeId
              && !HasActiveRequest(s.requests, body.mentorId, body.menteeId)
              && !HasPendingRequest(s.requests, body.menteeId)
    ensures o.result.Ok? ==>
              && o.store.users == s.users
              && |o.store.requests| == |s.requests| + 1
              && o.store.requests[..|s.requests|] == s.requests
              && var r := o.store.requests[|s.requests|];
              && r.mentorId == body.mentorId && r.menteeId == body.menteeId
              && r.message == body.message && r.status == Pending
              && (forall j | 0 <= j < |s.requests| :: s.requests[j].id != r.id)
              && o.result.value == ViewOf(r)
  {
    if !MentorExists(s.users, body.mentorId) then Outcome(s, Err(MentorNotFound))
    else if caller.id != body.menteeId then Outcome(s, Err(OtherMentee))
    else if HasActiveRequest(s.requests, body.mentorId, body.menteeId) then Outcome(s, Err(ActiveToMentor))
    else if HasPendingRequest(s.requests, body.menteeId) then Outcome(s, Err(MultipleRequests))
    else
      var r := MatchRequest(NextRequestId(s.requests), body.mentorId as nat, caller.id, body.message, Pending);
      Outcome(Store(s.users, s.requests + [r]), Ok(ViewOf(r)))
  }

  /** `accept_match_request`: the request must have the id and the caller as
      mentor (else 404), and the caller must have no accepted request at all,
      the target included (else 400). The target's current status is not
      checked. */
  function Accept(s: Store, caller: User, requestId: int): (o: Outcome<RequestView>)
    ensures o.result.Err? ==> o.store == s
    ensures FindOwned(s.requests, requestId, caller.id, MentorSide).None? ==> o.result == Err(RequestNotFound)
    ensures FindOwned(s.requests, requestId, caller.id, MentorSide).Some?
            && HasAcceptedRequest(s.requests, caller.id) ==>
              o.result == Err(AlreadyAccepted)
    ensures o.result.Ok? <==>
              FindOwned(s.requests, requestId, caller.id, MentorSide).Some? && !HasAcceptedRequest(s.requests, caller.id)
    ensures o.result.Ok? ==> exists i | 0 <= i < |s.requests| ::
              && Owned(s.requests[i], requestId, caller.id, MentorSide)
              && o.store.users == s.users
              && OnlyStatusChanged(s.requests, o.store.requests, i, Accepted)
              && o.result.value == ViewOf(o.store.requests[i])
  {
    match FindOwned(s.requests, requestId, caller.id, MentorSide)
    case None => Outcome(s, Err(RequestNotFound))
    case Some(i) =>
      if HasAcceptedRequest(s.requests, caller.id) then Outcome(s, Err(AlreadyAccepted))
      else
        var s' := SetStatus(s, i, Accepted);
        Outcome(s', Ok(ViewOf(s'.requests[i])))
  }

  /** `reject_match_request`: the request must have the id and the caller as
      mentor (else 404); its status becomes rejected whatever it was. */
  function Reject(s: Store, caller: User, requestId: int): (o: Outcome<RequestView>)
    ensures o.result.Err? ==> o.store == s
    ensures o.result.Err? <==> FindOwned(s.requests, requestId, caller.id, MentorSide).None?
    ensures o.result.Err? ==> o.result.error == RequestNotFound
    ensures o.result.Ok? ==> exists i | 0 <= i < |s.requests| ::
              && Owned(s.requests[i], requestId, caller.id, MentorSide)
              && o.store.users == s.users
              && OnlyStatusChanged(s.requests, o.store.requests, i, Rejected)
              && o.result.value == ViewOf(o.store.requests[i])
  {
    match FindOwned(s.requests, requestId, caller.id, MentorSide)
    case None => Outcome(s, Err(RequestNotFound))
    case Some(i) =>
      var s' := SetStatus(s, i, Rejected);
      Outcome(s', Ok(ViewOf(s'.requests[i])))
  }

  /** `cancel_match_request`: the request must have the id and the caller as
      mentee (else 404); its status becomes cancelled whatever it was. The row
      is kept. */
  function Cancel(s: Store, caller: User, requestId: int): (o: Outcome<RequestView>)
    ensures o.result.Err? ==> o.store == s
    ensures o.result.Err? <==> FindOwned(s.requests, requestId, caller.id, MenteeSide).None?
    ensures o.result.Err? ==> o.result.error == RequestNotFound
    ensures o.result.Ok? ==> exists i | 0 <= i < |s.requests| ::
              && Owned(s.requests[i], requestId, caller.id, MenteeSide)
              && o.store.users == s.users
              && OnlyStatusChanged(s.requests, o.store.requests, i, Cancelled)
              && o.result.value == ViewOf(o.store.requests[i])
  {
    match FindOwned(s.requests, requestId, caller.id, MenteeSide)
    case None => Outcome(s, Err(RequestNotFound))
    case Some(i) =>
      var s' := SetStatus(s, i, Cancelled);
      Outcome(s', Ok(ViewOf(s'.requests[i])))
  }

  /** `get_incoming_match_requests`: the full view of every request addressed
      to the mentor, in store order. */
  function Incoming(rs: seq<MatchRequest>, mentorId: int): (r: seq<RequestView>)
    ensures forall v :: v in r <==> exists j | 0 <= j < |rs| :: rs[j].mentorId == mentorId && v == ViewOf(rs[j])
    ensures |r| <= |rs|
  {
    if |rs| == 0 then []
    else (if rs[0].mentorId == mentorId then [ViewOf(rs[0])] else []) + Incoming(rs[1..], mentorId)
  }

  /** `get_outgoing_match_requests`: the message-less view of every request the
      mentee sent, in store order. */
  function Outgoing(rs: seq<MatchRequest>, menteeId: int): (r: seq<OutgoingView>)
    ensures forall v :: v in r <==> exists j | 0 <= j < |rs| :: rs[j].menteeId == menteeId && v == OutgoingViewOf(rs[j])
    ensures |r| <= |rs|
  {
    if |rs| == 0 then []
    else (if rs[0].menteeId == menteeId then [OutgoingViewOf(rs[0])] else []) + Outgoing(rs[1..], menteeId)
  }

  /** The listings keep store order: listing a concatenation lists each part in
      turn. */
  lemma {:induction false} ListingsFollowStoreOrder(a: seq<MatchRequest>, b: seq<MatchRequest>, id: int)
    ensures Incoming(a + b, id) == Incoming(a, id) + Incoming(b, id)
    ensures Outgoing(a + b, id) == Outgoing(a, id) + Outgoing(b, id)
    decreases |a|
  {
    if |a| > 0 {
      assert (a + b)[1..] == a[1..] + b;
      ListingsFollowStoreOrder(a[1..], b, id);
    } else {
      assert a + b == b;
    }
  }

  /** Corrected accept: the same as `Accept`, except that only a pending request
      can be accepted. */
  const NotPending: HttpError := HttpError(400, "Match request is not pending")

  function AcceptPendingOnly(s: Store, caller: User, requestId: int): (o: Outcome<RequestView>)
    ensures o.result.Err? ==> o.store == s
    ensures FindOwned(s.requests, requestId, caller.id, MentorSide).None? ==> o.result == Err(RequestNotFound)
    ensures FindOwned(s.requests, requestId, caller.id, MentorSide).Some?
            && HasAcceptedRequest(s.requests, caller.id) ==>
              o.result == Err(AlreadyAccepted)
    ensures var k := FindOwned(s.requests, requestId, caller.id, MentorSide);
            k.Some? && !HasAcceptedRequest(s.requests, caller.id) && s.requests[k.value].status != Pending ==>
              o.result == Err(NotPending)
    ensures var k := FindOwned(s.requests, requestId, caller.id, MentorSide);
            o.result.Ok? <==>
              k.Some? && !HasAcceptedRequest(s.requests, caller.id) && s.requests[k.value].status == Pending
    ensures o.result.Ok? ==> exists i | 0 <= i < |s.requests| ::
              && Owned(s.requests[i], requestId, caller.id, MentorSide)
              && s.requests[i].status == Pending
              && o.store.users == s.users
              && OnlyStatusChanged(s.requests, o.store.requests, i, Accepted)
              && o.result.value == ViewOf(o.store.requests[i])
  {
    match FindOwned(s.requests, requestId, caller.id, MentorSide)
    case None => Outcome(s, Err(RequestNotFound))
    case Some(i) =>
      if HasAcceptedRequest(s.requests, caller.id) then Outcome(s, Err(AlreadyAccepted))
      else if s.requests[i].status != Pending then Outcome(s, Err(NotPending))
      else
        var s' := SetStatus(s, i, Accepted);
        Outcome(s', Ok(ViewOf(s'.requests[i])))
  }
}
