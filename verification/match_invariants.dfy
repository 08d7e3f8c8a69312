/** What the match-request transitions keep, and the one rule accepting breaks. */
module MatchInvariants {
  import opened Common
  import opened Model
  import opened Schemas
  import opened MatchRequests

  /** Changing a status keeps every id and every reference. */
  lemma StatusChangeKeepsKeys(s: Store, s': Store, i: nat, st: Status)
    requires s'.users == s.users && OnlyStatusChanged(s.requests, s'.requests, i, st)
    requires RequestIdsUnique(s.requests) && ReferencesResolve(s)
    ensures RequestIdsUnique(s'.requests) && ReferencesResolve(s')
  {
    forall j | 0 <= j < |s'.requests|
      ensures s'.requests[j].id == s.requests[j].id
      ensures s'.requests[j].mentorId == s.requests[j].mentorId
      ensures s'.requests[j].menteeId == s.requests[j].menteeId
    {
    }
  }

  /** Moving one request to a closed status keeps every "at most one" rule. */
  lemma ClosingKeepsRules(before: seq<MatchRequest>, after: seq<MatchRequest>, i: nat, st: Status)
    requires OnlyStatusChanged(before, after, i, st) && !IsActive(st)
    requires PendingPerMenteeAtMostOne(before) && AcceptedPerMentorAtMostOne(before)
    ensures PendingPerMenteeAtMostOne(after) && AcceptedPerMentorAtMostOne(after)
    ensures ActivePerPairAtMostOne(before) ==> ActivePerPairAtMostOne(after)
  {
    forall j | 0 <= j < |after| && IsActive(after[j].status)
      ensures after[j] == before[j]
    {
    }
  }

  /** Creating a request keeps the store valid. The caller is a stored user,
      as the role gate guarantees. */
  lemma CreateKeepsValid(s: Store, caller: User, body: MatchRequestCreate)
    requires Valid(s) && caller in s.users
    ensures Valid(Create(s, caller, body).store)
  {
    var o := Create(s, caller, body);
    if o.result.Ok? {
      var rs := o.store.requests;
      var n := |s.requests|;
      assert forall j | 0 <= j < n :: rs[j] == s.requests[j] by {
        assert rs[..n] == s.requests;
      }
      var k :| 0 <= k < |s.users| && s.users[k] == caller;
      assert HasUser(s.users, rs[n].menteeId) by { assert s.users[k].id == rs[n].menteeId; }
      assert HasUser(s.users, rs[n].mentorId);
    }
  }

  /** Creating a request keeps pair uniqueness: the pair had no active request. */
  lemma CreateKeepsPairUnique(s: Store, caller: User, body: MatchRequestCreate)
    requires ActivePerPairAtMostOne(s.requests)
    ensures ActivePerPairAtMostOne(Create(s, caller, body).store.requests)
  {
    var o := Create(s, caller, body);
    if o.result.Ok? {
      var n := |s.requests|;
      assert forall j | 0 <= j < n :: o.store.requests[j] == s.requests[j] by {
        assert o.store.requests[..n] == s.requests;
      }
    }
  }

  lemma RejectKeepsValid(s: Store, caller: User, requestId: int)
    requires Valid(s)
    ensures Valid(Reject(s, caller, requestId).store)
    ensures ActivePerPairAtMostOne(s.requests) ==> ActivePerPairAtMostOne(Reject(s, caller, requestId).store.requests)
  {
    var o := Reject(s, caller, requestId);
    if o.result.Ok? {
      var i :| 0 <= i < |s.requests| && o.store.users == s.users && OnlyStatusChanged(s.requests, o.store.requests, i, Rejected);
      StatusChangeKeepsKeys(s, o.store, i, Rejected);
      ClosingKeepsRules(s.requests, o.store.requests, i, Rejected);
    }
  }

  lemma CancelKeepsValid(s: Store, caller: User, requestId: int)
    requires Valid(s)
    ensures Valid(Cancel(s, caller, requestId).store)
    ensures ActivePerPairAtMostOne(s.requests) ==> ActivePerPairAtMostOne(Cancel(s, caller, requestId).store.requests)
  {
    var o := Cancel(s, caller, requestId);
    if o.result.Ok? {
      var i :| 0 <= i < |s.requests| && o.store.users == s.users && OnlyStatusChanged(s.requests, o.store.requests, i, Cancelled);
      StatusChangeKeepsKeys(s, o.store, i, Cancelled);
      ClosingKeepsRules(s.requests, o.store.requests, i, Cancelled);
    }
  }

  /** Accepting the request at `i` keeps the per-mentee and per-mentor rules
      when the mentor had nothing accepted. */
  lemma AcceptingKeepsRules(before: seq<MatchRequest>, after: seq<MatchRequest>, i: nat)
    requires OnlyStatusChanged(before, after, i, Accepted)
    requires !HasAcceptedRequest(before, before[i].mentorId)
    requires PendingPerMenteeAtMostOne(before) && AcceptedPerMentorAtMostOne(before)
    ensures PendingPerMenteeAtMostOne(after) && AcceptedPerMentorAtMostOne(after)
  {
    forall j | 0 <= j < |after| && j != i
      ensures after[j] == before[j]
    {
    }
    forall j | 0 <= j < |after| && after[j].status == Accepted
      ensures after[j].mentorId == before[i].mentorId ==> j == i
    {
      if j != i {
        assert after[j] == before[j];
      }
    }
  }

  /** Accepting keeps the store valid (but not pair uniqueness; see below). */
  lemma AcceptKeepsValid(s: Store, caller: User, requestId: int)
    requires Valid(s)
    ensures Valid(Accept(s, caller, requestId).store)
  {
    var o := Accept(s, caller, requestId);
    if o.result.Ok? {
      var i :| 0 <= i < |s.requests| && Owned(s.requests[i], requestId, caller.id, MentorSide)
               && o.store.users == s.users && OnlyStatusChanged(s.requests, o.store.requests, i, Accepted);
      StatusChangeKeepsKeys(s, o.store, i, Accepted);
      AcceptingKeepsRules(s.requests, o.store.requests, i);
    }
  }

  /** With unique request ids the changed request is the one with the asked id:
      every other request is left exactly as it was. */
  lemma OnlyTheAskedRequestChanges(s: Store, caller: User, requestId: int)
    requires RequestIdsUnique(s.requests)
    ensures var o := Accept(s, caller, requestId);
            o.result.Ok? ==> forall j | 0 <= j < |s.requests| && s.requests[j].id != requestId ::
                               o.store.requests[j] == s.requests[j]
    ensures var o := Reject(s, caller, requestId);
            o.result.Ok? ==> forall j | 0 <= j < |s.requests| && s.requests[j].id != requestId ::
                               o.store.requests[j] == s.requests[j]
    ensures var o := Cancel(s, caller, requestId);
            o.result.Ok? ==> forall j | 0 <= j < |s.requests| && s.requests[j].id != requestId ::
                               o.store.requests[j] == s.requests[j]
  {
  }

  /** Once a mentor has accepted a request, every further accept by that mentor
      fails with 400, whichever request it names, the accepted one included. */
  lemma AcceptedMentorAcceptsNothingMore(s: Store, caller: User, requestId: int, other: int)
    requires Accept(s, caller, requestId).result.Ok?
    ensures var s' := Accept(s, caller, requestId).store;
            Accept(s', caller, other).result.Err?
    ensures var s' := Accept(s, caller, requestId).store;
            Accept(s', caller, requestId).result == Err(AlreadyAccepted)
  {
    var s' := Accept(s, caller, requestId).store;
    var i :| 0 <= i < |s.requests| && Owned(s.requests[i], requestId, caller.id, MentorSide)
             && OnlyStatusChanged(s.requests, s'.requests, i, Accepted);
    assert s'.requests[i].mentorId == caller.id && s'.requests[i].status == Accepted;
    assert HasAcceptedRequest(s'.requests, caller.id);
    assert Owned(s'.requests[i], requestId, caller.id, MentorSide);
  }

  /** Cancelling the mentee's pending request in a valid store leaves the mentee
      with nothing pending, so the one-pending-request check lets a new request
      through. */
  lemma CancelPendingFreesMentee(s: Store, caller: User, requestId: int)
    requires Valid(s)
    requires forall j | 0 <= j < |s.requests| && s.requests[j].id == requestId :: s.requests[j].status == Pending
    requires Cancel(s, caller, requestId).result.Ok?
    ensures !HasPendingRequest(Cancel(s, caller, requestId).store.requests, caller.id)
  {
    var o := Cancel(s, caller, requestId);
    var i :| 0 <= i < |s.requests| && Owned(s.requests[i], requestId, caller.id, MenteeSide)
             && OnlyStatusChanged(s.requests, o.store.requests, i, Cancelled);
    forall j | 0 <= j < |s.requests| && j != i
      ensures !(o.store.requests[j].menteeId == caller.id && o.store.requests[j].status == Pending)
    {
      if j < i {
        assert !(s.requests[j].status == Pending && s.requests[i].status == Pending
                 && s.requests[j].menteeId == s.requests[i].menteeId);
      } else {
        assert !(s.requests[i].status == Pending && s.requests[j].status == Pending
                 && s.requests[i].menteeId == s.requests[j].menteeId);
      }
    }
  }

  /** A new request shows up last in the mentor's incoming list and the
      mentee's outgoing list; nothing before it moves. */
  lemma CreateAppearsLast(s: Store, caller: User, body: MatchRequestCreate)
    requires Create(s, caller, body).result.Ok?
    ensures var o := Create(s, caller, body);
            Incoming(o.store.requests, body.mentorId) == Incoming(s.requests, body.mentorId) + [o.result.value]
    ensures var o := Create(s, caller, body);
            Outgoing(o.store.requests, body.menteeId) ==
              Outgoing(s.requests, body.menteeId) + [OutgoingViewOf(o.store.requests[|s.requests|])]
  {
    var o := Create(s, caller, body);
    var n := |s.requests|;
    var r := o.store.requests[n];
    assert o.store.requests == s.requests + [r] by {
      assert o.store.requests[..n] == s.requests;
    }
    ListingsFollowStoreOrder(s.requests, [r], body.mentorId);
    ListingsFollowStoreOrder(s.requests, [r], body.menteeId);
    assert [r][1..] == [];
  }

  // ---- Accepting a closed request ----

  const SampleMentor: User := User(1, "mentor@example.com", "h", Mentor, "Mentor", None, None, None, None)
  const SampleMentee: User := User(2, "mentee@example.com", "h", Mentee, "Mentee", None, None, None, None)
  const SampleBody: MatchRequestCreate := MatchRequestCreate(1, 2, "hello")
  const FirstRequest: MatchRequest := MatchRequest(1, 1, 2, "hello", Pending)
  const SecondRequest: MatchRequest := MatchRequest(2, 1, 2, "hello", Pending)
  const Empty: Store := Store([SampleMentor, SampleMentee], [])
  const AfterCreate: Store := Store(Empty.users, [FirstRequest])
  const AfterReject: Store := Store(Empty.users, [FirstRequest.(status := Rejected)])
  const AfterRecreate: Store := Store(Empty.users, [FirstRequest.(status := Rejected), SecondRequest])
  const AfterAccept: Store := Store(Empty.users, [FirstRequest.(status := Accepted), SecondRequest])

  lemma SampleCreate()
    ensures Create(Empty, SampleMentee, SampleBody) == Outcome(AfterCreate, Ok(ViewOf(FirstRequest)))
  {
    assert Empty.users[0].id == 1;
  }

  lemma SampleReject()
    ensures Reject(AfterCreate, SampleMentor, 1).store == AfterReject
    ensures Reject(AfterCreate, SampleMentor, 1).result.Ok?
  {
    assert Owned(AfterCreate.requests[0], 1, 1, MentorSide);
  }

  lemma SampleRecreate()
    ensures Create(AfterReject, SampleMentee, SampleBody) == Outcome(AfterRecreate, Ok(ViewOf(SecondRequest)))
  {
    assert AfterReject.users[0].id == 1;
    assert MaxRequestId(AfterReject.requests) == 1 by {
      assert AfterReject.requests[1..] == [];
    }
  }

  lemma SampleAccept()
    ensures !HasAcceptedRequest(AfterRecreate.requests, 1)
    ensures Accept(AfterRecreate, SampleMentor, 1) == Outcome(AfterAccept, Ok(ViewOf(AfterAccept.requests[0])))
  {
    assert Owned(AfterRecreate.requests[0], 1, 1, MentorSide);
  }

  /** As written, accept does not look at the target's status, so a rejected
      request comes back to life next to the newer request for the same pair:
      create, reject, create again, accept the first. Every step succeeds and
      the last one leaves two active requests for one pair. */
  lemma AcceptReopensClosedPair()
    ensures var a := Create(Empty, SampleMentee, SampleBody);
            var b := Reject(a.store, SampleMentor, 1);
            var c := Create(b.store, SampleMentee, SampleBody);
            var d := Accept(c.store, SampleMentor, 1);
            && Valid(Empty)
            && a.result.Ok? && b.result.Ok? && c.result.Ok? && d.result.Ok?
            && ActivePerPairAtMostOne(c.store.requests)
            && !ActivePerPairAtMostOne(d.store.requests)
  {
    SampleCreate();
    SampleReject();
    SampleRecreate();
    SampleAccept();
    SampleEmptyValid();
    SamplePairs();
  }

  lemma SampleEmptyValid()
    ensures Valid(Empty)
  {
  }

  lemma SamplePairs()
    ensures ActivePerPairAtMostOne(AfterRecreate.requests)
    ensures !ActivePerPairAtMostOne(AfterAccept.requests)
  {
    assert IsActive(AfterAccept.requests[0].status) && IsActive(AfterAccept.requests[1].status);
  }

  /** The corrected accept changes nothing when the target is pending. */
  lemma AcceptPendingOnlyAgreesOnPending(s: Store, caller: User, requestId: int)
    requires var f := FindOwned(s.requests, requestId, caller.id, MentorSide);
             f.Some? && s.requests[f.value].status == Pending
    ensures AcceptPendingOnly(s, caller, requestId) == Accept(s, caller, requestId)
  {
  }

  /** The corrected accept keeps pair uniqueness: the target was already active,
      so the set of active requests does not change. */
  lemma AcceptPendingOnlyKeepsPairUnique(s: Store, caller: User, requestId: int)
    requires ActivePerPairAtMostOne(s.requests)
    ensures ActivePerPairAtMostOne(AcceptPendingOnly(s, caller, requestId).store.requests)
  {
    var o := AcceptPendingOnly(s, caller, requestId);
    if o.result.Ok? {
      var i :| 0 <= i < |s.requests| && s.requests[i].status == Pending
               && OnlyStatusChanged(s.requests, o.store.requests, i, Accepted);
      forall j | 0 <= j < |s.requests|
        ensures IsActive(o.store.requests[j].status) == IsActive(s.requests[j].status)
        ensures o.store.requests[j].mentorId == s.requests[j].mentorId
        ensures o.store.requests[j].menteeId == s.requests[j].menteeId
      {
      }
    }
  }

  /** With unique request ids, the corrected accept refuses every request of the
      caller that is no longer pending, unless the caller already has an
      accepted request, which is reported first. */
  lemma AcceptPendingOnlyRefusesNonPending(s: Store, caller: User, requestId: int, i: nat)
    requires RequestIdsUnique(s.requests)
    requires i < |s.requests| && Owned(s.requests[i], requestId, caller.id, MentorSide)
    requires s.requests[i].status != Pending
    ensures AcceptPendingOnly(s, caller, requestId) ==
              Outcome(s, Err(if HasAcceptedRequest(s.requests, caller.id) then AlreadyAccepted else NotPending))
  {
    var k := FindOwned(s.requests, requestId, caller.id, MentorSide);
    assert k.Some?;
    assert k.value == i;
  }

  /** On the sequence that breaks pair uniqueness, the corrected accept refuses
      the closed request. */
  lemma AcceptPendingOnlyRefusesClosed()
    ensures var a := Create(Empty, SampleMentee, SampleBody);
            var b := Reject(a.store, SampleMentor, 1);
            var c := Create(b.store, SampleMentee, SampleBody);
            AcceptPendingOnly(c.store, SampleMentor, 1) == Outcome(c.store, Err(NotPending))
  {
    SampleCreate();
    SampleReject();
    SampleRecreate();
    SampleAccept();
  }
}
