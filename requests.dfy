/**
 * The connection-request ledger of one tutor (`studentRequests`): lookup by
 * student id, the student's request (re-)creation with its 7-day cooldown,
 * the tutor's resolution, and the pending/accepted listings.
 */
module Requests {
  import opened Wrappers
  import opened Seqs
  import opened Models
  import opened Api

  /** Seconds a rejected student waits before requesting again (7 days). */
  const CooldownSeconds: int := 604800

  function RequestBy(sid: Id): StudentRequest -> bool {
    (r: StudentRequest) => r.id == sid
  }

  function WithStatus(status: RequestStatus): StudentRequest -> bool {
    (r: StudentRequest) => r.requestStatus == status
  }

  /** The student's entry as `studentRequests.find(r => r.id === sid)` locates it. */
  function FindRequest(reqs: seq<StudentRequest>, sid: Id): (r: Option<nat>)
    ensures r.Some? ==> r.value < |reqs| && reqs[r.value].id == sid
    ensures r.Some? ==> forall k :: 0 <= k < r.value ==> reqs[k].id != sid
    ensures r.None? <==> forall k :: 0 <= k < |reqs| ==> reqs[k].id != sid
  {
    FindFirst(reqs, RequestBy(sid))
  }

  /** At most one entry per student id. */
  ghost predicate UniqueIds(reqs: seq<StudentRequest>) {
    UniqueBy(reqs, RequestId)
  }

  /** Every entry carries the fields the schema requires. */
  ghost predicate AllConform(reqs: seq<StudentRequest>) {
    forall k :: 0 <= k < |reqs| ==> RequestConforms(reqs[k])
  }

  /** `k` is the first entry of `sid` (an independent statement of the find). */
  ghost predicate IsFirstEntry(reqs: seq<StudentRequest>, sid: Id, k: int) {
    0 <= k < |reqs| && reqs[k].id == sid && forall j :: 0 <= j < k ==> reqs[j].id != sid
  }

  /** The status of the student's (first) entry, if any. */
  function StatusOf(reqs: seq<StudentRequest>, sid: Id): (st: Option<RequestStatus>)
    ensures st.None? <==> forall k :: 0 <= k < |reqs| ==> reqs[k].id != sid
    ensures st.Some? <==> exists k :: IsFirstEntry(reqs, sid, k) && reqs[k].requestStatus == st.value
  {
    match FindRequest(reqs, sid)
    case None => None
    case Some(i) => assert IsFirstEntry(reqs, sid, i); Some(reqs[i].requestStatus)
  }

  /** A request from `sid` at time `now` is refused: the conflict cases of connectTutor. */
  ghost predicate Blocked(reqs: seq<StudentRequest>, sid: Id, now: int) {
    exists k :: IsFirstEntry(reqs, sid, k) &&
      (reqs[k].requestStatus == Accepted || reqs[k].requestStatus == Pending ||
       (reqs[k].requestStatus == Rejected && now - reqs[k].requestDate <= CooldownSeconds))
  }

  /**
   * connectTutor's change to the ledger, with the cooldown comparison the
   * handler intends and the student's username in the new record.
   */
  function Connect(reqs: seq<StudentRequest>, sid: Id, username: string, now: int): (r: Result<seq<StudentRequest>, ApiError>)
    ensures r.Err? <==> Blocked(reqs, sid, now)
    ensures r.Err? ==> r.error.Conflict?
    ensures r.Ok? ==> StatusOf(r.value, sid) == Some(Pending)
    ensures r.Ok? ==> exists k :: IsFirstEntry(r.value, sid, k) && r.value[k].requestDate == now
    ensures r.Ok? ==> |r.value| == |reqs| + (if StatusOf(reqs, sid).None? then 1 else 0)
    ensures r.Ok? ==> forall k :: 0 <= k < |reqs| && reqs[k].id != sid ==> r.value[k] == reqs[k]
    ensures r.Ok? && UniqueIds(reqs) ==> UniqueIds(r.value)
    ensures r.Ok? && AllConform(reqs) ==> AllConform(r.value)
    ensures r.Ok? && StatusOf(reqs, sid).None? ==> r.value[|reqs|] == StudentRequest(sid, Some(username), now, Pending)
    ensures r.Ok? ==> forall k :: IsFirstEntry(reqs, sid, k) ==>
                        r.value[k] == reqs[k].(requestDate := now, requestStatus := Pending)
    ensures forall k :: IsFirstEntry(reqs, sid, k) && reqs[k].requestStatus == Accepted ==>
              r == Err(Conflict(AlreadyConnected))
    ensures forall k :: IsFirstEntry(reqs, sid, k) && reqs[k].requestStatus == Pending ==>
              r == Err(Conflict(RequestAlreadyPending))
    ensures forall k :: IsFirstEntry(reqs, sid, k) && reqs[k].requestStatus == Rejected &&
                        now - reqs[k].requestDate <= CooldownSeconds ==>
              r == Err(Conflict(CooldownActive))
  {
    match FindRequest(reqs, sid)
    case None =>
      var r := reqs + [StudentRequest(sid, Some(username), now, Pending)];
      assert IsFirstEntry(r, sid, |reqs|);
      AppendFreshKeepsUnique(reqs, r[|reqs|]);
      Ok(r)
    case Some(i) =>
      var e := reqs[i];
      FirstEntryIsUnique(reqs, sid, i);
      if e.requestStatus == Accepted then Err(Conflict(AlreadyConnected))
      else if e.requestStatus == Pending then Err(Conflict(RequestAlreadyPending))
      else if now - e.requestDate <= CooldownSeconds then Err(Conflict(CooldownActive))
      else
        var r := reqs[i := e.(requestDate := now, requestStatus := Pending)];
        assert IsFirstEntry(r, sid, i);
        Ok(r)
  }

  /** The first entry of a student is the one at the index the find returns, and no other. */
  lemma FirstEntryIsUnique(reqs: seq<StudentRequest>, sid: Id, i: nat)
    requires i < |reqs| && reqs[i].id == sid
    requires forall j :: 0 <= j < i ==> reqs[j].id != sid
    ensures forall k :: IsFirstEntry(reqs, sid, k) <==> k == i
  {
  }

  /** Appending an entry whose id is not yet present keeps ids unique. */
  lemma AppendFreshKeepsUnique(reqs: seq<StudentRequest>, e: StudentRequest)
    requires forall k :: 0 <= k < |reqs| ==> reqs[k].id != e.id
    ensures UniqueIds(reqs) ==> UniqueIds(reqs + [e])
  {
  }

  /**
   * connectTutor as written: `moment` is never imported, so evaluating the
   * cooldown comparison throws (a 500), and the appended record has no
   * `username`.
   */
  function ConnectAsWritten(reqs: seq<StudentRequest>, sid: Id, now: int): (r: Result<seq<StudentRequest>, ApiError>)
    ensures r.Ok? ==> StatusOf(reqs, sid).None?
  {
    match FindRequest(reqs, sid)
    case None => Ok(reqs + [StudentRequest(sid, None, now, Pending)])
    case Some(i) =>
      var e := reqs[i];
      if e.requestStatus == Accepted then Err(Conflict(AlreadyConnected))
      else if e.requestStatus == Pending then Err(Conflict(RequestAlreadyPending))
      else Err(ServerError)
  }

  /** As written, a rejected student can never request again, whatever the time. */
  lemma RejectedEntryFailsAsWritten(reqs: seq<StudentRequest>, sid: Id, now: int)
    requires StatusOf(reqs, sid) == Some(Rejected)
    ensures ConnectAsWritten(reqs, sid, now) == Err(ServerError)
  {
  }

  /** As written, every successful call leaves a record the schema refuses, so the save fails. */
  lemma AppendedRequestLacksUsername(reqs: seq<StudentRequest>, sid: Id, now: int)
    requires ConnectAsWritten(reqs, sid, now).Ok?
    ensures !AllConform(ConnectAsWritten(reqs, sid, now).value)
  {
    var r := ConnectAsWritten(reqs, sid, now).value;
    assert !RequestConforms(r[|reqs|]);
  }

  /** A second request right after a successful one is refused as already pending. */
  lemma {:induction false} ConnectTwiceIsPending(reqs: seq<StudentRequest>, sid: Id, username: string, now: int, username2: string, later: int)
    requires Connect(reqs, sid, username, now).Ok?
    ensures Connect(Connect(reqs, sid, username, now).value, sid, username2, later) == Err(Conflict(RequestAlreadyPending))
  {
    var r := Connect(reqs, sid, username, now).value;
    var k :| IsFirstEntry(r, sid, k) && r[k].requestStatus == Pending;
    var i := FindRequest(r, sid).value;
    assert i == k;
  }

  /**
   * The cooldown runs from the entry's `requestDate` and is inclusive: at
   * exactly 604800 seconds the request is still refused, one second later
   * it re-opens the same entry.
   */
  lemma {:induction false} CooldownBoundary(reqs: seq<StudentRequest>, sid: Id, username: string, k: nat)
    requires IsFirstEntry(reqs, sid, k) && reqs[k].requestStatus == Rejected
    ensures Connect(reqs, sid, username, reqs[k].requestDate + CooldownSeconds) == Err(Conflict(CooldownActive))
    ensures Connect(reqs, sid, username, reqs[k].requestDate + CooldownSeconds + 1)
            == Ok(reqs[k := reqs[k].(requestDate := reqs[k].requestDate + CooldownSeconds + 1, requestStatus := Pending)])
  {
    var i := FindRequest(reqs, sid).value;
    assert i == k;
  }

  /**
   * The tutor's decision on the student's (first) entry: only its status
   * changes. `None` when the student has no entry (a 404).
   */
  function Resolve(reqs: seq<StudentRequest>, sid: Id, decision: RequestStatus): (r: Option<seq<StudentRequest>>)
    ensures r.None? <==> StatusOf(reqs, sid).None?
    ensures r.Some? ==> StatusOf(r.value, sid) == Some(decision)
    ensures r.Some? ==> |r.value| == |reqs|
    ensures r.Some? ==> forall k :: 0 <= k < |reqs| ==>
              r.value[k].id == reqs[k].id && r.value[k].requestDate == reqs[k].requestDate &&
              r.value[k].username == reqs[k].username
    ensures r.Some? ==> forall k :: 0 <= k < |reqs| && !IsFirstEntry(reqs, sid, k) ==> r.value[k] == reqs[k]
    ensures r.Some? && UniqueIds(reqs) ==> UniqueIds(r.value)
    ensures r.Some? && AllConform(reqs) ==> AllConform(r.value)
  {
    match FindRequest(reqs, sid)
    case None => None
    case Some(i) =>
      var r := reqs[i := reqs[i].(requestStatus := decision)];
      assert IsFirstEntry(r, sid, i);
      FirstEntryIsUnique(reqs, sid, i);
      Some(r)
  }

  /** Statuses of the other students are untouched by a decision on `sid`. */
  lemma {:induction false} ResolveKeepsOthers(reqs: seq<StudentRequest>, sid: Id, decision: RequestStatus, other: Id, at: nat)
    requires other != sid && at < |reqs| && reqs[at].id == sid
    ensures StatusOf(Resolve(reqs, sid, decision).value, other) == StatusOf(reqs, other)
  {
    var r := Resolve(reqs, sid, decision).value;
    var i := FindRequest(reqs, sid).value;
    assert forall k :: 0 <= k < |reqs| ==> (r[k].id == other <==> reqs[k].id == other);
    match FindRequest(reqs, other)
    case None =>
    case Some(j) =>
      assert j != i;
      FirstEntryIsUnique(r, other, j);
  }

  /** Once accepted, the student's next request is refused as already connected. */
  lemma {:induction false} AcceptedBlocksRequests(reqs: seq<StudentRequest>, sid: Id, username: string, now: int, at: nat)
    requires at < |reqs| && reqs[at].id == sid
    ensures Connect(Resolve(reqs, sid, Accepted).value, sid, username, now) == Err(Conflict(AlreadyConnected))
  {
    var r := Resolve(reqs, sid, Accepted).value;
    var k :| IsFirstEntry(r, sid, k) && r[k].requestStatus == Accepted;
    assert FindRequest(r, sid).value == k;
  }

  /** getPendingConnectionRequests: the pending entries, in stored order. */
  function PendingRequests(reqs: seq<StudentRequest>): (r: seq<StudentRequest>)
    ensures forall k :: 0 <= k < |r| ==> r[k] in reqs && r[k].requestStatus == Pending
    ensures forall k :: 0 <= k < |reqs| && reqs[k].requestStatus == Pending ==> reqs[k] in r
    ensures IsSubsequence(r, reqs)
    ensures forall e :: multiset(r)[e] == if e.requestStatus == Pending then multiset(reqs)[e] else 0
  {
    FilterMultiset(reqs, WithStatus(Pending));
    Filter(reqs, WithStatus(Pending))
  }

  /** getAcceptedConnectionRequests: the accepted entries, in stored order. */
  function AcceptedRequests(reqs: seq<StudentRequest>): (r: seq<StudentRequest>)
    ensures forall k :: 0 <= k < |r| ==> r[k] in reqs && r[k].requestStatus == Accepted
    ensures forall k :: 0 <= k < |reqs| && reqs[k].requestStatus == Accepted ==> reqs[k] in r
    ensures IsSubsequence(r, reqs)
    ensures forall e :: multiset(r)[e] == if e.requestStatus == Accepted then multiset(reqs)[e] else 0
  {
    FilterMultiset(reqs, WithStatus(Accepted));
    Filter(reqs, WithStatus(Accepted))
  }

  /** No entry is listed both as pending and as accepted. */
  lemma ListingsDisjoint(reqs: seq<StudentRequest>)
    ensures forall x :: x in PendingRequests(reqs) ==> x !in AcceptedRequests(reqs)
  {
    var p, a := PendingRequests(reqs), AcceptedRequests(reqs);
    forall x | x in p
      ensures x.requestStatus == Pending
    {
      var i :| 0 <= i < |p| && p[i] == x;
    }
    forall x | x in a
      ensures x.requestStatus == Accepted
    {
      var i :| 0 <= i < |a| && a[i] == x;
    }
  }

  /** The pending listing is in stored order, not sorted by request date. */
  lemma PendingNotSortedByDate()
    ensures var reqs := [StudentRequest("s1", Some("ann"), 10, Pending), StudentRequest("s2", Some("bob"), 5, Pending)];
            PendingRequests(reqs) == reqs && reqs[0].requestDate > reqs[1].requestDate
  {
    var reqs := [StudentRequest("s1", Some("ann"), 10, Pending), StudentRequest("s2", Some("bob"), 5, Pending)];
    FilterKeepsAll(reqs, WithStatus(Pending));
  }
}
