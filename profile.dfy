/**
 * A tutor's profile as a student sees it (viewTutor): the viewer counter
 * kept in `students`, and the redacted copy returned to the student.
 */
module Profile {
  import opened Wrappers
  import opened Seqs
  import opened Models
  import opened Requests

  function ViewerBy(sid: Id): Viewer -> bool {
    (v: Viewer) => v.id == sid
  }

  function ViewerOtherThan(sid: Id): Viewer -> bool {
    (v: Viewer) => v.id != sid
  }

  /** At most one viewer record per student, each with a positive count. */
  ghost predicate ViewersValid(viewers: seq<Viewer>) {
    UniqueBy(viewers, ViewerId) && forall k :: 0 <= k < |viewers| ==> viewers[k].count >= 1
  }

  /** How many times `sid` viewed the profile, as the (first) record says; 0 without a record. */
  function ViewCount(viewers: seq<Viewer>, sid: Id): (n: int)
    ensures (forall k :: 0 <= k < |viewers| ==> viewers[k].id != sid) ==> n == 0
    ensures ViewersValid(viewers) ==> n >= 0
  {
    match FindFirst(viewers, ViewerBy(sid))
    case None => 0
    case Some(i) => viewers[i].count
  }

  /**
   * The viewer upsert of viewTutor: the student's record gets one more view
   * and `recentDate = now`, or a record with count 1 is appended.
   */
  function RecordView(viewers: seq<Viewer>, sid: Id, now: int): (r: seq<Viewer>)
    ensures ViewCount(r, sid) == ViewCount(viewers, sid) + 1
    ensures exists k :: 0 <= k < |r| && r[k].id == sid && r[k].recentDate == now
    ensures |r| == |viewers| + (if exists k :: 0 <= k < |viewers| && viewers[k].id == sid then 0 else 1)
    ensures forall k :: 0 <= k < |viewers| && viewers[k].id != sid ==> r[k] == viewers[k]
    ensures ViewersValid(viewers) ==> ViewersValid(r)
  {
    match FindFirst(viewers, ViewerBy(sid))
    case Some(i) =>
      var r := viewers[i := viewers[i].(count := viewers[i].count + 1, recentDate := now)];
      assert FindFirst(r, ViewerBy(sid)) == Some(i) by {
        FirstViewerAt(r, sid, i);
      }
      r
    case None =>
      var r := viewers + [Viewer(sid, now, 1)];
      assert FindFirst(r, ViewerBy(sid)) == Some(|viewers|) by {
        FirstViewerAt(r, sid, |viewers|);
      }
      r
  }

  /** The find locates the first record with the id, wherever it is. */
  lemma FirstViewerAt(viewers: seq<Viewer>, sid: Id, i: nat)
    requires i < |viewers| && viewers[i].id == sid
    requires forall k :: 0 <= k < i ==> viewers[k].id != sid
    ensures FindFirst(viewers, ViewerBy(sid)) == Some(i)
  {
    var p := ViewerBy(sid);
    var f := FindFirst(viewers, p);
    assert p(viewers[i]);
    assert forall k :: 0 <= k < i ==> !p(viewers[k]);
    assert f.Some? && f.value <= i;
    assert p(viewers[f.value]);
  }

  /** A view by `sid` leaves every other student's count as it was. */
  lemma RecordViewKeepsOthers(viewers: seq<Viewer>, sid: Id, now: int, other: Id)
    requires other != sid
    ensures ViewCount(RecordView(viewers, sid, now), other) == ViewCount(viewers, other)
  {
    var r := RecordView(viewers, sid, now);
    assert forall k :: 0 <= k < |viewers| ==> (r[k].id == other <==> viewers[k].id == other) && (r[k].id == other ==> r[k] == viewers[k]);
    match FindFirst(viewers, ViewerBy(other))
    case None =>
      assert forall k :: 0 <= k < |r| ==> r[k].id != other;
    case Some(j) =>
      FirstViewerAt(r, other, j);
  }

  /** The `$pull` of deleteStudent: every record of `sid` removed, the rest kept in order. */
  function RemoveViewer(viewers: seq<Viewer>, sid: Id): (r: seq<Viewer>)
    ensures forall k :: 0 <= k < |r| ==> r[k].id != sid && r[k] in viewers
    ensures forall k :: 0 <= k < |viewers| && viewers[k].id != sid ==> viewers[k] in r
    ensures IsSubsequence(r, viewers)
    ensures ViewersValid(viewers) ==> ViewersValid(r)
  {
    var r := Filter(viewers, ViewerOtherThan(sid));
    assert ViewersValid(viewers) ==> ViewersValid(r) by {
      if ViewersValid(viewers) {
        FilterPreservesUniqueBy(viewers, ViewerOtherThan(sid), ViewerId);
      }
    }
    r
  }

  /** The tutor as returned by viewTutor: no password, no viewers, no requests. */
  datatype TutorView = TutorView(
    id: Id,
    username: string,
    name: Option<string>,
    email: Option<string>,
    expertise: seq<string>,
    contactDetails: Option<ContactDetails>,
    availability: seq<Availability>)

  /**
   * The redacted copy: `contactDetails` survives only when the caller's
   * request entry is accepted.
   */
  function RenderProfile(t: Tutor, caller: Id): (v: TutorView)
    ensures v.contactDetails.Some? <==>
              t.contactDetails.Some? &&
              exists k :: IsFirstEntry(t.studentRequests, caller, k) && t.studentRequests[k].requestStatus == Accepted
    ensures v.contactDetails.Some? ==> v.contactDetails == t.contactDetails
    ensures v.id == t.id && v.username == t.username && v.name == t.name && v.email == t.email
    ensures v.expertise == t.expertise && v.availability == t.availability
  {
    var accepted := StatusOf(t.studentRequests, caller) == Some(Accepted);
    TutorView(t.id, t.username, t.name, t.email, t.expertise,
              if accepted then t.contactDetails else None, t.availability)
  }

  /** With one entry per student, contact details are shown iff the caller has an accepted entry. */
  lemma RedactionUnderUniqueIds(t: Tutor, caller: Id)
    requires UniqueIds(t.studentRequests) && t.contactDetails.Some?
    ensures RenderProfile(t, caller).contactDetails.Some? <==>
              exists k :: 0 <= k < |t.studentRequests| && t.studentRequests[k].id == caller &&
                          t.studentRequests[k].requestStatus == Accepted
  {
    var reqs := t.studentRequests;
    if k :| 0 <= k < |reqs| && reqs[k].id == caller && reqs[k].requestStatus == Accepted {
      forall j | 0 <= j < k
        ensures reqs[j].id != caller
      {
        assert RequestId(reqs[j]) != RequestId(reqs[k]);
      }
      assert IsFirstEntry(reqs, caller, k);
    }
  }
}
