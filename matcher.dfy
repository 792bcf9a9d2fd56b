/**
 * The tutor search (findTutor): minute-of-day conversion, the time-range
 * test between a student's and a tutor's slot, the per-tutor availability
 * test, the four-way selection on courses and availability, and the listing
 * returned for each selected tutor.
 */
module Matcher {
  import opened Wrappers
  import opened Seqs
  import opened Models
  import opened Api
  import opened Requests

  const MinutesPerDay: int := 1440

  /**
   * Minute of the day; an end time with hour 0 means midnight at the end of
   * the day. For a clock time every other case converts back to its hour
   * and minute.
   */
  function GetTimeInMinutes(hour: int, minutes: int, isTo: bool): (m: int)
    ensures 0 <= hour < 24 && 0 <= minutes < 60 && !(isTo && hour == 0) ==>
              0 <= m < MinutesPerDay && m / 60 == hour && m % 60 == minutes
    ensures 0 <= hour < 24 && 0 <= minutes < 60 && isTo ==> 0 < m <= MinutesPerDay
  {
    if hour == 0 && isTo then MinutesPerDay else hour * 60 + minutes
  }

  function FromMinutes(tr: TimeRange): int {
    GetTimeInMinutes(tr.fromHour, tr.fromMinute, false)
  }

  function ToMinutes(tr: TimeRange): int {
    GetTimeInMinutes(tr.toHour, tr.toMinute, true)
  }

  /**
   * An end time lies in (0, 1440]; it is 1440 exactly when the hour is 0,
   * whatever the minutes.
   */
  lemma ToTimeRange(hour: int, minutes: int)
    requires 0 <= hour < 24 && 0 <= minutes < 60
    ensures var m := GetTimeInMinutes(hour, minutes, true);
            0 < m <= MinutesPerDay && (m == MinutesPerDay <==> hour == 0)
  {
  }

  /** The slot's interval is non-empty. */
  predicate WellFormed(tr: TimeRange) {
    FromMinutes(tr) < ToMinutes(tr)
  }

  /** The half-open minute intervals of the two slots intersect. */
  predicate Overlaps(a: TimeRange, b: TimeRange) {
    FromMinutes(a) < ToMinutes(b) && FromMinutes(b) < ToMinutes(a)
  }

  /**
   * isTimeInRange as written: the third and fourth tests convert an end
   * time from its hour twice (`toHour` in place of `toMinute`).
   */
  function IsTimeInRange(student: TimeRange, tutor: TimeRange): (b: bool)
    ensures Overlaps(student, tutor) ==> b
  {
    (FromMinutes(student) <= FromMinutes(tutor) && ToMinutes(student) > FromMinutes(tutor)) ||
    (FromMinutes(tutor) <= FromMinutes(student) && ToMinutes(tutor) > FromMinutes(student)) ||
    (ToMinutes(student) > FromMinutes(tutor) &&
     ToMinutes(student) <= GetTimeInMinutes(tutor.toHour, tutor.toHour, true)) ||
    (ToMinutes(tutor) > FromMinutes(student) &&
     ToMinutes(tutor) <= GetTimeInMinutes(student.toHour, student.toHour, true))
  }

  /** isTimeInRange with the end minutes the third and fourth tests evidently mean. */
  function IsTimeInRangeIntended(student: TimeRange, tutor: TimeRange): (b: bool)
    ensures Overlaps(student, tutor) ==> b
    ensures WellFormed(student) && WellFormed(tutor) ==> (b <==> Overlaps(student, tutor))
  {
    (FromMinutes(student) <= FromMinutes(tutor) && ToMinutes(student) > FromMinutes(tutor)) ||
    (FromMinutes(tutor) <= FromMinutes(student) && ToMinutes(tutor) > FromMinutes(student)) ||
    (ToMinutes(student) > FromMinutes(tutor) && ToMinutes(student) <= ToMinutes(tutor)) ||
    (ToMinutes(tutor) > FromMinutes(student) && ToMinutes(tutor) <= ToMinutes(student))
  }

  /**
   * For non-empty slots the corrected test is symmetric: it does not matter
   * which slot is the student's.
   */
  lemma IntendedIsHalfOpenOverlap(student: TimeRange, tutor: TimeRange)
    requires WellFormed(student) && WellFormed(tutor)
    ensures IsTimeInRangeIntended(student, tutor) <==> Overlaps(student, tutor)
    ensures IsTimeInRangeIntended(student, tutor) == IsTimeInRangeIntended(tutor, student)
  {
  }

  /** As written, a tutor 09:00-10:00 matches a student 10:00-10:05 although the slots are disjoint. */
  lemma AsWrittenMatchesDisjointWindows()
    ensures var tutor := TimeRange(9, 0, 10, 0);
            var student := TimeRange(10, 0, 10, 5);
            WellFormed(tutor) && WellFormed(student) && !Overlaps(student, tutor) &&
            IsTimeInRange(student, tutor) && !IsTimeInRangeIntended(student, tutor)
  {
  }

  /** Slots that only touch at an endpoint do not overlap; a whole-day slot overlaps every slot of that day. */
  lemma BoundaryCases(x: TimeRange)
    requires WellFormed(x) && 0 <= FromMinutes(x) < MinutesPerDay
    ensures !Overlaps(TimeRange(9, 0, 10, 0), TimeRange(10, 0, 11, 0))
    ensures Overlaps(TimeRange(0, 0, 0, 0), x)
  {
  }

  /** A student slot matches a tutor slot: same day and the time test passes. */
  predicate SlotMatches(tutorSlot: Availability, studentSlot: Availability) {
    studentSlot.availableDay == tutorSlot.availableDay &&
    IsTimeInRange(studentSlot.timeRange, tutorSlot.timeRange)
  }

  function MatchingStudentSlot(tutorSlot: Availability): Availability -> bool {
    (sa: Availability) => SlotMatches(tutorSlot, sa)
  }

  function SlotCovered(studentSlots: seq<Availability>): Availability -> bool {
    (ts: Availability) => FindFirst(studentSlots, MatchingStudentSlot(ts)).Some?
  }

  /**
   * isTutorAvailable: some tutor slot (`some`) has a matching student slot
   * (`find`).
   */
  function IsTutorAvailable(tutorSlots: seq<Availability>, studentSlots: seq<Availability>): (b: bool)
    ensures b <==> exists i, j :: 0 <= i < |tutorSlots| && 0 <= j < |studentSlots| &&
                                  SlotMatches(tutorSlots[i], studentSlots[j])
  {
    var f := FindFirst(tutorSlots, SlotCovered(studentSlots));
    if f.Some? then
      var g := FindFirst(studentSlots, MatchingStudentSlot(tutorSlots[f.value]));
      assert SlotMatches(tutorSlots[f.value], studentSlots[g.value]);
      true
    else
      assert forall i :: 0 <= i < |tutorSlots| ==> !SlotCovered(studentSlots)(tutorSlots[i]);
      false
  }

  /** The tutor's expertise contains at least one of the courses. */
  predicate TeachesAny(t: Tutor, courses: seq<string>) {
    exists c | c in courses :: c in t.expertise
  }

  function TeachingAnyOf(courses: seq<string>): Tutor -> bool {
    (t: Tutor) => TeachesAny(t, courses)
  }

  function AvailableFor(availability: seq<Availability>): Tutor -> bool {
    (t: Tutor) => IsTutorAvailable(t.availability, availability)
  }

  function TeachingAndAvailable(courses: seq<string>, availability: seq<Availability>): Tutor -> bool {
    (t: Tutor) => TeachesAny(t, courses) && IsTutorAvailable(t.availability, availability)
  }

  /** The search criterion as one rule: an empty list constrains nothing. */
  predicate Wanted(t: Tutor, courses: seq<string>, availability: seq<Availability>) {
    (|courses| == 0 || TeachesAny(t, courses)) &&
    (|availability| == 0 || IsTutorAvailable(t.availability, availability))
  }

  function WantedBy(courses: seq<string>, availability: seq<Availability>): Tutor -> bool {
    (t: Tutor) => Wanted(t, courses, availability)
  }

  /** The four branches of findTutor, chosen by which of the two lists is empty. */
  function SelectTutors(tutors: seq<Tutor>, courses: seq<string>, availability: seq<Availability>): (r: seq<Tutor>)
    ensures IsSubsequence(r, tutors)
    ensures forall k :: 0 <= k < |r| ==> r[k] in tutors && Wanted(r[k], courses, availability)
    ensures forall k :: 0 <= k < |tutors| && Wanted(tutors[k], courses, availability) ==> tutors[k] in r
  {
    if |courses| == 0 && |availability| != 0 then
      Filter(tutors, AvailableFor(availability))
    else if |courses| != 0 && |availability| == 0 then
      Filter(tutors, TeachingAnyOf(courses))
    else if |courses| == 0 && |availability| == 0 then
      SubsequenceReflexive(tutors);
      tutors
    else
      Filter(tutors, TeachingAndAvailable(courses, availability))
  }

  /** The four branches select exactly what one filter on the single rule selects. */
  lemma SelectTutorsIsFilterOfWanted(tutors: seq<Tutor>, courses: seq<string>, availability: seq<Availability>)
    ensures SelectTutors(tutors, courses, availability) == Filter(tutors, WantedBy(courses, availability))
  {
    var w := WantedBy(courses, availability);
    if |courses| == 0 && |availability| != 0 {
      FilterCongruent(tutors, AvailableFor(availability), w);
    } else if |courses| != 0 && |availability| == 0 {
      FilterCongruent(tutors, TeachingAnyOf(courses), w);
    } else if |courses| == 0 && |availability| == 0 {
      FilterKeepsAll(tutors, w);
    } else {
      FilterCongruent(tutors, TeachingAndAvailable(courses, availability), w);
    }
  }

  /**
   * One tutor as findTutor lists it: the document without `password`,
   * `students` and `studentRequests`, plus the caller's own request entry
   * (`None` stands for `false`). Contact details are not redacted here.
   */
  datatype TutorListing = TutorListing(
    id: Id,
    username: string,
    name: Option<string>,
    email: Option<string>,
    expertise: seq<string>,
    contactDetails: Option<ContactDetails>,
    availability: seq<Availability>,
    requestStatusWithTutor: Option<StudentRequest>)

  function Summarize(t: Tutor, caller: Id): (l: TutorListing)
    ensures l.requestStatusWithTutor.None? <==> forall k :: 0 <= k < |t.studentRequests| ==> t.studentRequests[k].id != caller
    ensures l.requestStatusWithTutor.Some? ==>
              exists k :: IsFirstEntry(t.studentRequests, caller, k) && l.requestStatusWithTutor.value == t.studentRequests[k]
    ensures l.id == t.id && l.username == t.username && l.name == t.name && l.email == t.email
    ensures l.expertise == t.expertise && l.contactDetails == t.contactDetails && l.availability == t.availability
  {
    var own := match FindRequest(t.studentRequests, caller)
      case None => None
      case Some(i) => assert IsFirstEntry(t.studentRequests, caller, i); Some(t.studentRequests[i]);
    TutorListing(t.id, t.username, t.name, t.email, t.expertise, t.contactDetails, t.availability, own)
  }

  /**
   * findTutor: students only; the selected tutors, in their stored order,
   * each listed for the caller.
   */
  function FindTutor(role: string, tutors: seq<Tutor>, courses: seq<string>, availability: seq<Availability>, caller: Id)
    : (r: Result<seq<TutorListing>, ApiError>)
    ensures r.Err? <==> role != StudentRole
    ensures r.Err? ==> r.error == Forbidden
    ensures r.Ok? ==> |r.value| <= |tutors|
    ensures r.Ok? && |courses| == 0 && |availability| == 0 ==> |r.value| == |tutors|
    ensures r.Ok? ==> forall k :: 0 <= k < |tutors| && Wanted(tutors[k], courses, availability) ==>
                        Summarize(tutors[k], caller) in r.value
    ensures r.Ok? ==> forall k :: 0 <= k < |r.value| ==>
                        exists t :: t in tutors && Wanted(t, courses, availability) && r.value[k] == Summarize(t, caller)
    ensures r.Ok? ==> |r.value| == |Filter(tutors, WantedBy(courses, availability))|
    ensures r.Ok? ==> forall k :: 0 <= k < |r.value| ==>
                        r.value[k] == Summarize(Filter(tutors, WantedBy(courses, availability))[k], caller)
  {
    if role != StudentRole then Err(Forbidden)
    else
      var selected := SelectTutors(tutors, courses, availability);
      var listed := ListFor(selected, caller);
      ListingCoversWanted(tutors, courses, availability, caller);
      SelectTutorsIsFilterOfWanted(tutors, courses, availability);
      Ok(listed)
  }

  function ListFor(selected: seq<Tutor>, caller: Id): (l: seq<TutorListing>)
    ensures |l| == |selected|
    ensures forall k :: 0 <= k < |l| ==> l[k] == Summarize(selected[k], caller)
  {
    seq(|selected|, i requires 0 <= i < |selected| => Summarize(selected[i], caller))
  }

  lemma ListingCoversWanted(tutors: seq<Tutor>, courses: seq<string>, availability: seq<Availability>, caller: Id)
    ensures var listed := ListFor(SelectTutors(tutors, courses, availability), caller);
            && |listed| <= |tutors|
            && (|courses| == 0 && |availability| == 0 ==> |listed| == |tutors|)
            && (forall k :: 0 <= k < |tutors| && Wanted(tutors[k], courses, availability) ==>
                  Summarize(tutors[k], caller) in listed)
            && (forall k :: 0 <= k < |listed| ==>
                  exists t :: t in tutors && Wanted(t, courses, availability) && listed[k] == Summarize(t, caller))
  {
    var selected := SelectTutors(tutors, courses, availability);
    var listed := ListFor(selected, caller);
    SubsequenceLength(selected, tutors);
    forall k | 0 <= k < |tutors| && Wanted(tutors[k], courses, availability)
      ensures Summarize(tutors[k], caller) in listed
    {
      ListedWhenSelected(selected, listed, caller, tutors[k]);
    }
    forall k | 0 <= k < |listed|
      ensures exists t :: t in tutors && Wanted(t, courses, availability) && listed[k] == Summarize(t, caller)
    {
      var t := selected[k];
      assert t in tutors && Wanted(t, courses, availability) && listed[k] == Summarize(t, caller);
    }
  }

  lemma ListedWhenSelected(selected: seq<Tutor>, listed: seq<TutorListing>, caller: Id, t: Tutor)
    requires listed == ListFor(selected, caller)
    requires t in selected
    ensures Summarize(t, caller) in listed
  {
    var i :| 0 <= i < |selected| && selected[i] == t;
    assert listed[i] == Summarize(t, caller);
  }
}
