/** The app's weekly schedule (Terp_Builder/Models/ScheduleModel.swift): sections are added to the lists of
    their days unless their times are refused, and removed from them. */
module Schedule {

  datatype Day = Sun | Mon | Tue | Wen | Thu | Fri | Sat

  datatype Meeting = Meeting(days: string, start: string, end: string)

  /** Two sections are the same when their section ids are. */
  datatype Course = Course(sectionID: string, meeting: seq<Meeting>)

  // ----- Day patterns -----

  /** The days a pattern is placed on; none for the patterns the code does not know. */
  function DaysOf(pattern: string): seq<Day> {
    if pattern == "MWF" then [Mon, Wen, Fri]
    else if pattern == "TuTh" then [Tue, Thu]
    else if pattern == "MW" then [Mon, Wen]
    else if |pattern| == 1 then [if pattern[0] == 'M' then Mon else if pattern[0] == 'W' then Wen else Fri]
    else if |pattern| == 2 then [if pattern == "Tu" then Tue else Thu]
    else []
  }

  /** The order of times, read by the formatter for lectures or for discussions. */
  type Clock = string -> int

  /** Neither wholly before nor wholly after in both its start and its end. */
  predicate Overlaps(clock: Clock, m: Meeting, start: string, end: string) {
    && !(clock(m.start) < clock(start) && clock(m.end) < clock(end))
    && !(clock(m.start) > clock(start) && clock(m.end) > clock(end))
  }

  // ----- The state, as a value -----

  type Week = m: map<Day, seq<Course>> | forall d: Day :: d in m witness map d: Day | true :: []

  function EmptyWeek(): Week {
    var m: map<Day, seq<Course>> := map[Sun := [], Mon := [], Tue := [], Wen := [], Thu := [], Fri := [], Sat := []];
    assert forall d: Day :: d in m by {
      forall d: Day ensures d in m {
        assert d.Sun? || d.Mon? || d.Tue? || d.Wen? || d.Thu? || d.Fri? || d.Sat?;
      }
    }
    m
  }

  datatype State = State(week: Week, classes: seq<string>)

  ghost predicate LectureTaken(clock: Clock, courses: seq<Course>, m: Meeting) {
    exists i :: 0 <= i < |courses| && courses[i].meeting != [] && Overlaps(clock, courses[i].meeting[0], m.start, m.end)
  }

  ghost predicate DiscussionTaken(clock: Clock, courses: seq<Course>, m: Meeting) {
    exists i :: 0 <= i < |courses| && |courses[i].meeting| == 2
        && Overlaps(clock, courses[i].meeting[1], m.start, m.end)
  }

  /** A section is refused when every one of its days is taken at its time.  Discussions are only looked at
      for a section whose lecture pattern is not known. */
  ghost predicate Refused(lectures: Clock, discussions: Clock, week: Week, c: Course)
    requires c.meeting != []
  {
    var days := DaysOf(c.meeting[0].days);
    if days != [] then forall d :: d in days ==> LectureTaken(lectures, week[d], c.meeting[0])
    else
      && |c.meeting| == 2 && DaysOf(c.meeting[1].days) != []
      && forall d :: d in DaysOf(c.meeting[1].days) ==> DiscussionTaken(discussions, week[d], c.meeting[1])
  }

  /** The list without its first section of that id. */
  function Without(courses: seq<Course>, id: string): seq<Course> {
    if courses == [] then [] else if courses[0].sectionID == id then courses[1..]
        else [courses[0]] + Without(courses[1..], id)
  }

  function WithoutId(ids: seq<string>, id: string): seq<string> {
    if ids == [] then [] else if ids[0] == id then ids[1..] else [ids[0]] + WithoutId(ids[1..], id)
  }

  function Placed(week: Week, days: seq<Day>, c: Course): Week {
    map d: Day | true :: if d in days then week[d] + [c] else week[d]
  }

  function Unplaced(week: Week, days: seq<Day>, id: string): Week {
    map d: Day | true :: if d in days then Without(week[d], id) else week[d]
  }

  lemma PlacedNone(week: Week, c: Course)
    ensures Placed(week, [], c) == week
  {
  }

  lemma PlacedTwo(week: Week, x: Day, y: Day, c: Course)
    requires x != y
    ensures Placed(Placed(week, [x], c), [y], c) == Placed(week, [x, y], c)
  {
  }

  lemma PlacedThree(week: Week, x: Day, y: Day, z: Day, c: Course)
    requires x != y && y != z && x != z
    ensures Placed(Placed(Placed(week, [x], c), [y], c), [z], c) == Placed(week, [x, y, z], c)
  {
  }

  lemma UnplacedNone(week: Week, id: string)
    ensures Unplaced(week, [], id) == week
  {
  }

  lemma UnplacedOne(week: Week, day: Day, id: string, rest: seq<Course>)
    requires rest == Without(week[day], id)
    ensures Unplaced(week, [day], id) == week[day := rest] && (rest == week[day] ==> week[day := rest] == week)
  {
  }

  lemma UnplacedTwo(week: Week, x: Day, y: Day, id: string)
    requires x != y
    ensures Unplaced(Unplaced(week, [x], id), [y], id) == Unplaced(week, [x, y], id)
  {
  }

  lemma UnplacedThree(week: Week, x: Day, y: Day, z: Day, id: string)
    requires x != y && y != z && x != z
    ensures Unplaced(Unplaced(Unplaced(week, [x], id), [y], id), [z], id) == Unplaced(week, [x, y, z], id)
  {
  }

  function Added(s: State, c: Course): State
    requires c.meeting != []
  {
    State(Placed(s.week, DaysOf(c.meeting[0].days), c), s.classes + [c.sectionID])
  }

  function Removed(s: State, c: Course): State
    requires c.meeting != []
  {
    State(Unplaced(s.week, DaysOf(c.meeting[0].days), c.sectionID), WithoutId(s.classes, c.sectionID))
  }

  // ----- The model -----

  class ScheduleModel {
    const lectures: Clock
    const discussions: Clock
    var currSchedule: Week
    var currClasses: seq<string>
    var addFailed: bool

    function Now(): State
      reads this
    {
      State(currSchedule, currClasses)
    }

    constructor (lectures: Clock, discussions: Clock)
      ensures Now() == State(EmptyWeek(), []) && !addFailed
      ensures this.lectures == lectures && this.discussions == discussions
    {
      this.lectures, this.discussions := lectures, discussions;
      currSchedule := EmptyWeek();
      currClasses, addFailed := [], false;
    }

    /** Adds a section unless its times are refused. */
    method AddToSchedule(course: Course)
      requires course.meeting != [] && MeetingsGiven()
      modifies this
      ensures addFailed == Refused(lectures, discussions, old(currSchedule), course)
      ensures Now() == if addFailed then old(Now()) else Added(old(Now()), course)
    {
      var conflict := CheckConflict(course);
      if conflict {
        addFailed := true;
      } else {
        AppendToDays(course.meeting[0].days, course);
        currClasses := currClasses + [course.sectionID];
        addFailed := false;
      }
    }

    method AppendToDays(days: string, course: Course)
      modifies this`currSchedule
      ensures currSchedule == Placed(old(currSchedule), DaysOf(days), course)
    {
      ghost var before := currSchedule;
      if days == "MWF" {
        Append(Mon, course);
        Append(Wen, course);
        Append(Fri, course);
        PlacedThree(before, Mon, Wen, Fri, course);
      } else if days == "TuTh" {
        Append(Tue, course);
        Append(Thu, course);
        PlacedTwo(before, Tue, Thu, course);
      } else if days == "MW" {
        Append(Mon, course);
        Append(Wen, course);
        PlacedTwo(before, Mon, Wen, course);
      } else if |days| == 1 {
        if days[0] == 'M' {
          Append(Mon, course);
        } else if days[0] == 'W' {
          Append(Wen, course);
        } else {
          Append(Fri, course);
        }
      } else if |days| == 2 {
        if days == "Tu" {
          Append(Tue, course);
        } else {
          Append(Thu, course);
        }
      } else {
        PlacedNone(before, course);
      }
    }

    method Append(day: Day, course: Course)
      modifies this`currSchedule
      ensures currSchedule == Placed(old(currSchedule), [day], course)
    {
      currSchedule := currSchedule[day := currSchedule[day] + [course]];
    }

    /** Every section in the schedule has a meeting. */
    ghost predicate MeetingsGiven()
      reads this
    {
      Given(currSchedule)
    }

    method CheckConflict(course: Course) returns (conflict: bool)
      requires course.meeting != [] && MeetingsGiven()
      ensures conflict == Refused(lectures, discussions, currSchedule, course)
    {
      var placed: bool;
      placed, conflict := CheckDays(course.meeting[0], true);
      if !placed && |course.meeting| == 2 {
        placed, conflict := CheckDays(course.meeting[1], false);
      }
    }

    /** Whether the days of a meeting are known, and if so whether all of them are taken at its time. */
    method CheckDays(m: Meeting, lecture: bool) returns (placed: bool, taken: bool)
      requires MeetingsGiven()
      ensures placed == (DaysOf(m.days) != [])
      ensures taken == (placed && forall d :: d in DaysOf(m.days) ==> Taken(d, m, lecture))
    {
      placed, taken := true, false;
      if m.days == "MWF" {
        taken := CheckDay(Mon, m, lecture);
        if taken {
          taken := CheckDay(Wen, m, lecture);
        }
        if taken {
          taken := CheckDay(Fri, m, lecture);
        }
      } else if m.days == "TuTh" {
        taken := CheckDay(Tue, m, lecture);
        if taken {
          taken := CheckDay(Thu, m, lecture);
        }
      } else if m.days == "MW" {
        taken := CheckDay(Mon, m, lecture);
        if taken {
          taken := CheckDay(Wen, m, lecture);
        }
      } else if |m.days| == 1 {
        taken := CheckDay(if m.days[0] == 'M' then Mon else if m.days[0] == 'W' then Wen else Fri, m, lecture);
      } else if |m.days| == 2 {
        taken := CheckDay(if m.days == "Tu" then Tue else Thu, m, lecture);
      } else {
        placed := false;
      }
    }

    ghost predicate Taken(day: Day, m: Meeting, lecture: bool)
      reads this
    {
      if lecture then LectureTaken(lectures, currSchedule[day], m)
          else DiscussionTaken(discussions, currSchedule[day], m)
    }

    method CheckDay(day: Day, m: Meeting, lecture: bool) returns (taken: bool)
      requires MeetingsGiven()
      ensures taken == Taken(day, m, lecture)
    {
      if lecture {
        taken := CheckLecture(day, m.start, m.end, m);
      } else {
        taken := CheckDiscussion(day, m.start, m.end, m);
      }
    }

    method CheckLecture(day: Day, startTime: string, endTime: string, ghost m: Meeting) returns (taken: bool)
      requires MeetingsGiven() && m.start == startTime && m.end == endTime
      ensures taken == LectureTaken(lectures, currSchedule[day], m)
    {
      var arr := currSchedule[day];
      for i := 0 to |arr|
        invariant !LectureTaken(lectures, arr[..i], m)
      {
        var other := arr[i].meeting[0];
        if other.start == startTime && other.end == endTime {
          assert Overlaps(lectures, other, startTime, endTime);
          return true;
        }
        if (lectures(other.start) < lectures(startTime) && lectures(other.end) < lectures(endTime))
           || (lectures(other.start) > lectures(startTime) && lectures(other.end) > lectures(endTime)) {
          continue;
        } else {
          assert Overlaps(lectures, other, startTime, endTime);
          return true;
        }
      }
      assert arr[..|arr|] == arr;
      taken := false;
    }

    method CheckDiscussion(day: Day, startTime: string, endTime: string, ghost m: Meeting) returns (taken: bool)
      requires m.start == startTime && m.end == endTime
      ensures taken == DiscussionTaken(discussions, currSchedule[day], m)
    {
      var arr := currSchedule[day];
      for i := 0 to |arr|
        invariant !DiscussionTaken(discussions, arr[..i], m)
      {
        if |arr[i].meeting| == 2 {
          var other := arr[i].meeting[1];
          if (discussions(other.start) < discussions(startTime) && discussions(other.end) < discussions(endTime))
             || (discussions(other.start) > discussions(startTime) && discussions(other.end) > discussions(endTime)) {
            continue;
          } else {
            assert Overlaps(discussions, other, startTime, endTime);
            return true;
          }
        }
      }
      assert arr[..|arr|] == arr;
      taken := false;
    }

    /** Removes a section from the classes and from the days of its pattern. */
    method RemoveFromSchedule(course: Course)
      requires course.meeting != []
      modifies this`currSchedule, this`currClasses
      ensures Now() == Removed(old(Now()), course)
    {
      var index := FirstIndex(currClasses, course.sectionID);
      if index < |currClasses| {
        WithoutIdAt(currClasses, course.sectionID, index);
        currClasses := currClasses[..index] + currClasses[index + 1..];
      } else {
        WithoutIdAt(currClasses, course.sectionID, index);
      }
      DeleteFromDays(course.meeting[0].days, course);
    }

    method DeleteFromDays(days: string, course: Course)
      modifies this`currSchedule
      ensures currSchedule == Unplaced(old(currSchedule), DaysOf(days), course.sectionID)
    {
      ghost var before := currSchedule;
      if days == "MWF" {
        QuickDelete(Mon, course);
        QuickDelete(Wen, course);
        QuickDelete(Fri, course);
        UnplacedThree(before, Mon, Wen, Fri, course.sectionID);
      } else if days == "TuTh" {
        QuickDelete(Tue, course);
        QuickDelete(Thu, course);
        UnplacedTwo(before, Tue, Thu, course.sectionID);
      } else if days == "MW" {
        QuickDelete(Mon, course);
        QuickDelete(Wen, course);
        UnplacedTwo(before, Mon, Wen, course.sectionID);
      } else if |days| == 1 {
        if days[0] == 'M' {
          QuickDelete(Mon, course);
        } else if days[0] == 'W' {
          QuickDelete(Wen, course);
        } else {
          QuickDelete(Fri, course);
        }
      } else if |days| == 2 {
        if days == "Tu" {
          QuickDelete(Tue, course);
        } else {
          QuickDelete(Thu, course);
        }
      } else {
        UnplacedNone(before, course.sectionID);
      }
    }

    method QuickDelete(day: Day, course: Course)
      modifies this`currSchedule
      ensures currSchedule == Unplaced(old(currSchedule), [day], course.sectionID)
    {
      var arr := currSchedule[day];
      var index := FirstSection(arr, course.sectionID);
      WithoutAt(arr, course.sectionID, index);
      UnplacedOne(currSchedule, day, course.sectionID, Without(arr, course.sectionID));
      if index < |arr| {
        currSchedule := currSchedule[day := arr[..index] + arr[index + 1..]];
      }
    }
  }

  /** The first index of an id in a list; the length of the list when it has none. */
  method FirstIndex(ids: seq<string>, id: string) returns (index: nat)
    ensures index <= |ids| && id !in ids[..index] && (index < |ids| ==> ids[index] == id)
  {
    index := 0;
    while index < |ids| && ids[index] != id
      invariant index <= |ids| && id !in ids[..index]
    {
      index := index + 1;
    }
  }

  method FirstSection(courses: seq<Course>, id: string) returns (index: nat)
    ensures index <= |courses| && (forall i :: 0 <= i < index ==> courses[i].sectionID != id)
    ensures index < |courses| ==> courses[index].sectionID == id
  {
    index := 0;
    while index < |courses| && courses[index].sectionID != id
      invariant index <= |courses| && forall i :: 0 <= i < index ==> courses[i].sectionID != id
    {
      index := index + 1;
    }
  }

  lemma NoneBefore<T>(s: seq<T>)
    ensures s != [] ==> s[..0] + s[1..] == s[1..]
  {
  }

  lemma OneBefore<T>(s: seq<T>, index: nat)
    requires 0 < index <= |s|
    ensures [s[0]] + s[1..] == s
    ensures index < |s| ==> [s[0]] + (s[1..][..index - 1] + s[1..][index..]) == s[..index] + s[index + 1..]
  {
  }

  lemma {:induction false} WithoutIdAt(ids: seq<string>, id: string, index: nat)
    requires index <= |ids| && (forall i :: 0 <= i < index ==> ids[i] != id) && (index < |ids| ==> ids[index] == id)
    ensures WithoutId(ids, id) == if index < |ids| then ids[..index] + ids[index + 1..] else ids
  {
    if index == 0 {
      NoneBefore(ids);
    } else {
      WithoutIdAt(ids[1..], id, index - 1);
      OneBefore(ids, index);
    }
  }

  lemma {:induction false} WithoutAt(courses: seq<Course>, id: string, index: nat)
    requires index <= |courses| && (forall i :: 0 <= i < index ==> courses[i].sectionID != id)
    requires index < |courses| ==> courses[index].sectionID == id
    ensures Without(courses, id) == if index < |courses| then courses[..index] + courses[index + 1..] else courses
  {
    if index == 0 {
      NoneBefore(courses);
    } else {
      WithoutAt(courses[1..], id, index - 1);
      OneBefore(courses, index);
    }
  }

  // ----- Every run -----

  /** How often a section is in a list. */
  function Count(courses: seq<Course>, id: string): nat {
    if courses == [] then 0 else (if courses[0].sectionID == id then 1 else 0) + Count(courses[1..], id)
  }

  function CountId(ids: seq<string>, id: string): nat {
    if ids == [] then 0 else (if ids[0] == id then 1 else 0) + CountId(ids[1..], id)
  }

  /** What the meetings of each section are; every section has one. */
  type Catalogue = of: string -> seq<Meeting> | forall id :: of(id) != [] witness id => [Meeting("", "", "")]

  function SectionDays(of: Catalogue): string -> seq<Day> {
    (id: string) => DaysOf(of(id)[0].days)
  }

  /** On a day a section is listed exactly once if the day is one of its own and it is among the classes, and
      otherwise not at all. */
  ghost predicate ListedOn(days: string -> seq<Day>, s: State, day: Day, id: string) {
    Count(s.week[day], id) == if day in days(id) && CountId(s.classes, id) > 0 then 1 else 0
  }

  /** Every section listed has its own meetings; the lists agree with the classes; a section with days is
      among the classes at most once. */
  ghost predicate Agrees(days: string -> seq<Day>, of: Catalogue, s: State) {
    && (forall day: Day, i :: 0 <= i < |s.week[day]| ==> s.week[day][i].meeting == of(s.week[day][i].sectionID))
    && (forall day: Day, id: string {:trigger ListedOn(days, s, day, id)} :: ListedOn(days, s, day, id))
    && (forall id: string {:trigger CountId(s.classes, id)} :: days(id) != [] ==> CountId(s.classes, id) <= 1)
  }

  ghost predicate Consistent(of: Catalogue, s: State) {
    Agrees(SectionDays(of), of, s)
  }

  lemma {:induction false} CountPush(courses: seq<Course>, c: Course, id: string)
    ensures Count(courses + [c], id) == Count(courses, id) + if c.sectionID == id then 1 else 0
  {
    if courses != [] {
      assert (courses + [c])[1..] == courses[1..] + [c];
      CountPush(courses[1..], c, id);
    }
  }

  lemma {:induction false} CountIdPush(ids: seq<string>, c: string, id: string)
    ensures CountId(ids + [c], id) == CountId(ids, id) + if c == id then 1 else 0
  {
    if ids != [] {
      assert (ids + [c])[1..] == ids[1..] + [c];
      CountIdPush(ids[1..], c, id);
    }
  }

  lemma {:induction false} CountWithout(courses: seq<Course>, gone: string, id: string)
    ensures Count(Without(courses, gone), id)
         == if id == gone && Count(courses, id) > 0 then Count(courses, id) - 1 else Count(courses, id)
    ensures forall i :: 0 <= i < |Without(courses, gone)| ==> Without(courses, gone)[i] in courses
  {
    if courses != [] && courses[0].sectionID != gone {
      CountWithout(courses[1..], gone, id);
    }
  }

  lemma {:induction false} CountWithoutId(ids: seq<string>, gone: string, id: string)
    ensures CountId(WithoutId(ids, gone), id)
         == if id == gone && CountId(ids, id) > 0 then CountId(ids, id) - 1 else CountId(ids, id)
  {
    if ids != [] && ids[0] != gone {
      CountWithoutId(ids[1..], gone, id);
    }
  }

  lemma {:induction false} Counted(courses: seq<Course>, id: string) returns (i: nat)
    requires Count(courses, id) > 0
    ensures i < |courses| && courses[i].sectionID == id
  {
    if courses[0].sectionID == id {
      i := 0;
    } else {
      var j := Counted(courses[1..], id);
      i := j + 1;
    }
  }

  /** Adding a section that is in the schedule, with days the code knows, is always refused. */
  lemma ReAddRefused(of: Catalogue, s: State, lectures: Clock, discussions: Clock, c: Course)
    requires Consistent(of, s) && c.meeting == of(c.sectionID)
    requires DaysOf(c.meeting[0].days) != [] && CountId(s.classes, c.sectionID) > 0
    ensures Refused(lectures, discussions, s.week, c)
  {
    forall d | d in DaysOf(c.meeting[0].days) ensures LectureTaken(lectures, s.week[d], c.meeting[0]) {
      assert ListedOn(SectionDays(of), s, d, c.sectionID);
      var i := Counted(s.week[d], c.sectionID);
      assert Overlaps(lectures, s.week[d][i].meeting[0], c.meeting[0].start, c.meeting[0].end);
    }
  }

  /** A section whose lecture pattern the code does not know, added twice to an empty schedule, is among the
      classes twice, whatever its discussion. */
  lemma UnknownPatternTwice(lectures: Clock, discussions: Clock, c: Course)
    requires c.meeting != [] && DaysOf(c.meeting[0].days) == []
    ensures var empty := State(EmptyWeek(), []);
            && !Refused(lectures, discussions, empty.week, c)
            && !Refused(lectures, discussions, Added(empty, c).week, c)
            && CountId(Added(Added(empty, c), c).classes, c.sectionID) == 2
  {
    var empty := State(EmptyWeek(), []);
    NowhereRefused(lectures, discussions, c);
    PlacedNone(empty.week, c);
    CountIdPush([], c.sectionID, c.sectionID);
    CountIdPush([c.sectionID], c.sectionID, c.sectionID);
    assert [] + [c.sectionID] == [c.sectionID];
  }

  /** An empty schedule refuses nothing. */
  lemma NowhereRefused(lectures: Clock, discussions: Clock, c: Course)
    requires c.meeting != []
    ensures !Refused(lectures, discussions, EmptyWeek(), c)
  {
    forall d: Day, m: Meeting ensures !LectureTaken(lectures, EmptyWeek()[d], m) {
    }
    var days := DaysOf(c.meeting[0].days);
    if days != [] {
      assert days[0] in days;
    } else if |c.meeting| == 2 && DaysOf(c.meeting[1].days) != [] {
      assert DaysOf(c.meeting[1].days)[0] in DaysOf(c.meeting[1].days);
    }
  }

  ghost predicate RefusesAgain(of: Catalogue, lectures: Clock, discussions: Clock, c: Course, s: State)
    requires c.meeting != []
  {
    Consistent(of, s) && CountId(s.classes, c.sectionID) > 0 ==> Refused(lectures, discussions, s.week, c)
  }

  /** Adding a section that is among the classes is refused in every consistent schedule exactly when its
      lecture pattern is one the code knows. */
  lemma ReAddRefusedExactly(of: Catalogue, lectures: Clock, discussions: Clock, c: Course)
    requires c.meeting == of(c.sectionID)
    ensures (forall s: State :: RefusesAgain(of, lectures, discussions, c, s)) <==> DaysOf(c.meeting[0].days) != []
  {
    if DaysOf(c.meeting[0].days) != [] {
      forall s: State ensures RefusesAgain(of, lectures, discussions, c, s) {
        if Consistent(of, s) && CountId(s.classes, c.sectionID) > 0 {
          ReAddRefused(of, s, lectures, discussions, c);
        }
      }
    } else {
      var empty := State(EmptyWeek(), []);
      UnknownPatternTwice(lectures, discussions, c);
      StartsConsistent(of);
      AddKeeps(of, empty, lectures, discussions, c);
      CountIdPush([], c.sectionID, c.sectionID);
      assert !RefusesAgain(of, lectures, discussions, c, Added(empty, c));
    }
  }

  // ----- Which times clash -----

  /** Meetings as the catalogue has them begin before they end. */
  predicate Proper(clock: Clock, m: Meeting) {
    clock(m.start) < clock(m.end)
  }

  predicate During(clock: Clock, m: Meeting, t: int) {
    clock(m.start) <= t < clock(m.end)
  }

  /** Some time belongs to both meetings. */
  ghost predicate ShareTime(clock: Clock, m: Meeting, n: Meeting) {
    exists t: int :: During(clock, m, t) && During(clock, n, t)
  }

  /** One begins and ends first, and the other begins before that end. */
  predicate Staggered(clock: Clock, m: Meeting, n: Meeting) {
    || clock(m.start) < clock(n.start) < clock(m.end) < clock(n.end)
    || clock(n.start) < clock(m.start) < clock(n.end) < clock(m.end)
  }

  /** Two meetings that share a time are found to clash exactly when they are not staggered; two that do not are
      never found to. */
  lemma ClashExactly(clock: Clock, m: Meeting, n: Meeting)
    requires Proper(clock, m) && Proper(clock, n)
    ensures (Overlaps(clock, m, n.start, n.end) <==> ShareTime(clock, m, n)) <==> !Staggered(clock, m, n)
    ensures Overlaps(clock, m, n.start, n.end) ==> ShareTime(clock, m, n)
    ensures Staggered(clock, m, n) ==> ShareTime(clock, m, n)
  {
    var later := if clock(m.start) < clock(n.start) then clock(n.start) else clock(m.start);
    if later < clock(m.end) && later < clock(n.end) {
      assert During(clock, m, later) && During(clock, n, later);
    }
  }

  /** Staggered sections on the same days are both taken into an empty schedule. */
  lemma StaggeredTaken(lectures: Clock, discussions: Clock, c: Course, d: Course)
    requires c.meeting != [] && d.meeting != [] && c.meeting[0].days == d.meeting[0].days
    requires DaysOf(c.meeting[0].days) != [] && Staggered(lectures, c.meeting[0], d.meeting[0])
    ensures var empty := State(EmptyWeek(), []);
            && !Refused(lectures, discussions, empty.week, c)
            && !Refused(lectures, discussions, Added(empty, c).week, d)
            && ShareTime(lectures, c.meeting[0], d.meeting[0])
  {
    var empty := State(EmptyWeek(), []);
    NowhereRefused(lectures, discussions, c);
    var days := DaysOf(c.meeting[0].days);
    ClashExactly(lectures, c.meeting[0], d.meeting[0]);
    assert days[0] in days;
    assert Added(empty, c).week[days[0]] == [c];
    assert !LectureTaken(lectures, Added(empty, c).week[days[0]], d.meeting[0]);
  }

  // ----- Which days count -----

  /** The days of the patterns the code places, and which patterns it does not know. */
  lemma PatternDays(pattern: string)
    ensures DaysOf("MWF") == [Mon, Wen, Fri] && DaysOf("TuTh") == [Tue, Thu] && DaysOf("MW") == [Mon, Wen]
    ensures DaysOf("M") == [Mon] && DaysOf("W") == [Wen] && DaysOf("F") == [Fri] && DaysOf("Tu") == [Tue]
    ensures DaysOf("Th") == [Thu]
    ensures DaysOf(pattern) != [] <==> |pattern| == 1 || |pattern| == 2 || pattern == "MWF" || pattern == "TuTh"
  {
  }

  ghost predicate SomeDayTaken(lectures: Clock, week: Week, c: Course)
    requires c.meeting != []
  {
    exists d :: d in DaysOf(c.meeting[0].days) && LectureTaken(lectures, week[d], c.meeting[0])
  }

  lemma TakenByItself(lectures: Clock, discussions: Clock, c: Course, week: Week, first: Day, second: Day)
    requires c.meeting != [] && first in DaysOf(c.meeting[0].days) && second in DaysOf(c.meeting[0].days)
    requires week[first] == [c] && week[second] == []
    ensures SomeDayTaken(lectures, week, c) && !Refused(lectures, discussions, week, c)
  {
    assert Overlaps(lectures, week[first][0].meeting[0], c.meeting[0].start, c.meeting[0].end);
    assert LectureTaken(lectures, week[first], c.meeting[0]) && !LectureTaken(lectures, week[second], c.meeting[0]);
  }

  /** A week in which the section's time is taken on its first day only. */
  lemma FirstDayTaken(lectures: Clock, discussions: Clock, c: Course) returns (week: Week)
    requires c.meeting != [] && |DaysOf(c.meeting[0].days)| > 1
    ensures SomeDayTaken(lectures, week, c) && !Refused(lectures, discussions, week, c)
  {
    var days := DaysOf(c.meeting[0].days);
    var first, second := days[0], days[1];
    assert first in days && second in days && first != second;
    week := OnOneDay(c, first);
    TakenByItself(lectures, discussions, c, week, first, second);
  }

  lemma OnOneDay(c: Course, day: Day) returns (week: Week)
    ensures week[day] == [c] && forall d: Day :: d != day ==> week[d] == []
  {
    var empty := EmptyWeek();
    week := empty[day := [c]];
  }

  /** A section whose time is taken on one of its days is refused in every schedule exactly when it has only one
      day: the code asks for a clash on all of them. */
  lemma OneDayTakenExactly(lectures: Clock, discussions: Clock, c: Course)
    requires c.meeting != [] && DaysOf(c.meeting[0].days) != []
    ensures (forall week: Week :: SomeDayTaken(lectures, week, c) ==> Refused(lectures, discussions, week, c))
            <==> |DaysOf(c.meeting[0].days)| == 1
  {
    if |DaysOf(c.meeting[0].days)| > 1 {
      var week := FirstDayTaken(lectures, discussions, c);
    }
  }

  lemma PlacingAgrees(days: string -> seq<Day>, of: Catalogue, s: State, c: Course)
    requires Agrees(days, of, s) && c.meeting == of(c.sectionID)
               && (days(c.sectionID) != [] ==> CountId(s.classes, c.sectionID) == 0)
    ensures Agrees(days, of, State(Placed(s.week, days(c.sectionID), c), s.classes + [c.sectionID]))
  {
    var t := State(Placed(s.week, days(c.sectionID), c), s.classes + [c.sectionID]);
    forall id: string ensures days(id) != [] ==> CountId(t.classes, id) <= 1 {
      CountIdPush(s.classes, c.sectionID, id);
    }
    forall day: Day, id: string ensures ListedOn(days, t, day, id) {
      assert ListedOn(days, s, day, id);
      CountPush(s.week[day], c, id);
      CountIdPush(s.classes, c.sectionID, id);
    }
  }

  lemma UnplacingAgrees(days: string -> seq<Day>, of: Catalogue, s: State, id: string)
    requires Agrees(days, of, s)
    ensures Agrees(days, of, State(Unplaced(s.week, days(id), id), WithoutId(s.classes, id)))
  {
    var t := State(Unplaced(s.week, days(id), id), WithoutId(s.classes, id));
    forall x: string ensures days(x) != [] ==> CountId(t.classes, x) <= 1 {
      CountWithoutId(s.classes, id, x);
    }
    forall day: Day, i | 0 <= i < |t.week[day]| ensures t.week[day][i].meeting == of(t.week[day][i].sectionID) {
      CountWithout(s.week[day], id, id);
      assert t.week[day][i] in s.week[day];
    }
    forall day: Day, x: string ensures ListedOn(days, t, day, x) {
      assert ListedOn(days, s, day, x);
      CountWithout(s.week[day], id, x);
      CountWithoutId(s.classes, id, x);
    }
  }

  lemma AddKeeps(of: Catalogue, s: State, lectures: Clock, discussions: Clock, c: Course)
    requires Consistent(of, s) && c.meeting == of(c.sectionID) && !Refused(lectures, discussions, s.week, c)
    ensures Consistent(of, Added(s, c))
  {
    if SectionDays(of)(c.sectionID) != [] && CountId(s.classes, c.sectionID) > 0 {
      ReAddRefused(of, s, lectures, discussions, c);
    }
    PlacingAgrees(SectionDays(of), of, s, c);
  }

  lemma RemoveKeeps(of: Catalogue, s: State, c: Course)
    requires Consistent(of, s) && c.meeting == of(c.sectionID)
    ensures Consistent(of, Removed(s, c))
  {
    UnplacingAgrees(SectionDays(of), of, s, c.sectionID);
  }

  lemma {:induction false} WithoutPushed(courses: seq<Course>, c: Course)
    requires Count(courses, c.sectionID) == 0
    ensures Without(courses + [c], c.sectionID) == courses
  {
    if courses != [] {
      assert (courses + [c])[1..] == courses[1..] + [c];
      WithoutPushed(courses[1..], c);
    }
  }

  lemma {:induction false} WithoutIdPushed(ids: seq<string>, id: string)
    ensures WithoutId(ids + [id], id) == if CountId(ids, id) == 0 then ids else WithoutId(ids, id) + [id]
  {
    if ids != [] {
      assert (ids + [id])[1..] == ids[1..] + [id];
      WithoutIdPushed(ids[1..], id);
    }
  }

  lemma UnplacedPlaced(week: Week, days: seq<Day>, c: Course)
    requires forall d :: d in days ==> Count(week[d], c.sectionID) == 0
    ensures Unplaced(Placed(week, days, c), days, c.sectionID) == week
  {
    forall d: Day ensures Unplaced(Placed(week, days, c), days, c.sectionID)[d] == week[d] {
      if d in days {
        WithoutPushed(week[d], c);
      }
    }
  }

  /** A successful add followed by a remove restores every day; it restores the classes when the section was
      not among them, which is so for every section with days, and otherwise moves its first occurrence to
      the end. */
  lemma AddThenRemove(of: Catalogue, s: State, lectures: Clock, discussions: Clock, c: Course)
    requires Consistent(of, s) && c.meeting == of(c.sectionID) && !Refused(lectures, discussions, s.week, c)
    ensures var t := Removed(Added(s, c), c);
            && t.week == s.week
            && t.classes == (if CountId(s.classes, c.sectionID) == 0 then s.classes
                             else WithoutId(s.classes, c.sectionID) + [c.sectionID])
            && (DaysOf(c.meeting[0].days) != [] ==> t == s)
  {
    var days := SectionDays(of)(c.sectionID);
    if days != [] && CountId(s.classes, c.sectionID) > 0 {
      ReAddRefused(of, s, lectures, discussions, c);
    }
    WithoutIdPushed(s.classes, c.sectionID);
    forall d | d in days ensures Count(s.week[d], c.sectionID) == 0 {
      assert ListedOn(SectionDays(of), s, d, c.sectionID);
    }
    UnplacedPlaced(s.week, days, c);
  }

  datatype Step = Add(course: Course) | Remove(course: Course)

  lemma StartsConsistent(of: Catalogue)
    ensures Consistent(of, State(EmptyWeek(), []))
  {
  }

  /** What one step makes of a schedule. */
  ghost function Took(lectures: Clock, discussions: Clock, s: State, step: Step): State
    requires step.course.meeting != []
  {
    match step
    case Add(c) => if Refused(lectures, discussions, s.week, c) then s else Added(s, c)
    case Remove(c) => Removed(s, c)
  }

  ghost predicate HaveMeetings(steps: seq<Step>) {
    forall i :: 0 <= i < |steps| ==> steps[i].course.meeting != []
  }

  /** What a run of steps makes of an empty schedule. */
  ghost function After(lectures: Clock, discussions: Clock, steps: seq<Step>): State
    requires HaveMeetings(steps)
  {
    if steps == [] then State(EmptyWeek(), [])
    else Took(lectures, discussions, After(lectures, discussions, steps[..|steps| - 1]), steps[|steps| - 1])
  }

  /** After any run of adds and removes of catalogued sections the schedule is consistent. */
  lemma {:induction false} RunKeeps(of: Catalogue, lectures: Clock, discussions: Clock, steps: seq<Step>)
    requires HaveMeetings(steps)
    requires forall i :: 0 <= i < |steps| ==> steps[i].course.meeting == of(steps[i].course.sectionID)
    ensures Consistent(of, After(lectures, discussions, steps))
  {
    if steps == [] {
      StartsConsistent(of);
    } else {
      var before, last := steps[..|steps| - 1], steps[|steps| - 1];
      RunKeeps(of, lectures, discussions, before);
      var s := After(lectures, discussions, before);
      if last.Remove? {
        RemoveKeeps(of, s, last.course);
      } else if !Refused(lectures, discussions, s.week, last.course) {
        AddKeeps(of, s, lectures, discussions, last.course);
      }
    }
  }

  ghost predicate Given(week: Week) {
    forall d: Day, i :: 0 <= i < |week[d]| ==> week[d][i].meeting != []
  }

  /** No step puts a section without a meeting on a day. */
  lemma TookGiven(lectures: Clock, discussions: Clock, s: State, step: Step)
    requires step.course.meeting != [] && Given(s.week)
    ensures Given(Took(lectures, discussions, s, step).week)
  {
    var t := Took(lectures, discussions, s, step);
    forall d: Day, i | 0 <= i < |t.week[d]| ensures t.week[d][i].meeting != [] {
      CountWithout(s.week[d], step.course.sectionID, step.course.sectionID);
      assert t.week[d][i] in s.week[d] || t.week[d][i] == step.course;
    }
  }

  /** Taking the steps one by one. */
  method Run(lectures: Clock, discussions: Clock, steps: seq<Step>) returns (model: ScheduleModel)
    requires HaveMeetings(steps)
    ensures model.Now() == After(lectures, discussions, steps)
  {
    model := new ScheduleModel(lectures, discussions);
    for i := 0 to |steps|
      invariant fresh(model) && model.lectures == lectures && model.discussions == discussions
      invariant Given(model.currSchedule) && model.Now() == After(lectures, discussions, steps[..i])
    {
      assert steps[..i + 1][..i] == steps[..i];
      Take(model, steps[i]);
    }
    assert steps[..|steps|] == steps;
  }

  method Take(model: ScheduleModel, step: Step)
    requires step.course.meeting != [] && Given(model.currSchedule)
    modifies model
    ensures Given(model.currSchedule)
    ensures model.Now() == Took(model.lectures, model.discussions, old(model.Now()), step)
  {
    TookGiven(model.lectures, model.discussions, model.Now(), step);
    match step
    case Add(c) => model.AddToSchedule(c);
    case Remove(c) => model.RemoveFromSchedule(c);
  }
}
