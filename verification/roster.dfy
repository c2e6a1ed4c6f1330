/** The activity rosters and the signup/unregister rules (src/app.py). */
module Roster {
  import opened Http
  import opened Models
  import opened Sequences
  import Auth

  /** One activity: a capacity and the participants' emails in signup order. */
  datatype Activity = Activity(
    description: string,
    schedule: string,
    maxParticipants: int,
    participants: seq<string>)

  /** The `activities` dict, keyed by activity name. */
  type Activities = map<string, Activity>

  /** An activity within capacity and without a repeated participant. */
  predicate ActivityValid(a: Activity) {
    |a.participants| <= a.maxParticipants && NoDuplicates(a.participants)
  }

  /** Every activity is within capacity and without a repeated participant. */
  predicate RosterValid(acts: Activities) {
    forall name :: name in acts ==> ActivityValid(acts[name])
  }

  /** The nine activities the service starts with. */
  const SeedActivities: Activities := map[
    "Chess Club" := Activity(
      "Learn strategies and compete in chess tournaments",
      "Fridays, 3:30 PM - 5:00 PM", 12,
      ["michael@mergington.edu", "daniel@mergington.edu"]),
    "Programming Class" := Activity(
      "Learn programming fundamentals and build software projects",
      "Tuesdays and Thursdays, 3:30 PM - 4:30 PM", 20,
      ["emma@mergington.edu", "sophia@mergington.edu"]),
    "Gym Class" := Activity(
      "Physical education and sports activities",
      "Mondays, Wednesdays, Fridays, 2:00 PM - 3:00 PM", 30,
      ["john@mergington.edu", "olivia@mergington.edu"]),
    "Soccer Team" := Activity(
      "Join the school soccer team and compete in matches",
      "Tuesdays and Thursdays, 4:00 PM - 5:30 PM", 22,
      ["liam@mergington.edu", "noah@mergington.edu"]),
    "Basketball Team" := Activity(
      "Practice and play basketball with the school team",
      "Wednesdays and Fridays, 3:30 PM - 5:00 PM", 15,
      ["ava@mergington.edu", "mia@mergington.edu"]),
    "Art Club" := Activity(
      "Explore your creativity through painting and drawing",
      "Thursdays, 3:30 PM - 5:00 PM", 15,
      ["amelia@mergington.edu", "harper@mergington.edu"]),
    "Drama Club" := Activity(
      "Act, direct, and produce plays and performances",
      "Mondays and Wednesdays, 4:00 PM - 5:30 PM", 20,
      ["ella@mergington.edu", "scarlett@mergington.edu"]),
    "Math Club" := Activity(
      "Solve challenging problems and participate in math competitions",
      "Tuesdays, 3:30 PM - 4:30 PM", 10,
      ["james@mergington.edu", "benjamin@mergington.edu"]),
    "Debate Team" := Activity(
      "Develop public speaking and argumentation skills",
      "Fridays, 4:00 PM - 5:30 PM", 12,
      ["charlotte@mergington.edu", "henry@mergington.edu"])
  ]

  /** The seeded rosters are within capacity and free of repeats. */
  lemma SeedActivitiesValid()
    ensures RosterValid(SeedActivities)
  {
  }

  /** `signup_for_activity` for the resolved caller `user`. The guards run in a
      fixed order: role, then existence, then membership, then capacity. On
      success the caller's email goes to the end of that one roster. */
  function Signup(acts: Activities, user: Auth.UserRecord, name: string): (r: Result<Activities>)
    ensures user.role != Student ==> r == Err(OnlyStudentsMaySignUp)
    ensures user.role == Student && name !in acts ==> r == Err(ActivityNotFound)
    ensures (user.role == Student && name in acts && user.email in acts[name].participants)
              ==> r == Err(AlreadySignedUp)
    ensures (&& user.role == Student && name in acts && user.email !in acts[name].participants
             && |acts[name].participants| >= acts[name].maxParticipants)
              ==> r == Err(ActivityFull)
    ensures r.Ok? <==> (&& user.role == Student && name in acts
                        && user.email !in acts[name].participants
                        && |acts[name].participants| < acts[name].maxParticipants)
    ensures r.Ok? ==> r.value.Keys == acts.Keys
    ensures r.Ok? ==> forall other :: other in acts && other != name ==> r.value[other] == acts[other]
    ensures r.Ok? ==> var before, after := acts[name], r.value[name];
              && after.participants == before.participants + [user.email]
              && after == before.(participants := after.participants)
  {
    if user.role != Student then Err(OnlyStudentsMaySignUp)
    else if name !in acts then Err(ActivityNotFound)
    else
      var activity := acts[name];
      if user.email in activity.participants then Err(AlreadySignedUp)
      else if |activity.participants| >= activity.maxParticipants then Err(ActivityFull)
      else Ok(acts[name := activity.(participants := activity.participants + [user.email])])
  }

  /** `unregister_from_activity` for the resolved caller `user`: no role check;
      existence, then membership; on success exactly that email leaves that roster. */
  function Unregister(acts: Activities, user: Auth.UserRecord, name: string): (r: Result<Activities>)
    ensures name !in acts ==> r == Err(ActivityNotFound)
    ensures name in acts && user.email !in acts[name].participants ==> r == Err(NotSignedUp)
    ensures r.Ok? <==> name in acts && user.email in acts[name].participants
    ensures r.Ok? ==> r.value.Keys == acts.Keys
    ensures r.Ok? ==> forall other :: other in acts && other != name ==> r.value[other] == acts[other]
    ensures r.Ok? ==> var before, after := acts[name], r.value[name];
              && multiset(after.participants) == multiset(before.participants) - multiset{user.email}
              && after == before.(participants := after.participants)
    ensures r.Ok? ==> var p := acts[name].participants;
              exists i :: && 0 <= i < |p| && p[i] == user.email && user.email !in p[..i]
                          && r.value[name].participants == p[..i] + p[i + 1..]
  {
    if name !in acts then Err(ActivityNotFound)
    else
      var activity := acts[name];
      var p := activity.participants;
      if user.email !in p then Err(NotSignedUp)
      else
        var i := FirstIndex(p, user.email);
        RemoveFirstAtFirstIndex(p, user.email);
        assert RemoveFirst(p, user.email) == p[..i] + p[i + 1..];
        Ok(acts[name := activity.(participants := RemoveFirst(p, user.email))])
  }

  /** A successful signup keeps every roster within capacity and free of repeats. */
  lemma SignupPreservesRosterValid(acts: Activities, user: Auth.UserRecord, name: string)
    requires RosterValid(acts)
    requires Signup(acts, user, name).Ok?
    ensures RosterValid(Signup(acts, user, name).value)
  {
  }

  /** A successful unregister keeps every roster within capacity and free of
      repeats, and the email is then absent from that roster. */
  lemma UnregisterPreservesRosterValid(acts: Activities, user: Auth.UserRecord, name: string)
    requires RosterValid(acts)
    requires Unregister(acts, user, name).Ok?
    ensures RosterValid(Unregister(acts, user, name).value)
    ensures user.email !in Unregister(acts, user, name).value[name].participants
  {
    RemoveFirstNoDuplicates(acts[name].participants, user.email);
    var after := Unregister(acts, user, name).value;
    assert ActivityValid(after[name]);
  }

  /** Unregistering right after a successful signup restores the rosters exactly. */
  lemma SignupUnregisterRoundTrip(acts: Activities, user: Auth.UserRecord, name: string)
    requires Signup(acts, user, name).Ok?
    ensures Unregister(Signup(acts, user, name).value, user, name) == Ok(acts)
  {
    var activity := acts[name];
    RemoveFirstOfAppended(activity.participants, user.email);
    var after := Signup(acts, user, name).value;
    assert after[name := activity] == acts;
  }

  /** Signing up twice: the second attempt is refused and adds nothing. */
  lemma SignupTwiceRejected(acts: Activities, user: Auth.UserRecord, name: string)
    requires Signup(acts, user, name).Ok?
    ensures Signup(Signup(acts, user, name).value, user, name) == Err(AlreadySignedUp)
  {
  }

  /** The signups of `students`, one after another, stopping at the first refusal. */
  function SignupAll(acts: Activities, students: seq<Auth.UserRecord>, name: string): Result<Activities>
    decreases |students|
  {
    if students == [] then Ok(acts)
    else
      match Signup(acts, students[0], name)
      case Err(e) => Err(e)
      case Ok(next) => SignupAll(next, students[1..], name)
  }

  /** The emails of `users`, in order. */
  function Emails(users: seq<Auth.UserRecord>): (es: seq<string>)
    ensures |es| == |users|
  {
    if users == [] then [] else [users[0].email] + Emails(users[1..])
  }

  /** `students` are students, none of them yet on `a`'s roster, no two with the
      same email. */
  predicate FreshStudents(a: Activity, students: seq<Auth.UserRecord>) {
    && (forall i :: 0 <= i < |students| ==> students[i].role == Student)
    && (forall i, j :: 0 <= i < j < |students| ==> students[i].email != students[j].email)
    && (forall i :: 0 <= i < |students| ==> students[i].email !in a.participants)
  }

  /** Fresh students, and a place for each of them. */
  predicate RoomForAll(a: Activity, students: seq<Auth.UserRecord>) {
    FreshStudents(a, students) && |a.participants| + |students| <= a.maxParticipants
  }

  /** Dropping the last of a group of fresh students leaves a fresh group, which
      the last one is not part of. */
  lemma FreshStudentsPrefix(a: Activity, students: seq<Auth.UserRecord>, extra: Auth.UserRecord)
    requires FreshStudents(a, students + [extra])
    ensures FreshStudents(a, students)
    ensures extra.role == Student && extra.email !in a.participants
    ensures forall i :: 0 <= i < |students| ==> students[i].email != extra.email
  {
    var all := students + [extra];
    assert extra == all[|students|];
    assert forall i :: 0 <= i < |students| ==> students[i] == all[i];
  }

  /** The emails of fresh students are not among the roster's, nor repeated. */
  lemma {:induction false} FreshStudentsEmails(a: Activity, students: seq<Auth.UserRecord>, x: string)
    requires FreshStudents(a, students)
    requires x in Emails(students)
    ensures x !in a.participants
    ensures exists i :: 0 <= i < |students| && students[i].email == x
  {
    if x != students[0].email {
      assert FreshStudents(a, students[1..]) by {
        assert forall i :: 0 <= i < |students| - 1 ==> students[1..][i] == students[i + 1];
      }
      FreshStudentsEmails(a, students[1..], x);
      var i :| 0 <= i < |students[1..]| && students[1..][i].email == x;
      assert students[i + 1].email == x;
    }
  }

  /** After the first of them joins, there is still room for the rest. */
  lemma RoomForAllStep(a: Activity, students: seq<Auth.UserRecord>)
    requires students != [] && RoomForAll(a, students)
    ensures RoomForAll(a.(participants := a.participants + [students[0].email]), students[1..])
  {
  }

  /** A student not yet on a roster with a free place joins it at the end. */
  lemma SignupFresh(acts: Activities, user: Auth.UserRecord, name: string)
    requires name in acts && user.role == Student
    requires user.email !in acts[name].participants
    requires |acts[name].participants| < acts[name].maxParticipants
    ensures Signup(acts, user, name)
         == Ok(acts[name := acts[name].(participants := acts[name].participants + [user.email])])
  {
  }

  /** New, distinct students fill an activity one by one up to its capacity: while
      there is room, each signup succeeds and the roster grows by exactly their emails. */
  lemma {:induction false} SignupAllWithinCapacity(acts: Activities, students: seq<Auth.UserRecord>, name: string)
    requires name in acts && RoomForAll(acts[name], students)
    ensures SignupAll(acts, students, name).Ok?
    ensures var after := SignupAll(acts, students, name).value;
            name in after && after[name].participants == acts[name].participants + Emails(students)
            && after[name].maxParticipants == acts[name].maxParticipants
  {
    if students != [] {
      var s := students[0];
      var a := acts[name];
      var joined := a.(participants := a.participants + [s.email]);
      RoomForAllStep(a, students);
      SignupFresh(acts, s, name);
      assert SignupAll(acts, students, name) == SignupAll(acts[name := joined], students[1..], name);
      SignupAllWithinCapacity(acts[name := joined], students[1..], name);
      assert Emails(students) == [s.email] + Emails(students[1..]);
      assert a.participants + [s.email] + Emails(students[1..])
          == a.participants + ([s.email] + Emails(students[1..]));
    }
  }

  /** A full activity refuses any further new student. */
  lemma FullActivityRefuses(acts: Activities, user: Auth.UserRecord, name: string)
    requires name in acts && user.role == Student
    requires user.email !in acts[name].participants
    requires |acts[name].participants| == acts[name].maxParticipants
    ensures Signup(acts, user, name) == Err(ActivityFull)
  {
  }

  /** Once new, distinct students have taken every free place, the next new student
      is refused because the activity is full. */
  lemma FillThenFull(acts: Activities, students: seq<Auth.UserRecord>, extra: Auth.UserRecord, name: string)
    requires name in acts && FreshStudents(acts[name], students + [extra])
    requires |acts[name].participants| + |students| == acts[name].maxParticipants
    ensures SignupAll(acts, students, name).Ok?
    ensures Signup(SignupAll(acts, students, name).value, extra, name) == Err(ActivityFull)
  {
    FreshStudentsPrefix(acts[name], students, extra);
    SignupAllWithinCapacity(acts, students, name);
    var after := SignupAll(acts, students, name).value;
    if extra.email in Emails(students) {
      FreshStudentsEmails(acts[name], students, extra.email);
    }
    assert extra.email !in after[name].participants;
  }

  /** The seeded "Chess Club": twelve places, two taken. */
  lemma SeedChessClub()
    ensures "Chess Club" in SeedActivities
    ensures SeedActivities["Chess Club"].maxParticipants == 12
    ensures SeedActivities["Chess Club"].participants == ["michael@mergington.edu", "daniel@mergington.edu"]
  {
  }

  /** "Chess Club" starts with two of twelve places taken: ten new students all get
      in, and an eleventh new student is then refused because it is full. */
  lemma ChessClubFillsUp(ten: seq<Auth.UserRecord>, eleventh: Auth.UserRecord)
    requires |ten| == 10
    requires FreshStudents(SeedActivities["Chess Club"], ten + [eleventh])
    ensures SignupAll(SeedActivities, ten, "Chess Club").Ok?
    ensures Signup(SignupAll(SeedActivities, ten, "Chess Club").value, eleventh, "Chess Club") == Err(ActivityFull)
  {
    SeedChessClub();
    FillThenFull(SeedActivities, ten, eleventh, "Chess Club");
  }

  /** The seeded "Math Club": ten places, two taken. */
  lemma SeedMathClub()
    ensures "Math Club" in SeedActivities
    ensures SeedActivities["Math Club"].maxParticipants == 10
    ensures SeedActivities["Math Club"].participants == ["james@mergington.edu", "benjamin@mergington.edu"]
  {
  }

  /** Unregistering from "Math Club" someone who never signed up for it is refused,
      whatever their role. */
  lemma MathClubUnknownNotSignedUp(user: Auth.UserRecord)
    requires user.email != "james@mergington.edu" && user.email != "benjamin@mergington.edu"
    ensures Unregister(SeedActivities, user, "Math Club") == Err(NotSignedUp)
  {
  }
}
