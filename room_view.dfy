/** One participant's local mirror of a room, as a value, and how each event
    changes it.  `Step` is the specification the `ClientView` class methods are
    proved against; `Replay` runs a whole sequence of events. */
module RoomView {
  import opened Protocol
  import StudentMap

  datatype View = View(
    selfId: string,                          // this connection's socket id
    roomId: string,                          // the room id from the page route
    isMentor: bool,
    userCount: int,
    studentCodeBlocks: map<string, string>,
    myCode: string,
    solutionCode: string,
    matchingStudents: seq<string>,
    outbox: seq<Outgoing>)                   // messages emitted so far, oldest first

  /** The page's state before any event. */
  function Initial(selfId: string, roomId: string): (v: View)
  {
    View(selfId, roomId, false, 0, map[], "", "", [], [])
  }

  /** The match test of a student save: exact string equality. */
  predicate Matches(myCode: string, solutionCode: string)
  {
    solutionCode == myCode
  }

  /** How the page's socket listeners change the view; none of them emits. */
  function OnMessage(v: View, msg: Incoming): (r: View)
    ensures r.selfId == v.selfId && r.roomId == v.roomId
    ensures r.outbox == v.outbox && r.matchingStudents == v.matchingStudents
  {
    match msg
    case AssignRole(role, count) =>
      v.(isMentor := role == MentorRole,
         userCount := count,
         myCode := if role != MentorRole then "" else v.myCode)
    case UserCountUpdated(count) =>
      v.(userCount := count)
    case NewStudentEditor(studentId, code) =>
      v.(studentCodeBlocks := StudentMap.Put(v.studentCodeBlocks, studentId, code))
    case RemoveStudentEditor(studentId) =>
      v.(studentCodeBlocks := StudentMap.Remove(v.studentCodeBlocks, studentId))
    case CodeUpdate(studentId, newCode) =>
      v.(studentCodeBlocks := StudentMap.Put(v.studentCodeBlocks, studentId, newCode))
    case MentorSolution(solution) =>
      v.(solutionCode := solution)
    case MentorLeft =>
      v
  }

  /** No trimming and no normalisation: a single space makes codes differ. */
  lemma MatchIsExact()
    ensures Matches("x=1", "x=1")
    ensures !Matches("x=1", "x =1")
    ensures !Matches("x=1 ", "x=1")
  {
  }

  /** One atomic handler run. */
  function Step(v: View, e: Event): (r: View)
    ensures r.selfId == v.selfId && r.roomId == v.roomId
    ensures v.outbox <= r.outbox && |r.outbox| <= |v.outbox| + 1
    ensures e.Receive? ==> r.outbox == v.outbox
    ensures v.matchingStudents <= r.matchingStudents
    ensures |r.matchingStudents| <= |v.matchingStudents| + 1
  {
    match e
    case Receive(msg) => OnMessage(v, msg)
    case CodeEdited(value) =>
      v.(myCode := value,
         outbox := if !v.isMentor then v.outbox + [CodeChange(v.roomId, value)] else v.outbox)
    case SolutionEdited(value) =>
      v.(solutionCode := value)
    case SaveClicked =>
      v.(outbox := v.outbox + [ShareSolution(v.roomId, v.solutionCode)])
    case StudentSaveClicked =>
      if Matches(v.myCode, v.solutionCode)
      then v.(matchingStudents := v.matchingStudents + [v.selfId])
      else v
    case Mount =>
      v.(outbox := v.outbox + [JoinRoom(v.roomId)])
    case Cleanup =>
      v.(outbox := v.outbox + [LeaveRoom(v.roomId)])
  }

  /** The view after handling the events of `t` in order. */
  function Replay(v: View, t: seq<Event>): (r: View)
    ensures r.selfId == v.selfId && r.roomId == v.roomId
    ensures v.outbox <= r.outbox && |r.outbox| <= |v.outbox| + |t|
    ensures v.matchingStudents <= r.matchingStudents
    decreases |t|
  {
    if t == [] then v else Replay(Step(v, t[0]), t[1..])
  }

  /** The congratulation panel is shown. */
  predicate ShowsCongratulations(v: View)
  {
    !v.isMentor && v.selfId in v.matchingStudents
  }

  /** The number of students the mentor's page displays. */
  function DisplayedStudentCount(v: View): (n: int)
  {
    v.userCount - 1
  }

  // ---------------------------------------------------------------------
  // Single-step properties

  /** A fresh page mounted and then torn down emits exactly a join and a
      leave, both for the page's own room. */
  lemma MountThenCleanup(selfId: string, roomId: string)
    ensures Step(Initial(selfId, roomId), Mount).outbox == [JoinRoom(roomId)]
    ensures Step(Step(Initial(selfId, roomId), Mount), Cleanup).outbox
            == [JoinRoom(roomId), LeaveRoom(roomId)]
  {
  }

  /** A student save shows the congratulation panel exactly when the page is
      a student's and either it already was shown or the codes are equal. */
  lemma StudentSaveCongratulates(v: View)
    ensures ShowsCongratulations(Step(v, StudentSaveClicked))
            <==> !v.isMentor && (v.selfId in v.matchingStudents || v.myCode == v.solutionCode)
  {
  }

  /** Two successful saves in a row record the own id twice. */
  lemma RepeatedSaveDuplicates(v: View)
    requires v.myCode == v.solutionCode
    ensures Step(Step(v, StudentSaveClicked), StudentSaveClicked).matchingStudents
            == v.matchingStudents + [v.selfId, v.selfId]
  {
  }

  /** A mentor role assignment hides the congratulation panel, and a later
      student role assignment shows it again: role assignment never clears
      the matching list. */
  lemma RoleSwitchHidesThenRestoresPanel(v: View, count1: int, role: string, count2: int)
    requires ShowsCongratulations(v)
    requires role != MentorRole
    ensures !ShowsCongratulations(Step(v, Receive(AssignRole(MentorRole, count1))))
    ensures ShowsCongratulations(Replay(v, [Receive(AssignRole(MentorRole, count1)),
                                            Receive(AssignRole(role, count2))]))
  {
    var w := Step(v, Receive(AssignRole(MentorRole, count1)));
    assert Replay(v, [Receive(AssignRole(MentorRole, count1)), Receive(AssignRole(role, count2))])
           == Replay(w, [Receive(AssignRole(role, count2))]);
    assert Replay(w, [Receive(AssignRole(role, count2))])
           == Replay(Step(w, Receive(AssignRole(role, count2))), []);
  }

  /** The event is a server message about one student's editor. */
  predicate EditsTable(e: Event)
  {
    e.Receive? && (e.msg.NewStudentEditor? || e.msg.RemoveStudentEditor? || e.msg.CodeUpdate?)
  }

  /** Editor messages never change the member count. */
  lemma {:induction false} EditorMessagesKeepCount(v: View, t: seq<Event>)
    requires forall i :: 0 <= i < |t| ==> EditsTable(t[i])
    ensures Replay(v, t).userCount == v.userCount
    decreases |t|
  {
    if t != [] {
      EditorMessagesKeepCount(Step(v, t[0]), t[1..]);
    }
  }

  /** The count the mentor sees comes from the server's count messages, not
      from the editor table, so the two can disagree: a mentor assigned with
      count 1 who then receives one new editor shows 0 students beside one
      editor. */
  lemma DisplayedCountIsNotEditorCount(selfId: string, roomId: string)
    ensures var v := Replay(Initial(selfId, roomId),
                            [Receive(AssignRole(MentorRole, 1)), Receive(NewStudentEditor("s", ""))]);
            && v.isMentor
            && DisplayedStudentCount(v) == 0
            && |v.studentCodeBlocks| == 1
  {
    var v0 := Initial(selfId, roomId);
    var v1 := Step(v0, Receive(AssignRole(MentorRole, 1)));
    var v2 := Step(v1, Receive(NewStudentEditor("s", "")));
    assert Replay(v0, [Receive(AssignRole(MentorRole, 1)), Receive(NewStudentEditor("s", ""))]) == v2 by {
      assert Replay(v1, [Receive(NewStudentEditor("s", ""))]) == Replay(v2, []);
    }
    assert v2.studentCodeBlocks == map["s" := ""];
  }

  /** A student's session: join, be assigned the student role, receive the
      mentor's solution, type the same code and save.  The page sends its
      join and its edit, and shows the congratulation panel. */
  lemma StudentScenario(selfId: string, roomId: string)
    ensures var v := Replay(Initial(selfId, roomId),
                            [Mount, Receive(AssignRole("student", 2)),
                             Receive(MentorSolution("let x=1")),
                             CodeEdited("let x=1"), StudentSaveClicked]);
            && v.outbox == [JoinRoom(roomId), CodeChange(roomId, "let x=1")]
            && v.matchingStudents == [selfId]
            && ShowsCongratulations(v)
  {
  }

  // ---------------------------------------------------------------------
  // Properties of whole event sequences

  /** Every message in the outbox is addressed to the page's room. */
  predicate OutboxForRoom(v: View)
  {
    forall i :: 0 <= i < |v.outbox| ==> v.outbox[i].roomId == v.roomId
  }

  /** Every id in the matching list is the page's own id. */
  predicate MatchingOnlySelf(v: View)
  {
    forall i :: 0 <= i < |v.matchingStudents| ==> v.matchingStudents[i] == v.selfId
  }

  /** The event is the server assigning this page the mentor role. */
  predicate MakesMentor(e: Event)
  {
    e.Receive? && e.msg.AssignRole? && e.msg.role == MentorRole
  }

  /** No event of `t` assigns the mentor role. */
  predicate NoMentorAssignment(t: seq<Event>)
  {
    forall i :: 0 <= i < |t| ==> !MakesMentor(t[i])
  }

  /** The student ids that events of `t` add to the editor table. */
  function AnnouncedIds(t: seq<Event>): (ids: set<string>)
    decreases |t|
  {
    if t == [] then {}
    else
      (match t[0]
       case Receive(NewStudentEditor(id, _)) => {id}
       case Receive(CodeUpdate(id, _)) => {id}
       case _ => {})
      + AnnouncedIds(t[1..])
  }

  /** Messages from the server never make the page emit anything. */
  lemma {:induction false} IncomingSilent(v: View, t: seq<Event>)
    requires forall i :: 0 <= i < |t| ==> t[i].Receive?
    ensures Replay(v, t).outbox == v.outbox
    decreases |t|
  {
    if t != [] {
      IncomingSilent(Step(v, t[0]), t[1..]);
    }
  }

  /** Each emitted message carries the page's own room id. */
  lemma {:induction false} OutboxStaysForRoom(v: View, t: seq<Event>)
    requires OutboxForRoom(v)
    ensures OutboxForRoom(Replay(v, t))
    decreases |t|
  {
    if t != [] {
      OutboxStaysForRoom(Step(v, t[0]), t[1..]);
    }
  }

  /** The page only ever records its own id as matching. */
  lemma {:induction false} MatchingStaysSelf(v: View, t: seq<Event>)
    requires MatchingOnlySelf(v)
    ensures MatchingOnlySelf(Replay(v, t))
    decreases |t|
  {
    if t != [] {
      var w := Step(v, t[0]);
      assert MatchingOnlySelf(w);
      MatchingStaysSelf(w, t[1..]);
    }
  }

  /** Without a student save the matching list does not change. */
  lemma {:induction false} MatchingNeedsStudentSave(v: View, t: seq<Event>)
    requires StudentSaveClicked !in t
    ensures Replay(v, t).matchingStudents == v.matchingStudents
    decreases |t|
  {
    if t != [] {
      assert StudentSaveClicked !in t[1..];
      MatchingNeedsStudentSave(Step(v, t[0]), t[1..]);
    }
  }

  /** Once shown, the congratulation panel stays until the page is made mentor. */
  lemma {:induction false} CongratulationsPersist(v: View, t: seq<Event>)
    requires ShowsCongratulations(v)
    requires NoMentorAssignment(t)
    ensures ShowsCongratulations(Replay(v, t))
    decreases |t|
  {
    if t != [] {
      var w := Step(v, t[0]);
      assert !MakesMentor(t[0]);
      assert v.selfId in w.matchingStudents by {
        assert v.matchingStudents <= w.matchingStudents;
      }
      assert NoMentorAssignment(t[1..]) by {
        forall i | 0 <= i < |t[1..]|
          ensures !MakesMentor(t[1..][i])
        {
          assert t[1..][i] == t[i + 1];
        }
      }
      CongratulationsPersist(w, t[1..]);
    }
  }

  /** The editor table only ever holds ids it held before or ids the server
      announced. */
  lemma {:induction false} EditorsAreAnnounced(v: View, t: seq<Event>)
    ensures Replay(v, t).studentCodeBlocks.Keys <= v.studentCodeBlocks.Keys + AnnouncedIds(t)
    decreases |t|
  {
    if t != [] {
      var w := Step(v, t[0]);
      EditorsAreAnnounced(w, t[1..]);
      assert w.studentCodeBlocks.Keys <= v.studentCodeBlocks.Keys + AnnouncedIds([t[0]]);
      assert AnnouncedIds(t) == AnnouncedIds([t[0]]) + AnnouncedIds(t[1..]);
    }
  }

  /** From a fresh page, for any events: every emitted message is for the
      page's room, the only id ever recorded as matching is the page's own,
      and the congratulation panel is shown only after a student save. */
  lemma FromInitial(selfId: string, roomId: string, t: seq<Event>)
    ensures OutboxForRoom(Replay(Initial(selfId, roomId), t))
    ensures MatchingOnlySelf(Replay(Initial(selfId, roomId), t))
    ensures ShowsCongratulations(Replay(Initial(selfId, roomId), t)) ==> StudentSaveClicked in t
  {
    var v := Initial(selfId, roomId);
    OutboxStaysForRoom(v, t);
    MatchingStaysSelf(v, t);
    if StudentSaveClicked !in t {
      MatchingNeedsStudentSave(v, t);
    }
  }
}
