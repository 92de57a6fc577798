/** The code-block page of one participant, as an object whose fields the
    socket listeners and the user-action handlers update in place.  Each
    method is one atomic handler run: its `modifies` clause names exactly the
    fields it may change, its `ensures` say what they become, and its last
    `ensures` ties it to `RoomView.Step`, so that the lemmas about event
    sequences in `RoomView` speak about this object too. */
module Client {
  import opened Protocol
  import StudentMap
  import RoomView

  class ClientView {
    const selfId: string
    const roomId: string
    var isMentor: bool
    var userCount: int
    var studentCodeBlocks: map<string, string>
    var myCode: string
    var solutionCode: string
    var matchingStudents: seq<string>
    var outbox: seq<Outgoing>

    /** The object's state as a value. */
    function Snapshot(): (v: RoomView.View)
      reads this
    {
      RoomView.View(selfId, roomId, isMentor, userCount, studentCodeBlocks,
                    myCode, solutionCode, matchingStudents, outbox)
    }

    /** The page's initial state, before it has joined its room. */
    constructor (selfId: string, roomId: string)
      ensures this.selfId == selfId && this.roomId == roomId
      ensures !isMentor && userCount == 0 && studentCodeBlocks == map[]
      ensures myCode == "" && solutionCode == "" && matchingStudents == [] && outbox == []
      ensures Snapshot() == RoomView.Initial(selfId, roomId)
    {
      this.selfId := selfId;
      this.roomId := roomId;
      isMentor := false;
      userCount := 0;
      studentCodeBlocks := map[];
      myCode := "";
      solutionCode := "";
      matchingStudents := [];
      outbox := [];
    }

    // ---- lifecycle ---------------------------------------------------

    /** Mounting joins the room. */
    method Mount()
      modifies this`outbox
      ensures outbox == old(outbox) + [JoinRoom(roomId)]
      ensures Snapshot() == RoomView.Step(old(Snapshot()), Event.Mount)
    {
      outbox := outbox + [JoinRoom(roomId)];
    }

    /** Tearing the page down leaves the same room. */
    method Cleanup()
      modifies this`outbox
      ensures outbox == old(outbox) + [LeaveRoom(roomId)]
      ensures Snapshot() == RoomView.Step(old(Snapshot()), Event.Cleanup)
    {
      outbox := outbox + [LeaveRoom(roomId)];
    }

    // ---- messages from the server ------------------------------------

    method AssignRole(role: string, count: int)
      modifies this`isMentor, this`userCount, this`myCode
      ensures isMentor <==> role == MentorRole
      ensures userCount == count
      ensures myCode == if role == MentorRole then old(myCode) else ""
      ensures Snapshot() == RoomView.Step(old(Snapshot()), Receive(Incoming.AssignRole(role, count)))
    {
      isMentor := role == MentorRole;
      userCount := count;
      if role != MentorRole {
        myCode := "";
      }
    }

    method UserCountUpdated(count: int)
      modifies this`userCount
      ensures userCount == count
      ensures Snapshot() == RoomView.Step(old(Snapshot()), Receive(Incoming.UserCountUpdated(count)))
    {
      userCount := count;
    }

    method NewStudentEditor(studentId: string, code: string)
      modifies this`studentCodeBlocks
      ensures studentId in studentCodeBlocks && studentCodeBlocks[studentId] == code
      ensures studentCodeBlocks.Keys == old(studentCodeBlocks.Keys) + {studentId}
      ensures forall k :: k in old(studentCodeBlocks) && k != studentId ==>
                studentCodeBlocks[k] == old(studentCodeBlocks[k])
      ensures Snapshot() == RoomView.Step(old(Snapshot()), Receive(Incoming.NewStudentEditor(studentId, code)))
    {
      studentCodeBlocks := StudentMap.Put(studentCodeBlocks, studentId, code);
    }

    method RemoveStudentEditor(studentId: string)
      modifies this`studentCodeBlocks
      ensures studentId !in studentCodeBlocks
      ensures studentCodeBlocks.Keys == old(studentCodeBlocks.Keys) - {studentId}
      ensures forall k :: k in studentCodeBlocks ==> studentCodeBlocks[k] == old(studentCodeBlocks[k])
      ensures studentId !in old(studentCodeBlocks) ==> studentCodeBlocks == old(studentCodeBlocks)
      ensures Snapshot() == RoomView.Step(old(Snapshot()), Receive(Incoming.RemoveStudentEditor(studentId)))
    {
      studentCodeBlocks := StudentMap.Remove(studentCodeBlocks, studentId);
    }

    method CodeUpdate(studentId: string, newCode: string)
      modifies this`studentCodeBlocks
      ensures studentId in studentCodeBlocks && studentCodeBlocks[studentId] == newCode
      ensures studentCodeBlocks.Keys == old(studentCodeBlocks.Keys) + {studentId}
      ensures forall k :: k in old(studentCodeBlocks) && k != studentId ==>
                studentCodeBlocks[k] == old(studentCodeBlocks[k])
      ensures Snapshot() == RoomView.Step(old(Snapshot()), Receive(Incoming.CodeUpdate(studentId, newCode)))
    {
      studentCodeBlocks := StudentMap.Put(studentCodeBlocks, studentId, newCode);
    }

    method MentorSolution(mentorSolution: string)
      modifies this`solutionCode
      ensures solutionCode == mentorSolution
      ensures Snapshot() == RoomView.Step(old(Snapshot()), Receive(Incoming.MentorSolution(mentorSolution)))
    {
      solutionCode := mentorSolution;
    }

    // ---- user actions ------------------------------------------------

    /** An edit of the own code buffer; a student's edit is sent to the room. */
    method HandleCodeChange(value: string)
      modifies this`myCode, this`outbox
      ensures myCode == value
      ensures outbox == if old(isMentor) then old(outbox) else old(outbox) + [CodeChange(roomId, value)]
      ensures Snapshot() == RoomView.Step(old(Snapshot()), CodeEdited(value))
    {
      myCode := value;
      if !isMentor {
        outbox := outbox + [CodeChange(roomId, value)];
      }
    }

    /** An edit of the solution text; nothing is sent until it is saved. */
    method HandleSolutionChange(value: string)
      modifies this`solutionCode
      ensures solutionCode == value
      ensures Snapshot() == RoomView.Step(old(Snapshot()), SolutionEdited(value))
    {
      solutionCode := value;
    }

    /** Publishing the current solution text to the room. */
    method HandleSave()
      modifies this`outbox
      ensures outbox == old(outbox) + [ShareSolution(roomId, solutionCode)]
      ensures Snapshot() == RoomView.Step(old(Snapshot()), SaveClicked)
    {
      var mentorSolution := solutionCode;
      outbox := outbox + [ShareSolution(roomId, mentorSolution)];
    }

    /** Checking the own code against the mentor's solution; a match records
        the own id, again on every further match. */
    method HandleStudentSave()
      modifies this`matchingStudents
      ensures matchingStudents == if solutionCode == myCode
                                  then old(matchingStudents) + [selfId]
                                  else old(matchingStudents)
      ensures Snapshot() == RoomView.Step(old(Snapshot()), StudentSaveClicked)
    {
      if solutionCode == myCode {
        matchingStudents := matchingStudents + [selfId];
      }
    }
  }

  /** A student's page for one session on a `ClientView` object: mount, be
      assigned the student role, receive the solution, type the same code,
      save, tear down.  The object's state is the `RoomView.Replay` of those
      events, so the sequence lemmas of `RoomView` hold of it. */
  method StudentSession(selfId: string, roomId: string) returns (sent: seq<Outgoing>, congratulated: bool)
    ensures sent == [JoinRoom(roomId), CodeChange(roomId, "let x=1"), LeaveRoom(roomId)]
    ensures congratulated
  {
    var page := new ClientView(selfId, roomId);
    page.Mount();
    page.AssignRole("student", 2);
    page.MentorSolution("let x=1");
    page.HandleCodeChange("let x=1");
    page.HandleStudentSave();
    ghost var t := [Event.Mount, Receive(Incoming.AssignRole("student", 2)),
                    Receive(Incoming.MentorSolution("let x=1")),
                    CodeEdited("let x=1"), StudentSaveClicked];
    assert page.Snapshot() == RoomView.Replay(RoomView.Initial(selfId, roomId), t) by {
      RoomView.StudentScenario(selfId, roomId);
    }
    RoomView.FromInitial(selfId, roomId, t);
    congratulated := !page.isMentor && selfId in page.matchingStudents;
    page.Cleanup();
    sent := page.outbox;
  }
}
