/** The messages one participant's page exchanges with the room server, and
    the user actions and lifecycle steps that drive the page.  Field names
    follow the wire payloads. */
module Protocol {

  /** The role name the server sends to the first joiner of a room. */
  const MentorRole: string := "mentor"

  /** Messages the page sends to the server.  `ShareSolution` is the wire
      message `mentorSolution` in the client-to-server direction. */
  datatype Outgoing =
    | JoinRoom(roomId: string)
    | LeaveRoom(roomId: string)
    | CodeChange(roomId: string, newCode: string)
    | ShareSolution(roomId: string, mentorSolution: string)

  /** Messages the server pushes to the page. */
  datatype Incoming =
    | AssignRole(role: string, count: int)
    | UserCountUpdated(count: int)
    | NewStudentEditor(studentId: string, code: string)
    | RemoveStudentEditor(studentId: string)
    | CodeUpdate(studentId: string, newCode: string)
    | MentorSolution(mentorSolution: string)
    | MentorLeft

  /** Everything that can happen to the page: a message from the server, an
      edit or a button press by the user, or the page being mounted or torn
      down. */
  datatype Event =
    | Receive(msg: Incoming)
    | CodeEdited(value: string)
    | SolutionEdited(value: string)
    | SaveClicked
    | StudentSaveClicked
    | Mount
    | Cleanup
}
