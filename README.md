# Code-block room: one participant's page

This project models the client side of a collaborative code-block room. In
`src/CodeBlockPage.js` one participant's page keeps a local mirror of its room up to date:

- whether this participant is the mentor,
- the room's member count,
- the mentor's table of student editors (student id to code),
- the participant's own code,
- the mentor's solution,
- the list of ids recorded as matching the solution.

The page changes this mirror when a server message arrives (`assignRole`,
`userCountUpdated`, `newStudentEditor`, `removeStudentEditor`, `codeUpdate`,
`mentorSolution`) and when the user edits the own code or the solution or
checks the own code against the solution. Mounting, tearing down and saving
the solution change no field; they only send a message to the server
(`joinRoom`, `leaveRoom`, `mentorSolution`), and an edit of a student's own
code also sends `codeChange`. The `mentorLeft` message only shows an alert.

Files and modules:

- `protocol.dfy` (`Protocol`): the wire messages in both directions, and the
  events that drive the page. The client-to-server `mentorSolution` message is
  called `ShareSolution` here, so that it does not clash with the incoming
  message of the same wire name.
- `student_map.dfy` (`StudentMap`): the two copy-and-update expressions on the
  student table, as pure functions on `map<string, string>`, with their laws.
- `room_view.dfy` (`RoomView`): the mirror as a value `View`. `Step` is one
  handler run and `Replay` a run of many events. It also holds the match test,
  the two display expressions, and lemmas about single steps and whole event
  sequences.
- `client_view.dfy` (`Client`): the class `ClientView`. Its mutable fields are
  the page's state variables. It has one method per handler. Each method names
  in `modifies` exactly the fields it changes and states their new values. Each
  method also ensures `Snapshot() == RoomView.Step(old(Snapshot()), e)`, so the
  sequence lemmas of `RoomView` apply to the object; `Client.StudentSession`
  shows this for one session.

Outgoing `socket.emit` calls are appends to an `outbox` sequence. Incoming
socket events are method calls. The socket id and the route's room id are
constructor parameters, fixed for the life of the object.

## Model

| member | source | states |
|---|---|---|
| Client.ClientView.constructor | src/CodeBlockPage.js:24-29 | the initial page: not mentor, count 0, empty student table, empty own code and solution, empty matching list, nothing sent |
| Client.ClientView.Mount | src/CodeBlockPage.js:51 | mounting appends exactly `joinRoom{roomId}`; no other field changes |
| Client.ClientView.Cleanup | src/CodeBlockPage.js:95 | teardown appends exactly `leaveRoom{roomId}` with the same room id; no other field changes |
| Client.ClientView.AssignRole | src/CodeBlockPage.js:54-60 | mentor flag true iff role is "mentor"; count set; own code cleared only for a non-mentor role and kept for a mentor; nothing else changes |
| Client.ClientView.UserCountUpdated | src/CodeBlockPage.js:62-64 | sets the count and nothing else |
| Client.ClientView.NewStudentEditor | src/CodeBlockPage.js:67-69 | the id is present with exactly the given code; the key set gains only that id; every other entry is unchanged; nothing else changes |
| Client.ClientView.RemoveStudentEditor | src/CodeBlockPage.js:71-77 | the id is absent; the key set loses only that id; other entries are unchanged; an absent id leaves the table equal to before |
| Client.ClientView.CodeUpdate | src/CodeBlockPage.js:79-81 | same as a new editor: the id maps to the new code; all other entries are unchanged |
| Client.ClientView.MentorSolution | src/CodeBlockPage.js:84-86 | sets the solution and nothing else |
| Client.ClientView.HandleCodeChange | src/CodeBlockPage.js:112-118 | own code set to the edit; `codeChange{roomId, newCode}` appended iff not mentor, else the outbox is unchanged |
| Client.ClientView.HandleSolutionChange | src/CodeBlockPage.js:121-124 | sets the solution and sends nothing |
| Client.ClientView.HandleSave | src/CodeBlockPage.js:127-131 | appends exactly `mentorSolution{roomId, solution}` with the current solution; no state changes |
| Client.ClientView.HandleStudentSave | src/CodeBlockPage.js:134-142 | appends the own id to the matching list iff own code equals the solution exactly; otherwise the list is unchanged |
| StudentMap.Put | src/CodeBlockPage.js:68 | the id maps to the code afterwards, the key set is the old one plus the id, and every other key keeps its value |
| StudentMap.Remove | src/CodeBlockPage.js:72-76 | the id is absent afterwards, the key set is the old one minus the id, and every remaining key keeps its value |
| StudentMap.RemoveIdempotent | src/CodeBlockPage.js:71-77 | removing an absent id changes nothing; removing twice equals removing once |
| StudentMap.PutOverwrites | src/CodeBlockPage.js:67-81 | a code update after a new editor leaves only the latest code |
| StudentMap.RemoveUndoesPut | src/CodeBlockPage.js:67-77 | an editor added and then removed leaves the table as if it had never been added |
| StudentMap.PutsOnDistinctIdsCommute | src/CodeBlockPage.js:79-81 | updates to two different students can arrive in either order with the same result |
| RoomView.OnMessage | src/CodeBlockPage.js:54-91 | no server message makes the page send anything or touch the matching list, and none changes its own ids |
| RoomView.Step | src/CodeBlockPage.js:54-142 | every handler keeps the ids, only appends to the outbox (at most one message), never sends on a server message, and only appends to the matching list (at most one id) |
| RoomView.Replay | src/CodeBlockPage.js:54-142 | over a run of events the ids never change, the outbox and the matching list only grow, and at most one message is sent per event |
| RoomView.MatchIsExact | src/CodeBlockPage.js:137 | the match test is exact string equality: no trimming and no normalisation |
| RoomView.MountThenCleanup | src/CodeBlockPage.js:49-95 | a fresh page mounted and torn down sends exactly `joinRoom` then `leaveRoom`, both for its own room |
| RoomView.StudentSaveCongratulates | src/CodeBlockPage.js:134-142 | after a student save the congratulation panel shows iff the page is a student's and either the own id was already recorded or the own code equals the solution |
| RoomView.RepeatedSaveDuplicates | src/CodeBlockPage.js:138 | two successful saves record the own id twice |
| RoomView.RoleSwitchHidesThenRestoresPanel | src/CodeBlockPage.js:54-60 | a mentor role assignment hides a shown congratulation panel, and a later student role assignment shows it again, since role assignment never clears the matching list (panel test at line 205) |
| RoomView.EditorMessagesKeepCount | src/CodeBlockPage.js:67-81 | any run of editor messages leaves the member count unchanged |
| RoomView.DisplayedCountIsNotEditorCount | src/CodeBlockPage.js:188 | the displayed student count is the server's count minus one, not the table size: a mentor assigned with count 1 who then gets one new editor shows 0 students beside one editor |
| RoomView.StudentScenario | src/CodeBlockPage.js:51-142 | join, student role, solution received, same code typed and saved: the page sent the join and the edit and shows the panel |
| RoomView.IncomingSilent | src/CodeBlockPage.js:54-91 | any run of server messages leaves the outbox unchanged |
| RoomView.OutboxStaysForRoom | src/CodeBlockPage.js:51-129 | every message the page sends carries its own room id |
| RoomView.MatchingStaysSelf | src/CodeBlockPage.js:138 | the only id the page ever records as matching is its own socket id |
| RoomView.MatchingNeedsStudentSave | src/CodeBlockPage.js:134-142 | without a student save the matching list does not change |
| RoomView.CongratulationsPersist | src/CodeBlockPage.js:205 | once shown, the congratulation panel stays shown through any events that do not assign the mentor role |
| RoomView.EditorsAreAnnounced | src/CodeBlockPage.js:67-81 | the student table only ever holds ids it held before or ids announced by `newStudentEditor` or `codeUpdate` |
| Client.StudentSession | src/CodeBlockPage.js:24-142 | a `ClientView` object driven through mount, student role, solution, equal edit, save and teardown sends exactly join, the edit and leave, and shows the congratulation panel; its state is the `Replay` of those events |
| RoomView.FromInitial | src/CodeBlockPage.js:24-29 | from the initial page and for any events: all messages are for the page's room, only the own id is ever recorded as matching, and the panel shows only if a student save happened |

## Left out

- Rendering, inline styles, the smiley image and the "Go Back" navigation: presentation only.
- Syntax highlighting through highlight.js (`registerLanguage`, `highlightAll`, `highlight`): a foreign library with no visible contract.
- `alert` and `console.log` calls: user-interface output that carries no state. So the `mentorLeft` handler, which only alerts, leaves the view unchanged in `RoomView.OnMessage`. The class has no method for it.
- The socket transport and the registration and removal of listeners (`socket.on`, `socket.off`). Incoming events are method calls; emits are appends to `outbox`.
- React scheduling: batched state updates and effect re-runs when `id` or `socket` change. Each handler is one atomic sequential step.
- The iteration order of `Object.entries` behind the "Student n" labels: it matters only for display.
- The role gating of the input widgets. The page renders the own-code textarea and the student save button only for a student, and the solution textarea and the solution save button only for a mentor. The handlers `handleCodeChange`, `handleSolutionChange`, `handleSave` and `handleStudentSave` themselves have no role test, and the model follows the handlers. So `Step` also accepts `CodeEdited` and `StudentSaveClicked` on a mentor's page and `SolutionEdited` and `SaveClicked` on a student's. Event sequences the real page cannot produce are therefore admitted, for example a student who types a solution, then the same code, and is congratulated without any mentor solution.
- Changes of the socket id. `selfId` is fixed when the object is made. The page reads `socket.id` afresh when it records a match and when it shows the panel. That id is undefined before the socket connects and changes on a reconnect, and the model does not capture either case.
- `src/Lobby.js`: catalog requests over HTTP, form toggling and navigation.
- The room server (mentor election, member counting, fan-out, room deletion) is not part of this model. Only how this page reacts to and emits its messages is modelled.
