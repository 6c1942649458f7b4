# A Dafny model of goronation

goronation runs coding agents in a cage and lets a human answer for what they do. This project
models the parts of it whose correctness spans many calls, and proves what they promise.

| files | part of the system |
|---|---|
| `RequestLedger` | the law that both agent adapters follow: a request is fresh, then open, then settled, once |
| `OpencodeModel`, `OpencodeRuns`, `OpencodeAnswers`, `OpencodeStream`, `OpencodePermission`, `Details` | the opencode adapter: its machine over values, the laws of its runs, what each frame and command is answered with, the `Stream` with its hash maps, and how a permission request is put before a human |
| `ClaudeModel`, `ClaudeRuns`, `ClaudeAnswers`, `ClaudeStream`, `ClaudePermission`, `ClaudeForm` | the claude adapter, in the same way |
| `VaultCrypto`, `VaultStore`, `VaultPlain`, `VaultLaws`, `VaultClass`, `VaultDisk`, `VaultAudit` | the vault: symbolic cryptography, the document, the plain tables it is worth, every answer told from the calls before it, the object that keeps only ciphertexts, its directory under interleaved processes, failures and power loss, and what its log says |
| `GitReceive`, `GitPolicy`, `GitLaws` | the parser and the policy for a `git push`, and its grammar and faults in plain words |
| `Seccomp` | the assembler for the BPF filter, and the filter that is shipped |
| `Contract`, `ContractLaws`, `Bwrap`, `BwrapArgv` | the contract for what a cage may see, path by path, the order of bwrap's mounts, and their arguments |
| `Relay`, `RelayLaws` | the HTTP request head that is read, checked and written anew, and the status of each fault |
| `EgressSlots`, `EgressDial` | the slots and the shutdown of the egress proxy, and its dial budget |
| `DocgenWalk`, `DocgenBudget`, `DocgenTree`, `DocgenSplice` | docgen's listing, its budgets, its plan of reads, writes and removals, and the spliced index |
| `V0`, `V0Checks`, `Json`, `JsonText`, `Order`, `Strings`, `Lists`, `Go`, `Wrappers` | the vocabulary of protocol v0 and its checks, JSON values and their text, the order of names, Go's string functions and maps, the missing value |

How the pieces fit. Each adapter is a machine over values (`Decode`, `Encode`) whose open requests
are one list in arrival order. The laws of whole runs are proved of the machine: its trace, seen
from outside, is a lawful sequence of acts of the ledger. The class beside it has the maps and
arrival numbers of the source, starts with nil maps, iterates over them in any order, and is proved
to follow the machine call by call and, fed any inputs, to show the machine's whole trace. The vault is the same in kind: `VaultPlain` is two tables and a
bit, with the laws of every sequence of calls told from the calls and their results alone;
`VaultClass` holds wraps and ciphertexts and returns the same results over every sequence of calls; `VaultDisk` has one system
call a step. Where the source works step by step the model does too: classes with the fields it
updates, loops where it loops, and each method proved against a function whose properties are
proved beside it. Those properties are told without the function: what a call answers is stated from
what was received before it, in the words, codes and numbers of the protocol.

Where a promise turned out not to hold everywhere, the code was kept and the exact condition proved:

- `aad` is injective only while every part is shorter than 2^32 bytes (`AadInjective`); from there on
  it is not (`AadAmbiguousWhenLong`). The callers' parts are far shorter.
- Nested scratch directories are not put in order: the inner one is a mount of its own exactly when
  no later one lies above it (`OwnScratchIff`; `/a/b` before `/a` is covered, `NestedScratchIsCovered`).
  What is seen there is scratch either way.
- A specification that the contract accepts is refused by bwrap's own check exactly when it asks for
  the system mounts and HOME or a secret of the host lies in `/usr` (`BwrapAgrees`; a HOME of
  `/usr/home/u` is such a host, `HomeInUsrIsRefused`).
- `Server.Close` ends CONNECT connections only: another connection can take a slot after it has
  returned (`OthersOutliveClose`).
- docgen does not always find what it has written. `writeOutputs` has no depth limit and the listing
  has one, and a later run also has to list and read what the first one only wrote. After a
  successful writing, a comparison finds nothing and another writing changes nothing exactly when no
  expected file lies in a directory below the reference directory that is more than `MaxDepth` deep,
  and what that run's analysis left of its budgets covers listing the expected files with their
  directories and reading each of them; otherwise the run fails (`WriteThenCompare`, with `Refound`
  as the condition). The file of a package at the depth that the sources may have, 64, is never found
  again (`DeepFileIsWrittenOnce`); a file directly in the reference directory is not when only three
  entries are left (`ShallowFileIsWrittenOnce`); and a generated file that has grown beyond the limit
  of one file is never put right, as it is read before it is replaced (`LargeFileIsNeverReplaced`).
- The dial tries no address at all when there are fewer nanoseconds than addresses
  (`TooLittleTime`); with at least one for each, each gets its share (`FairShares`).

## Model

| member | source | states |
|---|---|---|
| `RequestLedger.OnceOnly` | agent/opencode/opencode.go:80-92 | in a lawful sequence of acts each key is asked for at most once and settled at most once, and is open exactly while asked for and not settled |
| `RequestLedger.SettledAsAsked` | agent/opencode/permission.go:264-278 | every settlement comes after the ask with the same key and the same tag (session, or kind) |
| `RequestLedger.AskedInOrder` | agent/opencode/opencode.go:445-456 | the open list stands in the order in which the requests were asked for |
| `RequestLedger.CancelBatch` | agent/opencode/opencode.go:457-468 | cancelling any set of open requests one by one in arrival order is lawful and leaves exactly the others |
| `Go.SortRows` | agent/opencode/opencode.go:456 | the rows come out strictly by arrival number, the same rows as went in |
| `Go.SortedUnique` | agent/claude/claude.go:359-363 | there is one such order: the order of the map iteration cannot show |
| `OpencodeRuns.RunFollowsLedger` | agent/opencode/opencode.go:138-181 | after every sequence of frames and commands the invariant holds, the trace is lawful from the empty ledger, and replaying it gives the open and settled requests of the state |
| `OpencodeRuns.NextOk` | agent/opencode/opencode.go:149-180 | every single frame or command keeps the invariant and takes the ledger of the old state to that of the new |
| `OpencodeRuns.RequestsSettleOnce` | agent/opencode/permission.go:58-85 | over every run each request has at most one request event and one later settlement, with the same session; asked minus settled is 1 exactly while it is open; at most 64 are |
| `OpencodeRuns.TurnStep` | agent/opencode/opencode.go:404-434 | only the end of the root's execution completes a turn, as the last event, with nothing open |
| `OpencodeRuns.TurnClosesAll` | agent/opencode/opencode.go:394-435 | whenever a turn is completed, everything asked for earlier in the trace has been settled earlier |
| `OpencodeRuns.EndCancelsInArrivalOrder` | agent/opencode/opencode.go:438-469 | the end of a session settles exactly its open requests (all of them for the root), in the order in which the trace asked for them |
| `OpencodeRuns.OpenCanBeDeclined` | agent/opencode/command.go:53-61 | in every reachable state each open permission can be rejected and each open form cancelled, by exactly the line for its own session and ID |
| `OpencodeRuns.OpenWasShown` | agent/opencode/permission.go:67-85 | everything open was asked for by one received frame, and the event emitted at that very step is the permission or the form made of what that frame says |
| `OpencodeRuns.AllowedIffWhole` | agent/opencode/command.go:145-167 | an open permission can be allowed exactly when the event that its frame gave was not cut, and then by its own line |
| `OpencodeRuns.AllowedWasShown` | agent/opencode/command.go:145-150 | whatever can be allowed was asked for by a received frame whose event was shown with the flag down, so that all it asks for stood in the details |
| `OpencodeRuns.AnsweredIffValid` | agent/opencode/command.go:170-212 | an open form takes exactly the answers that are valid for the form shown at the step of its frame, and passes them on unchanged |
| `OpencodeRuns.AgentRepliesTo` | agent/opencode/permission.go:252-291 | a reply of the agent settles an open permission with the outcome it gave, in its own session only; from another session it does nothing |
| `OpencodeRuns.AgentSettlesForm` | agent/opencode/form.go:139-187 | the same for a form, the answer reported as it was given |
| `OpencodeRuns.ClosedAsCancelled` | agent/opencode/opencode.go:457-468 | what the end of a session closes is reported as cancelled, by the agent |
| `OpencodeRuns.OwnEchoIsSilent` | agent/opencode/permission.go:264-278 | the echo of a decision sent by us gives no event and no change, however much later it comes |
| `OpencodeRuns.OwnFormEchoIsSilent` | agent/opencode/form.go:165-187 | the same for the echo of a form that we answered or cancelled, whether it says answered or cancelled |
| `OpencodeRuns.RefusedChangesNothing` | agent/opencode/command.go:27-39 | a command that fails leaves the state as it was |
| `OpencodeRuns.SessionsOnlyGrow` | agent/opencode/opencode.go:192-225 | over every run sessions are never forgotten or moved, a call once set stays, and the sessions are a forest under one root |
| `OpencodeRuns.CallSetByParent` | agent/opencode/opencode.go:276-292 | a child's call ID changes only from empty, and only by a progress event of its own parent |
| `OpencodeRuns.SessionForest` | agent/opencode/opencode.go:200-217 | creating a session or setting a call keeps the parent chains ending at the root |
| `OpencodeAnswers.RootEnds` | agent/opencode/opencode.go:394-435 | over every run the end of the root's execution shows each open request as cancelled, in order, and then how the turn ended: end_turn, cancelled with the reason when it is a short ID, or an error with the clamped message, the status and whether a retry can help, followed by the failed turn |
| `OpencodeAnswers.OtherEnds` | agent/opencode/opencode.go:407-414 | the end of another known session shows just its own open requests as cancelled and closes these; a stranger's end changes nothing |
| `OpencodeAnswers.RootSince` | agent/opencode/opencode.go:200-224 | the root is the session of the first frame that creates one without a parent |
| `OpencodeAnswers.ChildrenStep` | agent/opencode/opencode.go:200-217 | one input adds the child of a known session while there are fewer than 1,024, sets the call of a child that has none, or leaves the children alone |
| `OpencodeAnswers.SessionFramesTell` | agent/opencode/opencode.go:192-225 | what frames about sessions, progress and activity show, with the origin of their session |
| `OpencodeAnswers.PermissionAskedTells` | agent/opencode/permission.go:44-86 | exactly when a permission is put before the human, told from the data and the trace, and for every refusal which events are shown instead |
| `OpencodeAnswers.FormCreatedTells` | agent/opencode/form.go:37-80 | the same for a form |
| `OpencodeAnswers.FormIs` | agent/opencode/form.go:82-122 | a form is built exactly when every field can be answered, and shows each field and option as it was sent; an option without a value sends its label |
| `OpencodeAnswers.MarkTells` | agent/opencode/permission.go:264-278 | an ID is marked as decided by us exactly when the trace has a human's decision for it |
| `OpencodeAnswers.NotOpenTells` | agent/opencode/permission.go:274-278 | a reply for what is not open is silent exactly when it echoes a human's decision in the trace, and passed over otherwise |
| `OpencodeAnswers.CommandTells` | agent/opencode/command.go:86-212 | the line of a prompt and of an interruption, and exactly when each command is refused |
| `OpencodeStream.Stream.constructor` | agent/opencode/opencode.go:33 | a new stream, all of whose maps are nil, is the machine's initial state |
| `OpencodeStream.Stream.ScopeOf` | agent/opencode/opencode.go:123-135 | the origin of a session as the machine has it |
| `OpencodeStream.Stream.OnSession` | agent/opencode/opencode.go:192-225 | state and events of the machine, the nil map made before it is written to |
| `OpencodeStream.Stream.OnProgress` | agent/opencode/opencode.go:276-292 | state and events of the machine; only a child of the event's own session is updated |
| `OpencodeStream.Stream.Enter` | agent/opencode/permission.go:76-84 | a new request goes into its table, the IDs seen and the arrival order together; no nil map is written to |
| `OpencodeStream.Stream.Leave` | agent/opencode/command.go:165-166 | a request leaves its table and its mark is set, nothing else changes |
| `OpencodeStream.Stream.OnAsked` | agent/opencode/permission.go:44-86 | state and events of the machine for permission.asked, all refusals included |
| `OpencodeStream.Stream.OnReplied` | agent/opencode/permission.go:252-279 | state and events of the machine for permission.replied |
| `OpencodeStream.Stream.BuildForm` | agent/opencode/form.go:82-122 | the loop over the fields builds the form, or none when a field cannot be answered |
| `OpencodeStream.Stream.OnForm` | agent/opencode/form.go:37-80 | state and events of the machine for a created form |
| `OpencodeStream.Stream.OnFormDone` | agent/opencode/form.go:165-187 | state and events of the machine for a form replied to or cancelled by the agent |
| `OpencodeStream.Stream.CollectRows` | agent/opencode/opencode.go:445-455 | whatever order the two tables are iterated in, the rows are those of the requests that end with the session |
| `OpencodeStream.Stream.ClosePending` | agent/opencode/opencode.go:438-469 | the tables lose exactly the requests that end, and the events are their cancellations in arrival order |
| `OpencodeStream.Stream.OnEnded` | agent/opencode/opencode.go:394-435 | state and events of the machine at the end of an execution |
| `OpencodeStream.Stream.DecodeFrame` | agent/opencode/opencode.go:138-181 | every frame gives the state and the events of the machine |
| `OpencodeStream.Stream.ResolvePerm` | agent/opencode/command.go:128-168 | line, events and state of the machine, or a refusal |
| `OpencodeStream.Stream.ResolveFormWith` | agent/opencode/command.go:170-212 | line, events and state of the machine, or a refusal |
| `OpencodeStream.Stream.EncodeCommand` | agent/opencode/command.go:27-39 | every command gives the line, the events and the state of the machine; a refusal changes nothing |
| `OpencodeStream.RunStream` | agent/opencode/opencode.go:80-90 | a new stream fed any sequence of frames and commands ends in the machine's state and shows the machine's trace |
| `V0.SummaryLine` | spec/v0/permission.go:104-117 | each character as it was, CR, LF and tab as blanks; what is too long ends with an ellipsis at max characters |
| `V0Checks.ValidatePermission` | spec/v0/permission.go:76-95 | the loop accepts exactly the valid requests |
| `V0Checks.PermissionTells` | spec/v0/permission.go:76-95 | which are those with names, an object for the input, and texts within the numbers of the protocol |
| `V0Checks.ValidateForm` | spec/v0/form.go:167-216 | the loop with its set of keys accepts exactly the valid forms |
| `V0Checks.FormTells` | spec/v0/form.go:167-216 | which are those of up to 16 fields with distinct keys that can be answered, within the numbers of the protocol |
| `V0Checks.ValidateResolve` | spec/v0/form.go:226-262 | the loops over the answer and the required fields accept exactly the valid answers |
| `V0Checks.ResolveTells` | spec/v0/form.go:226-296 | an answer is valid exactly when it cancels with nothing, or gives known fields what they take and every required one a text that is not empty |
| `Details.Sheet.Add` | agent/opencode/permission.go:124-133 | the list is what fits of the items added so far and the flag is up exactly when not all fit |
| `Details.ShownWhole` | agent/opencode/permission.go:123-133 | what fits the limits is shown as it is |
| `OpencodePermission.BuildPermission` | agent/opencode/permission.go:94-157 | the loops build the request that the asked data stands for, hidden fields and all |
| `OpencodePermission.NothingHidden` | agent/opencode/permission.go:106-157 | with the flag down the details are the resources, each file's patch under its name, and the other named values, word for word as the data has them, and the data had nothing else |
| `OpencodePermission.FlagIff` | agent/opencode/permission.go:120-156 | the flag is up exactly when nothing or something unknown was sent, or what was sent does not fit |
| `OpencodePermission.RequestTells` | agent/opencode/permission.go:94-120 | everything else of the request, read from the data |
| `OpencodePermission.ValidUnlessNameTooLong` | spec/v0/permission.go:76-95 | the request passes the protocol's check exactly when the action is at most 128 characters |
| `ClaudeRuns.RunFollowsLedger` | agent/claude/claude.go:199-413 | after every sequence of lines and commands the table and the list agree, the trace is lawful, and replaying it gives the open list |
| `ClaudeRuns.NextOk` | agent/claude/claude.go:217-411 | every single line or command keeps the invariant and follows the ledger |
| `ClaudeRuns.RequestsSettleOnce` | agent/claude/claude.go:274-318 | over every run each ID has at most one request event and one later settlement of the same kind; it is in the table exactly between the two; at most 64 are |
| `ClaudeRuns.RequestedOnce` | agent/claude/claude.go:274-285 | no two positions of a trace are request events with the same ID |
| `ClaudeRuns.TurnStep` | agent/claude/claude.go:356-410 | only a result completes a turn, as the last event, with nothing open |
| `ClaudeRuns.TurnClosesAll` | agent/claude/claude.go:356-371 | whenever a turn is completed, everything asked for earlier has been settled earlier |
| `ClaudeRuns.ResultCancelsInArrivalOrder` | agent/claude/claude.go:358-371 | a result settles exactly what the trace left open, in the order in which it was asked for |
| `ClaudeRuns.ClosedAsCancelled` | agent/claude/claude.go:525-531 | what is withdrawn, or closed by a result, is reported as cancelled by the agent and as what was asked for |
| `ClaudeRuns.HeldWasShown` | agent/claude/claude.go:266-308 | what the table holds under an ID is the input of one received can_use_tool request with that ID, and the event emitted at that very step shows that use of the tool: the permission or the form made of it |
| `ClaudeRuns.AllowCarriesTheInput` | agent/claude/claude.go:484-502 | a line that allows a permission carries exactly the input that the agent sent in the request with its ID, which is the input shown by the event of that step, earlier in the trace and the only one with that ID |
| `ClaudeRuns.AnswerCarriesTheInput` | agent/claude/claude.go:538-571 | a line that answers a form carries the input that the agent sent in the request with its ID, of which the form in that step's event was made, rewritten with the answers that the event beside the line reports |
| `ClaudeRuns.OpenCanBeAnswered` | agent/claude/claude.go:473-571 | in every reachable state a permission can be allowed or rejected and a form cancelled, each by its own line; a form takes exactly fitting answers and no permission decision |
| `ClaudeRuns.RefusedChangesNothing` | agent/claude/claude.go:422-432 | a command that fails leaves the state as it was |
| `ClaudeRuns.InitializedOnceFirst` | agent/claude/claude.go:454-464 | initialize is written at most once in a run, and before every prompt |
| `ClaudeAnswers.ResultTells` | agent/claude/claude.go:356-410 | a result shows what is open as cancelled, in order, then usage and the turn's end: with its stop reason, or as an error with the message, the status and whether a retry can help; a flag that cannot be read counts as an error |
| `ClaudeAnswers.ControlTells` | agent/claude/claude.go:266-308 | exactly when a permission or a form is put before the human, what is then held, and for every refusal which events are shown instead |
| `ClaudeAnswers.SeenTells` | agent/claude/claude.go:274-285 | the IDs that are not admitted again are those of the requests received while there was room |
| `ClaudeAnswers.OtherLinesTell` | agent/claude/claude.go:217-232 | every other line: the session announced once, the withdrawal of what is not open, a denial, activity |
| `ClaudeAnswers.CommandTells` | agent/claude/claude.go:434-571 | what each command writes and shows, exactly when it is refused, and what is no longer held |
| `ClaudeStream.Stream.constructor` | agent/claude/claude.go:43 | a new stream with nil maps is the machine's initial state |
| `ClaudeStream.Stream.SettleId` | agent/claude/claude.go:516-523 | takes the request from the table, or says that there is none and changes nothing |
| `ClaudeStream.Stream.OnControl` | agent/claude/claude.go:266-308 | state and events of the machine for can_use_tool, all refusals included |
| `ClaudeStream.Stream.Note` | agent/claude/claude.go:282-285 | the ID is noted, and both nil maps are made before the first is written to |
| `ClaudeStream.Stream.OnCancel` | agent/claude/claude.go:310-318 | state and events of the machine for a withdrawal |
| `ClaudeStream.Stream.SortedIds` | agent/claude/claude.go:359-363 | the pending requests in arrival order, whatever order the table is iterated in |
| `ClaudeStream.Stream.CloseAll` | agent/claude/claude.go:364-371 | the table is emptied and each request cancelled, in arrival order |
| `ClaudeStream.Stream.OnResult` | agent/claude/claude.go:356-410 | state and events of the machine for a result |
| `ClaudeStream.Stream.DecodeFrame` | agent/claude/claude.go:199-413 | every line gives the state and the events of the machine |
| `ClaudeStream.Stream.ResolvePerm` | agent/claude/claude.go:473-513 | line, events and state of the machine, or a refusal |
| `ClaudeStream.Stream.ResolveFormWith` | agent/claude/claude.go:533-572 | line, events and state of the machine, or a refusal |
| `ClaudeStream.Stream.EncodeCommand` | agent/claude/claude.go:422-471 | every command gives the lines, the events and the state of the machine; a refusal changes nothing |
| `ClaudeStream.RunStream` | agent/claude/claude.go:59-72 | a new stream fed any sequence of lines and commands ends in the machine's state and shows the machine's trace |
| `ClaudePermission.BuildPermission` | agent/claude/permission.go:35-79 | the request with the fixed details first and the other keys sorted, whatever order the input map is iterated in |
| `ClaudePermission.NothingHidden` | agent/claude/permission.go:35-79 | with the flag down the details are those of the known tool and then those of the other keys in order, each key under its caption, and each text tells the value: a string as it is, anything else a JSON text that reads back to it |
| `JsonText.ReadsBack` | agent/claude/permission.go:82-98 | the compact text of any value is read back to that value |
| `ClaudePermission.CutIff` | agent/claude/permission.go:41-58 | the flag is up exactly when the fixed and the other keys are more than 16, a value has more than 4,000 characters, or a key that becomes a caption more than 64 |
| `ClaudePermission.RequestTells` | agent/claude/permission.go:35-76 | everything else of the request, with the main value of a known tool in its summary |
| `ClaudePermission.ValidUnlessNameTooLong` | spec/v0/permission.go:76-95 | the request passes the protocol's check exactly when the tool's name is at most 128 characters |
| `Order.SortedNames` | agent/claude/permission.go:67-73 | the keys in order, each once, from any iteration order |
| `ClaudeForm.BuildForm` | agent/claude/form.go:61-90 | the loop builds the form and what is held of it, or none |
| `ClaudeForm.FormIff` | agent/claude/form.go:61-90 | a question becomes a form exactly when its texts are present and distinct, the fields few enough, and every choice short, distinct and not empty |
| `ClaudeForm.FormShows` | agent/claude/form.go:61-88 | the form shows every question and choice that was sent, labels and values never cut, and holds the whole question |
| `ClaudeForm.FormWhen` | agent/claude/form.go:61-88 | exactly when there is a form, told from the input |
| `ClaudeForm.FittingTells` | agent/claude/form.go:100-112 | exactly which answers fit a question |
| `ClaudeForm.JoinedTells` | agent/claude/form.go:114-116 | the texts of an answer with a comma and a blank between them |
| `ClaudeForm.AnswersKeyTells` | agent/claude/form.go:121-125 | exactly which keys are read as answers |
| `ClaudeForm.CollectAnswers` | agent/claude/form.go:95-116 | in any iteration order the answers by question, or a refusal exactly when some answer does not fit its field |
| `ClaudeForm.AnswersInput` | agent/claude/form.go:94-132 | the rewritten input, from any iteration order of the held one |
| `ClaudeForm.RewrittenInput` | agent/claude/form.go:117-131 | one key reads as "answers", with exactly the human's non-empty answers by question; every other key is as it was held |
| `VaultCrypto.BuildAad` | vault/crypto.go:47-54 | each part after its length in four bytes, most significant first, cut to 32 bits |
| `VaultCrypto.AadRoundTrip` | vault/crypto.go:47-54 | reading the additional data back gives the parts, while each is shorter than 2^32 bytes |
| `VaultCrypto.AadInjective` | vault/crypto.go:46-54 | no two lists of such parts have the same additional data |
| `VaultCrypto.AadAmbiguousWhenLong` | vault/crypto.go:50 | one part of 2^32 zero bytes has the additional data of as many empty parts as fit |
| `VaultCrypto.UnwrapIff` | vault/crypto.go:75-113 | a wrap opens for exactly the PRF output, vault, credential, salt and nonce it was made with, and gives the body key |
| `VaultCrypto.ItemInfoInjective` | vault/crypto.go:116-118 | the info string tells kind, name and random bytes apart when kind and name have no NUL |
| `VaultCrypto.OpenItemIff` | vault/crypto.go:126-162 | an item opens under exactly the body key, vault, kind, name and random bytes it was sealed with |
| `VaultCrypto.FreshKeyPerWrite` | vault/crypto.go:125-140 | two writes share a key exactly when vault, kind, name and random bytes are the same |
| `VaultCrypto.PurposesDiffer` | vault/crypto.go:27-32 | no wrap key is an item key |
| `VaultStore.Validate` | vault/store.go:200-236 | the scans with their sets of names accept exactly the valid documents |
| `VaultStore.SameTag` | vault/store.go:229-233 | the joined name of an item tells kind and name apart |
| `VaultStore.WithItemDistinct` | vault/vault.go:409-418 | replacing or adding an item keeps the items distinct and touches no other |
| `VaultStore.WithoutDistinct` | vault/vault.go:345-346 | removing a wrap keeps the others distinct and removes one if it was there |
| `VaultStore.AfterValid` | vault/vault.go:283-303 | what the callers check before they write (sizes, names, not yet enrolled, not the last, the limits) is enough: a change of a valid document leaves one that `validate` accepts |
| `VaultLaws.DocumentTells` | vault/store.go:200-232 | the documents that are loaded, in the numbers and characters of the format |
| `VaultPlain.RunTables` | vault/vault.go:185-444 | over every run the tables are what the calls and their results say |
| `VaultPlain.ReadsTheLastPut` | vault/vault.go:392-444 | a read that is answered returns the last value whose storing was applied |
| `VaultLaws.RunSaid` | vault/vault.go:185-444 | the passkeys with their salts, the items and the ID are what the calls and their results say |
| `VaultLaws.OpeningIsDetermined` | vault/vault.go:90-267 | the result of every opening, closing, founding and unlocking follows from the calls before it and their results |
| `VaultLaws.AddIsDetermined` | vault/vault.go:274-305 | so does that of every added passkey: the proof of an enrolled one is needed, an unlocked vault is not |
| `VaultLaws.RemoveIsDetermined` | vault/vault.go:312-348 | and of every removed passkey, which is applied on an open, founded and unlocked vault only |
| `VaultLaws.PutIsDetermined` | vault/vault.go:392-421 | and of every stored item |
| `VaultLaws.GetIsDetermined` | vault/vault.go:424-444 | and of every read: the error or the value last stored |
| `VaultLaws.ResetIsDetermined` | vault/reset.go:31-64 | and of every reset: nobody has the vault open and it is the one that was confirmed |
| `VaultPlain.UnlocksIffEnrolled` | vault/vault.go:234-267 | on an open vault a passkey unlocks exactly when it is enrolled with that PRF output; removed, not until it is enrolled again |
| `VaultPlain.ChangesNeedProof` | vault/vault.go:274-348 | a passkey is added or removed only with the proof of another that is enrolled, and added only when it is not |
| `VaultPlain.NeverLockedOut` | vault/vault.go:339-341 | whenever a vault exists, some enrolled passkey unlocks it after closing and opening |
| `VaultPlain.NotAppliedNoChange` | vault/vault.go:364-389 | a call whose change was not applied leaves the tables as they were |
| `VaultClass.Vault.constructor` | vault/vault.go:90-104 | an opened vault is locked and has the document that was read |
| `VaultClass.Vault.CloseVault` | vault/vault.go:107-121 | locked and closed, the document kept |
| `VaultClass.Vault.LockVault` | vault/vault.go:124-128 | locked, the document kept |
| `VaultClass.Vault.ProveWrap` | vault/vault.go:223-247 | the proof is accepted exactly when the plain vault accepts it, and gives the body key that all wraps hold |
| `VaultClass.Vault.WriteDoc` | vault/vault.go:366-372 | memory becomes the new document exactly when the rename was done, also when it is not known to be durable; every write is one of the changes that the directory model knows |
| `VaultClass.Vault.CommitDoc` | vault/vault.go:376-389 | nothing is written without the audit entry of this very change |
| `VaultClass.Vault.InitVault` | vault/vault.go:185-220 | the result and the plain vault of founding, every refusal included |
| `VaultClass.Vault.UnlockVault` | vault/vault.go:251-267 | the result and the plain vault of unlocking |
| `VaultClass.Vault.AddWrapFor` | vault/vault.go:274-305 | the result and the plain vault of adding a passkey |
| `VaultClass.Vault.RemoveWrapOf` | vault/vault.go:312-348 | the result and the plain vault of removing a passkey; the comparison of the two body keys never fails |
| `VaultClass.Vault.PutItem` | vault/vault.go:392-421 | the result and the plain vault of storing an item |
| `VaultClass.Vault.GetItem` | vault/vault.go:424-444 | the plain value of the item; decryption never fails |
| `VaultClass.RunCalls` | vault/vault.go:185-444 | every sequence of calls on the encrypted vault, opening, closing and resetting included, has the results of the plain one |
| `VaultClass.EncryptsAdd` | vault/vault.go:298-303 | the document with the new wrap stands for the plain vault with the new passkey, all wraps holding one body key |
| `VaultClass.EncryptsRemove` | vault/vault.go:345-346 | the same for a removed passkey |
| `VaultClass.EncryptsPut` | vault/vault.go:405-418 | the same for a stored item, every item opening under that body key |
| `VaultDisk.RunKeeps` | vault/store.go:248-286 | every interleaving of processes, failures, crashes and power losses keeps the invariant |
| `VaultDisk.AtMostOneInside` | vault/store.go:107-124 | at no time do two processes have the directory |
| `VaultDisk.MemoryIsTheFile` | vault/vault.go:364-372 | between calls the document in memory is the one in vault.json |
| `VaultDisk.NeverTorn` | vault/store.go:245-286 | vault.json, and whatever a power loss may leave of it, is absent or a whole document that `validate` accepts, although no write validates |
| `VaultDisk.AuditedFirst` | vault/vault.go:374-389 | each change is made on the version before it and its own audit entry stands right before it, for a reset as well |
| `VaultDisk.DurableOnceSynced` | vault/store.go:278-285 | once the directory sync has succeeded, a power loss leaves the new document |
| `VaultDisk.RemoveOk` | vault/reset.go:52-59 | a reset removes the file only right after its audit entry with the ID that was read |
| `VaultAudit.ReplacedTells` | vault/vault.go:374-389 | every replacement of vault.json founds a vault, adds a passkey, takes one out or stores an item, and nothing else; the first three right after the entry with that event, the vault's ID and the heads of the two credential IDs |
| `VaultAudit.RemovedTells` | vault/reset.go:47-56 | a removal comes right after the entry of the reset with the ID that could be read |
| `VaultAudit.WriteTells` | vault/store.go:248-286 | a change that nothing stops is noted, made, in memory as well, and the only file that a power loss can leave |
| `VaultAudit.FailedTells` | vault/vault.go:379-387 | a change that fails before the rename leaves the file and is noted under its event with -failed |
| `VaultAudit.NotDurableTells` | vault/vault.go:379-387 | one whose directory sync fails is there and is noted with -not-durable |
| `VaultAudit.NotNotedTells` | vault/vault.go:376-378 | one whose entry cannot be written is not begun |
| `VaultAudit.DeniedTells` | vault/vault.go:351-355 | a refused proof is noted with the event of its call, when both are IDs |
| `VaultAudit.OpenTells` | vault/vault.go:90-103 | whoever opens gets the directory and the document in it, or finds it in use |
| `VaultAudit.LeavingTells` | vault/vault.go:107-116 | closing and dying give the directory back and leave the files |
| `VaultAudit.ResetTells` | vault/reset.go:31-64 | a reset that nothing stops is noted and leaves no file that could come back |
| `VaultAudit.PowerLossTells` | vault/store.go:248-286 | a loss of power ends every process and leaves one of the files that no sync has ruled out |
| `GitReceive.ParseIff` | egress/git/receive.go:58-99 | a request is accepted exactly when it is the encoding of well-formed commands and capabilities within the limits plus a rest, empty when there is no command; Raw is that encoding |
| `GitReceive.EncodeInjective` | egress/git/receive.go:49-57 | no two requests have the same bytes |
| `GitReceive.ParseCommands` | egress/git/receive.go:58-99 | the loop over the packets gives that result, or the code of the first fault |
| `GitReceive.PktReader.ReadN` | egress/git/receive.go:109-123 | exactly n bytes move from the input to raw, or none do |
| `GitReceive.PktReader.Next` | egress/git/receive.go:126-155 | one packet, with raw and the unread rest together unchanged |
| `GitReceive.NextPacketIff` | egress/git/receive.go:126-155 | a packet is read exactly when its one spelling is at the front and fits the limit |
| `GitReceive.ParseLineIff` | egress/git/receive.go:158-186 | a line is accepted exactly when it is the text of a valid command with its capabilities, those on the first line only |
| `GitReceive.ParseCapsIff` | egress/git/receive.go:189-209 | a list of capabilities is accepted exactly when it is the joined text of allowed ones with distinct names |
| `GitReceive.HexCanonical` | egress/git/receive.go:131-141 | a length has one spelling |
| `GitLaws.RawTells` | egress/git/receive.go:58-99 | what is handed on is, byte for byte, a packet for each command with its object names, ref and capabilities, and the flush packet |
| `GitLaws.NextPacketTells` | egress/git/receive.go:126-155 | what is read of the next packet, or the code of its fault |
| `GitLaws.LineTells` | egress/git/receive.go:158-186 | the code of each fault of a line, in the order of the checks |
| `GitLaws.CommandFaultTells` | egress/git/receive.go:170-181 | exactly which texts are a command |
| `GitLaws.CapsTell` | egress/git/receive.go:189-222 | the capabilities that are let through, each name once |
| `GitLaws.CapsFaultTell` | egress/git/receive.go:189-209 | the first capability that is not let through decides the code |
| `GitLaws.RefusedTells` | egress/git/receive.go:58-99 | a request is refused with the code of its first fault |
| `GitLaws.LimitsTell` | egress/git/receive.go:59-64 | the limits that hold when none are given |
| `GitPolicy.AcceptedIff` | egress/git/policy.go:61-83 | a push goes through exactly when it is canonical and every command creates or updates an allowed ref |
| `GitPolicy.NamespacesDisjoint` | egress/git/policy.go:28-55 | no ref is allowed to two sessions |
| `GitPolicy.AllowedRefShape` | egress/git/policy.go:41-55 | an allowed ref is the session's prefix followed by valid segments only |
| `GitLaws.RefTells` | egress/git/policy.go:41-55 | exactly the refs that a session may push to |
| `GitLaws.PushTells` | egress/git/policy.go:61-83 | a push is refused as malformed, or for its first command that deletes or names another ref |
| `Seccomp.Program` | cmd/goronation/landlock_seccomp_linux.go:103-134 | the map of names and the array give the assembled program, or none |
| `Seccomp.AssemblesIff` | cmd/goronation/landlock_seccomp_linux.go:113-122 | a program assembles exactly when each named target is at most 256 instructions ahead |
| `Seccomp.AssemblePreserves` | cmd/goronation/landlock_seccomp_linux.go:103-134 | on every input the program with names ends within its own length with what the assembled one returns |
| `Seccomp.FilterAllowsExactly` | cmd/goronation/landlock_seccomp_linux.go:63-100 | the shipped filter assembles and allows exactly the calls stated by the words and numbers of the kernel, answering all others with EPERM |
| `Contract.Comparable` | sandbox/contract/path.go:30-37 | two paths at or above the same path are at or above one another |
| `Contract.NoSecretShown` | sandbox/contract/validate.go:165-212 | nothing at or below an accepted source is a secret of HOME or of the host, or, outside HOME, in a protected tree |
| `ContractLaws.CleanTells` | sandbox/contract/path.go:10-28 | a clean path is the root, or names with slashes between them |
| `ContractLaws.SourceTells` | sandbox/contract/validate.go:165-212 | exactly which paths of the host may be shown, and which to be written, by the names of the trees |
| `ContractLaws.HomeSecretsTell` | sandbox/contract/host.go:107-113 | exactly what of HOME is secret |
| `ContractLaws.NothingOfTheSystemWritten` | sandbox/contract/validate.go:204-210 | nothing at or below a source that may be written lies in a tree of the system |
| `ContractLaws.SpecTells` | sandbox/contract/validate.go:64-144 | exactly which specifications are accepted: places, sources, scratch and links |
| `Contract.Validate` | sandbox/contract/validate.go:64-144 | the claims and checks accept exactly the valid specifications |
| `Contract.ClaimMounts` | sandbox/contract/validate.go:99-120 | mounts are taken exactly when each is acceptable and its place free |
| `Bwrap.AncestorsFirst` | sandbox/bwrap/backend.go:95-108 | the loops give the arranged binds |
| `Bwrap.ArrangeOrdered` | sandbox/bwrap/backend.go:94-108 | the arranged binds are the same ones, none before one that it lies below |
| `Bwrap.DeepestBindWins` | sandbox/bwrap/argv.go:60-81 | for every path with a bind at or above it, the last operation at or above it is the deepest such bind |
| `Bwrap.MountIsVisible` | sandbox/bwrap/backend.go:60-92 | the last operation at or above the guest path of every mount is that mount |
| `Bwrap.NothingCovered` | sandbox/contract/validate.go:121-136 | no bind lies at or above a scratch directory, /proc or /dev |
| `Bwrap.ScratchStaysScratch` | sandbox/contract/validate.go:129-135 | the last operation at or above a scratch directory is a tmpfs |
| `Bwrap.OwnScratchIff` | sandbox/bwrap/argv.go:72-74 | it is the directory's own tmpfs exactly when no later scratch directory lies above |
| `Bwrap.NestedScratchIsCovered` | sandbox/bwrap/argv.go:72-74 | scratch at /a/b and then at /a is accepted, and /a/b is not a mount of its own |
| `Bwrap.BwrapAgrees` | sandbox/bwrap/argv.go:94-144 | what the contract accepts bwrap's own check accepts, except the system mounts when HOME or a host secret lies in /usr |
| `Bwrap.HomeInUsrIsRefused` | sandbox/bwrap/argv.go:94-144 | with HOME at /usr/home/u the contract accepts the system mounts and bwrap's own check refuses them |
| `BwrapArgv.MountArgs` | sandbox/bwrap/argv.go:60-81 | the loops give the words of the operations in their order |
| `BwrapArgv.AllGiven` | sandbox/bwrap/argv.go:60-81 | each operation stands there with its own words |
| `BwrapArgv.BindsTell` | sandbox/bwrap/backend.go:73-87 | only a writable mount is bound to be written, from its host path to its place; what is bound to be read is a mount to be read, or /usr |
| `BwrapArgv.MountsGiven` | sandbox/bwrap/backend.go:73-87 | every mount is bound, and /usr when it is asked for |
| `BwrapArgv.FrontTells` | sandbox/bwrap/argv.go:68-74 | before the binds stand the links of the system, /proc and /dev, and scratch |
| `Relay.ParseRequest` | cmd/goronation/relay_http.go:142-242 | the loop over the lines gives the parsed request, or the status of the first fault |
| `Relay.HeadReader.ReadHeadLine` | cmd/goronation/relay_http.go:122-138 | one line within the budget, or the status |
| `Relay.ReadHeaders` | cmd/goronation/relay_http.go:167-226 | the headers kept, the length and the rest, or the status of the first fault |
| `Relay.AcceptedInput` | cmd/goronation/relay_http.go:173-229 | an accepted input has headers of known names only, at most one length and one of each allowed header, and exactly these are emitted |
| `Relay.HeadersOfHead` | cmd/goronation/relay_http.go:231-241 | any reader of an emitted head finds one Host, Authorization, Connection and Content-Length, at most one of each allowed header and no other |
| `Relay.HeadIsFixedPoint` | cmd/goronation/relay_http.go:142-242 | parsing an emitted head emits it again and stops where it ends, given room |
| `RelayLaws.HeadTells` | cmd/goronation/relay_http.go:231-241 | in an emitted head Host, Authorization and Connection have the relay's own values, and Content-Length reads as the length of the body |
| `RelayLaws.HeadText` | cmd/goronation/relay_http.go:231-241 | the head, line by line |
| `RelayLaws.AcceptedIff` | cmd/goronation/relay_http.go:142-242 | a request is accepted exactly when it is a request line and header lines that are all taken, within the limits |
| `RelayLaws.RequestLineTells` | cmd/goronation/relay_http.go:148-165 | the status of each fault of the request line, in the order of the checks |
| `RelayLaws.HeaderTells` | cmd/goronation/relay_http.go:180-198 | exactly which lines are headers, and with which value |
| `RelayLaws.HeaderLineTells` | cmd/goronation/relay_http.go:177-226 | whether a header is refused, and with which status, dropped, read as the length, or kept |
| `RelayLaws.LineTells` | cmd/goronation/relay_http.go:122-138 | which lines are read, and the status of one that is not |
| `RelayLaws.RejectedTells` | cmd/goronation/relay_http.go:142-226 | a request is refused with the status of its first fault |
| `RelayLaws.AcceptedWithin` | cmd/goronation/relay_http.go:142-147 | no accepted line is longer than 16 KiB, no accepted head than 32 KiB |
| `Relay.Handle` | cmd/goronation/relay_http.go:321-375 | upstream is sent what it takes of the head and the declared body, all of it exactly when the request completes, and nothing of a rejected one; otherwise the client gets the status of what went wrong |
| `EgressSlots.RunKeeps` | egress/egress.go:212-231 | every interleaving keeps the counts of slots, handlers and tracked connections |
| `EgressSlots.SlotsAreAccounted` | egress/serveboth.go:138-155 | the slots in use are the CONNECT connections that hold one plus the other connections that live, never more than the capacity |
| `EgressSlots.ReleasedExactlyOnce` | egress/serveboth.go:57-70 | no connection takes two slots or gives back more than it took, and none is kept by a connection that is gone |
| `EgressSlots.NothingAfterClose` | egress/egress.go:322-352 | from when a Close returns on, no CONNECT handler runs or can start and nothing is tracked |
| `EgressSlots.NeverBlocks` | egress/egress.go:225-230 | whoever gives back a slot or counts down finds one to take |
| `EgressSlots.OthersOutliveClose` | egress/serveboth.go:141-151 | a run in which another connection takes a slot after Close has returned |
| `EgressSlots.ConnectGoesThrough` | egress/egress.go:212-231 | with a slot free a CONNECT has it, is tracked and counted while it runs, and leaves everything as it was |
| `EgressSlots.OtherGoesThrough` | egress/serveboth.go:138-155 | another connection has a slot while it lives and gives it back |
| `EgressSlots.RefusedTells` | egress/egress.go:214-219 | without a free slot a connection takes nothing |
| `EgressSlots.ClosedTells` | egress/egress.go:220-224 | after Close a CONNECT that got a slot gives it back and is not handled |
| `EgressSlots.CloseTells` | egress/egress.go:322-352 | Close returns exactly when no handler is counted |
| `EgressDial.FairShares` | egress/egress.go:289-297 | attempts that keep to their budgets get budgets that never shrink and are at least an equal share, and together take no more than there is |
| `EgressDial.DialUpstream` | egress/egress.go:277-319 | the outcome of trying the first eight addresses in order |
| `EgressDial.DialTells` | egress/egress.go:288-318 | whatever the time, the dial gives up at the first address without time, connects at the first that connects, and otherwise reports the first break or else the first refusal |
| `EgressDial.BudgetTells` | egress/egress.go:290 | the time for an address is what is left, divided by those still to be tried |
| `EgressDial.DialOutcome` | egress/egress.go:298-318 | the first connection wins; failing that, the first error that is not a refusal of the address, then the first refusal |
| `EgressDial.BreakWins` | egress/egress.go:289-318 | whatever the time and the attempts, the refusal of an address is reported exactly when every address was tried and refused |
| `EgressDial.TooLittleTime` | egress/egress.go:290-294 | with less time than addresses the dial gives up before the first |
| `DocgenTree.CheckOutputTree` | tools/docgen/build.go:116-129 | passes exactly when no expected file is above another below the reference directory, case aside |
| `DocgenTree.ApartIsPlaced` | tools/docgen/build.go:112-129 | then no expected file at all lies below another, which is what carrying out the plan needs |
| `DocgenWalk.Walk` | tools/docgen/walk.go:486-510 | fails exactly when a directory below lies beyond the depth limit or the entries left do not cover one for each directory opened and one for each name; else that is spent, and the listing is what lies below, each once, nothing before a directory that it lies in |
| `DocgenWalk.CostDir` | tools/docgen/walk.go:327-350 | walking one more directory costs what lies below it and the directories there, no more and nothing twice |
| `DocgenTree.Tree.ListReference` | tools/docgen/walk.go:470-515 | fails exactly when a file is in the place of the directory, a directory in it is too deep, or the entries left do not cover the looks on the way and the walk; else that is spent, and the listing is the same, empty when there is none |
| `DocgenTree.Tree.MkdirAll` | tools/docgen/walk.go:277-299 | the missing directories are made, unless a file is in the way |
| `DocgenTree.Tree.WriteFile` | tools/docgen/walk.go:207-246 | succeeds exactly when the budget allows it and nothing is in the way, and then only adds the file and its directories |
| `DocgenTree.Tree.Remove` | tools/docgen/walk.go:302-307 | succeeds exactly on a file or an empty directory within the budget |
| `DocgenTree.Tree.CheckPlan` | tools/docgen/build.go:166-196 | passes exactly when nothing is in the way of a write and the budgets cover all writes and removals |
| `DocgenBudget.PlanAffordable` | tools/docgen/walk.go:119-164 | charging the plan step by step succeeds exactly when the budgets cover its sums, in whatever order, and spends those sums |
| `DocgenBudget.OneMoreSpent` | tools/docgen/walk.go:169-200 | after reading some files one more can be read exactly when all of them together are affordable |
| `DocgenTree.Tree.ReadFile` | tools/docgen/walk.go:169-200 | the text, charged as an entry, a file and its bytes, or nothing when the budget does not allow it |
| `DocgenTree.Tree.PlanWrites` | tools/docgen/build.go:217-234 | succeeds exactly when the budgets cover reading the generated files that are there, spends that, and gives each file to write once |
| `DocgenTree.Tree.CarryOutWrites` | tools/docgen/build.go:242-247 | after a passing plan no write can fail by budget or conflict, and what is left of the budget is what the plan leaves for the removals |
| `DocgenTree.Tree.CarryOutRemovals` | tools/docgen/build.go:248-252 | in reverse order no removal meets a directory that is not empty or a spent budget |
| `DocgenTree.NothingInside` | tools/docgen/build.go:235-237 | when its turn comes, everything in an extra directory has been removed before |
| `DocgenTree.Tree.WriteOutputs` | tools/docgen/build.go:202-254 | succeeds exactly when the listing does, nothing is in the way and the budgets cover listing, reading, writing and removing; then the tree is the old one outside the reference directory with the expected files and their directories and nothing else, and the budgets hold exactly those costs; otherwise nothing was touched |
| `DocgenTree.Tree.Compare` | tools/docgen/check.go:27-75 | fails exactly when the listing does or the budgets do not cover listing and reading, and finds exactly what is to write or to remove: nothing exactly when the tree is in sync |
| `DocgenTree.Tree.WriteThenCompare` | tools/docgen/build.go:198-254 | after a successful writing a comparison finds nothing, and another writing succeeds and changes nothing, exactly when no expected file is too deep to be listed and the budget that the run starts with covers listing and reading the expected files; otherwise it fails |
| `DocgenTree.RefoundIff` | tools/docgen/check.go:27-54 | what a run spends on the tree that was written is told from the expected files alone: an entry for each file, two for each directory between, and the reading of every file |
| `DocgenTree.DeepFileIsWrittenOnce` | tools/docgen/walk.go:498-500 | in an empty repository the file of a package 64 directories deep can be written, and no run finds it again, whatever its budgets |
| `DocgenTree.ShallowFileIsWrittenOnce` | tools/docgen/walk.go:119-125 | with three entries left a file directly in the reference directory can be written, and a run that starts with as few left fails on it |
| `DocgenTree.LargeFileIsNeverReplaced` | tools/docgen/walk.go:137-147 | while a generated file exceeds the limit of one file, neither a comparison nor a writing succeeds, whatever the budgets |
| `DocgenTree.ExtraMembers` | tools/docgen/build.go:142-160 | the extra entries are those that are neither expected nor above what is |
| `DocgenSplice.SpliceIndex` | tools/docgen/index.go:117-137 | the text with only the part between the markers replaced, or none when the markers are not one each in order |
| `DocgenSplice.SplicedLines` | tools/docgen/index.go:136 | the lines up to the first marker and from the second on are kept as they are around the table |
| `DocgenSplice.RowsAreTable` | tools/docgen/index.go:89-113 | rows that begin with a bar are never taken for a marker |
| `DocgenSplice.SpliceTells` | tools/docgen/index.go:117-137 | the index is spliced exactly when each marker stands on one line, the first one first, and then only what is between has changed |
| `DocgenSplice.SpliceStable` | tools/docgen/index.go:115-137 | splicing the same table again changes nothing |

## Left out

- The text of JSON as it is received: frames, commands and inputs are values; lexing and case folding of field names are not modelled, and `marshal` always succeeds. A shown value is written with the escapes that it needs, where the source keeps the agent's own spelling.
- The numeric codes of the BPF instructions, which are constructors in the model.
- SHA-256 of request IDs: the adapters' sets hold the kind and the ID themselves, as if the digest were injective.
- The opencode adapter's table of tool names and the payloads of tool, text and usage events in both adapters, which no request depends on.
- Error texts and the messages put into deny lines.
- The bodies of HKDF, AES-GCM and the random source: a key and a ciphertext are terms, random bytes are parameters, and the random source does not fail.
- VaultClass.Vault.constructor: takes a document only with the plain vault that it encrypts, because a document that was tampered with and still passes `validate` is outside the model; the source opens it and fails at the unlocking or at the item.
- Clearing of keys in memory, and the sharing of slices between a document and its clone.
- The check of the login state's files, and its JSON: an item is a text.
- Real files: ownership, permission bits, symbolic links and hard links, in the vault, in docgen and in the mounts.
- The audit log after a power loss: an entry that was written is taken to stay. A rename that reports failure is taken not to have happened.
- Reset of a missing directory, and the difference between a reset that leaves the temporary file and one that is not synced: both are one error after the removal.
- Read errors other than the end of the input, in the git parser and in the relay; deadlines, TLS and sockets.
- Repository routes and owner names of the git gateway.
- Exec, Args, Dir, Env, Egress and Loopback of a specification, and the resolving of symbolic links in its sources.
- The two counters of the relay that separate short requests from streams, and the passing back of the answer.
- Listeners of the egress server and the contexts that its Close cancels; net/http is taken to report one end of each connection.
- Letters outside ASCII when docgen and the relay lower the case of paths and names.
- The time budget of docgen, what its analysis spends before it compares or writes (a parameter), its rendering and its lint, and the check of a document's characters.
- EgressDial.FairShares: takes each attempt's overhead as part of the time it takes.
