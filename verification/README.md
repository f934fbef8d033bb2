# Daily scrum picker: round-tracking core

A model of the round-tracking core of the daily scrum picker, `pick_next.go`.
The picker reads a team roster from a text file. It then calls team members one
at a time in a random order, so that everyone is called exactly once per round.
Who is still due in the current round survives between runs in a state file.

The model covers the following parts of `pick_next.go`:

- the line filter of `loadTeamMembers`;
- the state file read by `loadRemaining` and written by `saveRemaining`;
- `shuffle(copySlice(...))`, Go's Fisher-Yates `rand.Shuffle`;
- the three commands that touch the state file: `pickNextPerson`, `resetState`
  and `showStatus`;
- the command classifier and the dispatch loop of `runBufferedMode`.

The files are modelled by their text. `bufio.Scanner`'s default line splitting
is written out in `Lines.ScanLines`. The state file is either `Absent` or
`Present(text)`. Every failure to open the state file counts as `Absent`,
because the program treats them all the same way.

Randomness is a parameter. An `Rng` gives the raw draw for each Fisher-Yates
step, and the model reduces it into `[0, i]`. A pick shuffles at most once: a
missing state file is shuffled on load, and a non-empty roster never loads
empty. A present state file may hold no names, and then the roster is
shuffled for the restart, which is the pick's only shuffle. So one `Rng` per
command is enough.

Modules:

- `Text`: ASCII `strings.TrimSpace`, `strings.ToLower` and the `#` prefix test.
- `Lines`: the line scanner and the state-file writer.
- `Results`: the `Result` and `Option` types and the error kinds.
- `Roster`: `loadTeamMembers`.
- `Shuffling`: `shuffle`.
- `StateStore`: `loadRemaining` and `saveRemaining`.
- `Tracker`: the pick, reset and status commands, and a whole round.
- `Commands`: the buffered command loop.

Two consequences of `pick_next.go` that its surface does not suggest:

- **No restart notice after a completed round.** The notice "Everyone has
  already had a turn" (pick_next.go:204-208) prints only when the loaded list is
  empty. The pick that calls the last member saves an empty list, and
  `saveRemaining` then removes the state file (pick_next.go:310-313). The next
  pick finds no state file, so `loadRemaining` reshuffles the roster silently
  (pick_next.go:290-294). The notice therefore appears only when a state file
  exists but holds no names. `Tracker.NextRoundStartsSilently` and
  `Tracker.RestartOnBlankStore` state the two cases.
- **A pick can end the program with an error.** `saveRemaining` exits when
  `os.Create` fails (pick_next.go:316-320). A pick reaches that call with a
  non-empty list whenever its queue holds more than one name, for instance
  from a missing state file and a roster of more than one member. So the pick
  fails exactly when the state file cannot be created and a name stays due.
  `Tracker.PickNext` has the error case.

## Model

| member | source | states |
|---|---|---|
| Text.Trim | pick_next.go:275 | The result of `strings.TrimSpace` has no white space at either end and is no longer than its input. |
| Text.TrimIsSlice | pick_next.go:275 | What `strings.TrimSpace` keeps is one contiguous slice of the line, and everything before and after it is white space. |
| Text.TrimIdempotent | pick_next.go:275 | Trimming a trimmed line changes nothing. |
| Text.TrimEmptyIffBlank | pick_next.go:275-276 | A line trims to the empty string exactly when it is all white space. |
| Text.TrimPadded | pick_next.go:275 | A trimmed core surrounded by white space trims back to the core. |
| Text.ToLowerFolds | pick_next.go:178 | Lower-casing folds each ASCII capital to its small letter, leaves every other character alone, and leaves no capital behind. |
| Text.ToLowerTrimCommute | pick_next.go:178 | Lower-casing and trimming commute, because lower-casing never turns a character into or out of white space. |
| Lines.ScanLines | pick_next.go:273-274 | The scanner yields no lines exactly for empty text, and no line it yields contains a newline. |
| Lines.Serialize | pick_next.go:323-325 | The written state file ends in a newline whenever the list is non-empty. |
| Lines.ScanSerialize | pick_next.go:298-304 | Scanning what the writer wrote gives back the written names, in order and each with any trailing carriage return dropped, provided no name contains a newline. |
| Lines.ScanUnterminated | pick_next.go:273-274 | A last line without a newline still counts: scanning newline-ended lines followed by a non-empty unterminated line gives all of them, in order. |
| Roster.FilterRosterAccepted | pick_next.go:274-279 | Every roster entry is trimmed, non-empty and does not start with `#`. |
| Roster.FilterRosterMembers | pick_next.go:274-279 | A string is on the roster exactly when it is non-empty, has no `#` prefix, and is the trimmed form of some line of the file. |
| Roster.FilterRosterAppend | pick_next.go:274-279 | The filter works line by line: filtering two blocks of lines one after the other gives the two results one after the other, so file order is kept. |
| Roster.FilterRosterKeepsNames | pick_next.go:274-279 | Lines that already are roster entries all pass unchanged, duplicates included. |
| Roster.FilterRosterIdempotent | pick_next.go:274-279 | Filtering an already filtered roster changes nothing. |
| Roster.LoadTeamMembers | pick_next.go:265-286 | The team file fails to load exactly when it cannot be opened. Otherwise the roster is the filter applied to the scanned lines of the file, so it holds only trimmed, non-empty, non-comment names without newlines. An empty file gives an empty roster, not an error. |
| Roster.LoadTeamMembersExample | pick_next.go:265-286 | A file of a comment, `Alice`, a blank line and `Bob` loads as `Alice` and `Bob`, in that order. |
| Roster.LoadTeamMembersFromFile | pick_next_test.go:74-84 | The test team file loads as Alice, Bob, Charlie, Diana and Eve. The file has comments and a blank line, and no newline after `Eve`. |
| Roster.FilterRosterLine | pick_next.go:274-279 | Each line is judged on its own wherever it stands. A blank or comment line is skipped without disturbing the names before and after it, and any other line is kept, trimmed, between them. |
| Roster.FilterRosterEmptyIff | pick_next.go:274-279 | The roster is empty exactly when every line of the file is blank or a comment once trimmed. |
| Roster.FilterRosterDropsAll | pick_next.go:274-279 | A file whose lines are all blank or comments, or a file with no lines, gives an empty roster rather than an error. |
| Roster.FilterRosterOnlyComments | pick_next_test.go:202-231 | The three-line comments-only team file gives an empty roster. |
| Roster.FilterRosterTrimsPadding | pick_next.go:275-277 | A name padded with white space on either side is kept without the padding. |
| Shuffling.Reduce | pick_next.go:330 | A raw draw reduced by `n` lies in `[0, n)`, and a draw already in range is kept. |
| Shuffling.Draw | pick_next.go:330 | The index drawn at Fisher-Yates step `i` lies in `[0, i]`. |
| Shuffling.Swap | pick_next.go:330-332 | Swapping exchanges the two positions and leaves all others alone. |
| Shuffling.SwapPermutes | pick_next.go:330-332 | A swap keeps the multiset of names. |
| Shuffling.ShuffleDownPermutes | pick_next.go:329-334 | The pass from step `i` down keeps the multiset of names. |
| Shuffling.ShuffleDownKeepsAbove | pick_next.go:329-334 | The pass from step `i` down never touches the positions above `i`. |
| Shuffling.Shuffle | pick_next.go:329-341 | The shuffled copy has the roster's length and exactly its names, each as often as in the roster. |
| Shuffling.ShuffleDownDraws | pick_next.go:330 | Only the draws of steps `1..i` affect the pass from step `i` down. |
| Shuffling.ShuffleReaches | pick_next.go:329-334 | Every rearrangement of the roster is produced by some sequence of draws, so nothing beyond a permutation is promised. |
| StateStore.StoredNamesShape | pick_next.go:298-304 | Every name read from the state file is non-empty and trimmed, and contains no newline. |
| StateStore.StoredNamesKeepsNames | pick_next.go:298-304 | Trimmed non-empty names pass through the read loop unchanged, `#` names included. |
| StateStore.DropComments | pick_next.go:276 | After dropping `#` names, no name left starts with `#`. |
| StateStore.RosterIsStoredWithoutComments | pick_next.go:274-279 | Loading the roster is the state-file read loop followed by dropping `#` names. The two loops differ only in the `#` test. |
| StateStore.ParseState | pick_next.go:296-305 | The names read from a present state file are non-empty, trimmed and newline-free. |
| StateStore.LoadRemaining | pick_next.go:289-306 | With no state file, the remaining list is a rearrangement of the whole roster. With a state file, it is the names in the file, not shuffled and not checked against the roster. |
| StateStore.SaveRemaining | pick_next.go:309-326 | An empty list removes the state file. A non-empty list is written when the file can be created, and otherwise the program stops with a write error. |
| StateStore.SaveLoadRoundTrip | pick_next.go:289-326 | Loading what a save of a non-empty list of stored names wrote gives back exactly that list, in order. |
| StateStore.SaveEmptyReshuffles | pick_next.go:310-314 | Saving the empty list leaves no state file, so the next load is a rearrangement of the roster. |
| Tracker.RosterIsStored | pick_next.go:265-286 | Every entry of a loaded roster survives a save and a load. |
| Tracker.StoredPermutation | pick_next.go:329-341 | A rearrangement of storable names holds only storable names. |
| Tracker.PickNext | pick_next.go:201-215 | A pick calls the head of the loaded list and keeps its tail as remaining. When the loaded list is empty, the round restarts from a rearrangement of the roster. The restart happens exactly when a state file is present but names nobody. The pick fails only when the tail is non-empty and the state file cannot be written. The state file is removed exactly when nobody remains. Otherwise it reads back as the remaining list. |
| Tracker.PickNextStored | pick_next.go:201-215 | The tail a pick saves holds storable names, so it reads back exactly. |
| Tracker.ResetState | pick_next.go:231-236 | A reset removes the state file and reports the whole roster as available. |
| Tracker.ResetIdempotent | pick_next.go:231-236 | Resetting twice has the same effect as resetting once. |
| Tracker.ResetStartsFreshRound | pick_next.go:201-215 | After a reset, the next pick calls a roster member without a restart, and exactly the other members remain due. |
| Tracker.ShowStatus | pick_next.go:238-252 | Status leaves the state file alone and reports the roster size. With no state file it reports the whole roster as due. Otherwise it reports the names in the file. |
| Tracker.StatusPreviewsPick | pick_next.go:201-252 | With a state file present, the status lists exactly who the coming pick calls and who stays due, in that order. |
| Tracker.PickOpensRound | pick_next.go:201-215 | The first pick of a round calls one member and leaves exactly the others due. |
| Tracker.PickContinuesRound | pick_next.go:201-215 | A later pick in a round moves the head of the due list to the called members. |
| Tracker.RunRound | pick_next.go:201-215 | Starting from no state file, as many picks as there are members call every member exactly as often as they are listed, and leave no state file behind. |
| Tracker.NextRoundStartsSilently | pick_next.go:201-215 | The pick that empties a round removes the state file. The pick after it calls a roster member without the restart notice. |
| Tracker.RestartOnBlankStore | pick_next.go:203-208 | A state file that holds only empty lines makes the pick restart the round and call a roster member. |
| Lines.ScanBlank | pick_next.go:297-304 | A text of newlines only scans to empty lines. |
| StateStore.StoredNamesLine | pick_next.go:299-303 | One state-file line gives its trimmed form, `#` lines included, or nothing when it is blank. |
| StateStore.StoredNamesAppend | pick_next.go:298-304 | The state-file read loop works line by line: reading two runs of lines gives the names of the first run followed by those of the second, so file order is kept. |
| StateStore.BlankStoredNames | pick_next.go:297-304 | Empty lines give no stored names. |
| Commands.Lookup | pick_next.go:180-196 | Only the empty word is skipped. A non-empty word is unknown exactly when it is not one of the eleven words the switch lists, and it is reported as it was normalised. |
| Commands.Normalize | pick_next.go:178 | The compared form of a line is trimmed and has no capital letters. |
| Commands.ClassifyBlankIffSpace | pick_next.go:178-193 | A line is skipped exactly when it is all white space. |
| Commands.ClassifyIgnoresCaseAndPadding | pick_next.go:178 | Surrounding white space and letter case do not change the command a line selects. |
| Commands.NormalizeKeeps | pick_next.go:178 | A trimmed lower-case word is compared as it is. |
| Commands.ClassifyKeyAndWord | pick_next.go:180-190 | Each command's one-letter key and its spelled-out word both select that command. |
| Commands.ClassifyExit | pick_next.go:189 | The word `exit` also quits. |
| Commands.Step | pick_next.go:180-196 | Only a pick or a reset changes the state file. Quit alone ends the loop. Only a pick calls someone, and only a pick can fail, with a write error. |
| Commands.RunCommands | pick_next.go:172-198 | With a writable state file the loop never fails, and any failure is a write error. A finished loop has called exactly one member per pick command before the first quit command. |
| Commands.RunSession | pick_next.go:170-199 | With a writable state file a session never fails. It calls exactly one member per pick line before the first quit line. |
| Commands.SessionRound | pick_next.go:170-199 | As many pick lines as there are team members, from no state file, call every member exactly as often as they are listed and leave no state file. |
| Commands.PicksKeepRound | pick_next.go:180-182 | A run of pick commands inside a round keeps the round's bookkeeping and calls one member per command. |
| Commands.SessionResetClears | pick_next.go:183-184 | A reset followed by commands that neither pick nor reset leaves no state file and calls nobody. |
| Commands.SessionReadOnly | pick_next.go:170-199 | A session without picks or resets calls nobody and leaves the state file as it found it. |
| Commands.SessionStopsAtQuit | pick_next.go:189-191 | Nothing after a quit command is read. |

## Left out

- Terminal raw mode (`runRawMode`), the prompt, the colours and all printed text. The commands return what they would print about, not the text.
- `getTeamFile` and `getStateFile`: the environment variables and the temporary directory only choose file paths.
- `main`'s refusal to start with an unreadable or empty roster. It is stated as `Tracker.PickNext`'s precondition `|roster| > 0`.
- Seeding `math/rand` with the clock, and how `rand.Shuffle` turns its generator's output into an index. The model takes the raw draws as a parameter and reduces them by repeated subtraction.
- `os.Remove` failures. The code ignores them, so a reset or an empty save that cannot remove the file is not modelled.
- State-file write failures after `os.Create` succeeds. The code ignores `WriteString` errors.
- Read errors other than a missing file. `loadRemaining` treats any open error as a missing file, and the model has only `Absent`.
- Roster.LoadTeamMembers: fails only when the file cannot be opened. Scanner errors, such as a line over `bufio.Scanner`'s 64 KiB limit, are not modelled.
- StateStore.ParseState: reads every line of the state file. `loadRemaining` ignores `scanner.Err()`, so a line over the 64 KiB limit silently ends the list at the names read before it (pick_next.go:298-305). That truncation is not modelled.
- Commands.RunSession: reads every input line. A scan error, such as an over-long line, ends `runBufferedMode` like the end of the input (pick_next.go:174-175). That is not modelled.
- Non-ASCII white space and letters in `strings.TrimSpace` and `strings.ToLower`.
- Concurrent runs of the program on one state file.
