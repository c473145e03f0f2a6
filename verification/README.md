# Verification model of EPICS-MCP-Server

A Dafny model of the parts of EPICS-MCP-Server whose answers must hold over unbounded inputs or
runs, with proofs of what they promise. Check it with `dafny verify dfyconfig.toml`.

| file | what it models |
|---|---|
| `MacroScan.dfy`, `MacroTree.dfy`, `MacroExpand.dfy` | the macLib scanners, their grammar, one expansion pass, and the multi-pass driver |
| `CommentStrip.dfy`, `StCmd.dfy`, `IocDb.dfy` | comment cutting, the device-prefix vote, and the `.db` loader with its `complete` flag |
| `RecordNames.dfy`, `CrossPlane.dfy` | the record-name normaliser and the join that may call a record broken |
| `SlidingWindow.dfy`, `WindowThreads.dfy` | the sliding-window limiter as a class, and as a step system of many threads |
| `OlogGate.dfy`, `OlogRuns.dfy` | the Olog write gate and the three mutating operations, each with the exact trace it leaves |
| `OlogTraces.dfy`, `OlogSystem.dfy` | what such traces add up to, and a step system of many runs behind one gate |
| `Splice.dfy`, `Sweep.dfy` | the byte splice and the mutation sweep with someone else writing to the same files |
| `Coverage.dfy`, `Globs.dfy`, `CoverageTruth.dfy` | the three-valued coverage matrix, the registry's name globs, and the matrix against a ground truth |
| `QueryParams.dfy`, `IsoTime.dfy`, `Typography.dfy` | the ChannelFinder query encoder, the UTC rendering, two recognisers of the typography guard |

The code that works by updating variables is modelled by methods with loops and by classes whose
methods change their fields; each is proved to compute a function or to keep an invariant, and the
properties are proved of that function or invariant. Exceptions are result values. Reads, file
contents, pattern matches, test runs and the writes of other processes are inputs over which every
statement is quantified. Sorted tuples whose order carries nothing are sets.

## Where the code differs from its prose

The model follows the code. For each of these there is the exact condition under which the code does
what is said of it, and an input on which it does not.

- A `dbLoadRecords` target that does not end in `.db` is skipped without clearing `complete`, although
  the flag is described as covering every load: `CompleteCoversAllIff`, `SkippedYetComplete`. So a
  record may be reported broken that the skipped file creates: `BrokenIsTrueIff`, `BrokenYetServed`.
- Among tied prefixes the winner is not always the alphabetically first: of two candidates where
  one begins the other, the longer wins (`TieWinnerIsFirstIff`, `LongerWins`).
- The comparison with the `.db` names and with the registry is described as normalising both sides;
  only the display side is. A name loaded with a field suffix can be reported broken
  (`LoadedIsNeverBrokenIff`, `RegisteredIsNeverFlaggedIff`, `NameIsSafeIff`, `LoadedYetBroken`).
- The normaliser is described as idempotent; it is, except on names with a field, a newline and
  another run of fields (`IdempotentIff`, `TwiceDiffers`).
- A capped `<file>` glob makes the display set a lower bound, but only a capped context withholds
  the display column, so a "no" can be wrong under a glob cap (`DisplayNoIsTrueIff`,
  `GlobCapHidesAScreen`).
- A scope is a literal beginning on the display side and part of a name glob on the registry side. If it
  holds a `*` or a `?`, or ends inside a possible field suffix, the registry delivers records outside
  the scope, whose display column then says "no" unseen (`ScopeIsWholeIff`, `WildcardInScope`,
  `ScopeInsideASuffix`).
- `cf_only` is described as a lower bound under a display cap; it is an upper bound, and a cap withholds
  nothing in it (`CfOnlyHoldsAll`, `CfOnlyShrinksWithSight`, `CfOnlyIsTrueIff`, `CappedDisplayIsListed`).
- A token does not imply a terminal audit line: reading the attachment files can fail after the
  token is taken and before the audited block (`TerminalLineIff`, `NoTokenIsLostIff`, `StrandedRun`).
- A tag holding a value separator is accepted, and is read as alternatives by the server
  (`TagsReadBackIff`, `SeparatorEscapes`).

Two assumptions stand behind these statements. `BrokenIsTrueIff` takes a loaded `.db` file to create
exactly the names matched in it. The display column is judged against what displays show by resolved
references: the index holds no others, so a record shown only through an unresolved macro has a "no" as
well.

## Model

| member | source | states |
|---|---|---|
| MacroScan.FindClosingBracket | src/epics_mcp/services/e3_db.py:111-132 | the index found is where the stack of expected closers empties, -1 if it never does; what stands there is `)` for `$(` and `}` for `${` |
| MacroScan.SplitBody | src/epics_mcp/services/e3_db.py:135-156 | the body is cut at the first `=` or `,` outside every nested reference |
| MacroScan.DefaultFromRest | src/epics_mcp/services/e3_db.py:159-187 | a default exists exactly for a rest starting with `=` and runs to the first top-level `,` |
| MacroScan.Split | src/epics_mcp/services/e3_db.py:135-156 | lossless on arbitrary bodies: name plus rest is the body, the rest is empty or starts with its separator |
| MacroScan.Default | src/epics_mcp/services/e3_db.py:159-187 | on arbitrary rests: `=` plus the default is a prefix of the rest, and only a `,` can stand behind it |
| MacroScan.CloseIgnoresSuffix | src/epics_mcp/services/e3_db.py:111-132 | a closer that is found does not depend on the text behind it |
| MacroTree.ScanPrinted | src/epics_mcp/services/e3_db.py:99-187 | scanning the print of any well-formed reference, with any text behind, returns its closing index, its name, its default and its rest |
| MacroTree.AcceptedIsPrinted | src/epics_mcp/services/e3_db.py:99-187 | conversely, every stretch the bracket matcher accepts is the print of a well-formed reference |
| MacroTree.PrintInjective | src/epics_mcp/services/e3_db.py:99-187 | the grammar is unambiguous: two references with the same text are the same |
| MacroTree.NestShows | src/epics_mcp/services/e3_db.py:190-192 | a text still carries a macro opener exactly when its tree carries a nested reference |
| MacroExpand.ExpandOnce | src/epics_mcp/services/e3_db.py:201-258 | the loop computes the pass as a sequence of tokens; it ends for every input, cyclic macros included, by the name levels left |
| MacroExpand.ExpandReference | src/epics_mcp/services/e3_db.py:229-257 | one closed reference: name expansion with both bounds, lookup, default, literal |
| MacroExpand.ExpandName | src/epics_mcp/services/e3_db.py:233-245 | the passes spent on a computed name, one level further in, stopping after the first that changes nothing |
| MacroExpand.Substitute | src/epics_mcp/services/e3_db.py:261-274 | the driver is at most `max_depth` passes, stopping after the first that changes nothing |
| MacroExpand.UnchangedIsIdentity | src/epics_mcp/services/e3_db.py:201-258 | a pass reporting no change returned its input exactly |
| MacroExpand.FixpointIffStops | src/epics_mcp/services/e3_db.py:261-274 | the driver's result is a fixpoint of the pass exactly when one more round would have stopped the loop |
| MacroExpand.StoppedIsIdempotent | src/epics_mcp/services/e3_db.py:261-274 | once the driver stops within its bound, repeating it or raising the bound changes nothing |
| MacroExpand.PassComposes | src/epics_mcp/services/e3_db.py:201-258 | if `a` leaves no reference open and does not end in `$`, a pass over `a+b` is the two passes side by side with their flags or-ed |
| MacroExpand.UnsealedCutsDiffer | src/epics_mcp/services/e3_db.py:218-228 | both conditions are needed: cutting `$(A)` behind the `$` or inside it gives a different text |
| MacroExpand.SealedIff | src/epics_mcp/services/e3_db.py:201-258 | a text composes with every continuation under all macros exactly when it is sealed: no reference left open, no `$` at its end |
| MacroExpand.ReferenceMeans | src/epics_mcp/services/e3_db.py:229-257 | a printed reference becomes its macro value if defined, else its default, else itself, and the pass goes on behind it |
| MacroExpand.PassIsTokenwise | src/epics_mcp/services/e3_db.py:201-258 | every text is a string of characters and well-formed references, and a pass is the string of their meanings |
| MacroExpand.ComputedNameIsVerbatim | src/epics_mcp/services/e3_db.py:231-251 | a name with references nested in it to any depth, all defined by `$`-free values, is looked up under its computed value, whatever `=` or `,` that value contains |
| MacroExpand.RoundReference | src/epics_mcp/services/e3_db.py:94-132 | `$(name)` with a defined plain name becomes the macro's value, and the pass goes on behind the `)` |
| MacroExpand.BracedReference | src/epics_mcp/services/e3_db.py:94-132 | the same for `${name}` and its `}` |
| MacroExpand.DefaultedReference | src/epics_mcp/services/e3_db.py:229-257 | with either bracket, `name=d` of an undefined name becomes `d` |
| MacroExpand.WrongBracketStays | src/epics_mcp/services/e3_db.py:111-132 | `$(name}` with no `)` behind it stays literal, and so does `${name)` with no `}` behind it |
| MacroExpand.NameBoundIsTight | src/epics_mcp/services/e3_db.py:201-258 | a reference whose name is nested to any depth resolves exactly up to 32 levels |
| MacroExpand.PassDropsDollars | src/epics_mcp/services/e3_db.py:201-258 | with `$`-free macro values no pass adds a `$` and a changing pass removes at least one |
| MacroExpand.Converges | src/epics_mcp/services/e3_db.py:261-274 | with `$`-free values the driver ends in a fixpoint whenever the text has at most as many `$` as there are rounds |
| MacroExpand.BoundIsTight | src/epics_mcp/services/e3_db.py:261-274 | that bound is exact: for every number of rounds a text with one more `$` is left unfinished |
| MacroExpand.SelfReferenceSpins | src/epics_mcp/services/e3_db.py:261-274 | a macro defined as itself never settles, and the driver returns it unchanged at every bound |
| CommentStrip.StripLineComment | src/epics_mcp/services/e3_db.py:67-91 | what is kept ends at the first `#` outside quotes, or is the whole line |
| CommentStrip.AutomatonAgrees | src/epics_mcp/services/e3_db.py:67-91 | counting backslashes backwards agrees with one forward reading that carries one parity bit |
| CommentStrip.StripIdempotent | src/epics_mcp/services/e3_db.py:67-91 | stripping a line twice is stripping it once |
| CommentStrip.HashCuts | src/epics_mcp/services/e3_db.py:67-91 | behind text without quote, backslash and `#` a `#` starts the comment |
| CommentStrip.QuotedStays | src/epics_mcp/services/e3_db.py:67-91 | between double quotes everything stays, `#` included, and a quote behind a backslash ends nothing |
| StCmd.CountVotes | src/epics_mcp/services/e3_db.py:336-361 | the counter holds the number of concrete, non-empty, non-template votes of each prefix |
| StCmd.DominantPrefix | src/epics_mcp/services/e3_db.py:363-367 | the winner has more votes than every other candidate, or as many and the larger key; none exactly when nobody votes |
| StCmd.KeyOrderIs | src/epics_mcp/services/e3_db.py:370-372 | the negated-code key orders as the alphabet does, except that a longer string comes before its beginning |
| StCmd.TieWinnerIsFirstIff | src/epics_mcp/services/e3_db.py:363-372 | the winner is the alphabetically first of the most voted candidates exactly when that one begins no other of them |
| StCmd.FirstExists | src/epics_mcp/services/e3_db.py:363-367 | whenever there is a winner there is such a first candidate |
| StCmd.LongerWins | src/epics_mcp/services/e3_db.py:363-372 | two loads with `P=A` and `P=AB`: one vote each, `AB` wins, `A` is the first |
| StCmd.VotesFor | src/epics_mcp/services/e3_db.py:343-361 | a load votes for `p` exactly if its `P` is `p`, not empty and without an opener, and it is no template load |
| StCmd.NoVoteChangesNothing | src/epics_mcp/services/e3_db.py:355-361 | a template load or a templated, empty or missing `P`, put anywhere among the loads, leaves every count as it was |
| StCmd.NoVoteNoWinner | src/epics_mcp/services/e3_db.py:355-367 | nor does it change who wins |
| IocDb.IocDbPvs | src/epics_mcp/services/e3_db.py:375-396 | the raw names fall into expanded ground names and names that still carry a reference |
| IocDb.LazyIndex.Lookup | src/epics_mcp/services/e3_db.py:443-458 | every query answers from the tree; the tree is walked by the first query and never again |
| IocDb.LocateDb | src/epics_mcp/services/e3_db.py:461-473 | the direct file if there is one, else all files of that basename; a direct hit walks nothing |
| IocDb.LoadOne | src/epics_mcp/services/e3_db.py:497-521 | each load is skipped, missing, ambiguous or loaded, in the order the code decides |
| IocDb.LoadIocDb | src/epics_mcp/services/e3_db.py:476-539 | the names, the missing and ambiguous targets, and `complete` exactly when some name is resolved and every load was followed; at most one walk, and one only if some load fell back |
| IocDb.CompleteIff | src/epics_mcp/services/e3_db.py:523-531 | empty missing, ambiguous and unresolved lists without an unfollowable command say exactly that every load was followed |
| IocDb.FollowedMeans | src/epics_mcp/services/e3_db.py:497-521 | a followed `.db` load had a macro-free target, one match, a readable file and ground names only |
| IocDb.OtherTargetsLeaveNoTrace | src/epics_mcp/services/e3_db.py:498-499 | a `dbLoadRecords` of a target not ending in `.db` changes neither the names nor the flag |
| IocDb.CompleteCoversAllIff | src/epics_mcp/services/e3_db.py:497-531 | of loads that count as complete, every one was really loaded exactly when every target ends in `.db` |
| IocDb.SkippedYetComplete | src/epics_mcp/services/e3_db.py:498-499 | one database and one `dbLoadRecords` of a template: the template is skipped and the load counts as complete |
| IocDb.TenPasses | src/epics_mcp/services/e3_db.py:261-274 | the default bound is ten passes: with `$`-free values ten `$` are always finished, and eleven nested defaults are not |
| IocDb.NamesOfFile | src/epics_mcp/services/e3_db.py:375-396 | a name is resolved exactly if it is the expansion of a raw name and holds neither `$(` nor `${`, and unresolved exactly if it holds one |
| IocDb.MatchesAre | src/epics_mcp/services/e3_db.py:461-473 | for every directory and every name without `/`: the file at the joined path if it is there, else all files of that name in the tree |
| IocDb.FoundBelow | src/epics_mcp/services/e3_db.py:461-521 | a database that is not where its target points, but once in the tree, is loaded from there |
| IocDb.FoundByName | src/epics_mcp/services/e3_db.py:461-521 | `db/x.db` is not at `/r/db/x.db`, and the only `x.db` of the tree is loaded |
| IocDb.OutcomesAre | src/epics_mcp/services/e3_db.py:497-521 | when a load is skipped, ambiguous or loaded, over command, target, expansion and matches alone |
| IocDb.FollowedIff | src/epics_mcp/services/e3_db.py:497-531 | a load leaves `complete` alone exactly if it is a skipped `dbLoadRecords`, or one readable match with every name ground |
| IocDb.OwnMacrosWin | src/epics_mcp/services/e3_db.py:476-521 | a macro given with the load wins over the same one of the environment |
| IocDb.DirEnvIs | src/epics_mcp/services/e3_db.py:486-487 | every required module has its `_DIR` in the environment, over whatever the script set, and nothing else is added |
| IocDb.TargetsAre | src/epics_mcp/services/e3_db.py:497-521 | the missing and the ambiguous targets are those of the loads with that outcome |
| IocDb.FellBackIff | src/epics_mcp/services/e3_db.py:461-473 | the tree is walked exactly for a database with a ground target whose joined path is no file |
| RecordNames.RecordNameStrips | src/epics_mcp/services/crossplane.py:52-72 | a newline-free name loses its maximal run of `.FIELD` segments, all of it and nothing else |
| RecordNames.StripIsPeel | src/epics_mcp/services/crossplane.py:55-72 | the leftmost-run reading of the pattern equals peeling off one last segment at a time |
| RecordNames.IdempotentIff | src/epics_mcp/services/crossplane.py:63-72 | normalising is idempotent on every name except one made of a name with a field, a newline and a whole run |
| RecordNames.TwiceDiffers | src/epics_mcp/services/crossplane.py:63-72 | a name of that kind on which a second normalisation takes another field |
| RecordNames.FieldAlikeIff | src/epics_mcp/services/crossplane.py:63-72 | `r` and `r.FIELD` normalise alike exactly unless `r` ends in a newline with a field before it |
| RecordNames.LastSegmentIs | src/epics_mcp/services/crossplane.py:52-72 | behind a record name, a last segment is dropped exactly if it is a field |
| RecordNames.FieldLetters | src/epics_mcp/services/crossplane.py:52-60 | by character code: a field starts with a letter and goes on with letters, digits and `_` |
| CrossPlane.CrossplaneCheck | src/epics_mcp/services/crossplane.py:218-314 | every bucket and count, `broken`, `broken_write`, and the unregistered sets, with their withholding conditions |
| CrossPlane.Sort | src/epics_mcp/services/crossplane.py:231-248 | one turn of the bucketing loop puts each row where its protocol, resolution, prefix and role say |
| CrossPlane.LinksMean | src/epics_mcp/services/crossplane.py:231-248 | linked, written and other-prefix PVs, each over the protocol, resolution, role and name of some row alone |
| CrossPlane.LeftoversMean | src/epics_mcp/services/crossplane.py:231-248 | a PV is no channel exactly for a row neither Ca nor Pva; dynamic and unresolved PVs likewise, and the indeterminate ones are both |
| CrossPlane.DisplaysMean | src/epics_mcp/services/crossplane.py:231-248 | the linked displays and the indeterminate pairs, over the fields of the rows |
| CrossPlane.VerdictsMean | src/epics_mcp/services/crossplane.py:276-309 | broken, broken by a writer, withheld and unregistered, over the rows, the two name sets and the registry's answer |
| CrossPlane.RowsAsASet | src/epics_mcp/services/crossplane.py:231-309 | the report ignores the order and the repetition of its input rows |
| CrossPlane.BucketsAreApart | src/epics_mcp/services/crossplane.py:231-309 | linked and other-prefix PVs are disjoint; everything broken or unregistered is the record of some linked PV, a normal form if that PV is newline-free |
| CrossPlane.BrokenIsProved | src/epics_mcp/services/crossplane.py:276-293 | end to end: a non-empty `broken` implies no unfollowable load and every `.db` load ground, unique and readable; `broken` is exactly the linked records outside all the names loaded |
| CrossPlane.BrokenIsTrueIff | src/epics_mcp/services/crossplane.py:276-293 | a non-empty `broken` names nothing the IOC may serve, in every IOC the loads allow, exactly when every load is of a `.db` file; a loaded file is taken to create the names matched in it |
| CrossPlane.BrokenYetServed | src/epics_mcp/services/crossplane.py:276-293 | a database, a template and a screen: the PV reported broken may be the template's |
| CrossPlane.LoadedIsNeverBrokenIff | src/epics_mcp/services/crossplane.py:251-287 | no PV whose very name was loaded is called broken, for all rows, exactly when the loaded names under the prefix hold their own record names |
| CrossPlane.RegisteredIsNeverFlaggedIff | src/epics_mcp/services/crossplane.py:305-309 | the same of the registered channels and the unregistered set |
| CrossPlane.NameIsSafeIff | src/epics_mcp/services/crossplane.py:256-287 | one loaded name is safe from every report exactly when it is its own record name |
| CrossPlane.LoadedYetBroken | src/epics_mcp/services/crossplane.py:256-287 | `P:X.Y` loaded and linked, `P:X` reported broken |
| SlidingWindow.RateWindow.PurgeOld | src/epics_mcp/olog_safety.py:386-390 | the purge removes only what is older than the window and leaves a deque whose oldest entry is recent |
| SlidingWindow.RateWindow.Take | src/epics_mcp/olog_safety.py:235-240 | refuses exactly when the closed window ending now holds `limit` admissions; a refusal adds no token |
| SlidingWindow.PurgedLength | src/epics_mcp/olog_safety.py:236-238 | after the purge the deque's length is the number of admissions in the closed window |
| SlidingWindow.AdmitKeepsTracking | src/epics_mcp/olog_safety.py:84-84 | an admission never meets a full deque, so `maxlen` evicts nothing |
| SlidingWindow.RateBound | src/epics_mcp/olog_safety.py:230-240 | over a whole history no closed 60 s window, wherever it starts, holds more than `limit` admissions |
| SlidingWindow.CountIs | src/epics_mcp/olog_safety.py:230-240 | the count of a window is the number of admissions whose moments lie in it |
| SlidingWindow.RateWindow.Bounded | src/epics_mcp/olog_safety.py:230-240 | that bound holds of the object at every moment of its life |
| SlidingWindow.ReadThrottle.Check | src/epics_mcp/services/_http.py:375-401 | the same limiter for reads; a limit of zero or less admits everything and records nothing |
| SlidingWindow.SafetyLayer.CheckWriteAllowed | src/epics_mcp/safety.py:115-159 | switch and pattern first, then the window; a denial writes one line and takes no token, an admission takes one and writes none |
| WindowThreads.StepKeeps | src/epics_mcp/olog_safety.py:230-240 | every single step of any thread keeps the invariant while the lock is used |
| WindowThreads.AnyInterleaving | src/epics_mcp/olog_safety.py:230-240 | under every interleaving of any number of threads: the window bound, exact verdicts, one thread inside, a bounded deque |
| WindowThreads.AloneIsAnswered | src/epics_mcp/olog_safety.py:230-250 | from every state with a free lock a thread left alone is answered and leaves the lock free, admitted exactly if the 60 s ending now have room |
| WindowThreads.WaitedIsAdmitted | src/epics_mcp/olog_safety.py:230-250 | and admitted in any case after waiting for more than 60 s, if the limit is above zero |
| WindowThreads.UnlockedAdmitsTwo | src/epics_mcp/olog_safety.py:92-97 | without the lock a limit of one admits two writes at one moment |
| OlogGate.OlogWriteGate.CheckWriteEnvAndUrl | src/epics_mcp/olog_safety.py:115-154 | passes exactly when the switch is on and the URL permitted; otherwise one DENY line |
| OlogGate.OlogWriteGate.CheckWritePreconditions | src/epics_mcp/olog_safety.py:156-189 | passes exactly for non-empty, allowlisted logbooks behind the first two checks; otherwise one DENY line |
| OlogGate.OlogWriteGate.CheckWriteAllowed | src/epics_mcp/olog_safety.py:191-250 | the full gate: passes exactly when preconditions, size and window allow, taking exactly one token; otherwise one DENY line with the right code and no token |
| OlogGate.OlogWriteGate.RejectUnknownLevel | src/epics_mcp/services/checkers_olog.py:510-543 | a level passes if absent, or not blank and listed; a blank one is refused without a read |
| OlogGate.OlogWriteGate.ReadAndSend | src/epics_mcp/services/checkers_olog.py:612-650 | after the token: file read, request, and exactly one line unless the file read fails: ALLOW behind a send that succeeded, else FAILED, with the gated logbooks; done exactly if files and send succeeded |
| OlogGate.OlogWriteGate.AdmitAndSend | src/epics_mcp/services/checkers_olog.py:611-650 | gate and write together: the denial code, or the ending the world decides, and exactly the events of it |
| OlogRuns.QueryOlogCreate | src/epics_mcp/services/checkers_olog.py:586-656 | its ending and its whole trace: the reads and stats in order, then a denial with its code, or one token and its aftermath |
| OlogRuns.QueryOlogAddAttachment | src/epics_mcp/services/checkers_olog.py:687-756 | the same, gated on the target's own logbooks |
| OlogRuns.QueryOlogUpdate | src/epics_mcp/services/checkers_olog.py:789-924 | the same, gated on current and resulting logbooks together; unknown logbooks, tags and levels are refused before the token |
| OlogRuns.CheckNames | src/epics_mcp/services/checkers_olog.py:866-885 | passes exactly when every edited name is known; the listings read are those of the edited fields up to the first unknown one, in order |
| OlogRuns.DeniedCallersReadNothing | src/epics_mcp/services/checkers_olog.py:586-708 | a caller refused by the switch or the URL causes no read and no stat, and neither does a create refused for its logbooks |
| OlogRuns.OnlyPermittedReachTheGate | src/epics_mcp/services/checkers_olog.py:819-886 | what reaches the full gate is gated on the right logbooks, all allowed: those named, those of the target, or current and resulting together |
| OlogRuns.LateDenials | src/epics_mcp/olog_safety.py:209-250 | past the preconditions a denial is for size exactly when the upload is over the cap, else for the rate; else the token is taken |
| OlogRuns.TraceMeans | src/epics_mcp/services/checkers_olog.py:612-650 | of a run with a token, over the world alone: when the files are read, when the request leaves, when there is an ALLOW and when a FAILED line, and that it is done exactly if the files were readable and the send succeeded |
| OlogRuns.LinesMean | src/epics_mcp/services/checkers_olog.py:612-650 | its lines carry the logbooks it writes to, FAILED also the entry id; reads come before the token, then the files, the request and the line |
| OlogRuns.CreateMeans | src/epics_mcp/services/checkers_olog.py:586-656 | every ending of a create, and the reads it makes, over the configuration, the arguments and the world |
| OlogRuns.AttachMeans | src/epics_mcp/services/checkers_olog.py:687-756 | the same of an attachment |
| OlogRuns.UpdateMeans | src/epics_mcp/services/checkers_olog.py:789-924 | the same of an edit, with its listings up to the first unknown name |
| OlogRuns.DenialsMean | src/epics_mcp/olog_safety.py:115-250 | a DENY line of a code stands in a run exactly if the run ended in that denial |
| OlogRuns.TerminalLineIff | src/epics_mcp/services/checkers_olog.py:612-650 | a run that took its token has its terminal line exactly unless it has files to read and they cannot be read; an edit always has it |
| OlogRuns.StrandedRun | src/epics_mcp/services/checkers_olog.py:611-616 | a permitted create whose attachment cannot be read: a token and no terminal line |
| OlogTraces.RunSoFar | src/epics_mcp/services/checkers_olog.py:586-656 | at every point of a run: at most one token, no request without it, no DENY beside it |
| OlogTraces.RunAtItsEnd | src/epics_mcp/services/checkers_olog.py:612-650 | at its end: a terminal line exactly for a token whose files could be read, a DENY line exactly for a denial, no request without a terminal line |
| OlogTraces.AtEveryMoment | src/epics_mcp/services/checkers_olog.py:586-656 | over all interleaved runs at every moment: ALLOW lines at most requests, requests at most tokens, terminal lines at most tokens |
| OlogTraces.WhenAllAreOver | src/epics_mcp/services/checkers_olog.py:612-650 | with all runs over, requests never exceed terminal lines, and terminal lines equal tokens exactly when no run that took one had unreadable files to read |
| OlogSystem.StepKeeps | src/epics_mcp/olog_safety.py:230-250 | every step of every run keeps the invariant: each run has done a beginning of its events, and the tokens of the trace are the admissions, each of which found room |
| OlogSystem.RequestsPerWindow | src/epics_mcp/olog_safety.py:230-240 | under every interleaving, of all requests ever sent at most `limit` belong to runs admitted inside any one 60 s window |
| OlogSystem.AtAnyMoment | src/epics_mcp/olog_safety.py:230-240 | at every moment ALLOW lines are at most requests, requests at most tokens; and every answer about the window was right for the admissions up to the moment it was given, the run's own being the next, whatever other runs do |
| OlogSystem.OnceAllAreOver | src/epics_mcp/services/checkers_olog.py:612-650 | the balance of tokens and terminal lines for the states the system reaches |
| OlogSystem.Alone | src/epics_mcp/services/checkers_olog.py:586-656 | a run that nothing interrupts leaves exactly the trace the operations leave with the gate to themselves |
| OlogSystem.WaitingMakesRoom | src/epics_mcp/olog_safety.py:230-240 | after more than 60 s of waiting the window has room, and no run has moved |
| OlogSystem.NoTokenIsLostIff | src/epics_mcp/services/checkers_olog.py:611-616 | under every schedule every finished run accounts for its token, exactly when no job that may get one has unreadable files to read |
| Splice.SpliceExact | scripts/guard_audit.py:176-182 | the result is the bytes before the span, the replacement and the bytes after it, for LF, CR and CRLF files and spans over several lines |
| Splice.SpliceBack | scripts/guard_audit.py:176-182 | splicing the original span back over a break-free replacement, at the place computed from its length, restores the file byte for byte |
| Splice.SpliceBackIff | scripts/guard_audit.py:176-182 | whatever the replacement, some splice of the original span restores the file, exactly unless the replacement left an empty file |
| Splice.LinesAre | scripts/guard_audit.py:176-182 | every line ends with LF, CR or CRLF and holds no break before that; only the last may lack one, and no CR line is followed by an LF |
| Splice.OffsetIs | scripts/guard_audit.py:178-181 | the offset of a line is the length of the lines before it, and a column past a line's end is its end |
| Sweep.SweepRun.WriteBytes | scripts/guard_audit.py:760-762 | the only write there is: over a pristine file a mutant, over own bytes the baseline |
| Sweep.SweepRun.RestoreOne | scripts/guard_audit.py:719-733 | after whatever others write, the baseline goes back exactly over the sweep's own bytes, and nothing else changes |
| Sweep.SweepRun.RestoreAll | scripts/guard_audit.py:718-733 | every file gets its turn, with others writing before each |
| Sweep.StepsSettle | scripts/guard_audit.py:718-733 | under arbitrary foreign writes, every file that had its turn is at its baseline or last written by someone else, and stays so |
| Sweep.StepsUndisturbed | scripts/guard_audit.py:718-733 | undisturbed, the loop puts back the one dirty file and changes nothing else |
| Sweep.SweepRun.TryMutant | scripts/guard_audit.py:748-772 | drift exactly when others have changed the file by then, a bad splice exactly when the mutant does not compile, else the mutant tried and undone |
| Sweep.SweepRun.RunMutant | scripts/guard_audit.py:759-772 | the files are restored however the mutant's run ends, and its exit says how: completed, invalid selection, or raised |
| Sweep.SweepRun.CmdSweep | scripts/guard_audit.py:740-778 | however others write, every exit leaves each file at its baseline or as someone else last wrote it, so no mutant is left behind; its exit says how far it got: completed exactly when every test run was valid and every mutant due was tried, invalid or raised exactly when the last run was so, a bad splice at the first mutant that does not compile; undisturbed, all at baseline, no drift, and a completed sweep has written and undone both mutants of each covered site, and nothing else |
| Sweep.ForeignSurvives | scripts/guard_audit.py:709-774 | under arbitrary foreign writes between steps, foreign content that is neither baseline nor an own mutant stays until the next foreign write |
| Sweep.MutantsAre | scripts/guard_audit.py:740-763 | due are both mutants of every covered site, and nothing else |
| Sweep.DueInOrder | scripts/guard_audit.py:740-748 | of each covered site the `True` mutant before the `False` one, site after site |
| Sweep.TrialsAre | scripts/guard_audit.py:740-772 | the writes of a completed sweep are each mutant over its baseline and the baseline over it |
| Sweep.TriedInOrder | scripts/guard_audit.py:748-772 | each mutant is undone before the next is written |
| Sweep.PolaritiesSpelled | scripts/guard_audit.py:748-748 | the two replacements are the words `True` and `False` |
| Coverage.MergeRows | src/epics_mcp/services/coverage.py:182-200 | one row per in-scope record, with the displays and roles of all its index rows |
| Coverage.AuditOne | src/epics_mcp/services/coverage.py:237-261 | the four verdicts of one PV |
| Coverage.Triage | src/epics_mcp/services/coverage.py:263-285 | a delivered PV enters the lists of exactly its proven gaps |
| Coverage.AuditCoverage | src/epics_mcp/services/coverage.py:157-329 | the matrix, the set differences, the triage lists, the registry count and the live planes; critical is the union of the three gap lists |
| Coverage.CellsMean | src/epics_mcp/services/coverage.py:139-154 | each cell's yes and no, over the rows, the registry and the checkers' answers alone: `Absent` is a no, a failed query neither |
| Coverage.DetailsMean | src/epics_mcp/services/coverage.py:182-200 | the displays and roles of a row are those of all index rows of its record |
| Coverage.FindingsMean | src/epics_mcp/services/coverage.py:218-285 | every list the same way: a delivered PV that its wired checker calls absent is a finding and critical, and nothing less is |
| Coverage.OrderIsIrrelevant | src/epics_mcp/services/coverage.py:182-285 | reordering or repeating index rows changes nothing |
| Coverage.LosingOnlyWithholds | src/epics_mcp/services/coverage.py:139-154 | two runs: failing or missing checkers, a lost registry, more capped displays and the rows lost with them leave each shared cell equal or withheld and shrink every list but `cf_only`, which gains only records whose rows were lost |
| Coverage.CfOnlyShrinksWithSight | src/epics_mcp/services/coverage.py:223-223 | with the same registry, seeing more of the displays only shortens `cf_only` |
| Globs.PrefixIsAskedFor | src/epics_mcp/services/checkers.py:105-105 | every name that starts with the scope is asked for, wildcards in the scope or not |
| Globs.PlainScopeIsPrefix | src/epics_mcp/services/checkers.py:105-105 | for a scope without wildcards exactly those names are |
| CoverageTruth.AdapterIsComplete | src/epics_mcp/services/checkers.py:102-114 | a truncating registry's reply to the scope's glob is handed on only when it is the complete answer |
| CoverageTruth.AdapterAnswersIff | src/epics_mcp/services/checkers.py:102-114 | an answer is handed on exactly if it holds fewer names than the cap, and is called capped exactly at the cap or above |
| CoverageTruth.RuntimeCellsAreTrue | src/epics_mcp/services/coverage.py:237-261 | against any world the oracles answer truthfully about: every yes is there, every "no" of registry, archiver and alarm is really absent |
| CoverageTruth.DisplayNoIsTrueIff | src/epics_mcp/services/coverage.py:226-241 | the display column's "no" is true in every world its inputs allow exactly when none stands under a glob cap or outside the scope |
| CoverageTruth.GlobCapHidesAScreen | src/epics_mcp/services/coverage.py:226-241 | one file left out by the glob cap: a record on a screen listed as a blind spot |
| CoverageTruth.ScopeInsideASuffix | src/epics_mcp/services/coverage.py:184-241 | a scope ending in `.`: a record on a screen listed as a blind spot |
| CoverageTruth.WildcardInScope | src/epics_mcp/services/coverage.py:184-241 | the scope `S:?`: a record on a screen listed as a blind spot |
| CoverageTruth.CfOnlyHoldsAll | src/epics_mcp/services/coverage.py:118-223 | every delivered record really on no display is in `cf_only`, whatever is capped |
| CoverageTruth.CfOnlyIsTrueIff | src/epics_mcp/services/coverage.py:118-223 | `cf_only` holds only records on no display, in every world its inputs allow, exactly when no delivered record lacks a row where rows may be missing |
| CoverageTruth.CappedDisplayIsListed | src/epics_mcp/services/coverage.py:118-223 | a capped display: its record is in `cf_only` and is no blind spot |
| CoverageTruth.CriticalIsReal | src/epics_mcp/services/coverage.py:263-285 | a PV listed as critical is really delivered and really has a gap |
| CoverageTruth.ScopeIsWholeIff | src/epics_mcp/services/checkers.py:102-114 | the records of all channels the registry finds for a scope lie inside it exactly when the scope holds no wildcard and cannot end inside a field suffix |
| CoverageTruth.WholeScopeIsBacked | src/epics_mcp/services/coverage.py:184-241 | under such a scope, with no glob cap, every "no" in the display column is true |
| QueryParams.AddFilter | src/epics_mcp/services/channelfinder_client.py:175-209 | one filter is accepted exactly if its name is valid, allowed and unclaimed and its value usable |
| QueryParams.EncodeFilters | src/epics_mcp/services/channelfinder_client.py:190-209 | all filters succeed together exactly if each is acceptable and no property is named twice over the three kinds |
| QueryParams.BuildQueryParams | src/epics_mcp/services/channelfinder_client.py:137-221 | success exactly for acceptable filters and tags; the parameters are then their encoding |
| QueryParams.ReadsBack | src/epics_mcp/services/channelfinder_client.py:190-209 | the parameters read back as exactly the accepted positive and negative filters, "lacks p" as p with `*` |
| QueryParams.NothingOverwritten | src/epics_mcp/services/channelfinder_client.py:167-221 | there are as many parameters as things asked for: no entry overwrites another |
| QueryParams.OnlyAllowedKeys | src/epics_mcp/services/channelfinder_client.py:112-134 | every property key without its `!` is allowlisted; `~name!` never appears and `~name` is the pattern |
| QueryParams.AcceptedIff | src/epics_mcp/services/channelfinder_client.py:175-209 | filters are accepted exactly if each name is valid, allowlisted and used once, no value is blank and no negated value holds a separator |
| QueryParams.RefusedNames | src/epics_mcp/services/channelfinder_client.py:119-134 | a name is valid exactly if, without the white space around it, it is not empty, does not start with `~` and does not end with `!` |
| QueryParams.SentAs | src/epics_mcp/services/channelfinder_client.py:190-209 | a positive filter is sent under its name; a negative one under the name and `!`, as `*` or as its value, which reads back as one alternative |
| QueryParams.SizeSent | src/epics_mcp/services/channelfinder_client.py:167-169 | `~size` is sent exactly if a cap is asked for, as that cap |
| QueryParams.TagsSent | src/epics_mcp/services/channelfinder_client.py:211-219 | the tag entries are sent exactly for non-empty lists, as their joined tags |
| QueryParams.TagsReadBackIff | src/epics_mcp/services/channelfinder_client.py:211-219 | a tag list reads back as the tags asked for exactly when no tag holds a separator |
| QueryParams.TagsStayApart | src/epics_mcp/services/channelfinder_client.py:211-215 | without separators no alternative is both asked for and refused |
| QueryParams.TagsApartIff | src/epics_mcp/services/channelfinder_client.py:211-219 | for given wanted tags no separator-free refused tag is also an alternative of them exactly when every alternative usable as a tag is one of them |
| QueryParams.SeparatorEscapes | src/epics_mcp/services/channelfinder_client.py:211-219 | with one, a tag of `t` and `u` joined by a separator asked for, and `u` refused, is accepted, and `u` is both |
| IsoTime.TextOrderIsTimeOrder | src/epics_mcp/services/_time_window.py:138-153 | renderings of the years 1 to 9999 have equal width, compare as texts as the moments do in milliseconds, and are equal exactly for equal milliseconds (sections 5.1 and 5.6 of RFC 3339) |
| IsoTime.ParseFormat | src/epics_mcp/services/_time_window.py:138-153 | reading the digits back gives the moment truncated to the millisecond |
| IsoTime.Marks | src/epics_mcp/services/_time_window.py:138-153 | 24 characters with `-`, `-`, `T`, `:`, `:`, `.` and `Z` between and behind the digits |
| IsoTime.DigitAt | src/epics_mcp/services/_time_window.py:149-153 | each character of a zero-padded field is the character of that decimal digit of its value |
| Typography.PaddedDash | scripts/check_typography.py:118-132 | for lines of every length, the padded search finds the doubled hyphen exactly where the edge-aware rule sees it |
| Typography.PaddedChar | scripts/check_typography.py:125-132 | for every visible one-character needle the padding neither creates nor destroys a match |
| Typography.PathMatchesIff | scripts/check_typography.py:89-102 | a suffix matches exactly when its components are the last components of the path |
| Typography.PathMatchesMeans | scripts/check_typography.py:89-102 | it matches exactly if it is the path, or the path is some text, a `/` and it |

## Left out

- SlidingWindow.RateWindow.Take: time is a real number, so the rounding of floating-point clocks is not modelled; the lock is one atomic step here and is taken apart in WindowThreads.
- OlogRuns.QueryOlogCreate: audit lines carry the logbooks and the entry id only; level, title length, owner, reply id, caller and attachment counts are not modelled.
- OlogSystem.StepKeeps: asking the window and taking the token is one step, which WindowThreads justifies; asyncio's thread hand-over is not modelled.
- Sweep.SweepRun.CmdSweep: reading a file, checking it and writing it is one step, so a foreign write landing between the check and the write is not modelled; digests are compared as bytes and a write is never torn.
- Splice.SpliceBack: the span must lie in the visible text of its lines, as offsets of a syntax tree do; SpliceBackIff has no such condition.
- CoverageTruth.AdapterIsComplete: the name pattern is read as one glob of `*` and `?`, as the client describes it (channelfinder_client.py:307); what the server makes of a separator or a backslash in it is not modelled.
- CrossPlane.CrossplaneCheck: the naming verdict, the list of incomplete displays and the notes are not modelled.
- Coverage.AuditCoverage: the notes are not modelled.
- Typography.PathMatchesIff: the conversion of a path to its slash form is taken as done.
- The regular expressions of `parse_st_cmd` and `ioc_db_pvs`, `_parse_macro_string` and the order of `epicsEnvSet` lines: matches are inputs; only the field-suffix pattern is spelled out.
- `_strip_comment_lines` over whole texts: line splitting and joining drop trailing blank lines; only the rule for one line is modelled.
- The file system behind `_build_basename_index`, symbolic links and path normalisation: a finite tree is an input.
- URL parsing behind the write boundary: one fixed fact of the configuration.
- Note texts and Markdown rendering: no verdict depends on them.
- `_read_body_capped`, `classify`, `diagnose`, `doctor`, `bounds` and `readback`: a counter, or a few branches on one value, with no state kept between calls.
- The remaining clients, the server registration and the command lines: they pass values on and decide nothing.
