# Verified models of Free Riders Recompiled

A Dafny model of the parts of Free Riders Recompiled whose correctness is hardest to see by
reading, with proofs about them. Each module follows one component of the repository; methods
with loops and classes with fields follow code that changes state, functions follow expressions.

* **Registers to locals** (`scripts/register_locals.py`). `Registers` and `Programs` are the
  register units and the statement graph a generated function is read into, `Liveness`,
  `CallGraph` and `Analysis` the analysis, `Transform` the rewriting. `Machine` and
  `TargetMachine` give both programs a meaning: a run over a register file and the rest of the
  world, with a trace of every node visited, every call made and every register shown to host
  code. `CallFacts`, `Noninterference` and `Simulation` prove what the analysis finds against
  runs, and that the rewritten program means what the source means under one condition on the
  analysis result, `AllComeBack`: every register live after a call comes back where the code
  after the call looks for it. `VolatileHandedOn`, `NonvolatilePassed` and `FieldInParts` (on
  `StraightLines`) give three programs, each localising whole classes, whose only possible
  analysis result breaks the condition and whose conversion means something else.
* **Loop-head checkpoints** (`scripts/loop_head_checkpoints.py`, `checkpoint_loop_heads` in
  `scripts/generate_diagnostic.py`): `Checkpoints`, `CheckpointSafety`, `CheckpointAgreement`.
* **Jump tables** (`scripts/analyse_switches.py`, `rewrite_jump_tables` in
  `scripts/generate_diagnostic.py`): `Bits`; `PowerPC`, which says of each instruction of Power ISA
  Book I, sections 2.4 and 3.3, and of the storage and vector facilities, what it does to the
  registers followed (32-bit words, condition fields, CTR), apart from what the script lists;
  `JumpTables`, `Dispatch`, `Tables`, `Switches`, `Extent`, and `Misreadings` for the words the
  script reads as other instructions.
* **Achievements** (`src/achievements.cpp`): `Civil`, `Stamps`, `Unlocked`, `Awards`.
* **Descriptor cache** (`src/bounded_descriptor_cache.h`): `DescriptorCache`, and `DescriptorRuns`
  for whole sequences of its uses.
* **Lobby and relay server** (`server/live_server.py`): `LobbyMembers` is what JOIN and LEAVE
  make of a session's members; `LobbyBook` says what each event calls for and what a run's log says
  when it is read backwards; `Lobby` is the server, whose runs have that log.
* **Font files** (`scripts/sfr_font_text.py`): `FontBytes`, `FontPack`, `FontRoundTrip`,
  and `FontFields` for the fields by place and byte.

`Options` is the optional value they share.

Where the code and what is written about it differ, the model follows the code:

* `scripts/register_locals.py` (lines 37-51 and 767-769) argues that only a caller's own reads
  need a callee to return a register, since a later callee's read is served by the caller's
  store. `VolatileLost` is a program where the caller has no local to store; `NonvolatileLost`
  one where a callee in between leaves its own value in the context, although line 887 means to
  prevent that; `FieldBitLost` one where a whole condition field is stored for one of its bits.
  None of the three is checked by the source. `Simulation.AllComeBack` is sufficient for a whole
  program, and what it asks at a direct call that may come back is exact there
  (`SeenIffComesBack`): the register is seen again, whatever the registers and whatever the
  callee left within what the analysis knows of it, if and only if it comes back. The pass-on
  case of lines 888-891 meets it (`VolatilePassed`).
* `Refused` in `server/live_server.py` (line 186) says it ends the connection; `control` answers
  it and goes on: a connection ends exactly when it is ended or gives a wrong password
  (`LobbyBook.EndsOnly`). A refused JOIN is not all or nothing: `LobbyMembers.RefusedJoinKeepsAll` says
  exactly when it leaves the members as they were, `LobbyMembers.RefusedJoinKeeps` shows one that does not and
  one that changes a slot and changes it back; LEAVE is the same (`RefusedLeaveKeepsAll`). A
  console whose UDP address another console took stays unheard while it repeats the same
  registration (`Lobby.HeardFrom`); `Lobby.TakenOver` is a server two consoles reach that state of.
* `effects` lists no condition field for mcrfs, though the instruction moves to one, and `execute`
  takes mtctr only with its reserved bit clear. `JumpTables.EffectsAre`, `EffectsCover` and
  `ExecutedExactly` say exactly which words are misread; `Misreadings.BoundHoldsExactly` that the
  bound holds exactly when no such mcrfs stands between compare and branch, and
  `Misreadings.McrfsBound` is code where one does. A recovered table is sound when its words are
  read as what they are (`Tables.Clear`).
* `parse_utc_text` accepts days a month does not have and second 60, and reads them as later
  times (`Stamps.LaterTimes`); `Stamps.AcceptedTexts` says exactly when an accepted text is the
  text of its time.
* The two checkpoint removals agree, and the removal is idempotent, exactly under the conditions
  `OnlyHeadsRepeat` and `!DoubledAt` of `CheckpointAgreement`; `RepeatedLabelDiffers` and
  `DoubledCheckpointDiffers` are a body and a text that do not meet them.

## Model

| member | source | states |
|---|---|---|
| Registers.WidenNames | scripts/register_locals.py:109-111 | rounding a mask up to names adds exactly the bits of the condition fields a bit of which is there |
| Registers.ParseClasses | scripts/register_locals.py:1012-1020 | accepted exactly when every name is a class, and then the registers of the named classes: whole names, with all or none of the nonvolatile ones |
| Registers.ClassNames | scripts/register_locals.py:113-120 | the class names there are, and the registers each stands for |
| Liveness.SolveFlow | scripts/register_locals.py:671-715 | the worklist stops, with the least solution of the backward equations |
| Liveness.LeastSolutionIsLive | scripts/register_locals.py:671-715 | a register is in the least solution at a node exactly when some path from there reads it before overwriting it |
| CallGraph.FindNoreturn | scripts/register_locals.py:599-626 | the sweep stops with the least set of names closed under "every path to a return needs one of the set to come back" |
| CallGraph.WrittenAndSaved | scripts/register_locals.py:506-547 | without a stack switch, exactly the saveable registers written, and those saved, at nodes reachable from the entry; with one, none written and only some of those saved |
| CallGraph.FindClobbers | scripts/register_locals.py:628-648 | the sweep stops with the least solution of written or left changed by a returning callee, less what is saved |
| Analysis.NeedIs | scripts/register_locals.py:776-791 | the mask computed after a call is exactly the volatile registers the caller itself reads later and the clobbered ones live there |
| Analysis.Analysis.Liveness | scripts/register_locals.py:671-715 | the masks stored for a function, or those of its own reads, are the least solution for the callees' current sets |
| Analysis.Analysis.Recompute | scripts/register_locals.py:746-756 | after one function is recomputed only queued functions can be unsettled, because every caller of a changed one is queued |
| Analysis.Analysis.PropagateLivein | scripts/register_locals.py:743-756 | when the queue empties, every function's live-in set settles its equations with the final callee sets |
| Analysis.Analysis.IndirectUnion | scripts/register_locals.py:757-762 | r12 alone under the convention, else exactly what some indirect target may read |
| Analysis.Analysis.CollectNeeds | scripts/register_locals.py:763-803 | every call's needs are asked of its callee, nothing outside what a callee may return is, and the solution is left as it was |
| Analysis.Analysis.ReturnIndirect | scripts/register_locals.py:809-815 | every indirect target returns what is read after indirect calls, and no function loses or gains anything else |
| Analysis.Analysis.RoundRets | scripts/register_locals.py:757-820 | a round that changes nothing leaves a solution of the coupled equations that returns only what was asked for |
| Analysis.SolvedWhenStable | scripts/register_locals.py:717-821 | settled live-in sets whose needs are already returned are a solution, with every returned set within its bounds |
| Analysis.Analysis.Solve | scripts/register_locals.py:717-821 | whatever it returns solves the coupled live-in and return equations, for direct and for indirect calls, and every returned register was asked for by a call that needed it in some round; and it answers, within two rounds, for every program whose functions call only imported ones |
| CallFacts.NoreturnNeverReturns | scripts/register_locals.py:599-626 | no run of a function found never to return ever returns |
| CallFacts.BodyKeeps | scripts/register_locals.py:628-648 | a body that returns changed no saveable register but those it wrote or a returning callee left changed, where no save or restore helper runs |
| CallFacts.CallKeeps | scripts/register_locals.py:628-654 | across a returning call every nonvolatile register outside the callee's clobbers has its old value, where no save or restore helper runs |
| CallFacts.UntouchedKept | scripts/register_locals.py:886-891 | a register nothing a call may run writes has its old value when the call comes back |
| Noninterference.RetNotRestored | scripts/register_locals.py:37-51 | a register returned through the context is never one the epilogue puts back |
| Noninterference.RunsAgree | scripts/register_locals.py:671-821 | two runs from a node whose files agree on what is live there take the same path through all nested calls, agree at every node on the live registers, and agree at return on what is returned or written |
| Noninterference.CallsAgree | scripts/register_locals.py:656-669 | the same for whole calls: a callee cannot tell files apart that agree on its live-in set |
| Transform.TransformFunction | scripts/register_locals.py:886-982 | every statement gets exactly the stores and loads its node, the solution and the function's locals call for |
| Transform.TransformProgram | scripts/register_locals.py:985-996 | every function of the program is transformed, in any order |
| Simulation.StoresHandOver | scripts/register_locals.py:938-943 | after the stores before a call the context holds the source's value of every register handed over, and of every register never localised |
| Simulation.SeenIffComesBack | scripts/register_locals.py:886-945 | at a direct call that may come back, a live register is seen again whatever the registers and whatever the callee left within what is known of it, if and only if the place the code after looks holds it: a local the convention keeps or nothing the call runs can make wrong, or the context, where the callee returns it or everything the call runs only passes it on |
| Simulation.PassedComesBack | scripts/register_locals.py:886-891 | a saved register a function passes from its caller, or reads of it, comes back after every call |
| Simulation.CallBackMatches | scripts/register_locals.py:938-945 | after a call and its loads the locals and the context again show the source's value of everything live, when all of it comes back |
| Simulation.Simulates | scripts/register_locals.py:886-982 | from any node, the rewritten function takes the same path, makes the same calls, shows host code the same registers, leaves the same world and returns every register of its ret with the source's value |
| Simulation.CallSimulates | scripts/register_locals.py:886-982 | the same for whole calls from a context agreeing on the callee's live-in and on registers never localised |
| Simulation.Convert | scripts/register_locals.py:1025-1074 | solving and transforming a whole program gives the code of what solve returns, which no host can tell from the source when every live register comes back after every call |
| VolatileHandedOn.VolatileLost | scripts/register_locals.py:763-803 | whatever the conversion of a program that hands a volatile register from one callee to a later one gives, its host sees another value than the source's |
| VolatileHandedOn.HandedOnly | scripts/register_locals.py:717-821 | that program has exactly one possible analysis result |
| VolatileHandedOn.VolatilePassed | scripts/register_locals.py:888-891 | a volatile register a middle function only passes on is asked of nobody there, and comes back |
| NonvolatilePassed.NonvolatileLost | scripts/register_locals.py:886-891 | whatever the conversion of a program whose middle callee saves and uses a nonvolatile register that is passed beyond it gives, its host sees another value |
| NonvolatilePassed.PassingOnly | scripts/register_locals.py:717-821 | that program has exactly one possible analysis result |
| FieldInParts.FieldBitLost | scripts/register_locals.py:878-945 | whatever the conversion of a program that names one bit of a condition field and passes on another gives, its host sees another bit |
| FieldInParts.PartsOnly | scripts/register_locals.py:717-821 | that program has exactly one possible analysis result |
| Checkpoints.ScanFunction | scripts/loop_head_checkpoints.py:39-48 | the last line of each label, and the labels some goto at or after them in the function jumps to |
| Checkpoints.ForwardCheckpoints | scripts/loop_head_checkpoints.py:35-52 | exactly the checkpoints right after a label no goto of the same function returns to |
| Checkpoints.Transform | scripts/loop_head_checkpoints.py:55-59 | the text less those lines, with the number dropped and the number of checkpoints kept |
| Checkpoints.Exchange | scripts/loop_head_checkpoints.py:62-71 | a checkpoint at the head of the output may be matched as early as possible: the greedy choice loses nothing |
| Checkpoints.DeletesIs | scripts/loop_head_checkpoints.py:62-71 | the greedy reading accepts exactly what some choice of deleted checkpoint lines explains |
| Checkpoints.Check | scripts/loop_head_checkpoints.py:62-71 | accepts if and only if the output is the source with some checkpoint lines deleted and nothing else changed |
| Checkpoints.TransformPassesCheck | scripts/loop_head_checkpoints.py:55-71 | the transformed text always passes |
| CheckpointSafety.TransformSafe | scripts/loop_head_checkpoints.py:3-11 | code with a checkpoint after every label keeps one after every loop head |
| CheckpointSafety.BackStepChecked | scripts/loop_head_checkpoints.py:3-11 | a step back in a function is followed by a checkpoint |
| CheckpointSafety.StretchDescends | scripts/loop_head_checkpoints.py:3-11 | a stretch of any path without a checkpoint visits strictly later lines, so it is no longer than the function |
| CheckpointSafety.CyclePassesCheckpoint | scripts/loop_head_checkpoints.py:7-10 | every cycle passes a kept checkpoint |
| CheckpointSafety.RunsDown | scripts/loop_head_checkpoints.py:8-11 | every path of the source is one of the output with the same trace but for checkpoints |
| CheckpointSafety.RunsUp | scripts/loop_head_checkpoints.py:8-11 | and every path of the output is one of the source |
| CheckpointSafety.SameRuns | scripts/loop_head_checkpoints.py:8-11 | source and output have exactly the same runs, checkpoints erased |
| CheckpointAgreement.CheckpointLoopHeads | scripts/generate_diagnostic.py:1561-1575 | the output is the body with a checkpoint after exactly the labels that a goto at or after them returns to |
| CheckpointAgreement.AtPos | scripts/generate_diagnostic.py:1573-1575 | each line of the body is in the output, and a marked one is followed by a checkpoint with the label's own line ending |
| CheckpointAgreement.ImplementationsAgree | scripts/generate_diagnostic.py:1561-1575 | removing forward checkpoints from a fully checkpointed body gives the body checkpointed at loop heads exactly when only loop-head labels repeat |
| CheckpointAgreement.RepeatedLabelDiffers | scripts/generate_diagnostic.py:1561-1575 | a label defined twice that nothing returns to: the two removals give different texts |
| CheckpointAgreement.TwiceIsOnce | scripts/loop_head_checkpoints.py:55-59 | a second pass changes nothing exactly when no dropped checkpoint has another right after it |
| CheckpointAgreement.DoubledCheckpointDiffers | scripts/loop_head_checkpoints.py:55-59 | two checkpoints after one forward label: the second pass drops the second |
| Bits.Rotl32Bit | scripts/analyse_switches.py:55-57 | bit by bit, the shift-and-or is rotation round the 32-bit word |
| Bits.Mask32 | scripts/analyse_switches.py:60-65 | its ones are exactly those of MASK(mb, me), wrapped masks included |
| JumpTables.RotatedMaskedIs | scripts/analyse_switches.py:184-186 | the emulated rlwinm has the bits the instruction gives |
| JumpTables.EffectsCover | scripts/analyse_switches.py:83-137 | the listed effects of a word cover every step of its instruction exactly unless it is mcrfs or a move to CTR |
| JumpTables.EffectsAre | scripts/analyse_switches.py:83-137 | a word is listed exactly when it is an instruction followed, and what is listed is exactly what that may change, but for mcrfs |
| JumpTables.ExecutedExactly | scripts/analyse_switches.py:163-204 | what stays known after an instruction is so on every machine exactly unless the instruction writes CTR by a word execute does not take for mtctr |
| JumpTables.KnownWhen | scripts/analyse_switches.py:163-204 | a result is known exactly when the inputs it needs are |
| JumpTables.Execute | scripts/analyse_switches.py:163-204 | registers known before an instruction and agreeing with the machine still agree after it, for every state and outcome, unless it writes CTR unseen; which instructions are rejected, and what stays known, is exact |
| Dispatch.CopiesBack | scripts/analyse_switches.py:217-236 | one instruction further back, every kept register still equals the index plus its offset at the compare |
| Dispatch.CopiesAre | scripts/analyse_switches.py:221-229 | the copies are mr and addi from another register than r0, and nothing else |
| Dispatch.IndexRelations | scripts/analyse_switches.py:207-237 | on every straight run to the compare each kept register is the index plus its offset as 32-bit words, through code no branch leaves or enters |
| Tables.FindCompare | scripts/analyse_switches.py:254-260 | finds the compare that dominates a branch on its field, or none does |
| Tables.OneBound | scripts/analyse_switches.py:240-261 | a bctr has at most one bound |
| Tables.FindBound | scripts/analyse_switches.py:240-261 | a bound is returned exactly when there is one, and it is the only one |
| Tables.BoundHolds | scripts/analyse_switches.py:240-261 | the branch is taken exactly when the index was above the limit when compared, when no mcrfs to its field stands between |
| Misreadings.BoundHoldsExactly | scripts/analyse_switches.py:240-261 | that holds on every run exactly when no mcrfs to the field stands between |
| Misreadings.McrfsBound | scripts/analyse_switches.py:240-261 | code where find_bound finds a bound that does not hold |
| Tables.BranchTargetIs | scripts/analyse_switches.py:72-80 | an unlinked b or bc goes where the instruction goes, any other word nowhere |
| Tables.FarTarget | scripts/analyse_switches.py:72-80 | every aligned I-form displacement in range goes that far from the branch, or from zero with AA |
| Tables.NearTarget | scripts/analyse_switches.py:72-80 | the same for B form |
| Tables.EmulateIndex | scripts/analyse_switches.py:333-336 | the registers reached for an index describe every machine run through the block with that index, and are those of the emulation instruction by instruction |
| Tables.SwitchRegister | scripts/analyse_switches.py:343-345 | the register chosen holds the index for every case whenever some register does |
| Tables.RecoverTable | scripts/analyse_switches.py:314-360 | a table is accepted exactly when there is a bound, the emulation of every index within it ends with an allowed label in CTR, and the fallback is allowed; and, its words read as what they are, it is sound: the branch is taken to the fallback exactly for the indices above the limit, and every run on to the bctr has an index in bounds and its label in CTR |
| Tables.RunDispatches | scripts/analyse_switches.py:317-340 | the soundness for one run through the block to the bctr |
| Switches.LoadJumpTables | scripts/generate_diagnostic.py:1203-1214 | accepted exactly when every entry is valid and no base repeats, and then each base has its own entry |
| Switches.CtrTaken | scripts/generate_diagnostic.py:1244-1250 | the switch on CTR goes to the value when it is a label and stops on every other value |
| Switches.SwitchesAgree | scripts/generate_diagnostic.py:1217-1250 | it takes the goto of the index switch exactly when CTR holds the label of the index |
| Switches.DispatchKept | scripts/generate_diagnostic.py:1217-1225 | with a sound table it does, on every run through the block to the bctr |
| Switches.CtrCases | scripts/generate_diagnostic.py:1244-1246 | the emitted cases are the labels, each once, in order |
| Switches.RewriteJumpTables | scripts/generate_diagnostic.py:1217-1255 | exactly the configured instructions that carry the expected switch are replaced, the other configured ones are reported, nothing else changes |
| Extent.FunctionExtent | scripts/analyse_switches.py:363-398 | stops; rejects exactly when padding or code out of the range is reachable by fallthrough, branches and table labels; otherwise has visited exactly the reachable addresses and returns the end of the last |
| Extent.ReachableSeen | scripts/analyse_switches.py:363-398 | a visited set closed under fallthrough, near branches and table labels holds everything reachable |
| Civil.DaysSplit | src/achievements.cpp:72-79 | the era arithmetic with truncating division counts whole March years, whole months and days |
| Civil.NextDayIsNext | src/achievements.cpp:72-79 | the calendar successor of a date has the next day number |
| Civil.Epoch | src/achievements.cpp:71-71 | day 0 is 1970-01-01 |
| Civil.DateOfDays | src/achievements.cpp:80-91 | every integer is the number of the valid date made from it |
| Civil.DaysOfDate | src/achievements.cpp:72-91 | every valid date is the date made from its number |
| Civil.NextNumberIsNextDay | src/achievements.cpp:80-91 | counting days and counting dates agree for all integers |
| Stamps.ReadNumber | src/achievements.cpp:288-295 | the value of the digits at a place, or nothing when one is not a digit |
| Stamps.PaddedReads | src/achievements.cpp:278-280 | a padded number reads back, and has its width exactly when it fits |
| Stamps.SecondsRoundTrip | src/achievements.cpp:273-276 | every second has a valid date and time of day that stand for it |
| Stamps.ParseUtcText | src/achievements.cpp:284-303 | the fields in their ranges as seconds, or nothing |
| Stamps.TextReadsBack | src/achievements.cpp:273-303 | a written time reads back exactly when its year has four digits, and is refused otherwise |
| Stamps.AcceptedTexts | src/achievements.cpp:284-303 | an accepted text is the text of its time exactly when its day exists and its second is below 60 |
| Stamps.LaterTimes | src/achievements.cpp:284-303 | 30 February and second 60 are accepted, and the text of the time they are read as is another |
| Stamps.NumbersAccepted | src/achievements.cpp:284-303 | a text of numbers is accepted exactly for months 1 to 12, days 1 to 31, hours below 24, minutes below 60 and seconds below 61, and as that time |
| Unlocked.ParseUnlocked | src/achievements.cpp:309-332 | the loop over lines reads the file as the line-by-line specification does |
| Unlocked.FormatUnlocked | src/achievements.cpp:334-341 | the text is the header, the player's line if there is a name, and one line an entry |
| Unlocked.EntryReadsBack | src/achievements.cpp:309-341 | a written entry is added when read, unless its id has ten digits, its year has not four, or the id was there |
| Unlocked.FileReadsBack | src/achievements.cpp:309-341 | what a written file reads back to, for any list |
| Unlocked.FileRoundTrip | src/achievements.cpp:309-341 | a file reads back as written exactly when ids differ and have at most nine digits, years have four, and the name is one trimmed line |
| Unlocked.ReturnsRead | src/achievements.cpp:93-97 | a file with CRLF line ends is read as one without |
| Unlocked.BlanksRead | src/achievements.cpp:309-332 | blanks round a line, its key and its value do not matter |
| Awards.AddUnlocked | src/achievements.cpp:369-377 | the list grows by exactly the ids not in it, each once, in order, and these are returned |
| Awards.BatchesJoin | src/achievements.cpp:411-414 | how awards are batched does not matter |
| Awards.EarlierStays | src/achievements.cpp:369-377 | no entry is lost, moved or given another time |
| Awards.UnlockedAfter | src/achievements.cpp:369-377 | what is unlocked is what was, and the first award of each new id |
| Awards.NoIdTwice | src/achievements.cpp:369-377 | however often an id is in the file or awarded, it is listed once |
| Awards.TimesNeverChange | src/achievements.cpp:389-422 | each later file's list extends the earlier one's |
| Awards.FileHoldsAwards | src/achievements.cpp:343-416 | a later reader finds exactly the awards added in order, when they can be written and read back |
| Awards.AchievementStore.constructor | src/achievements.cpp:389-396 | the store starts idle over the file as it is |
| Awards.AchievementStore.Award | src/achievements.cpp:433-439 | all ids of a call are queued in order, at any moment of the worker |
| Awards.AchievementStore.Take | src/achievements.cpp:397-404 | the worker takes everything pending, or leaves when told to stop with nothing pending |
| Awards.AchievementStore.Merge | src/achievements.cpp:405-414 | the worker's list becomes the awards so far added in order, and it knows whether one was new |
| Awards.AchievementStore.Write | src/achievements.cpp:415-416 | the file becomes the text of that list, and stays when nothing was new |
| Awards.AchievementStore.MayReturn | src/achievements.cpp:441-444 | wait returns only when every award made before is in the file |
| Awards.AchievementStore.Destroy | src/achievements.cpp:424-431 | stopping ends, and every award made before is in the file |
| Awards.AchievementStore.Serve | src/achievements.cpp:389-444 | under every schedule of awards, worker steps and waits, each file on the way holds exactly the awards up to where the worker is, and a wait returns exactly when these are all |
| Awards.Drained | src/achievements.cpp:397-444 | from anywhere in a schedule, without another award, every award is in the file and a wait returns exactly once the worker made the steps it has left |
| DescriptorCache.UnchangedHeld | src/bounded_descriptor_cache.h:12-16 | a set still holds the current views of its key when none of its indices changed since it was stamped |
| DescriptorCache.BoundedTextureStamps.Touch | src/bounded_descriptor_cache.h:21-23 | each stamp stays the time of the last change of its index; an index beyond the table changes nothing |
| DescriptorCache.BoundedTextureStamps.UnchangedSince | src/bounded_descriptor_cache.h:28-32 | true exactly when no index in range got another view after that time |
| DescriptorCache.BoundedSetCache.Textures | src/bounded_descriptor_cache.h:65-71 | a set answered without making holds exactly the current views of its key; one is made exactly when there was none or a view changed, and the old one counts as abandoned |
| DescriptorCache.BoundedSetCache.PutTextures | src/bounded_descriptor_cache.h:47-50 | a new set is written once, with the current views; no written set changes |
| DescriptorCache.BoundedSetCache.Samplers | src/bounded_descriptor_cache.h:72-75 | a sampler set is made exactly once for a key |
| DescriptorCache.BoundedSetCache.Clear | src/bounded_descriptor_cache.h:81-85 | nothing is kept, abandoned or found afterwards |
| DescriptorCache.SetsApart | src/bounded_descriptor_cache.h:47-50 | no two keys are answered with the same set |
| DescriptorCache.SetsConserved | src/bounded_descriptor_cache.h:86-87 | the sets written since the pools were reset are exactly those kept and those abandoned, and fewer than the limits together while the cache is not crowded |
| DescriptorCache.StillValid | src/bounded_descriptor_cache.h:17-36 | what the cache keeps stays true while views change |
| DescriptorRuns.Serve | src/bounded_descriptor_cache.h:17-88 | under every sequence of view changes, draws, samplers and resets, a draw gets the set of the last draw with its key unless a view of the key changed or the pools were reset since, and then a new one; and at every moment until the next reset each bound set holds what its key named when its draw asked |
| LobbyBook.IpBytesName | server/live_server.py:453-459 | four source bytes equal a console's address bytes exactly when their value is its address |
| LobbyMembers.JoinedFits | server/live_server.py:391-399 | joining keeps every member there was and never passes 64 |
| LobbyMembers.JoinedAll | server/live_server.py:391-399 | after an accepted JOIN each member has the slot its last word says |
| LobbyMembers.RefusedJoinKeepsAll | server/live_server.py:391-399 | a JOIN is refused and leaves the members as they were exactly when some word is unreadable, or new past the limit, every word before it names a member, and for each member the last of these says what it already was |
| LobbyMembers.RefusedLeaveKeepsAll | server/live_server.py:401-405 | a LEAVE is refused and leaves the members as they were exactly when no word before the first unreadable one names a member |
| LobbyMembers.LeftAll | server/live_server.py:401-405 | LEAVE removes exactly the members named before the first unreadable word, and is accepted exactly when there is none |
| Lobby.Session.Join | server/live_server.py:391-400 | the members are those of the words up to the first that is refused, which are kept |
| Lobby.Session.Leave | server/live_server.py:401-405 | the named members up to the first unreadable word are gone, the rest stay |
| Lobby.Session.Modify | server/live_server.py:406-409 | flags and both slot counts change together or not at all |
| LobbyBook.EveryNumberTried | server/live_server.py:217-223 | going round from any number tries every number |
| Lobby.Service.NewNumber | server/live_server.py:217-223 | the next free number in 1..0xFFFE, round and round; none exactly when all are taken, and then the search starts where it did |
| Lobby.Service.Open | server/live_server.py:225-233 | a connection is taken up to the limit, signed at once only without a password |
| Lobby.Service.Pass | server/live_server.py:261-267 | the right password signs the connection, a wrong one changes nothing and closes it |
| Lobby.Service.SayHello | server/live_server.py:342-352 | a console is made exactly when the connection is signed and new, the xuid reads, and a number and a place are free; it gets the next free number; every table stays in step |
| Lobby.Service.Close | server/live_server.py:354-364 | nothing leads to a departed console: numbers, addresses, its sessions and memberships are gone, all else stays |
| Lobby.Service.CreateSession | server/live_server.py:371-381 | a session is made exactly when both limits and its words allow it, hosted by the console, with these words, no members and in the lobby, last in order |
| Lobby.Service.SearchSessions | server/live_server.py:382-386 | sessions in the lobby with an open slot, not the asker's, in the order they were made, as many as the limit allows |
| Lobby.Service.DeleteSession | server/live_server.py:415-419 | exactly the named session is gone; none is no error, an unreadable id is |
| Lobby.Service.ChangeSession | server/live_server.py:391-414 | JOIN and LEAVE change the members alone, MODIFY flags and slots together or nothing, STATE the state; the answer says whether all was accepted, and no other session changes |
| Lobby.Service.Register | server/live_server.py:434-453 | a registration counts exactly with the console's token, or without one where no password is asked and no token was used; it moves that console's address and no other |
| Lobby.HeardFrom | server/live_server.py:447-452 | when a registered console is heard from its address afterwards |
| Lobby.TakenOver | server/live_server.py:447-452 | a server reached by two consoles registering from one address, where the first has that address, can register again, and is not heard there |
| Lobby.Service.Receive | server/live_server.py:434-464 | a datagram is a registration exactly when it counts, and is relayed exactly when it carries the address of the console registered at its sender and its destination registered an address; it goes to the last one |
| Lobby.Service.Ask | server/live_server.py:371-432 | a request of each kind is answered as the book says and leaves the sessions the book says |
| Lobby.Service.Answer | server/live_server.py:277-280 | a request before HELLO changes nothing and is not logged; any other is asked and logged with its answer |
| Lobby.Service.Handle | server/live_server.py:225-299 | one event of any kind keeps every table and limit and is logged as what it calls for by the book of the log so far: connections, signings, arrivals with their tokens, departures, requests with their answers, registrations and relays, each exactly when it should be |
| Lobby.Service.Serve | server/live_server.py:204-464 | every sequence of connections, passwords, hellos, requests, departures and datagrams keeps all tables and limits and has the log of the run |
| LobbyBook.OneLog | server/live_server.py:204-464 | a sequence of events has one log only |
| LobbyBook.BookHasLive | server/live_server.py:342-364 | the live consoles of a log are those that arrived and did not leave, each with the token it got and whether a registration since carried one |
| LobbyBook.BookHasLast | server/live_server.py:434-453 | its addresses are exactly the last registration of each console since it arrived |
| LobbyBook.BookHasHolder | server/live_server.py:447-452 | an address leads to exactly the console that moved there last, while it neither moved nor left |
| LobbyBook.RegisteredExactly | server/live_server.py:435-446 | in every run a datagram registers a console exactly when the console arrived and is there and the datagram has its token, or has none where no password is asked and no registration since its arrival had one |
| LobbyBook.RelayedExactly | server/live_server.py:434-464 | in every run a datagram is relayed exactly when its address leads to the console it names as its source and the console it names as its destination is registered, and then to the address of the last datagram that counted for that console |
| LobbyBook.EndsOnly | server/live_server.py:225-299 | a connection ends at an event exactly when the event ends it or gives a wrong password |
| LobbyBook.RequestsDo | server/live_server.py:371-414 | what each kind of request changes, session by session: the sessions it does not name stay |
| LobbyBook.BookHasRoom | server/live_server.py:371-419 | the sessions of a log are those made and since then neither deleted nor left by their host, each with the host and words that made it |
| LobbyBook.FoundExactly | server/live_server.py:382-386 | in every run SEARCH finds sessions in the lobby with an open slot that another console hosts, each once, in the order they were made, and all of them up to the limit |
| FontBytes.ConcatAt | scripts/sfr_font_text.py:236-242 | a part laid end to end is found again between its offset and the next |
| FontPack.ReadStrings | scripts/sfr_font_text.py:108-121 | the two loops read every string up to its end mark or the end of the chunk |
| FontPack.Serialize | scripts/sfr_font_text.py:185-242 | the loops lay out glyph records, pages, strings and entries as the layout functions say |
| FontRoundTrip.PackReads | scripts/sfr_font_text.py:45-58 | in both versions every entry is found where its offset says, and every offset lies inside the file |
| FontRoundTrip.FontDataReads | scripts/sfr_font_text.py:66-90 | the font entry gives back its count, header, glyphs and trailer |
| FontRoundTrip.TextureReads | scripts/sfr_font_text.py:91-105 | the pages come back with their names, heights and pixels, and every offset and size lies inside the texture |
| FontRoundTrip.StringTableReads | scripts/sfr_font_text.py:108-121 | the strings come back, padding or not, and every offset lies inside the chunk |
| FontRoundTrip.PackRoundTrip | scripts/sfr_font_text.py:185-242 | reading a written file gives the same glyphs, strings, pages and names, and every other entry as it was |
| FontRoundTrip.RewrittenIsSame | scripts/sfr_font_text.py:185-248 | a written file, read and written again with its own glyphs, pages, strings and names, is the same file byte for byte |
| FontFields.WrittenHeader | scripts/sfr_font_text.py:185-195 | a written file read back has in its font header the number of glyphs and, unless the pages stay, the cells of a full page, the number of pages, width and first and last height, and the rows, each in its place; the rest as it was |
| FontFields.RecordFields | scripts/sfr_font_text.py:196-199 | a glyph record holds width, left, character, number and right side in their places |
| FontFields.TextureHead | scripts/sfr_font_text.py:201-224 | the texture begins with the number of pages, 1, the place and size of each, and a mark for each; the first place is that of the first page |
| FontFields.FirstPageAt | scripts/sfr_font_text.py:204-206 | the first page begins at 64, or at the multiple of 64 between 64 and 128 bytes past the names |
| FontFields.BlobFields | scripts/sfr_font_text.py:207-212 | a page is the template with its height and width, then its pixels |
| FontFields.PaddedSize | scripts/sfr_font_text.py:235-238 | a file that ends with the string table is a multiple of sixteen bytes long |
| FontFields.BytesOf32 | scripts/sfr_font_text.py:185-242 | numbers are written highest byte first |
| FontRoundTrip.ReadFontWhole | scripts/sfr_font_text.py:65-90 | a font read from a file meets what writing takes from it |

## Left out

- Analysis.Analysis.Solve: the source loops until nothing changes; live-in sets can shrink between rounds, so the model stops after a given number of recomputations instead, and what it has when it stops early is no solution; that it answers is proved for programs whose functions call only imported ones.
- Transform.TransformFunction: `WRITE_THROUGH` functions' stores after every write and the `OBSERVED_RESTORES` kept as calls are not emitted; the output is a list of statements with their stores and loads, not text, and a conditional return is its branch and its own exit node.
- Simulation.Simulates: programs with `WRITE_THROUGH` functions or `OBSERVED_RESTORES` and the return addresses the dropped helpers move are outside it. The saves of a prologue store registers into the frame without counting as uses, so converted code may leave other bytes in those slots: the worlds are the same up to them. Runs are compared up to any number of steps, so a run that never ends is compared by its prefixes.
- Simulation.CallSimulates: indirect calls are trusted to reach functions of the standard convention, as the source trusts them; the fields cr2 to cr4 are trusted to be preserved across calls, as a bracket around each function.
- Simulation.SeenIffComesBack: what a callee may leave is taken as what the analysis knows of it, not what one callee's code can do, and the converse is for direct calls; so a program may break the condition and yet mean the same.
- CallFacts.BodyKeeps: a function that switches stacks (`STACK_SWITCH`) is taken never to come back to its caller, since the source counts it as writing nothing; a function that switched and returned is outside every result about runs.
- CallFacts.CallKeeps: a program in which a save or restore helper that is to be removed was itself found never to return is outside it; where the helpers stay calls (the nonvolatile class is off, so that no such register is a local) it says nothing of the registers they move.
- Analysis.Analysis.StoreRets: what the source keeps in each function object the model keeps in maps by name on the analysis, so sharing between function objects is not captured.
- Tables.RecoverTable: its soundness is stated for words read as what they are (`Tables.Clear`), which is exact for the bound and for one instruction but only sufficient for a whole table; why a candidate is rejected is not modelled, nor the unbounded tables tried for some reasons, nor the list of joining paths, which is only reported.
- PowerPC.Does: the results of instructions the emulator does not execute are any words and fields; reserved bits are ignored; memory outside the image, LR, XER, floating-point and vector registers and the upper halves of registers are not modelled; extended opcodes 711, 743, 839 and 871, which the script lists, are taken to change nothing, as an instruction that is not assigned does not fall through.
- Switches.RewriteJumpTables: a body is its instructions with the dispatch that follows each, not text.
- Civil.DateOfDays: 64-bit overflow for day numbers near the ends of the range.
- Awards.AchievementStore.Write: a failed write; the file is read and written in one step, and no one else writes it.
- DescriptorCache.BoundedSetCache.PutTextures: the caller is taken to store a new set before it asks for the same key again.
- DescriptorRuns.Serve: one cache and its stamps, of the several rings of a renderer; the pool is taken to give no set twice between resets, and a reset comes when the caller makes one.
- Lobby.Service.SearchSessions: what a found session's line says of it.
- Lobby.Service.CreateSession: session ids are taken to be new, as their eight random bytes make them.
- FontPack.Serialize: names are bytes, without their decoding; what the original raises an error for is excluded by its precondition.
- Recognition of statements, labels and registers in generated text, image scanning and process pools.
- Sockets, timeouts, rate limits, over-long lines and logging of the server (whatever of these ends a connection is its `Ended` event), the requests that only read (PING, SESSION, QOSGET, PEER), and QOSSET with the bytes it stores for QOSGET.
- `unbounded_absolute_table`, `table_functions` and the reports of the switch analysis.
- XDBF and XEX parsing, disk access and thread primitives below the step level of the achievement store.
- Drawing of glyphs, texture encoding, text markup of strings, and the command lines of all scripts.
