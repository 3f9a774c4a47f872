# rvwasm: a verified model

rvwasm is a RISC-V emulator that runs in the browser, with a family of release and CI reports
around it. This project models the parts of it whose correctness depends on state, order or bit
positions, and proves what those parts promise. `dafny verify dfyconfig.toml` checks everything.

## Run loop

`cmd/rvwasm/main.go` drives one to eight harts in round-robin slices, inside browser callbacks that
carry a token. `Machine.dfy` gives each operation as a function on machine states; `Emulator.dfy` is
the object whose methods update the same fields in place, each proved to do exactly what the
function does; the other files prove properties of the functions.

The guest is opaque. One `Hart.Step` is an arbitrary `Effect`: it retires or not, may change every
hart in every way, may make SRST, poweroff or reboot requests in any number and order, and may hit a
watchpoint. Effects and the wall clock come from a `World`, over which every theorem quantifies.
Syscon requests may also arrive between slices.

- `Ticks.dfy`: the tick protocol over every run of commands and callbacks. Outstanding callbacks are
  counted and never newer than the token. Those that carry the current token, as far as the program
  can tell, are exactly one while running and at most one otherwise, and a callback scheduled before
  a bump of the token never runs the guest again, unless the 64-bit token has wrapped all the way
  round. Both exact conditions are proved for every reachable state, together with a concrete run in
  which a dead callback revives after 2^64 bumps and two chains of ticks run side by side.
- `Slices.dfy`: fairness of the round robin at every point of a slice, and the overshoot of the
  slice drivers, with machines on which the bound is met exactly.
- `Breakpoints.dfy`: which visits of an address stop the machine and what its hit counter counts,
  over whole runs in which breakpoints come and go at other addresses and this one may be set again.
  Slices of one step look at no breakpoint; all others look at every turn.
- `Console.dfy`, `Artifacts.dfy`: the bounded console log, with its overlapping copy in an array,
  under any interleaving of appended bytes and flushes, and the artifact list that is compacted
  while it is being read.

## Event logs, instructions, texts

- `Virtqueue.dfy`, `DeviceProbe.dfy`: folding an MMIO log into queue states and probes agrees with a
  "last relevant write" reading of the log, device by device. Registers follow section 4.2.2 of
  VIRTIO 1.1.
- `QueueLog.dfy`: the same two summaries stated position by position in the log.
- `Words.dfy`: the 64-bit masks and shifts as arithmetic on numbers.
- `Immediates.dfy`: immediate decoding inverts the encodings of section 2.3 (Immediate Encoding
  Variants) of the RISC-V Unprivileged ISA, in both directions.
- `GoMod.dfy`, `GoModText.dfy`: the go.mod reader; directives written out read back unchanged,
  parenthesised blocks and one-line directives mean the same, and require and replace directives may
  be reordered among each other.
- `SanitizeId.dfy`: identifiers are the words of a text joined by dashes; the identifiers are exactly
  the texts left alone.

## Reports

- `Retention.dfy`, `ReleaseAudit.dfy`, `ReleaseBuilders.dfy`: retention audit, score, gate and audit.
  A stricter policy never gets a better audit, through all three.
- `Waivers.dfy`: waiver report and TODO list agree, expired rules waive nothing, unexpired rules
  never hurt. With a check time that does not parse no rule expires; `NoClockNoExpiry` shows it.
- `CIGate.dfy`, `Matrix.dfy`: the CI gate and the aggregate of a build matrix.
- `Options.dfy`, `Sorting.dfy`, `Seqs.dfy`, `Text.dfy`: missing values, stable sorting, filtering,
  and Go's string functions.

Where code and wording differ, the code is followed: the gate's text asks for a release score of
"at least 80", while the score warns below 85 and below any lost point (ci_audit_ext7.go:237-241 and 413-420).

## Model

| member | source | states |
|---|---|---|
| Ticks.ExecBookkept | cmd/rvwasm/main.go:532-604 | Every command and every fired callback keeps 1 to 8 harts, `runPending` equal to the number of outstanding callbacks, and no outstanding token above `runToken`; the token never decreases |
| Ticks.FireBookkept | cmd/rvwasm/main.go:551-561 | The same when one callback fires, whatever the guest does during its tick |
| Ticks.ExecOneChain | cmd/rvwasm/main.go:532-604 | Every command and every fired callback keeps one callback of the current run at most, exactly one while running; and afterwards the callbacks that pass for current are counted exactly (below) |
| Ticks.FireOneChain | cmd/rvwasm/main.go:566-597 | A fired callback is used up and replaced, by one with the same token, exactly if it passed the guard, an old one included, and the machine still runs |
| Ticks.GuestKeepsChain | cmd/rvwasm/main.go:194-206 | Guest execution, with SRST, poweroff and reboot in mid-slice, starts no second chain, and while still running leaves the callbacks that pass for current alone |
| Ticks.RunBookkept | cmd/rvwasm/main.go:532-604 | The bookkeeping holds after every run from power-up |
| Ticks.RunOneChain | cmd/rvwasm/main.go:532-604 | After every run from power-up: while running, exactly one outstanding callback passes for current if and only if none is older by a multiple of 2^64 bumps; otherwise at most one does if and only if there is none such, or a single one and none of the current run |
| Ticks.RevenantsAre | cmd/rvwasm/main.go:557 | The callbacks that compare equal to runToken are those of the current run and those older by a multiple of 2^64 bumps |
| Ticks.DistinguishableChain | cmd/rvwasm/main.go:532-604 | With no outstanding callback 2^64 bumps old, exactly one passes for current while running, at most one otherwise |
| Ticks.FewBumpsDistinguish | cmd/rvwasm/main.go:75 | Fewer than 2^64 bumps keep callbacks that young throughout the run |
| Ticks.StaleFiresInVain | cmd/rvwasm/main.go:557-559 | A callback older than some token bump, fired after any further run, changes nothing but the callback bookkeeping, unless the bumps since are a multiple of 2^64 |
| Ticks.FireRunsGuestIff | cmd/rvwasm/main.go:557-570 | A fired callback gives the guest a turn if and only if it is outstanding, the machine runs, some hart is alive, and the bumps since it was scheduled are a multiple of 2^64 |
| Ticks.WrapAroundRevives | cmd/rvwasm/main.go:532-604 | A concrete run after 2^64 bumps: while running, more than one callback passes for current, and a long dead one executes the guest |
| Ticks.SliceGuest | cmd/rvwasm/main.go:221-253 | A slice touches no callback, never lowers the token, and leaves the machine running only if nothing bumped the token |
| Ticks.TickEnds | cmd/rvwasm/main.go:566-597 | A tick of up to 50000 steps that leaves a hart in error, or none alive, stops the machine, bumps the token and schedules nothing; any other changes neither after its slices; while the machine runs on, some hart is alive and none in error |
| Ticks.StartRunMeans | cmd/rvwasm/main.go:532-544 | Run does nothing while running or without firmware, and otherwise starts the machine under a new token with one more callback, leaving the rest |
| Ticks.StopMeans | cmd/rvwasm/main.go:508-517 | Pause and reset stop the machine under a new token; reset also renews every hart; nothing else changes |
| Ticks.PoweroffMeans | cmd/rvwasm/main.go:194-199 | After a poweroff no hart is alive, and each keeps its pc, mode and error |
| Ticks.RebootMeans | cmd/rvwasm/main.go:201-219 | After a reboot every hart is alive, without error, in machine mode at the entry point, and the machine is stopped |
| Ticks.SystemResetMeans | cmd/rvwasm/main.go:1464-1470 | SRST halts the calling hart only and bumps no token |
| Ticks.AddBreakpointMeans | cmd/rvwasm/main.go:1051-1054 | Setting a breakpoint keeps the hits of an earlier one at the address, whatever its parameters, and touches no other |
| Slices.RoundsTurns | cmd/rvwasm/main.go:221-253 | A slice's turns go round robin from hart 0, at most n per hart; only the last turn can stop it; a full slice takes all n·H |
| Slices.SliceTurnsRoundRobin | cmd/rvwasm/main.go:221-253 | The same for the turns runSlice(n) adds to the trace, for every n; breakpoints are looked at in all of them, or, for n = 1, in none |
| Slices.StepsOf | cmd/rvwasm/main.go:221-253 | After k turns a hart that was never skipped has stepped k/H times, plus one if its turn of the round has come |
| Slices.SliceFair | cmd/rvwasm/main.go:221-253 | At every point of a slice, two harts never found halted have been stepped equally often, give or take one |
| Slices.FullSliceSteps | cmd/rvwasm/main.go:221-253 | A slice that is neither stopped nor idle steps each such hart exactly n times |
| Slices.SliceRan | cmd/rvwasm/main.go:240-241 | `ran` is the number of retired steps, at most n·H |
| Slices.SliceEnds | cmd/rvwasm/main.go:226-252 | A slice ends early exactly on a breakpoint stop or a watchpoint, is idle exactly when its last round is whole, unstopped and without a retired step; every round before the last retired a step |
| Slices.SliceStops | cmd/rvwasm/main.go:223-247 | A slice that ends early leaves the machine stopped with the reason, which names hart, pc and hits; the reason of an earlier slice is forgotten |
| Slices.TurnRecords | cmd/rvwasm/main.go:229-241 | A halted hart is skipped; any other is stopped where it stands or stepped there once, counting if it retired |
| Slices.SliceTimeboxedDrives | cmd/rvwasm/main.go:255-280 | The time-boxed driver slice by slice: each of 1024 steps or what is left of a budget of at least one, begun only while running with a live hart, after a slice that made progress and left no stop, error or late clock; the last one is the last for a reason |
| Slices.SmokeDrives | cmd/rvwasm/main.go:2100-2111 | The smoke loop likewise, in slices of 1000 steps |
| Slices.SliceTimeboxedBound | cmd/rvwasm/main.go:255-280 | The time-boxed driver returns at most its budget plus min(1024, budget) per further hart, whatever guest and clock do |
| Slices.SmokeBound | cmd/rvwasm/main.go:2100-2111 | The smoke loop returns at most steps + 1000·(H-1) |
| Slices.OvershootAttained | cmd/rvwasm/main.go:255-280 | On a machine nothing stops, budgets up to 1024 are overrun by exactly that bound |
| Slices.OvershootExact | cmd/rvwasm/main.go:255-280 | What both drivers run on such a machine, for every budget, with the clock never up |
| Slices.BoundsAttained | cmd/rvwasm/main.go:2100-2111 | Both drivers meet their bounds exactly for budgets as large as one likes |
| Breakpoints.TakeTurnLawful | cmd/rvwasm/main.go:228-245 | One turn: the hart is stepped in an armed slice only where the breakpoint does not fire, and hits move by the qualifying visit alone |
| Breakpoints.SliceLawful | cmd/rvwasm/main.go:221-253 | Over a slice: every qualifying visit stops exactly if the breakpoint fires at its count, every stop has such a breakpoint, and the counters grow by the qualifying visits |
| Breakpoints.ExecLawful | cmd/rvwasm/main.go:282-304 | The same at one address over one command or callback, unless it clears the breakpoints or sets another one there |
| Breakpoints.RunLawful | cmd/rvwasm/main.go:282-304 | Over every run that neither clears this breakpoint nor sets one with other parameters there: every qualifying visit stops exactly if the breakpoint fires at its count, hits grow by those visits, and without a breakpoint nothing stops there |
| Breakpoints.NewBreakpoint | cmd/rvwasm/main.go:297-303 | In such a run a breakpoint with afterHits = k and no hits passes its first k-1 qualifying visits and stops every later one (all of them for k = 0); its counter is the number of visits |
| Breakpoints.SliceStopsRightly | cmd/rvwasm/main.go:233-236 | In a slice of n steps per hart, n other than 1, no hart is stepped at a pc whose breakpoint fires |
| Breakpoints.SingleStepUnchecked | cmd/rvwasm/main.go:233 | A slice of one step counts no hit and is stopped by no breakpoint |
| Breakpoints.CheckMeans | cmd/rvwasm/main.go:282-304 | Which visits a breakpoint looks at, by hart and mode, what it counts, when it fires, and that nothing else changes |
| Breakpoints.QualifiesIff | cmd/rvwasm/main.go:282-304 | The same of the turns on record |
| EmulatorLoop.Emulator.CheckBreakpoint | cmd/rvwasm/main.go:282-304 | Fields and answer are those of the breakpoint function |
| EmulatorLoop.Emulator.HaltAllHarts | cmd/rvwasm/main.go:187-192 | Halts every hart and changes nothing else of them |
| EmulatorLoop.Emulator.ResetHarts | cmd/rvwasm/main.go:208-219 | Every hart is reset to the entry point |
| EmulatorLoop.Emulator.RequestSystemPoweroff | cmd/rvwasm/main.go:194-199 | Stops, bumps the token, halts all harts, and nothing else |
| EmulatorLoop.Emulator.RequestSystemReboot | cmd/rvwasm/main.go:201-206 | Stops, bumps the token, resets all harts, and nothing else |
| EmulatorLoop.Emulator.Perform | cmd/rvwasm/main.go:1464-1470 | SRST stops the machine and halts the calling hart without a token bump |
| EmulatorLoop.Emulator.TakeTurn | cmd/rvwasm/main.go:228-245 | One hart's turn does to the fields what the turn function does |
| EmulatorLoop.Emulator.RunRound | cmd/rvwasm/main.go:228-246 | The inner loop is the function of one round |
| EmulatorLoop.Emulator.RunSlice | cmd/rvwasm/main.go:221-253 | The loop over rounds leaves the fields and the count of the slice function |
| EmulatorLoop.Emulator.RunSliceTimeboxed | cmd/rvwasm/main.go:255-280 | The time-boxed loop, for non-positive budgets too |
| EmulatorLoop.Emulator.RunSmokePreset | cmd/rvwasm/main.go:2097-2111 | Resets the harts and runs the chunked loop |
| EmulatorLoop.Emulator.ScheduleRunTick | cmd/rvwasm/main.go:546-564 | While running, one more callback with this token |
| EmulatorLoop.Emulator.RunTick | cmd/rvwasm/main.go:566-597 | One tick, with its error, no-hart-alive, interrupted and rescheduling endings |
| EmulatorLoop.Emulator.Fire | cmd/rvwasm/main.go:551-561 | The callback's guard before the tick |
| EmulatorLoop.Emulator.Run | cmd/rvwasm/main.go:532-544 | Refuses while running or without firmware, else starts a new chain |
| EmulatorLoop.Emulator.Pause | cmd/rvwasm/main.go:599-604 | Stops and bumps the token |
| EmulatorLoop.Emulator.Reset | cmd/rvwasm/main.go:508-517 | Stops, bumps the token and resets the harts |
| EmulatorLoop.Emulator.AddBreakpoint | cmd/rvwasm/main.go:1051-1054 | Re-adding a breakpoint keeps its hits |
| ConsoleLog.RetainAllIsTail | cmd/rvwasm/main.go:385-389 | Truncating at every byte leaves exactly the last min(N, 2 MiB) bytes of the stream |
| ConsoleLog.LogMeans | cmd/rvwasm/main.go:385-389 | The same in numbers: the log's length is the lesser of the stream's and 2097152 |
| ConsoleLog.EmitAllReproduces | cmd/rvwasm/main.go:382-416 | Over every interleaving of appended bytes and flushes, flushed chunks followed by the buffer are the whole stream; the buffer holds at most 63 bytes and no line end |
| ConsoleLog.EmitMeans | cmd/rvwasm/main.go:390-392 | The buffer is written out by its 64th byte or a line end, and not otherwise |
| ConsoleLog.CopyDown | cmd/rvwasm/main.go:387 | The overlapping copy to the front moves the bytes unharmed |
| ConsoleLog.Console.LogByte | cmd/rvwasm/main.go:384-389 | Appends to the log in its array and drops the oldest byte beyond 2 MiB |
| ConsoleLog.Console.AppendConsole | cmd/rvwasm/main.go:382-393 | Keeps: the log is the stream's tail, terminal and buffer reproduce the stream, the buffer is short and without line ends; from every state in which that holds, also after outside flushes |
| ConsoleLog.Console.FlushConsole | cmd/rvwasm/main.go:406-416 | Moves the buffer, all of it, to the terminal, and keeps the same at any point between appends, as step, tick and pause call it |
| ConsoleLog.Console.Clear | cmd/rvwasm/main.go:508-517 | A reset starts a new stream |
| Artifacts.RecordAllKeepsLatest | cmd/rvwasm/main.go:425-435 | After any records the list is exactly each role's latest record, in the order of last recording |
| Artifacts.RolesDistinct | cmd/rvwasm/main.go:425-435 | The roles are pairwise distinct |
| Artifacts.ArtifactList.Compact | cmd/rvwasm/main.go:428-433 | Writing the kept entries over the array being read loses none of them |
| Artifacts.ArtifactList.RecordArtifact | cmd/rvwasm/main.go:425-435 | Drops the role's earlier entry and appends the new one |
| Virtqueue.Summary | internal/analyze/boot.go:202-261 | The result is the states of exactly the queues the log mentions, strictly sorted by (device, queue), where each state is what the log says of that queue |
| QueueLog.SummaryDescribes | internal/analyze/boot.go:202-248 | Field by field and position by position: Num and Ready are the last such writes made while the queue was selected, each address is its last low and high halves, notifications are counted and the last one dated; exactly the queues mentioned are listed |
| QueueLog.SummaryInOrder | internal/analyze/boot.go:254-259 | By device name, the first differing character deciding and a proper prefix first, then by rising queue number |
| Virtqueue.LastWriteIs | internal/analyze/boot.go:218-248 | A register's value is the value of its last write made while its queue was selected |
| Virtqueue.NeverWritten | internal/analyze/boot.go:218-248 | Without such a write it stays unset |
| Virtqueue.AppendWrite | internal/analyze/boot.go:218-248 | One write changes the reading of the log as the switch changes the queue's state, with the two 32-bit halves of an address in any order and repetition |
| Virtqueue.AppendKnown | internal/analyze/boot.go:205-230 | Which queues a log mentions, as events arrive |
| Virtqueue.UpdatedTracks | internal/analyze/boot.go:218-248 | The loop body keeps the maps in agreement with the log, including entries made for a queue merely selected |
| Virtqueue.SetHalves | internal/analyze/boot.go:232-243 | Replacing one half of an address leaves the other half alone |
| Virtqueue.MasksAreArithmetic | internal/analyze/boot.go:232-243 | The program's 64-bit masks and shifts, read as numbers, are SetLow and SetHigh on the numbers of their operands |
| Words.WordOfHalves | internal/analyze/boot.go:232-243 | A number's word is made of the words of its high and low half |
| Words.NumberOfWord | internal/analyze/boot.go:232-243 | Every number below 2^64 is the number of its word |
| Virtqueue.SummaryUnique | internal/analyze/boot.go:250-261 | A log has only one summary, so the order of map iteration is immaterial |
| Virtqueue.ProjectedState | internal/analyze/boot.go:202-248 | A queue's state depends on its own device's events only |
| Virtqueue.NonInterference | internal/analyze/boot.go:202-261 | The summary restricted to a device is the summary of that device's events |
| Virtqueue.NotifiesConserved | internal/analyze/boot.go:244-247 | A device's notify counts add up to its QueueNotify writes |
| DeviceProbe.Summary | internal/analyze/boot.go:126-175 | One probe for each device seen, sorted by name, counting what its events are |
| QueueLog.ProbeDescribes | internal/analyze/boot.go:126-169 | A probe's counts register by register, the status values written in order, and its last access |
| QueueLog.ProbesListed | internal/analyze/boot.go:128-138 | A device is listed exactly if its name is probed and the log has an event of it |
| QueueLog.ProbesInOrder | internal/analyze/boot.go:169-175 | Probes come in order of their names |
| DeviceProbe.AppendProbe | internal/analyze/boot.go:133-166 | One event changes the counts of its device as the loop body does |
| DeviceProbe.ReadsAndWrites | internal/analyze/boot.go:138-142 | Every access is counted once, as a read or a write |
| DeviceProbe.ProbeNonInterference | internal/analyze/boot.go:126-175 | A probe depends on its own device's events only |
| Immediates.SextValue | internal/cpu/util.go:5 | For every width 1 to 64, sext is the two's complement value of the low bits |
| Immediates.Sext32IsSext | internal/cpu/util.go:6 | sext32 is sext of width 32 |
| Immediates.InvertsI | internal/cpu/util.go:10 | Every immediate in [-2048, 2047], its two's complement bits placed among any other fields, decodes to itself |
| Immediates.InvertsS | internal/cpu/util.go:11 | The same for format S |
| Immediates.InvertsB | internal/cpu/util.go:12-15 | The same for every even immediate in [-4096, 4094] |
| Immediates.InvertsU | internal/cpu/util.go:16 | The same for every multiple of 4096 in the 32-bit range |
| Immediates.InvertsJ | internal/cpu/util.go:17-20 | The same for every even immediate in [-2^20, 2^20-2] |
| Immediates.WordIs | internal/cpu/util.go:10-20 | Every number below 2^32 has a word, whose value it is; so the words above exist for every immediate |
| Immediates.RestoresI | internal/cpu/util.go:10 | The decoded value's low bits, encoded again, give back the instruction word |
| Immediates.RestoresS | internal/cpu/util.go:11 | The same for format S |
| Immediates.RestoresB | internal/cpu/util.go:12-15 | The same for format B |
| Immediates.RestoresU | internal/cpu/util.go:16 | The same for format U |
| Immediates.RestoresJ | internal/cpu/util.go:17-20 | The same for format J |
| Immediates.RangeI | internal/cpu/util.go:10 | Decoded values of every word lie in [-2048, 2047] |
| Immediates.RangeS | internal/cpu/util.go:11 | The same for format S |
| Immediates.RangeB | internal/cpu/util.go:12-15 | Even values in [-4096, 4094] |
| Immediates.RangeU | internal/cpu/util.go:16 | Multiples of 4096 in the signed 32-bit range |
| Immediates.RangeJ | internal/cpu/util.go:17-20 | Even values in [-2^20, 2^20-2] |
| GoMod.ParseGoMod | internal/analyze/ci_attest_ext5.go:65-136 | The line loop with its two flags returns what the file's directives declare |
| GoMod.FlagsMean | internal/analyze/ci_attest_ext5.go:73-99 | A block flag is set if and only if some line opened such a block and no ")" line came after it |
| GoMod.TargetIsLast | internal/analyze/ci_attest_ext5.go:118-134 | The last replace directive of a path wins, an empty one included |
| GoMod.ResolveAll | internal/analyze/ci_attest_ext5.go:130-134 | The final loop gives every module its replacement |
| GoMod.ItemOutOfBlock | internal/analyze/ci_attest_ext5.go:99-128 | A block item says the same as a one-line directive |
| GoMod.BlocksDesugar | internal/analyze/ci_attest_ext5.go:73-128 | So does a file of blocks, line by line, and every block is left closed |
| GoMod.DesugaringKeepsMeaning | internal/analyze/ci_attest_ext5.go:65-136 | Rewriting every well-formed block as one-line directives keeps modules, module path, go version and the number of warnings |
| GoMod.OrderIsImmaterial | internal/analyze/ci_attest_ext5.go:65-136 | Files with the same require lines, the same replace lines and the same other lines, each in order, read alike; warnings are permuted |
| GoMod.ReorderingKeepsMeaning | internal/analyze/ci_attest_ext5.go:65-136 | The same for whole files with blocks |
| GoModText.RoundTrip | internal/analyze/ci_attest_ext5.go:65-136 | A file written from directives reads back as exactly them |
| GoModText.RequireText | internal/analyze/ci_attest_ext5.go:138-147 | A requirement is its path, then its version, up to a comment |
| GoModText.ReadsReplace | internal/analyze/ci_attest_ext5.go:117-128 | A replacement is the first field before the arrow and the trimmed text after it, with or without a version |
| GoModText.ReadsModule | internal/analyze/ci_attest_ext5.go:78-81 | A module line names the module |
| GoModText.ReadsGo | internal/analyze/ci_attest_ext5.go:82-85 | A go line names the version |
| GoModText.BlankSays | internal/analyze/ci_attest_ext5.go:75-77 | Blank lines and comments say nothing, in or outside blocks |
| GoModText.Unreadable | internal/analyze/ci_attest_ext5.go:100-127 | A single word is no requirement and no replacement, and is warned of |
| GoModText.ModulesAre | internal/analyze/ci_attest_ext5.go:130-136 | The i-th module is the i-th requirement, direct, with the replacement of its path |
| GoModText.ModulePathIsLast | internal/analyze/ci_attest_ext5.go:78-81 | The last module directive counts |
| GoModText.GoVersionIsLast | internal/analyze/ci_attest_ext5.go:82-85 | The last go directive counts |
| GoMod.LinesOfUnlines | internal/analyze/ci_attest_ext5.go:73 | Splitting at line ends undoes joining lines |
| GoMod.UnlinesOfLines | internal/analyze/ci_attest_ext5.go:73 | Joining undoes splitting |
| GoMod.CutIsFirst | internal/analyze/ci_attest_ext5.go:119 | The cut is at the first occurrence, and fails only if there is none |
| GoMod.FieldsMean | internal/analyze/ci_attest_ext5.go:142 | Fields are non-empty, free of white space, and lose nothing else |
| SanitizeId.SanitizeID | internal/analyze/ci_handoff_ext.go:402-417 | The loop over runes computes the function the lemmas are about |
| SanitizeId.CollapseIsJoin | internal/analyze/ci_handoff_ext.go:405-411 | The buffer is the words so far joined by dashes, with one dash for leading and one for trailing separators |
| SanitizeId.SanitizeIsJoin | internal/analyze/ci_handoff_ext.go:402-417 | The identifier is the text's words joined by single dashes, or "item" if there are none |
| SanitizeId.LoweredMeans | internal/analyze/ci_handoff_ext.go:403 | The words are those of the text without surrounding white space, each character in lower case |
| SanitizeId.WordsOfRun | internal/analyze/ci_handoff_ext.go:405-411 | A run of letters and digits is one word |
| SanitizeId.WordsApart | internal/analyze/ci_handoff_ext.go:405-411 | Any other character parts the words before it from those after it |
| SanitizeId.Canonicalises | internal/analyze/ci_handoff_ext.go:402-417 | It is non-empty, over [a-z0-9-], without leading, trailing or doubled dashes |
| SanitizeId.FixedIffCanonical | internal/analyze/ci_handoff_ext.go:402-417 | The texts left alone are exactly the canonical ones; sanitising twice is sanitising once |
| Retention.BuildRetentionAudit | internal/analyze/ci_audit_ext7.go:289-350 | The loop's rows, counters, warnings and status are those of the entries |
| Retention.AuditEntry | internal/analyze/ci_audit_ext7.go:306-345 | What one entry contributes |
| Retention.TallyMeans | internal/analyze/ci_audit_ext7.go:306-346 | The running totals after n entries count what their names say |
| Retention.RowMeans | internal/analyze/ci_audit_ext7.go:306-345 | A row fails if the entry is kept too briefly or has expired, and passes if neither and its expiry is known and not soon |
| Retention.DetailMeans | internal/analyze/ci_audit_ext7.go:306-340 | The row's remark, case by case |
| Retention.SoonIff | internal/analyze/ci_audit_ext7.go:319-331 | Soon, in nanoseconds: ahead by less than one day more than the soon-days, or beyond what a duration holds and the soon-days as well |
| Retention.DaysRemaining | internal/analyze/ci_audit_ext7.go:320-321 | Days remaining are rounded towards the present |
| Retention.AuditCounts | internal/analyze/ci_audit_ext7.go:289-349 | The counters count the entries that expired, expire soon, are kept too briefly or have no expiry; one row for each entry |
| Retention.WarningsCount | internal/analyze/ci_audit_ext7.go:302-339 | One warning for each expiry that does not parse and one for a manifest without schema |
| Retention.AuditMeans | internal/analyze/ci_audit_ext7.go:302-345 | The audit fails exactly if a row does, and passes exactly if all rows do and the manifest has a schema |
| Retention.RetentionMonotone | internal/analyze/ci_audit_ext7.go:289-350 | Larger minimum or soon-days never improve the audit and leave expiries and warnings alone |
| ReleaseAudit.ScorePassesIff | internal/analyze/ci_audit_ext7.go:384-423 | The score is the sum of the points, at most 100; it passes if and only if it is 100 and fails if and only if below 60 |
| ReleaseAudit.ScoreIs | internal/analyze/ci_audit_ext7.go:384-423 | The score is 100 less what each of the six parts loses, all its weight for fail or error and the greater half for warn or empty; it is 100 exactly when none of these occurs |
| ReleaseAudit.ComponentsAre | internal/analyze/ci_audit_ext7.go:403-408 | The six components, by name and weight |
| ReleaseAudit.ScoreMonotone | internal/analyze/ci_audit_ext7.go:384-423 | A worse retention audit never raises the score |
| ReleaseAudit.StatusSet | internal/analyze/ci_audit_ext7.go:161-167 | Membership in the collected statuses, up to space and case |
| ReleaseAudit.GatedIff | internal/analyze/ci_audit_ext7.go:161-167 | A status is gated if the policy lists it, up to surrounding space and case |
| ReleaseAudit.WorstCheckMeans | internal/analyze/ci_audit_ext7.go:150-159 | The gate fails if and only if some check fails, and passes if and only if all pass |
| ReleaseAudit.GateMeans | internal/analyze/ci_audit_ext7.go:148-253 | When the gate fails and when it passes, in terms of evidence, retention audit, score and policy alone |
| ReleaseAudit.AuditIsGate | internal/analyze/ci_audit_ext7.go:449-458 | The audit's status is always the gate's |
| ReleaseAudit.AuditMonotone | internal/analyze/ci_audit_ext7.go:148-458 | Tightening any policy fields never improves the audit status nor raises the score, through retention, score and gate |
| ReleaseBuilders.BuildScore | internal/analyze/ci_audit_ext7.go:384-423 | The appending builder yields the score the lemmas are about |
| ReleaseBuilders.BuildGate | internal/analyze/ci_audit_ext7.go:148-253 | The gate's checks in order, with exit code 1 if and only if some check fails, which is if and only if evidence, audit or score block under the policy |
| ReleaseBuilders.BuildReleaseAuditReport | internal/analyze/ci_audit_ext7.go:449-458 | The three builders together; status is the gate's and the score passes only if perfect |
| Waivers.ExtractIssues | internal/analyze/ci_audit_ext8.go:179-234 | The thirteen loops and the sort leave the audit's findings, sorted by id |
| Waivers.IssuesAre | internal/analyze/ci_audit_ext8.go:179-234 | Each of the thirteen sources has its issue with kind, name, status, detail, id and severity, every issue comes from one of them, and there are as many as failing checks, components and rows and listed names together |
| Waivers.IssuesInOrder | internal/analyze/ci_audit_ext8.go:232 | No issue's id comes before an earlier one's |
| Waivers.BuildWaiverReport | internal/analyze/ci_audit_ext8.go:254-313 | The nested loops over issues and rules, and the parse failure, yield the report of the issues |
| Waivers.MatchAll | internal/analyze/ci_audit_ext8.go:270-290 | All matches in order, and the ids of exactly the rules that match something |
| Waivers.MatchesAre | internal/analyze/ci_audit_ext8.go:272-289 | A match for each issue and rule that go together, active unless the rule has expired |
| Waivers.RuleMatchesIff | internal/analyze/ci_audit_ext8.go:334-355 | A rule needs an id, and each field it fills in must equal the issue's, or stand in its text, in any case |
| Waivers.RuleExpiredIff | internal/analyze/ci_audit_ext8.go:278-282 | A rule has expired if both times are known and its own is not after the check |
| Waivers.ListUnmatched | internal/analyze/ci_audit_ext8.go:291-295 | Lists, in order, exactly the rules no issue made match, by id |
| Waivers.UnmatchedAre | internal/analyze/ci_audit_ext8.go:291-295 | A rule is listed, by id or as unnamed, exactly if no issue matches a rule with its id |
| Waivers.Partition | internal/analyze/ci_audit_ext8.go:296-308 | Splits the issues into waived and unwaived and grades the latter |
| Waivers.GradeMeans | internal/analyze/ci_audit_ext8.go:301-307 | Pass if and only if nothing is unwaived, fail if and only if a failing issue is |
| Waivers.WaivedIffCovered | internal/analyze/ci_audit_ext8.go:270-290 | An id is waived if and only if an unexpired rule matches an issue with it |
| Waivers.BuildTodoReport | internal/analyze/ci_audit_ext8.go:370-405 | The TODO loop yields the sorted TODOs of the unwaived issues |
| Waivers.TodoMeans | internal/analyze/ci_audit_ext8.go:383-390 | Priority, title, detail and query of a TODO, from severity, kind and name of its issue |
| Waivers.TodosInOrder | internal/analyze/ci_audit_ext8.go:397-402 | TODOs come by rising priority number, and by title within one |
| Waivers.ReportsAgree | internal/analyze/ci_audit_ext8.go:254-405 | TODOs are a permutation of the unwaived issues' images, counts agree, waived and unwaived add up, statuses differ only by parse failure or the warning for expired matches |
| Waivers.AuditReportsAgree | internal/analyze/ci_audit_ext8.go:179-405 | The same for two reports of one audit, however ties among issue ids are sorted |
| Waivers.ExpiredRuleWaivesNothing | internal/analyze/ci_audit_ext8.go:270-312 | Adding an expired rule anywhere changes no count and no unwaived issue, and status at most from pass to warn |
| Waivers.UnexpiredRuleHelps | internal/analyze/ci_audit_ext8.go:270-312 | Adding an unexpired rule anywhere never grows the unwaived issues nor worsens the status |
| Waivers.NoClockNoExpiry | internal/analyze/ci_audit_ext8.go:258-283 | Without a usable check time, every matching rule waives, however long ago it expired |
| CIGate.BuildCIGateReport | internal/analyze/ci_gate.go:71-162 | The checks in order; fail if and only if some check failed, or some warned while warnings are failures; exit code 1 if and only if fail |
| CIGate.VerdictMeans | internal/analyze/ci_gate.go:71-162 | When the gate fails and when it passes, in terms of evidence and policy alone, to the very limits |
| CIGate.AddArtifacts | internal/analyze/ci_gate.go:120-135 | One check for every non-blank required role |
| CIGate.AddCauses | internal/analyze/ci_gate.go:136-145 | One failing check for every needle found in the top cause |
| CIGate.ArtifactChecksMean | internal/analyze/ci_gate.go:120-135 | They fail if and only if a required role is absent |
| CIGate.CauseChecksMean | internal/analyze/ci_gate.go:136-145 | They fail if and only if some needle matches |
| CIGate.GateMonotone | internal/analyze/ci_gate.go:71-162 | Tightening any threshold, list or flag, and worse evidence, never improve the verdict |
| CIGate.PolicyMonotone | internal/analyze/ci_gate.go:71-162 | Tightening the policy alone never improves it |
| CIGate.EvidenceMonotone | internal/analyze/ci_gate.go:71-162 | Worse evidence alone never improves it |
| Matrix.BuildMatrixResultAggregate | internal/analyze/ci_matrix_ext3.go:115-154 | Total and counters count the rows by block, rows are sorted, and the status is the worst block present |
| Matrix.CountsAddUp | internal/analyze/ci_matrix_ext3.go:121-133 | Passed + Warnings + Failed = Total |
| Matrix.BlockMeans | internal/analyze/ci_matrix_ext3.go:121-133 | Which statuses pass, warn and fail |
| Matrix.StatusMeans | internal/analyze/ci_matrix_ext3.go:116-154 | Empty without rows, failing with a failing row, else warning with a warning one, else passing |
| Matrix.RowsMean | internal/analyze/ci_matrix_ext3.go:117-120 | One row for each input, named by its trimmed name or its place |
| Matrix.SortedBlocks | internal/analyze/ci_matrix_ext3.go:135-142 | The sorted rows are the failing ones, unknown statuses included, then the warning, then the passing ones, each block by name |
| Matrix.TiesKeepOrder | internal/analyze/ci_matrix_ext3.go:135-142 | Rows of equal rank and name keep their input order |
| Sorting.SortStable | internal/analyze/ci_matrix_ext3.go:135-142 | Sorting keeps the order of elements the comparison does not tell apart |
| Sorting.StrictlySortedUnique | internal/analyze/boot.go:250-261 | Two strictly sorted sequences with the same elements are equal |

## Left out

- The interpreter, MMU, PMP, PLIC, CLINT, devices, bus and device-tree builder: a hart's step is an arbitrary effect.
- Harts are values in a sequence, not shared objects, so aliasing among harts is not captured; of a hart only pc, mode, halted and error are kept.
- Re-entrancy: JavaScript called from within an operation does not call back into the emulator. Ticks' delays are dropped; the browser may fire callbacks in any order.
- runPending, breakpoint hits, AfterHits and NotifyCount are unbounded; runToken is an unbounded count of bumps that the program sees modulo 2^64.
- `initMachine` makes harts that `NewMachine` gives in their reset state; the initial state inside a new hart is not part of this model.
- Invalid breakpoint modes cannot be set and are not represented; hexadecimal argument parsing is left out.
- HSM bookkeeping across reset, poweroff or SRST: the program does not update it there, so statuses do not agree in general.
- Register names of the access log are an enumeration with one value for all names the summaries ignore.
- Text is ASCII for trimming, lower-casing, case folding and order; SanitizeId takes Unicode's lower-casing and white space as parameters. Case folding of letters such as the long s is not modelled.
- Time and JSON parsing are inputs: a parsed value or a failure. Reading a matrix result (`parseMatrixResultRow`) is a parameter, and `worstStatus` with it.
- The score's rounding is over the reals; for a total weight of 100 it is the identity there.
- Retention.WholeDays: exact whole days, because hours are numbers here and 64-bit floats in the program; the two can differ by one day when the time left falls short of whole days by less than a microsecond.
- `sort.Slice` and `sort.Strings` are a stable sort; where the program's sort is unstable and ties matter, the results hold for every order.
- Expected-value texts and summaries of checks, and every renderer (text, JSON, HTML, Markdown, JUnit, SARIF).
- Policy defaults and templates; `BuildReleaseAuditDiff`, which reports an item even for equal audits; boot timeline and panic summary text matching.
- Of go.mod handling, the inventory's sorting, status and hash; blocks whose items begin with a directive word or "(" are read but not covered by the desugaring theorems, because there a block item and its one-line form differ.
- `bits` of internal/cpu/util.go has no caller among the decoders.
- Memory cost of the console log: capacity growth is arbitrary, only contents are specified.
