# Verification of the guarded schedule write path

The manager keeps an inverter's three timed charge/discharge slots the way its owner wants them. It
writes them one 16-bit register at a time, into flash-backed memory, over a link that can lose any
frame, lose the reply to a write that landed, or acknowledge a write the inverter ignores
(docs/phase0/findings.md:243-246). This project models that write path and the run around it, and
proves what every step, every frame and every run keeps.

`dafny verify dfyconfig.toml` checks the whole project (Dafny 4.11).

## How the model is built

- **The link.** A `Link` is the bank (address to word) and the trace of frames sent. A `Fates`
  function draws an outcome for every frame: delivered, dropped, landed with the reply lost, or
  acknowledged and ignored. A statement for all fates is a statement about every pattern of faults.
  A successful read is honest, and nobody else writes inside a critical section.
- **Methods and specifications.** What the program does step by step is a class with methods
  (`Bus`, `Handler`, `Scheduler`, `Freshness`, `Server`), each proved equal to a function of the old
  state; the theorems are lemmas about those functions. `History` steps the whole manager (link,
  cache, health marks, page) by polls and commands.
- **Literal outcomes.** `Outcomes` and the lemmas "in clocks", "by letters" and "by address" state what
  is promised in the inverter's own addresses, bits, hours, minutes and texts, without the constants
  and functions of the model.
- **Blends and visits.** Every bank seen between an old and a new schedule is a blend: the first *k*
  of the write order's 24 words are new, the rest old (`Blending`). A reconcile that the link stops
  anywhere is a `Visit`: a minute and a word count. `Polls` proves that runs over the faulty link are
  runs of visits, and `Realised` that every run of visits is brought about by some faults, so a
  statement about all visits is neither weaker nor stronger than one about all faults.
- **Time.** Absolute minutes; the minute of the day is what is left after whole days. A window has a
  minute-set meaning (`Covers`), defined without the arithmetic under proof.
- **Concurrency.** `Serialisation` (polls, commands, cache readers and their mutexes) and `HookDrain`
  (the reconnect hook and its drain) are state machines over single steps, for any number of threads
  and any interleaving.

| file | what it holds |
|---|---|
| Inverter.dfy, WorkMode.dfy | register map, block snapshots, slot and clock codecs, work-mode bits |
| Schedule.dfy, Topics.dfy | tariff split, the desired schedule, boost plans and options; topics and payloads |
| Banks.dfy, Blending.dfy | register lists over a bank; schedules part-way through a write |
| Transients.dfy | what a half-written slot reads as |
| Visits.dfy | runs of reconciles: convergence, the life of a boost, partial programs |
| Healing.dfy | what an interrupted command leaves, and what the next reconciles make of it |
| Links.dfy | the faulty link, the guard, the register sequence, the bus |
| Controls.dfy, Handler.dfy | diff, reconcile, commands, setpoint read; the handler's methods |
| Outcomes.dfy | what messages and polls do to the inverter, in its own register addresses and bits |
| Runs.dfy, Convergence.dfy, Polls.dfy | whole runs over the link |
| Realised.dfy, LostCommands.dfy | the faults behind every run of visits; lost commands on the link |
| Health.dfy, History.dfy, Scheduler.dfy | readiness and readings; the manager's whole state; the poll, the cache, the freshness gate |
| Serialisation.dfy, HookDrain.dfy | the two concurrent protocols |

## Where the code and its comments part

The model follows the code. Each of these is a theorem with its exact condition:

- internal/inverter/schedule.go:170-174 says the state between two words is a superset of the target
  rather than an inverted window. Programming 14:07-14:15 into an empty slot passes through
  14:07-14:00 (`InvertedTransientExample`). No such state is inverted if and only if start and end
  differ in hour, or end in hour 0 (`ProgramNeverInverts`); each one that is set contains the target
  if and only if the end is on the hour or in hour 0 (`ProgramContainsTarget`).
- docs/specs/09-schedule-controls.md:41-42 says a missed poll cannot leave a stale window to fire
  tomorrow. With one successful reconcile every *gap* minutes, a boost is gone one gap after its end,
  whatever the link loses, if and only if that gap ends by midnight (`BoostLifetimeOnLink`). If it
  runs past midnight, a reconcile cut after it cleared the start words leaves 00:00 to the old end,
  which reads as live the next morning. Were no reconcile ever cut inside slot 3, the condition would
  be that length plus gap fit in a day (`WholeBoostLifetime`).
- docs/specs/09-schedule-controls.md:230-233 concludes that a one-off timeout leaves a boost intact or
  gone, never stuck on a window the manager never meant to hold, and
  internal/controls/handler.go:267-276 that an abort leaves an intact old window or a completed clear.
  (Lines 225-228 of the same document do admit that a half-written clear that reads as running is kept.)
  Over a slot that holds a window neither is so. With a charge 10:05-10:30 held, a discharge
  10:10-10:45 cut after one word leaves a charge 00:05-10:30 that the next reconcile at 10:12 keeps
  (`Healing.StrayDirectionExample`); a clear of 23:40-23:45 cut after one word at 10:00 leaves
  00:40-23:45, kept too (`Healing.StrayClearExample`). For any slot, command and cut, the next complete
  reconcile keeps a window nobody asked for if and only if the half-written clocks spell one and it is
  live then (`NextVisitHeals`). Whatever frames of a command over a given slot are lost, the poll after
  it, if it succeeds, however late, leaves only what was asked for if and only if both the command's
  directions are `Clean`, a test on the clocks of the old window and the new (`InterruptedOnLink`). Into an empty
  slot 3 every command is clean.
- A window replaced in place may pass through an end later than both, exactly when the hour grows and
  the minute falls (`ReplaceOvershoots`): 14:02-14:30 to 14:07-15:00 passes through 14:07-15:30. A
  sequence that stops there leaves it for the reconcile to keep (`OvershootKept`).
- Into an empty slot 3, a command cut anywhere heals at the next complete reconcile, however late, if
  no reconcile in between was cut inside slot 3 (`WholeHeals`). If some were, it is sure to heal until
  midnight, and past midnight only if it was commanded at midnight (`HealingLasts`, and on the link
  `HealingOnLink`).
- Clearing a window word by word never makes it cover the present minute if and only if the window is
  over (`ClearExactly`); a clear of one still ahead can make it run.
- A tariff read back from slots 1 and 2 covers what they charge over if and only if slot 2 does not run
  on into slot 1 (`ToUMeaning`): 10:00-00:00 and 00:00-12:00 are read as 10:00-12:00, though the slots
  charge all day. The manager's own split never does this (`TariffSplit`).
- `wrote == false` does not mean that nothing landed (internal/controls/guard.go:46-48): it means
  that no write was acknowledged, and that is what `CutState` proves.

## Model

| member | source | states |
|---|---|---|
| Inverter.FindBlock | internal/inverter/block.go:126-134 | finds a block that holds the address whenever any does, and the first such |
| Inverter.DecodeTimedSlots | internal/inverter/schedule.go:87-102 | the decode loop is the slot-by-slot decode, stopping at the first bad field |
| Inverter.DecodeClock | internal/inverter/schedule.go:119-132 | a decoded clock is always in range |
| Inverter.DecodeClockFails | internal/inverter/schedule.go:119-132 | which register is reported missing when a clock does not decode, hour before minute, and that an out-of-range clock had both |
| Inverter.DecodeInvertsEncode | internal/inverter/schedule.go:87-132 | reading a bank yields a schedule if and only if the schedule is in range and the bank holds its encoding |
| Inverter.ParseClockExact | internal/inverter/schedule.go:137-153 | a text parses to a clock if and only if it is that in-range clock's printed HH:MM |
| WorkModes.EncodeDecode | internal/inverter/workmode.go:39-48 | encoding a decoded work mode gives back every bit of the word, known or not |
| WorkModes.FlagsAreBits | internal/inverter/workmode.go:29-37 | self-use, timed and grid charging are bits 0, 1 and 5 of the word, as arithmetic |
| WorkModes.TimedWordFlipsOneBit | internal/inverter/workmode.go:50-63 | the optimal-income word w has w / 2 % 2 as asked, and w / 4 and w % 2 as read |
| Blending.SlotPrefixBlends | internal/inverter/schedule.go:178-200 | after any k words of one slot's write list that slot is its k-blend and the two other slots are untouched |
| Blending.PrefixBlends | internal/inverter/schedule.go:178-200 | after any k of a schedule's 24 words the bank holds the k-blend of old and new |
| Blending.BlendTowards | internal/controls/handler.go:270-276 | words changed and words still differing add up to the words that differed |
| Schedule.TariffSplit | internal/schedule/plan.go:63-78 | the two slots cover exactly the tariff's minutes, neither crosses midnight, both discharge windows are empty, and they rejoin into the tariff |
| Schedule.ToUSettingExact | internal/schedule/plan.go:41-61 | a setting is accepted as a window if and only if it is the two different in-range clocks joined by "-" |
| Schedule.ToUSettingRefused | internal/schedule/plan.go:41-61 | what is wrong with a setting that is refused: no separator, no clock before the first one, the same clock twice, or its end |
| Schedule.ToURecognised | internal/schedule/schedule.go:23-40 | a tariff is recognised if and only if slot 1 charges and slot 2, if it does, goes on at midnight where slot 1 stops |
| Schedule.ToUMeaning | internal/schedule/schedule.go:23-40 | what is recognised covers what the two slots charge over if and only if slot 2 does not run on into slot 1 |
| Schedule.CoversInClocks | internal/inverter/schedule.go:27-32 | which minutes a window covers, in hours times 60 plus minutes |
| Schedule.LiveExactly | internal/schedule/plan.go:125-134 | a window is kept if and only if its end is set, it stays within one day and it covers the present minute |
| Schedule.DesiredMeaning | internal/schedule/plan.go:80-96 | an asserted schedule charges over exactly the tariff's minutes, an unasserted one leaves slots 1 and 2 alone, and desiring twice is desiring once |
| Schedule.UnassertedLeaves | internal/schedule/plan.go:77-84 | a tariff that is off, or unset whatever the switch says, leaves slots 1 and 2 to the owner |
| Schedule.DirectionsApart | internal/schedule/plan.go:98-123 | each direction of slot 3 is kept or cleared on its own, as it is live or not |
| Schedule.DesiredInRange | internal/schedule/plan.go:88-96 | the desired schedule of an in-range one is in range |
| Schedule.OverlapsIsIntersection | internal/schedule/plan.go:229-247 | the range test holds if and only if some minute of the boost lies in the window, across midnight too |
| Schedule.PlanExact | internal/schedule/plan.go:169-202 | which refusal a plan gets, when, and the window of an accepted one, in terms of the quarter-hour end and shared minutes |
| Schedule.PlanShape | internal/schedule/plan.go:169-202 | an accepted plan arms one direction, from the present minute to a quarter-hour later the same day, within (minutes-15, minutes], and is live |
| Schedule.PlanInClocks | internal/schedule/plan.go:169-202 | an accepted plan starts at the time modulo 1440 and ends on a multiple of 15 below 1440, more than minutes-15 and at most minutes on, in the asked direction alone |
| Schedule.BoostOptions | internal/schedule/plan.go:136-148 | the select's nine option texts, letter for letter and in order |
| Schedule.ParseBoostSound | internal/schedule/plan.go:150-167 | an accepted payload is, trimmed of white space, the text of the option it parses to |
| Schedule.ParseBoostExact | internal/schedule/plan.go:150-167 | a payload parses to an option, Off included, if and only if trimmed it is that option's text |
| Schedule.ParseBoostComplete | internal/schedule/plan.go:150-167 | every option's own text parses to that option |
| Schedule.ParseBoostAsks | internal/schedule/plan.go:150-167 | a payload parses to a mode and minutes if and only if, trimmed, it is the one of the nine literal texts that asks for them |
| Schedule.TrimSpaceExact | internal/schedule/plan.go:155 | trimming removes white space at both ends and stops at the first other character |
| Schedule.SelectStateExact | internal/schedule/plan.go:204-222 | the select shows each of the nine texts if and only if slot 3 holds that direction over more than minutes-15 and at most minutes |
| Schedule.SelectStateNone | internal/schedule/plan.go:204-222 | it shows nothing if and only if slot 3 holds a window that spans no minute or more than an hour |
| Transients.BlendKeepsOneDirection | internal/inverter/schedule.go:170-172 | between a slot and a target that is not armed both ways, no state is armed both ways unless the slot was |
| Transients.DesiredKeepsOneDirection | internal/schedule/plan.go:88-123 | the desired schedule arms a slot both ways only if it already was |
| Transients.SafeClear | internal/inverter/schedule.go:170-199 | clearing a window that is over never makes it cover the present minute, after any word |
| Transients.ClearExactly | internal/inverter/schedule.go:170-199 | no word of a clear makes the window cover a minute if and only if the window is over by then |
| Transients.EndFirstClearFires | internal/inverter/schedule.go:191-199 | in the other order every such clear would cover it, so the order is needed |
| Transients.ProgramNeverInverts | internal/inverter/schedule.go:170-174 | no state of a program into an empty slot is inverted if and only if the hours differ or the end hour is 0 |
| Transients.ProgramContainsTarget | internal/inverter/schedule.go:170-174 | each set state of a program contains the target if and only if the end is on the hour or in hour 0 |
| Transients.ReplaceOvershoots | internal/inverter/schedule.go:191-199 | a replacement passes an end later than both if and only if the hour grows and the minute falls |
| Visits.VisitLowersMeasure | internal/controls/reconcile.go:23-33 | wherever it is cut, a reconcile takes every register it changed off the number that differ from the recomputed desired schedule |
| Visits.SweepWear | internal/controls/handler.go:270-276 | all retries of one minute together change no more registers than differed at its start, at most 24 |
| Visits.SweepConverges | internal/controls/handler.go:270-276 | as many progressing reconciles as registers differed reach the desired schedule |
| Visits.BoostUntouched | internal/schedule/plan.go:115-134 | no reconcile inside a boost's minutes changes slot 3 |
| Visits.RunEndsNoLater | internal/schedule/plan.go:115-134 | no run of reconciles, cut anywhere, moves an end in slot 3 later |
| Visits.BoostLifetime | internal/schedule/plan.go:88-134 | over every run of cut reconciles the boost is gone one gap after its end if and only if that gap ends by midnight |
| Visits.WholeBoostLifetime | internal/schedule/plan.go:88-134 | over every run with no cut inside slot 3 it is gone if and only if length plus gap fit in a day |
| Visits.PartialProgramHeals | internal/schedule/plan.go:98-123 | a boost command cut anywhere into an empty slot 3, then any reconciles, some cut inside slot 3, and a complete one the same day, leaves nothing or one window of the commanded direction with the planned start and no later end |
| Healing.NextVisitHeals | internal/schedule/plan.go:98-123 | over any old slot, target and cut, the next complete reconcile, whenever it comes, leaves only what was asked for if and only if no direction's half-written window both strays and is live then |
| Healing.WholeHealing | internal/schedule/plan.go:98-123 | the same over any run with no cut inside slot 3: a stray window survives if and only if it is live at every complete reconcile |
| Healing.InterruptibleExactly | internal/controls/handler.go:267-276 | over every cut and every such run a command leaves only what was asked for if and only if both its directions are clean |
| Healing.OvershootKept | internal/schedule/plan.go:125-134 | an end later than both windows' is kept by the next reconcile within it |
| Healing.WholeHeals | internal/schedule/plan.go:98-123 | a command cut into an empty slot 3 heals at any later time if no reconcile is cut inside slot 3 in between |
| Healing.HealingLasts | internal/schedule/plan.go:98-123 | with reconciles cut inside slot 3 in between, a command cut into an empty slot 3 heals in every run up to a given time if and only if that is not past midnight or it was commanded at midnight |
| Links.GuardReports | internal/controls/guard.go:15-61 | what the guard reports (skipped, wrote, confirmed, old and new value) is what happened to the register |
| Links.GuardSteps | internal/controls/guard.go:30-61 | one guard lands its value at most once, only after reading a different one, and its error means the value may or may not hold |
| Links.SequenceWrites | internal/controls/handler.go:277-295 | a sequence writes only the registers it was given |
| Links.RetryAbsorbsOneFault | internal/controls/handler.go:258-274 | a single faulty frame stops a register if and only if the write was acknowledged and ignored or the confirming read was lost |
| Links.AttemptSteps | internal/controls/handler.go:280-292 | the in-place retry costs no second landed write |
| Links.SequenceCut | internal/controls/handler.go:277-295 | every bank of a sequence is a prefix of it; success means all of it; the writes that landed are exactly the prefix's registers that differed |
| Links.CutState | internal/controls/handler.go:277-295 | register by register: before the stop all hold their values, after it all are untouched, at it either; `wrote` if and only if a write was acknowledged |
| Links.SequenceWear | internal/controls/handler.go:258-266 | every write directly follows a read of that register that returned another value, and landed writes never exceed the registers that differed |
| Links.CutRealised | internal/controls/handler.go:277-295 | every prefix is where some faults stop the sequence |
| Links.Bus.ReadHolding | internal/controls/guard.go:8-13 | a read that gets a reply returns the bank's own words and changes nothing |
| Links.Bus.WriteHolding | internal/controls/guard.go:8-13 | a write lands, is acknowledged, both or neither, as its fate says |
| Links.Bus.ReadRegister | internal/controls/guard.go:63-74 | one word, or an error for a missing reply |
| Links.EveryFault | internal/controls/handler.go:258-266 | every fault can occur: a read lost or not, a write landed or not, acknowledged or not |
| Controls.DiffExact | internal/controls/reconcile.go:35-54 | the diff lists each register that must change, once; writing it makes the desired schedule true; it is empty if and only if nothing differs |
| Controls.DiffOfBank | internal/controls/reconcile.go:35-54 | matching by address, the diff is what the bank lacks, in the desired slot's write order, whatever order the current slot has |
| Controls.ReconcileIsVisit | internal/controls/reconcile.go:10-33 | a reconcile over the bank's slots is a visit at every frame, a complete one on success, sends nothing when nothing differs, and lands one write for each changed word |
| Controls.BoostIsProgram | internal/controls/handler.go:187-221 | at every frame of a boost command slot 3 is on its way to one target and the rest is untouched; a refusal changes nothing |
| Controls.SelectRoundTrip | internal/schedule/plan.go:204-222 | after an accepted and confirmed command the bank reads back as the same option text and the planned window, whatever it held before |
| Controls.ProgramHolds | internal/controls/handler.go:199-220 | a confirmed program leaves the slot's encoding in the bank |
| Controls.SetpointsAreTheBank | internal/controls/setpoints.go:38-66 | setpoints that were read are the bank's slots, currents, ceilings and timed bit |
| Outcomes.SlotByAddress | internal/inverter/schedule.go:51-80 | a slot's eight words, charge before discharge, from registers 43143, 43153 or 43163 on |
| Outcomes.WriteOrder | internal/inverter/schedule.go:161-189 | the addresses of a slot's eight writes in order: discharge words first if only the charge window is set, else charge words first |
| Outcomes.SetpointsByAddress | internal/controls/setpoints.go:41-66 | setpoints that were read are registers 43117, 43118, 43141, 43142, bit 1 of 43110 and the slots |
| Outcomes.BoostRefused | internal/controls/handler.go:204-218 | a boost is programmed if and only if it is Off, or 43110 was read with bit 1 set and the plan is accepted; refused, for whichever reason, it sends no write under any faults |
| Outcomes.BoostAtTheBank | internal/controls/handler.go:187-221 | a programmed and confirmed boost is in registers 43163-43170: its direction, start and end, and zeros in the other direction |
| Outcomes.BoostDelivered | internal/controls/handler.go:187-221 | with its frames delivered a boost that is not refused is programmed and confirmed |
| Outcomes.BoostMessage | internal/controls/handler.go:107-221 | from a message with one of the nine texts to slot 3's registers, or to nothing if it is refused |
| Outcomes.OptimalIncomeMessage | internal/controls/handler.go:165-185 | a delivered "run" sets bit 1 of 43110, "stop" clears it, and no other bit or register moves |
| Outcomes.CurrentMessage | internal/controls/handler.go:151-163 | a delivered current is in 43141 or 43142 and nothing else moves |
| Outcomes.RTCAtTheBank | internal/controls/handler.go:245-252 | a confirmed clock sync leaves the clock's six words in 43000-43005, in order |
| Outcomes.KeyWrites | internal/controls/handler.go:133-149 | under any faults a message writes only its key's own registers |
| Outcomes.RefreshExactly | internal/controls/handler.go:125-149 | a refresh follows exactly the messages of an enabled handler whose key is known and whose payload parses; no other sends a frame |
| Outcomes.DisabledOnlyReads | internal/controls/handler.go:120-123 | with controls off no run of messages and polls ever writes |
| Outcomes.CycleDelivered | internal/scheduler/scheduler.go:189-197 | with its frames delivered a published poll leaves the clock it syncs and the desired schedule |
| Handlers.Handler.Guard | internal/controls/guard.go:36-61 | the method is the guard specification, frame by frame |
| Handlers.Handler.WriteRegisters | internal/controls/handler.go:277-295 | the retry-and-abort loop is the sequence specification, `wrote` and error included |
| Handlers.ByAddress | internal/controls/reconcile.go:43-46 | the address map is the current list laid over nothing |
| Handlers.Mismatches | internal/controls/reconcile.go:47-51 | the inner loop keeps the wanted registers whose value is not the one held, in order |
| Handlers.Handler.ScheduleDiff | internal/controls/reconcile.go:40-54 | the nested loops compute the diff |
| Handlers.Handler.Reconcile | internal/controls/reconcile.go:23-33 | the method is the reconcile specification, kill-switch and empty diff included |
| Topics.RunStopExact | internal/controls/handler.go:342-354 | the payload means on if and only if, trimmed, it is "run" in any letter case, and off if and only if "stop" |
| Handlers.Handler.SetOptimalIncome | internal/controls/handler.go:165-185 | read, flip one bit, guard; routed if and only if the payload is Run or Stop in any case |
| Handlers.Handler.SetBoost | internal/controls/handler.go:187-221 | each refusal touches nothing but is still routed; only a payload that is no option is not |
| Handlers.Handler.SyncRTC | internal/controls/handler.go:233-252 | the six clock registers under the sequence rules |
| Handlers.Handler.SetCurrent | internal/controls/handler.go:151-163 | one guard on the addressed current; a bad payload touches nothing |
| Topics.CommandKeyExact | internal/controls/handler.go:325-340 | a topic yields a key if and only if it is the non-empty segment before a final "set" |
| Handlers.Handler.Route | internal/controls/handler.go:130-149 | each key's effect on the link and whether it was routed |
| Handlers.Handler.OnMessage | internal/controls/handler.go:104-128 | a message's effect on the link and whether it asks for a refresh; an unroutable topic or a disabled handler does neither |
| Handlers.ReadSetpoints | internal/controls/setpoints.go:38-66 | one 61-register frame, decoded or refused |
| Runs.RunKeepsBank | internal/controls/handler.go:130-252 | through any commands, polls and refresh reads under any faults, every bank decodes and differs from the first only in the clock, the two currents, the slot words (so never the leading pairs of slots 2 and 3) and bit 1 of 43110, and every write followed a differing read |
| Runs.KeptDecodes | internal/inverter/schedule.go:82-132 | every such bank decodes to an in-range schedule |
| Runs.RunNarrow | internal/inverter/schedule.go:166-172 | in every bank of every run a slot is armed both ways only if it was so at the start |
| Runs.ReconcileNarrow | internal/controls/reconcile.go:23-33 | the same for every frame of one reconcile |
| Runs.BoostNarrow | internal/controls/handler.go:193-221 | the same for every frame of one boost command |
| Runs.SyncLeavesSlots | internal/controls/handler.go:249-252 | a clock sync between the setpoint read and the reconcile leaves the slots that were read |
| Convergence.CycleLowersMeasure | internal/controls/reconcile.go:23-33 | the slot words one poll lands, clock sync or not, come off the registers still differing |
| Convergence.CyclesWear | internal/controls/handler.go:258-276 | however often one minute's polls are cut, they land no more slot words than registers differed |
| Convergence.CyclesSettle | internal/controls/handler.go:270-276 | at most 24 polls of one minute can each land a slot word, and when as many have as registers differed the bank holds the desired schedule |
| Convergence.SuccessSettles | internal/controls/reconcile.go:17-31 | a successful reconcile leaves the desired schedule and the next one of that minute sends no frame |
| Polls.PollIsVisit | internal/scheduler/scheduler.go:189-197 | a poll's sync and reconcile, under any faults, are a visit, complete if the poll succeeded; one whose publish failed changes nothing |
| Polls.PollsAreVisits | internal/scheduler/scheduler.go:169-198 | every run of polls is a run of visits at the same minutes |
| Realised.VisitsRealised | internal/scheduler/scheduler.go:169-198 | every run of visits is what some faults make of polls at those minutes, the complete ones succeeding |
| Realised.VisitRealised | internal/controls/reconcile.go:23-33 | every visit of one minute is what some faults make of the reconcile |
| Polls.BoostKeptOnLink | internal/schedule/plan.go:115-134 | no poll inside a boost's minutes changes it, whatever the link does |
| Polls.BoostGoneFromLink | internal/schedule/plan.go:88-134 | polled with a success every gap minutes, a boost is gone one gap after its end if that gap ends by midnight |
| Realised.BoostLifetimeOnLink | internal/schedule/plan.go:88-134 | and only if: past midnight some lost frames leave part of it for the next day |
| LostCommands.LostCommandHeals | internal/controls/handler.go:267-276 | a boost command lost anywhere into an empty slot 3 heals at the day's next successful poll, whatever the polls in between lost |
| LostCommands.HealingOnLink | internal/controls/handler.go:267-276 | it is sure to on the link until a given time if and only if that is not past midnight or it was commanded at midnight; otherwise some lost frames leave part of it running |
| LostCommands.CommandRealised | internal/controls/handler.go:193-221 | every cut of a command followed by every run of visits is what some faults bring about |
| LostCommands.InterruptedOnLink | internal/controls/handler.go:267-276 | a boost command, Off included, lost anywhere over a given slot: the poll after it, if it succeeds, however late, leaves only what was asked for if and only if both its directions are clean |
| Polls.ExpiryNeverFires | internal/inverter/schedule.go:170-199 | no frame of a reconcile shows an expired boost window covering the minute it runs at |
| Health.ReadyExactly | internal/server/server.go:81-101 | ready if and only if some poll succeeded and fewer failures than the threshold followed the last success |
| Health.SetpointsDatedExactly | internal/server/server.go:128-149 | the setpoints' date is that of the latest fresh reading, and there is none while all were stale |
| Health.Server.constructor | internal/server/server.go:71-79 | starts not ready, with a threshold of at least 1 |
| Health.Server.MarkSuccess | internal/server/server.go:81-88 | readiness and counter stay those of the history with a success added |
| Health.Server.MarkFailure | internal/server/server.go:90-101 | readiness and counter stay those of the history with a failure added |
| Health.Server.RecordReading | internal/server/server.go:123-149 | the last reading stays that of the log with this one added; a refused document changes nothing |
| History.CacheIsLatest | internal/scheduler/scheduler.go:279-295 | after any history of polls and commands the cache holds what the latest turn that read setpoints read, and is never lost |
| History.TelemetryIsLatest | internal/scheduler/scheduler.go:287-295 | the cached telemetry is that of the latest turn that read, and the stale flag says whether that turn's setpoint read failed |
| History.ReadyAfterHistory | internal/scheduler/scheduler.go:176-194 | after any history of polls and commands the manager is ready if and only if some poll collected and was published and fewer polls than the threshold failed since the last that did |
| History.ReadsTheBank | internal/cmd/serve.go:144-180 | setpoints a turn read were the bank's own at that moment |
| History.PageDatedByReads | internal/server/server.go:123-149 | after any history the page dates its setpoints by the latest turn that read them from the inverter and got a document onto the page |
| History.PageUndated | internal/server/server.go:123-149 | while no turn has, the page has no date for them |
| History.PageIsLatest | internal/cmd/state.go:59-69 | the reading on the page is that of the latest turn that read and got a document built |
| History.StepsAreRun | internal/scheduler/scheduler.go:169-277 | what any history does to the link is a run, so what holds of every run holds of it |
| Schedulers.CollectEndExactly | internal/scheduler/scheduler.go:239-264 | a retried read succeeds with a result if and only if some allowed attempt reads it and all before it merely fail |
| Schedulers.CollectEndOtherwise | internal/scheduler/scheduler.go:239-264 | it ends cancelled if and only if some allowed attempt is and all before it fail, and in failure if and only if all fail |
| Schedulers.Scheduler.SyncDue | internal/scheduler/scheduler.go:203-210 | a sync is due if and only if it is enabled and the drift is beyond the threshold either way |
| Schedulers.Scheduler.ReadWithRetry | internal/scheduler/scheduler.go:239-264 | the loop ends as the attempts say, makes one setpoint read after the first success and touches nothing otherwise |
| Schedulers.Scheduler.ReadSetpointsOrReuse | internal/cmd/serve.go:158-180 | setpoints are the bank's or the last known ones, and the stale flag says which |
| Schedulers.Scheduler.LastState | internal/scheduler/scheduler.go:279-285 | the latest remembered state, and whether there is one |
| Schedulers.Scheduler.RememberState | internal/scheduler/scheduler.go:287-295 | adds one remembered state and loses none |
| Schedulers.Scheduler.PublishState | internal/cmd/state.go:37-69 | the reading is recorded, with its staleness, even when the publish fails, unless no document was built |
| Schedulers.Scheduler.MaybeSyncRTC | internal/scheduler/scheduler.go:200-219 | writes the clock if and only if auto-sync and controls are on and the drift exceeds the threshold either way |
| Schedulers.Scheduler.MaybeReconcile | internal/cmd/freshness.go:51-59 | a stale cycle sends nothing; a fresh one reconciles the slots it was given, which the bank holds |
| Schedulers.Scheduler.Settle | internal/scheduler/scheduler.go:196-197 | sync, then reconcile over slots the sync left alone |
| Schedulers.Scheduler.Conclude | internal/scheduler/scheduler.go:189-197 | records the reading; a failed publish counts as a failure and stops the poll before any write |
| Schedulers.Scheduler.Poll | internal/scheduler/scheduler.go:169-198 | one poll's whole effect on link, cache, freshness, health marks and page |
| Schedulers.Scheduler.Refresh | internal/cmd/serve.go:486-502 | the refresh's whole effect: the re-read state in the cache even if its publish failed, its document on the page, no health mark |
| Schedulers.Scheduler.ApplyCommand | internal/scheduler/scheduler.go:266-277 | a message's whole effect: the command on the link, and a refresh if and only if it was routed |
| HookDrain.CountIsLaunched | internal/mqtt/client.go:142-162 | in every interleaving the wait-group count is the number of hooks launched and not finished, and none joins once closing is set |
| HookDrain.SkipsOnlyWhenDue | internal/mqtt/client.go:148-155 | in every interleaving a call gives up only without a hook or once closing is set, and launches only with one |
| HookDrain.LaunchesWhenDue | internal/mqtt/client.go:148-162 | with a hook and no closing, a call at its check goes on by its own steps to run the hook, counted once |
| HookDrain.DrainGoesOn | internal/mqtt/client.go:228-240 | a drain that gets the mutex goes on by its own steps to wait, with closing set and the context cancelled |
| HookDrain.DrainReturns | internal/mqtt/client.go:241-244 | a waiting drain can always give up, and returns through `done` once no hook is left |
| HookDrain.DrainedForGood | internal/mqtt/client.go:224-245 | after a drain returns through `done` no hook runs, or is about to, ever again |
| HookDrain.WaitGroupUsedRightly | internal/mqtt/client.go:145-147 | no Add once any drain has set closing, and no Done below zero |
| HookDrain.WaitsOnCancelled | internal/mqtt/client.go:224-244 | a drain waits only for hooks whose context it has cancelled |
| HookDrain.WaitingCanEnd | internal/mqtt/client.go:236-244 | a waiting drain can always end: the count is zero or a launched hook can step |
| Serialisation.NeverUnseenSlots | internal/cmd/freshness.go:33-59 | over every interleaving, with edits from outside between critical sections, the inner reconcile is only given the slots the bank then holds |
| Serialisation.GateExactly | internal/cmd/freshness.go:51-59 | the gate lets a poll through with its slots if and only if they are not stale |
| Serialisation.PollGetsThere | internal/scheduler/scheduler.go:169-198 | a poll whose frames go well gets by its own steps from its collect to the reconcile, over the bank's slots, with those in the cache |
| Serialisation.CommandGetsThere | internal/scheduler/scheduler.go:266-277 | a command whose frames go well gets by its own steps through its refresh, with the slots it left in the cache |
| Serialisation.PublishesTheCache | internal/scheduler/scheduler.go:185-198 | over every interleaving a poll publishes only slots already in the cache, and a stale one carries those the cache held |
| Serialisation.SectionsNeverInterleave | internal/scheduler/scheduler.go:112-114 | frames of two critical sections never interleave |
| Serialisation.LockOrder | internal/controls/locking.go:18-55 | apiMu is asked for with nothing held, an inner mutex with no other inner mutex held |
| Serialisation.CriticalProgress | internal/scheduler/scheduler.go:116-123 | inside its section a thread waits at most for an inner mutex whose holder can step |
| Serialisation.NeverStuck | internal/scheduler/scheduler.go:169-295 | no reachable state is stuck |

## Left out

- The Python sidecar, its client, the Modbus framing and the MQTT transport: the faulty bus and
  abstract connection-up events stand in for them. A short reply counts as a failed read.
- Home Assistant discovery, the entity catalogue, the state document and the status page's HTML:
  tables and formatting. Whether a document was built is a parameter of a publish, and that a built
  one decodes is taken for granted.
- Telemetry decoding and the collect's own frames: a telemetry reading is an opaque tag and a
  collect's outcome a parameter. `Serialisation` has its frames.
- Configuration, logging and process start-up; the republish pass and the teardown order. Nothing is
  claimed about the last availability published.
- Calendars, daylight saving, `EndsAt` and the date encoding of the clock registers: `now` is
  minutes in a fixed zone and the six clock words are arbitrary.
- Schedulers.Scheduler.MaybeSyncRTC: the measured drift is a parameter, since it comes from telemetry
  and the calendar.
- Handlers.Handler.SetCurrent: how an amps payload is parsed, clamped and rounded is a parameter, so
  no bound on the two current registers is claimed.
- Handlers.Handler.OnMessage: a message is text; bytes that are not valid UTF-8, the panic recovery,
  the log lines and the wording of errors are not modelled.
- Edits from outside (the vendor's app) while apiMu is held, or between a read and its write.
- Schedulers.Scheduler.ReadWithRetry: keeps the attempt count and outcome; the backoff delays, the
  last error and the ticker are left out.
- `SetReady`, `SetOnConnectionUp` and the unsigned and signed 32-bit block readers: no run of the
  manager's write path uses them.
- The handler's map and slice are values here, so aliasing of the returned slice is not captured. The
  two inner loops of `scheduleDiff` are methods of their own.
- Mutexes appear in `Serialisation` and `HookDrain` only. The methods of `Scheduler` and `Server` are
  critical sections taken one at a time. Fairness is not modelled: `NeverStuck` and `WaitingCanEnd`
  say some step is possible, not that it is taken.
- Visits.PartialProgramHeals: into an empty slot 3 only, as are Healing.HealingLasts and
  LostCommands.HealingOnLink. Over a slot in use the exact results (`NextVisitHeals`, `WholeHealing`,
  `InterruptibleExactly`, `InterruptedOnLink`) have no reconcile cut inside slot 3 in between.
