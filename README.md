# xautolock core in Dafny

xautolock watches the user's activity on an X display. When there is no key
or pointer activity for a while, it starts a screen locker: after the
*lock time*, or at once when the pointer rests in a "force lock" corner. It
can also run a *killer* after a longer *kill time*, and a *notifier* shortly
before locking.

This project models five parts of xautolock and proves properties of them.

- **State** (`state.dfy`, module `State`):
  - the global program state: the disabled, lock-now and unlock-now flags, the lock and kill triggers, the saved argv and the program name;
  - the trigger macros of `include/state.h`;
  - `initState`.
- **Options** (`options.dfy`, module `Options`):
  - the option globals, as class `Settings`;
  - the message codes;
  - `getInteger`/`getPositive`, modelled on the `sscanf ("%d%c")` they use;
  - the action function of every option and the consistency checkers;
  - the lookup precedence of `processOpts`: the command line, then a resource under the program name, then a resource under the class name.
- **Messages** (`message.dfy`, module `Messages`): how one xautolock finds another and sends it a message.
  - Every running xautolock advertises its process id in a "semaphore" property on the root window.
  - A second invocation either refuses to start or leaves a message code in a "message" property.
  - The running xautolock reads that property on each pass, deletes it, and acts on it, except on its very first pass.
- **Diy** (`diy.dfy`, module `Diy`): the do-it-yourself activity watcher.
  - It selects SubstructureNotify events on every window tree, so that it sees new windows.
  - It queues each new window in a linked list. A queued window's record is promoted, and its tree given full-mode masks, once it is more than `CreationDelay` seconds old (30 seconds). A window below the window of an older promoted record gets its full-mode mask earlier, through that record's tree.
  - A genuine KeyPress, one not made by `XSendEvent`, resets the lock and kill triggers.
- **Wrappers** (`wrappers.dfy`): the `Option` datatype.

How the model is built:

- The X server is abstracted.
  - For the watcher, class `Display` is a fixed window tree. It records what the two tree queries and the attribute query return for each window, the event masks installed so far, and the pending events.
  - For the messages, class `RootWindow` is the property map of the root window of screen 0.
- `kill (pid, 0)` becomes membership of a set of signalable process ids. `getpid ()` becomes a parameter.
- `exit ()` and `execv ()` become returned outcomes.
- The clock is a parameter `now`.

How each kind of code is modelled:

- State-changing code is imperative Dafny.
  - The globals are class fields, and each method names the fields it changes.
  - The window queue is a linked list of `Item` objects with head and tail pointers.
  - `addToQueue`, `processQueue` (a while loop), `processEvents` (a read-until-empty loop), `initDiy` and `selectEvents` (recursive over the window tree) are methods.
  - Each of these methods is proved against a specification function: `EligiblePrefix`, `PromoteAll`, `Created`, `SelectTree` and `SelectRoots`. Lemmas then prove properties of those functions.
- Pure decisions are functions, with lemmas relating them. These are the message code table, the `checkConnectionAndSendMessage` decision table and the effect of each message handler.

Two results worth noting:

- Calling `resetTriggers` twice at the same instant has the same effect as calling it once. This holds even when `now + killTime` is 0: a kill trigger reset to 0 stays 0 on the second call, and 0 is also what the second reset would compute.
- The records of the windows created during one pass of `processEvents` are never promoted in that same pass (`NewWindowsWait`).

## Model

| member | source | states |
|---|---|---|
| State.Reset | include/state.h:40-41 | resetTriggers: the lock trigger becomes now + lockTime; the kill trigger becomes now + killTime if it was armed and stays 0 if it was disarmed |
| State.ResetIdempotent | include/state.h:40-41 | two resets at the same instant give the same triggers as one, for every kill time |
| State.ResetKeepsKillDisarmed | include/state.h:40-41 | a disarmed kill trigger stays disarmed across any reset |
| State.ProgName | src/state.c:74-81 | the program name contains no '/', is a suffix of argv[0], and is preceded by '/' when it is shorter than argv[0] |
| State.ProgNameSplitsPath | src/state.c:74-81 | argv[0] is some directory prefix followed by the program name |
| State.ProgNameWithoutSlash | src/state.c:74-81 | an argv[0] without '/' is its own program name |
| State.ProgNameOfDirectory | src/state.c:74-81 | an argv[0] that ends in '/' has the empty program name |
| State.ProgNameAfterLastSlash | src/state.c:74-81 | the program name is what follows the last '/' of argv[0] |
| State.LastIndexOf | src/state.c:74 | strrchr: None exactly when the character is absent, otherwise the index of its last occurrence |
| State.ProgramState.constructor | src/state.c:24-33 | the globals start with every flag false, both triggers and the locker pid 0, no program name and no arguments |
| State.ProgramState.InitState | src/state.c:38-83 | argArray is a fresh copy of argv followed by a null terminator; progName is ProgName(argv[0]) |
| State.ProgramState.SetLockTrigger | include/state.h:36 | the lock trigger becomes now + lockTime and nothing else changes |
| State.ProgramState.SetKillTrigger | include/state.h:37 | the kill trigger becomes now + killTime and nothing else changes |
| State.ProgramState.DisableKillTrigger | include/state.h:38 | the kill trigger becomes 0 |
| State.ProgramState.ResetLockTrigger | include/state.h:39 | the lock trigger starts over, a full lock time from now |
| State.ProgramState.ResetTriggers | include/state.h:40-41 | the triggers become Reset of the old triggers |
| Options.Code | include/options.h:33-43 | a message's code is between 0 and 7, and 0 only for msg_none |
| Options.Decode | include/options.h:33-43 | a code stands for a message exactly when it lies in 0..7 |
| Options.CodeDecode | include/options.h:33-43 | decoding inverts encoding, in both directions |
| Options.ScanDecimal | src/options.c:78-83 | %d skips white space and reads a sign and at least one digit, stopping at the first non-digit |
| Options.GetInteger | src/options.c:78-83 | getInteger succeeds exactly when the %d conversion consumes the whole argument, and yields its value |
| Options.GetPositive | src/options.c:85-89 | getPositive succeeds exactly when getInteger does and the value is not negative |
| Options.GetIntegerOfShow | src/options.c:78-83 | round trip: getInteger reads back every integer printed in decimal |
| Options.GetIntegerSkipsSpace | src/options.c:78-83 | a leading white-space character does not change what getInteger reads |
| Options.TrailingCharacterRejected | src/options.c:78-83 | a number followed by a non-digit, a blank included, is rejected |
| Options.CornerOf | src/options.c:166-176 | only '0', '-' and '+' denote corner actions |
| Options.ClampToSeconds | src/options.c:268-283 | the time is clamped to [lo, hi] minutes and converted to seconds; in-range values are kept |
| Options.AddExecToCommand | src/options.c:247-265 | a command without ';' gets the prefix "exec "; a command with one is left as it is |
| Options.Backgrounded | src/options.c:356-361 | the command followed by " &" |
| Options.TruncDiv | src/options.c:402 | C division by a positive divisor truncates towards zero |
| Options.CornerLimit | src/options.c:438-451 | at most 32000 and at most a quarter of the shorter side of every screen, and equal to one of those bounds |
| Options.MaxCornerSize | src/options.c:438-451 | the loop over the screens computes CornerLimit |
| Options.CheckerPositions | src/options.c:482-538 | in the option table, the redelay and lock-time checkers come before the notify checker |
| Options.Lookup | src/options.c:754-790 | a command line value wins over a resource under the program name, which wins over one under the class name |
| Options.Settings.constructor | src/options.c:29-71 | every option global starts at its config.h default; every corner is ignored; no message is chosen |
| Options.Settings.LockerAction | src/options.c:109-114 | -locker sets both the locker and the immediate locker |
| Options.Settings.NowLockerAction | src/options.c:116-121 | -nowlocker sets the immediate locker only |
| Options.Settings.KillerAction | src/options.c:123-129 | -killer sets the killer and marks it given |
| Options.Settings.NotifierAction | src/options.c:131-137 | -notifier sets the notifier and marks it given |
| Options.Settings.BellAction | src/options.c:139-144 | accepted exactly when getInteger succeeds; any scanned number is stored, even when it is rejected; the bell is marked given |
| Options.Settings.CornerSizeAction | src/options.c:146-158 | accepted exactly for a non-negative integer, which is stored; otherwise the size is unchanged |
| Options.Settings.CornersAction | src/options.c:160-179 | accepted exactly for four characters from "0-+"; the corners before the first bad character are set and the rest are kept |
| Options.Settings.LockTimeAction | src/options.c:181-197 | stores a non-negative integer, otherwise rejects it and keeps the old value; raises the dummy flag either way |
| Options.Settings.KillTimeAction | src/options.c:181-195 | the same, for the kill time (instantiated at line 198); raises killTimeSpecified either way |
| Options.Settings.CornerDelayAction | src/options.c:181-195 | the same, for the corner delay (instantiated at line 199) |
| Options.Settings.CornerRedelayAction | src/options.c:181-195 | the same, for the corner redelay (instantiated at line 200); raises redelaySpecified either way |
| Options.Settings.NotifyAction | src/options.c:181-195 | the same, for the notification margin (instantiated at line 201, renamed at line 203); turns notification on even when the margin is rejected |
| Options.Settings.MessageAction | src/options.c:205-220 | a message flag is accepted exactly when no message is chosen yet, and only then becomes the message |
| Options.SecondMessageRejected | src/options.c:205-220 | of two message flags, the first one stays chosen |
| Options.Settings.LockerCheck | src/options.c:308-322 | the locker becomes AddExecToCommand of itself |
| Options.Settings.NowLockerCheck | src/options.c:324-338 | the immediate locker becomes AddExecToCommand of itself |
| Options.Settings.NotifierCheck | src/options.c:340-364 | a non-empty notifier is backgrounded when notification is on, and kept as it is otherwise |
| Options.Settings.KillerCheck | src/options.c:366-383 | a non-empty killer is backgrounded |
| Options.Settings.CornerSizeCheck | src/options.c:435-458 | the corner size ends within CornerLimit; a size within it is kept, and a larger one is cut to it |
| Options.Settings.CornerReDelayCheck | src/options.c:460-467 | without -cornerredelay, the redelay becomes the corner delay |
| Options.Settings.KillTimeCheck | src/options.c:285-306 | with -killtime but no -killer, the kill time is kept as given; otherwise it is clamped to [10, 120] minutes and converted to seconds |
| Options.Settings.LockTimeCheck | src/options.c:268-283 | the lock time is clamped to [1, 60] minutes and converted to seconds |
| Options.Settings.NotifyCheck | src/options.c:385-408 | with notification on and a force-lock corner, the margin ends at most the shorter corner delay and at most half the lock time; it never grows and ends at one of those values or at its old one; without both conditions it is unchanged |
| Options.Settings.BellCheck | src/options.c:410-433 | -bell without -notify, or together with -notifier, gives 0; a percentage outside [-100, 100] falls back to 40 |
| Options.Settings.CommandCheckers | src/options.c:795-801 | the four command checkers, run in table order |
| Options.Settings.LimitCheckers | src/options.c:795-801 | the numeric checkers, run in table order, establish every bound of Consistent |
| Options.Settings.RunCheckers | src/options.c:795-801 | after the checker loop, the commands are rewritten and every bound holds: lock time, kill time, bell, corner size, redelay and notification margin |
| Options.Settings.Act | src/options.c:482-538 | the action of each table entry: only -help and -version end the program, both with EXIT_SUCCESS; an option whose value cannot be read (Acceptable) is rejected; a message flag is rejected exactly when a message is already chosen; nothing else is rejected; the corners array stays the same object |
| Options.MessageOf | src/options.c:205-220 | each message flag chooses its own message, never msg_none |
| Options.Settings.ValueAction | src/options.c:139-203 | the actions that read a number or the corners accept exactly the values Acceptable describes |
| Options.Settings.CommandAction | src/options.c:109-137 | -locker sets both lockers, -nowlocker only the immediate one, -killer and -notifier set their command and mark it given; every command field the chosen option does not own keeps its value |
| Options.Settings.FlagAction | src/options.c:222-240 | each boolean option raises its own flag and -noclose raises both noCloseOut and noCloseErr; no other flag changes |
| Options.Settings.ProcessOpts | src/options.c:739-801 | stray arguments exit with EXIT_FAILURE; otherwise -help or -version, from the command line or a resource, exits with EXIT_SUCCESS, and only they do; otherwise a command-line value that cannot be read exits with EXIT_FAILURE; EXIT_FAILURE comes only from stray arguments or from a command-line option that cannot be read or is a message flag, so a resource that cannot be read never ends the program; when the program proceeds, every checker bound holds |
| Options.FirstBadCorner | src/options.c:165-176 | the index of the first character of a -corners argument that denotes no action, or 4 |
| Options.CornerLimitNonNegative | src/options.c:438-451 | the corner limit is never negative |
| Messages.ToUpper | src/message.c:212-221 | toupper in the C locale: lower-case letters move up by 32 and every other character is kept |
| Messages.UpperIdempotent | src/message.c:212-221 | upper-casing twice is upper-casing once |
| Messages.AtomName | src/message.c:212-221 | the atom name is the upper-cased program name followed by the suffix |
| Messages.AtomsDistinct | src/message.c:31-32 | the semaphore and the message property of a program name are different properties |
| Messages.AtomsIgnoreCase | src/message.c:212-221 | invocation names that differ only in letter case share both properties |
| Messages.StartupExit | src/message.c:230-295 | only a claimed semaphore lets the invocation go on running; a delivered message exits with EXIT_SUCCESS; every other outcome exits with EXIT_FAILURE |
| Messages.Negotiate | src/message.c:250-292 | without a message, the invocation claims the semaphore exactly when no live owner holds it; with a message, it delivers exactly when there is a live owner; it fails as "no such process" or "not located" in the other cases |
| Messages.AfterNegotiation | src/message.c:250-292 | claiming writes our pid into the semaphore, sending writes the message code into the message property, and failing changes nothing |
| Messages.Received | src/message.c:138-165 | a message is acted upon only after the first pass, and only when the property is an integer that encodes a message other than msg_none |
| Messages.DeliveredMessageReceived | src/message.c:157-165 | a message code left in the message property is received as that message |
| Messages.Handle | src/message.c:37-98 | the new state for each message: with -secure nothing changes; disable (and toggle while enabled) sets the disabled flag, puts the lock trigger a lock time ahead and disarms the kill trigger, even when already disabled; enable (and toggle while disabled) clears the flag and resets the triggers, even when already enabled; locknow and unlocknow raise their flag only while enabled and change nothing while disabled; exit, restart and no message leave the state alone |
| Messages.SecureIgnoresMessages | src/message.c:37-98 | with -secure no message changes the state |
| Messages.ToggleIsDisableOrEnable | src/message.c:61-76 | toggle disables an enabled xautolock and enables a disabled one |
| Messages.ToggleTwice | src/message.c:61-76 | two toggles restore the disabled flag |
| Messages.DisableIdempotent | src/message.c:37-49 | disabling twice is disabling once |
| Messages.EnableAfterDisableKeepsKillerOff | src/message.c:37-59 | after disable then enable, the lock trigger is a full lock time ahead and the kill trigger stays disarmed |
| Messages.DisabledIgnoresLockRequests | src/message.c:88-98 | while disabled, locknow and unlocknow change nothing |
| Messages.DisableByMessage | src/message.c:37-49 | the state becomes Handle(state, disable): without -secure, disabled with the lock trigger a lock time ahead and the kill trigger disarmed |
| Messages.EnableByMessage | src/message.c:51-59 | the state becomes Handle(state, enable): without -secure, enabled with the triggers reset |
| Messages.ToggleByMessage | src/message.c:61-76 | the state becomes Handle(state, toggle): without -secure, the disable effect when enabled and the enable effect when disabled |
| Messages.LockNowByMessage | src/message.c:88-92 | lockNow is raised exactly when not secure and not disabled |
| Messages.UnlockNowByMessage | src/message.c:94-98 | unlockNow is raised exactly when not secure and not disabled |
| Messages.ExitOrRestart | src/message.c:78-109 | without -secure, exit ends the program with status 0 and restart re-executes the saved argv; everything else continues |
| Messages.MessageBus.constructor | src/message.c:123 | the first pass is still ahead |
| Messages.MessageBus.GetAtoms | src/message.c:205-223 | both atoms are the upper-cased program name followed by their suffix |
| Messages.MessageBus.CheckConnectionAndSendMessage | src/message.c:230-295 | the outcome is Negotiate of the semaphore found, and the root window becomes AfterNegotiation |
| Messages.MessageBus.LookForMessages | src/message.c:114-200 | the message property is always deleted; the received message's handler updates the state; without -secure, a received restart deletes the semaphore too and re-executes the saved argv, and a received exit ends the program with status 0; the first-pass flag is cleared |
| Messages.SecondInstanceFindsFirst | src/message.c:250-292 | while the instance that claimed the semaphore is alive, a later invocation under the same name is turned away, or delivers its message |
| Messages.SentMessageIsHandled | src/message.c:157-165 | a message that was sent is received on the running instance's next pass |
| Diy.MaskFor | src/diy.c:126-146 | substructure-only mode selects SubstructureNotify alone. Full mode adds KeyPress for the real root and for every window on which a client selects KeyPress or blocks its propagation. No mask is installed when the attribute query fails |
| Diy.Display.SelectTree | src/diy.c:94-175 | nothing is installed on a window that is gone or has no mask, and no installed mask is removed |
| Diy.Display.SelectEvents | src/diy.c:94-175 | the masks become SelectTree of the old ones: MaskFor's mask exactly on the windows of Tree(w), every other mask kept |
| Diy.SelectTreeInstalls | src/diy.c:94-175 | selectEvents installs MaskFor's mask on exactly the windows of Tree(w), keeps every other mask and removes none; the window itself gets its own mask |
| Diy.SelectChildrenInstalls | src/diy.c:160-172 | the first k rounds of the loop over the children install MaskFor's mask on exactly the windows of the trees of those k children |
| Diy.ForestHoldsChild | src/diy.c:160-172 | the tree of each of the first k children lies within the forest of those children |
| Diy.ForestMember | src/diy.c:160-172 | every window of the forest of the first k children lies in the tree of one of them |
| Diy.PathInTree | src/diy.c:94-175 | the end of every path of known windows with a mask, each a child of the one before, from w, is in Tree(w) |
| Diy.TreeHasPath | src/diy.c:94-175 | every window of Tree(w) is the end of such a path from w |
| Diy.SelectEventsReaches | src/diy.c:94-175 | every window reached from w along such a path ends with MaskFor's mask |
| Diy.Display.CheckMaskEvent | src/diy.c:189-190 | XCheckMaskEvent takes out the first pending substructure event, or reports that there is none |
| Diy.Display.NextEvent | src/diy.c:198 | XNextEvent takes out the front event |
| Diy.FirstSubstructure | src/diy.c:189-190 | the index of the first substructure event, None exactly when there is none |
| Diy.EligiblePrefix | src/diy.c:78-84 | the entries before the bound are older than the age at now, and the entry at the bound is not |
| Diy.EligiblePrefixIs | src/diy.c:78-84 | a prefix of old-enough entries, followed by one that is too young or by the end, is the eligible prefix |
| Diy.NothingEligibleRemains | src/diy.c:78-84 | in a chronological queue, the early exit of processQueue leaves no old-enough entry behind |
| Diy.AppendKeepsChronological | src/diy.c:55-68 | appending an entry no older than the last one keeps the queue chronological |
| Diy.EligiblePrefixOfExtension | src/diy.c:78-84 | entries appended after a too-young one do not change how far processQueue gets |
| Diy.PromoteAll | src/diy.c:78-84 | promotion never removes an installed mask, and promoting no records installs nothing |
| Diy.PromoteAllInstallsFullMasks | src/diy.c:78-84 | promoting the first n records installs the full-mode MaskFor mask on exactly the windows of the full-mode trees of their windows, and keeps every other mask |
| Diy.PromotedTreesHold | src/diy.c:78-84 | the tree of each of the first n records' windows is among the promoted trees |
| Diy.PromotedGetMasks | src/diy.c:78-84 | each promoted window, and every window reached from it along a path, ends with its full-mode mask |
| Diy.SelectRoots | src/diy.c:231-236 | selecting on the roots never removes an installed mask, and selecting on no roots installs nothing |
| Diy.SelectRootsSubstructureOnly | src/diy.c:231-236 | initDiy installs the substructure-only mask on exactly the windows of the roots' trees and keeps every other mask; every known root, and every other window whose mask changed, carries SubstructureNotifyMask alone |
| Diy.Created | src/diy.c:191-194 | the records added by a run of events are at most one per event, all stamped now |
| Diy.Enqueued | src/diy.c:231-234 | one record per root, in order, stamped now |
| Diy.WindowQueue.AddToQueue | src/diy.c:55-68 | the record is appended at the tail; a non-empty queue keeps its head |
| Diy.WindowQueue.ProcessQueue | src/diy.c:70-88 | the longest prefix of records older than the age is promoted to full masks, front first, and dropped; the rest stay; an emptied queue has no tail |
| Diy.WindowQueue.PromoteHead | src/diy.c:80-83 | the head window gets its full masks and its record leaves the queue |
| Diy.WindowQueue.DropHead | src/diy.c:81-83 | the head item leaves the list and the rest stays linked |
| Diy.WindowQueue.ProcessEvents | src/diy.c:182-217 | every pending event is read; each CreateNotify queues its window; a genuine KeyPress resets the triggers and nothing else does; then processQueue runs with CreationDelay |
| Diy.WindowQueue.ReadEvents | src/diy.c:185-210 | the event loop empties the pending events, queues every created window and resets the triggers exactly when a genuine KeyPress was among them |
| Diy.WindowQueue.ReadEvent | src/diy.c:187-209 | one event is read, and only a genuine KeyPress resets the triggers |
| Diy.WindowQueue.TakeEvent | src/diy.c:189-199 | the event read is the first pending substructure event, taken out wherever it is, or the front event when there is none (TakenInOrder); the created records and the KeyPress events still to come are preserved |
| Diy.TakenInOrderUnique | src/diy.c:189-199 | the pending events determine which event is read and what stays pending |
| Diy.WindowQueue.QueueCreated | src/diy.c:191-194 | a CreateNotify queues its window and any other event leaves the queue alone |
| Diy.WindowQueue.InitDiy | src/diy.c:222-237 | the queue holds each screen's root once, in screen order; the trees get substructure-only masks |
| Diy.WindowQueue.QueueRoot | src/diy.c:233-235 | one root is queued, then its tree gets substructure-only masks |
| Diy.NoSubstructureBefore | src/diy.c:189-195 | taking out the first substructure event keeps the records and KeyPress events of the rest |
| Diy.EventsWithoutSubstructure | src/diy.c:196-199 | without substructure events, the front event adds no record, and the records and KeyPress events split at the front |
| Diy.NewWindowsWait | src/diy.c:191-216 | the records of windows created during one processEvents are not promoted by that same call |

## Left out

- The X library is abstracted. `XQueryTree`, `XGetWindowAttributes`, `XSelectInput`, `XCheckMaskEvent`, `XNextEvent` and the property calls work on the fixed `Display` and `RootWindow` state. A window that is gone is one that the server does not know.
- The window tree is fixed while a call runs. A tree that changes between the two `XQueryTree` calls of `selectEvents` is modelled only as the second query failing. Events that arrive while `processEvents` drains the queue are not modelled.
- The clock is a parameter, with one `now` per call. `addToQueue` and `processQueue` each call `time (0)` themselves, so in the C code an `addToQueue` late in the drain can see a later time.
- `free`, `XFree` and the abort on a failed allocation are not modelled.
- `exit`, `execv`, `kill (pid, 0)` and `getpid ()` become outcomes and parameters.
  - The path where `execv` fails and returns is not modelled.
  - A restart removes the semaphore and returns `Exec` with the saved arguments.
- Messages.MessageBus.CheckConnectionAndSendMessage: reading the semaphore and writing it is one atomic step here. The race between two invocations starting at once is not modelled.
- Messages.Property: the 8-bit format of the message property and `XA_INTEGER` are folded into `IntegerProperty`. Any other type or format is `OtherProperty`.
- Options.ScanDecimal: overflow of `int` in `sscanf` is not modelled. Numbers are unbounded.
- The widths of `time_t`, `int` and `unsigned` are not modelled. The triggers and times are unbounded integers, so nothing wraps around.
- Options.Settings.ProcessOpts: `XrmParseCommand` and the resource databases become three maps from option to value. `usage`, the version text, the diagnostics of `error0/1/2` and the VMS branches are not modelled.
- Options.Settings.ProcessOpts: the contract states the exit outcomes and the bounds the checkers leave. It does not state which value each option holds after the loop, because that depends on which action ran last. Each action's own contract states its effect.
- Options.Settings.Act: the contract states the result of every option. It does not repeat the effect on the option globals. That effect is stated by the contracts of the per-option actions (LockerAction, NowLockerAction, KillerAction, NotifierAction, BellAction, CornerSizeAction, CornersAction, LockTimeAction, KillTimeAction, CornerDelayAction, CornerRedelayAction, NotifyAction, MessageAction) and of the dispatchers CommandAction and FlagAction. ValueAction states only which values are accepted.
- State.ProgramState.InitState: requires argv to be non-empty. The argc == 0 case is not modelled, because the C code passes argv[0] to strrchr without a check (src/state.c:74).
- -secure is a parameter of the message handlers. Outside them it is the `secure` field of `Settings`.
- State.ProgramState.constructor: `nofArgs` is modelled only as its initial value, 0. The modelled code never assigns it.
- The main loop and engine of `src/xautolock.c`, the window-manager setup and the pointer and corner logic are not part of this model. They read the state modelled here.
