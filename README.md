# SOLID-OS support crates for the Raspberry Pi 4, modelled in Dafny

This project models the safe Rust wrappers that the Raspberry Pi 4 sample
applications use over the SOLID real-time OS, together with the parts of
the sample applications that compute something:

- `common/solid`: the interrupt critical section and per-line spinlock,
  interrupt handler registration (`Handler`) and line enable/disable
  (`Number`), the `Timer` start/stop state machine, the DAIF mask
  push/pop of `abi.rs` and the `SOLID_ERR_*` codes, processor sets and
  remote calls (`smp`), the compile-time environment table of
  `staticenv!`, SOLID filesystem paths (`fs`), `Error`, and the
  take-once static cell of `singleton!`.
- `common/bcm2711_pac`: the VideoCore-to-ARM address translation of `Vpa`.
- The Gotham server's CPU-usage monitor (a ring of 16 x 64 busy bits)
  and its `/v0/fetch/` URL repair.
- The file-system blinky's LED power smoothing, gamma correction and
  software delta-sigma DAC.
- The Rocket server's fixed `getenv` stub.

Each source module has its own Dafny module, with one file per module.
Code that changes state in place, such as `Handler`, `Timer`, `LineTable`,
`Monitor`, `LazyPinTakeCell`, the `St` slot and the set-once cell, becomes
a class whose methods state their new state. The `while` loops of
`staticenv.rs`, the LED task and the DAC become methods with loop
invariants. Each is proved against a specification function, and lemmas
prove that function's properties.

Design decisions:

- **Platform constants.** `SOLID_CORE_MAX`, `GIC_MAXINTNO`,
  `SOLID_TIMER_EACHCPU` and the `SOLID_TIMER_TYPE_*` values come from OS
  headers that are not part of this model. They are fields of
  `Abi.Config`, and `Config.Valid()` limits them to what the code relies
  on:
  - 1 to 32 processors;
  - `GIC_MAXINTNO` at least 32 and below 2^31;
  - three distinct timer types.

  `GIC_MAXINTNO` is used as the code uses it in `NUM_LINES`: a shared
  interrupt number `n` has a line exactly when `n < GIC_MAXINTNO`.
- **OS calls.** Every call into the OS (`SOLID_INTC_*`, `SOLID_TIMER_*`,
  `SOLID_SMP_*`) takes its returned status as a parameter of the modelled
  method. The call is appended to `Abi.Machine.log`, along with whether
  IRQ and FIQ were masked at the time. The current processor and
  `exceptions::active()` are fields of `Machine`.
- **Panics.** `Outcome` separates three endings:
  - `Ret`, a normal return;
  - `Panic(msg)`, an unwinding `panic!` or `assert!`;
  - `Abort`, a panic inside `abort_on_unwind` or a destructor.

  A panic message is the literal part of the source's message. The
  formatted status code is left out.
- **Pointers.** Raw pointers become object identity (`param: object?`) or
  byte offsets into the string table (`StaticEnv.Ptr`).
- **Closures.** A user closure is a function `nat -> Run<R>` of the
  processor it runs on. `Run` says whether it returned a value or
  panicked with a payload.

## Model

| member | source | states |
|---|---|---|
| Abi.ErrorCodesDistinctNegative | common/solid/src/abi.rs:81-98 | `SOLID_ERR_OK` is 0, every other code is negative, and no two codes are equal |
| Abi.Machine.PushInt | common/solid/src/abi.rs:101-112 | returns the DAIF value read before masking, and leaves IRQ and FIQ masked with D and A unchanged |
| Abi.Machine.PopInt | common/solid/src/abi.rs:115-125 | the new mask is `Restored(old mask, status)`: 0x00 clears I and F, 0x40 clears I, 0x80 clears F, and 0xc0 clears nothing |
| Abi.RestoredOnlyUnmasks | common/solid/src/abi.rs:115-125 | PopInt keeps D and A, and leaves I or F masked only if it was masked before and also in the saved status |
| Abi.PushPopRestores | common/solid/src/abi.rs:101-125 | PushInt masks IRQ and FIQ, and PopInt with its return value gives back the original mask |
| Abi.NestedPushPopRestores | common/solid/src/abi.rs:101-125 | push, push, pop, pop in LIFO order restores the original mask |
| Abi.Machine.PopIntRestoring | common/solid/src/abi.rs:115-125 | PopInt with the value PushInt saved from `saved`, with no mask change in between, restores `saved` |
| SolidError.FromRaw | common/solid/src/error.rs:14-24 | an error exists exactly for negative codes, and `get` gives the code back |
| SolidError.ErrIfNegative | common/solid/src/error.rs:32-38 | a negative `x` gives `Err` carrying `x`; otherwise the result is `Ok(x)` |
| SolidError.DefineErrorCode | common/solid/src/error.rs:41-55 | a named constant is defined exactly when its raw code is negative, and then equals `from_raw(raw)`; otherwise `unreachable!` panics |
| SolidError.KnownCodesDefined | common/solid/src/error.rs:57-77 | every constant PAR..NOTREADY is defined, and `get` returns its `SOLID_ERR_` value |
| SolidError.FromRawGetRoundTrip | common/solid/src/error.rs:14-29 | `get` inverts `from_raw`, and `from_raw` inverts `get` on every negative error |
| Bus.ToArmPa | common/bcm2711_pac/src/bus.rs:16-21 | defined exactly on 0x4_7c00_0000..=0x4_7fff_ffff; maps `x` to `x - 0x4_7c00_0000 + 0xfc00_0000`, which fits in 32 bits |
| Bus.GpioExample | common/bcm2711_pac/src/bus.rs:10-14 | the documented GPIO example maps to 0xfe20_0000 |
| Bus.ToArmPaPreservesDifferences | common/bcm2711_pac/src/bus.rs:18 | the translation keeps differences between addresses, so it is injective and keeps their order |
| Fs.FromVecWithNul | common/solid/src/fs.rs:56 | accepts exactly the byte vectors whose only NUL is the last byte, and gives back the same bytes |
| Fs.FromVecWithNulRoundTrip | common/solid/src/fs.rs:56 | the bytes of a valid C string, with its NUL, are accepted and give the same C string |
| Fs.BytesToSolidPath | common/solid/src/fs.rs:46-57 | a path that does not start with `\` is refused; one that does is accepted exactly when it has no NUL, as `\TS` followed by the path, so the result starts with `\TS\` |
| Fs.BytesToSolidPathInjective | common/solid/src/fs.rs:46-57 | different accepted paths give different SOLID paths |
| Fs.CStrToSolidPath | common/solid/src/fs.rs:66-69 | a C string is accepted exactly when it starts with `\`, and is prefixed with `\TS` |
| Fs.StrToSolidPath | common/solid/src/fs.rs:78-81 | a `&str` is handled like its UTF-8 bytes |
| Fs.PathToSolidPath | common/solid/src/fs.rs:90-94 | a `&Path` is handled like its OS bytes |
| Fs.NewRawPath | common/solid/src/fs.rs:109-117 | `into_inner` returns what `new` received |
| Fs.RawPathToSolidPath | common/solid/src/fs.rs:124-127 | a raw path is never refused, and is used unchanged |
| Singleton.AlreadyBorrowedError.Display | common/solid/src/singleton.rs:77-81 | the error displays as "already borrowed" |
| Singleton.LazyPinTakeCell.constructor | common/solid/src/singleton.rs:92-96 | a new cell is untaken and its storage is uninitialised |
| Singleton.LazyPinTakeCell.Take | common/solid/src/singleton.rs:98-102 | the first take evaluates `init` once and returns its value; later takes return `AlreadyBorrowedError` without evaluating `init`; at most one take ever returns `Ok` |
| Smp.FromBitsTruncating | common/solid/src/smp.rs:33-38 | keeps exactly the bits below `SOLID_CORE_MAX`, and changes nothing at 32 processors |
| Smp.Single | common/solid/src/smp.rs:22-28 | panics when the processor does not exist; otherwise the set holds exactly that processor |
| Smp.All | common/solid/src/smp.rs:42-44 | the set holds exactly the existing processors |
| Smp.NumProcessors | common/solid/src/smp.rs:55-57 | between 1 and 32, and `All` holds exactly the processors numbered below it |
| Smp.FirstPanicNone | common/solid/src/smp.rs:138-152 | no panic is reported exactly when every execution returned |
| Smp.FirstPanicWitness | common/solid/src/smp.rs:138-152 | a reported panic is the payload of some execution `k`, and every execution before `k` returned |
| Smp.FirstPanicSnoc | common/solid/src/smp.rs:141-147 | one more execution changes the report only if nothing panicked before it |
| Smp.OnceCell.Set | common/solid/src/smp.rs:141-147 | only the first `set` stores its value |
| Smp.CatchAll | common/solid/src/smp.rs:141-147 | after all executions the cell holds the first panic payload, or nothing if none panicked |
| Smp.CallOnProcessorsNoUnwind | common/solid/src/smp.rs:79-116 | logs one `SOLID_SMP_ForEachCpu` with the mask; OK gives `Ok`, NOTREADY gives `NotReady`, and any other status panics |
| Smp.CallOnProcessors | common/solid/src/smp.rs:131-153 | as the no-unwind version, and on OK re-raises the first caught panic when there is one, otherwise `Ok` |
| Smp.St.Trampoline | common/solid/src/smp.rs:172-193 | takes the closure out of the slot once; a return writes the result into the slot, and a panic aborts and leaves the slot empty |
| Smp.CallOnProcessorNoUnwind | common/solid/src/smp.rs:163-228 | an invalid processor gives `BadProcessor` with no OS call; otherwise logs one request, OK returns the closure's result, NOTREADY gives `NotReady`, PAR gives `BadProcessor`, and any other status panics |
| Smp.CallOnProcessor | common/solid/src/smp.rs:237-248 | as the no-unwind version, except that a panic of the closure is re-raised to the caller instead of aborting |
| Interrupt.Free | common/solid/src/interrupt.rs:29-45 | returns the closure's result and puts back the mask that was saved on entry |
| Interrupt.LineFor | common/solid/src/interrupt.rs:585-596 | a negative number has no line; `n < 32` gives `n + 32 * processor`; `n >= 32` gives `n + 32 * (CORE_MAX - 1)` if `n < GIC_MAXINTNO`, else no line; every line is below `NUM_LINES` |
| Interrupt.PrivateLineDecodes | common/solid/src/interrupt.rs:585-596 | a per-processor line determines its number and its processor |
| Interrupt.SharedLineDecodes | common/solid/src/interrupt.rs:585-596 | a shared line determines its number, and lies above every per-processor line |
| Interrupt.LinesDistinct | common/solid/src/interrupt.rs:585-596 | distinct (number, processor) pairs below 32 and distinct shared numbers get distinct lines; per-processor lines lie below shared ones; a shared line does not depend on the processor |
| Interrupt.IndexMaskInTable | common/solid/src/interrupt.rs:598-602 | every valid line has its word inside the table, and a single-bit mask at `line % 64` |
| Interrupt.IndexInTable | common/solid/src/interrupt.rs:570 | every valid line's word index is below `LINE_TABLE_LEN` |
| Interrupt.LineTable.constructor | common/solid/src/interrupt.rs:572 | the spinlock table starts with no line locked |
| Interrupt.LineTable.Lock | common/solid/src/interrupt.rs:605-620 | sets the line's bit in its word and leaves every other word alone; on an idle table only that bit is set |
| Interrupt.LineTable.LockIdle | common/solid/src/interrupt.rs:605-620 | locking on an idle table leaves exactly that line's bit set |
| Interrupt.LineTable.Release | common/solid/src/interrupt.rs:605-620 | the guard clears only the bits it set, so lock then release gives back an idle table |
| Interrupt.LockThenReleaseRestores | common/solid/src/interrupt.rs:605-620 | setting a free bit and then clearing it gives the original word back |
| Interrupt.NewOptions | common/solid/src/interrupt.rs:135-142 | configuration -1, targeting processor 0 alone |
| Interrupt.WithEdgeTriggered | common/solid/src/interrupt.rs:146-151 | sets the configuration to the edge-triggered value 2 and changes nothing else |
| Interrupt.WithLevelTriggered | common/solid/src/interrupt.rs:155-160 | as written: also sets the configuration to 2 |
| Interrupt.LevelTriggeredIsEdgeTriggered | common/solid/src/interrupt.rs:146-160 | the level-triggered builder cannot be told apart from the edge-triggered one |
| Interrupt.WithLevelTriggeredCorrected | common/solid/src/interrupt.rs:155-160 | the intended builder: configuration 0, which is level-sensitive |
| Interrupt.LevelTriggeredCorrectedDiffers | common/solid/src/interrupt.rs:146-160 | the corrected builder differs from the edge-triggered one only in the configuration |
| Interrupt.WithTargetProcessor | common/solid/src/interrupt.rs:168-170 | panics for a processor that does not exist; otherwise only the processor set changes |
| Interrupt.WithTargetProcessorSet | common/solid/src/interrupt.rs:174-179 | replaces the processor set and nothing else |
| Interrupt.RegisterResult | common/solid/src/interrupt.rs:394-402 | OK gives `Ok(true)`, PAR gives `BadParam`, ALREADYUSED gives `InterruptLineAlreadyHasHandler`, and any other status panics |
| Interrupt.EnableResult | common/solid/src/interrupt.rs:537-563 | OK gives `Ok`, PAR gives `BadParam`, NOTUSED gives `NoHandler`, and any other status panics, naming the OS call |
| Interrupt.Number.Enable | common/solid/src/interrupt.rs:483-505 | no line gives `BadParam` with no OS call; otherwise a locked `SOLID_INTC_Enable` with interrupts masked, mapped by `EnableResult`; lock, mask and table are all restored |
| Interrupt.Number.Disable | common/solid/src/interrupt.rs:517-527 | the same as `Enable`, but for `SOLID_INTC_Disable` |
| Interrupt.Number.EnableRaw | common/solid/src/interrupt.rs:537-545 | one `SOLID_INTC_Enable` call with no lock, mapped by `EnableResult` |
| Interrupt.Number.DisableRaw | common/solid/src/interrupt.rs:555-563 | one `SOLID_INTC_Disable` call with no lock, mapped by `EnableResult` |
| Interrupt.Handler.constructor | common/solid/src/interrupt.rs:234-248 | a zeroed descriptor, unregistered, on line 0 |
| Interrupt.Handler.Desc | common/solid/src/interrupt.rs:356-367 | the descriptor `register` writes points back to the handler |
| Interrupt.Handler.Register | common/solid/src/interrupt.rs:327-407 | already registered gives `Ok(false)` with no OS call; no line, or a processor set above 0xff, gives `BadParam` with no OS call; otherwise one locked OS call mapped by `RegisterResult`; OK records the line, and failure resets `param` and keeps the line; the mask and the lock table are restored |
| Interrupt.Handler.Submit | common/solid/src/interrupt.rs:356-404 | writes the descriptor, makes one OS call, and keeps it only on OK |
| Interrupt.Handler.Unregister | common/solid/src/interrupt.rs:416-451 | unregistered gives `false` with no OS call; a recomputed line different from the recorded one panics; otherwise one locked OS call, OK unregisters, and failure panics |
| Interrupt.Handler.Withdraw | common/solid/src/interrupt.rs:441-449 | OK clears `param`; any other status panics and changes nothing |
| Interrupt.Handler.Drop | common/solid/src/interrupt.rs:220-229 | `unregister` under `abort_on_unwind`: either the handler ends unregistered, or the process aborts exactly when `unregister` would panic |
| Timer.UpdateSys | common/solid/src/timer.rs:165-180 | the descriptor reads back as the schedule; `func`, `param` and the field the schedule does not use are untouched |
| Timer.UpdateSysLastWins | common/solid/src/timer.rs:165-180 | writing two schedules leaves the second |
| Timer.IsOneShotTy | common/solid/src/timer.rs:184-186 | every type except INTERVAL is one-shot |
| Timer.OneShotBySchedule | common/solid/src/timer.rs:184-186 | a timer stops itself after firing exactly when its schedule is not `Interval` |
| Timer.StartResult | common/solid/src/timer.rs:385-390 | OK gives `Ok(true)`, PAR gives `BadParam`, and any other status panics |
| Timer.StopResult | common/solid/src/timer.rs:464-480 | OK gives `Ok(true)`, NOTFOUND gives `Ok(false)`, and any other status panics |
| Timer.Timer.constructor | common/solid/src/timer.rs:268-285 | stopped, `param` null, and the descriptor holds the schedule |
| Timer.Timer.Start | common/solid/src/timer.rs:342-403 | running gives `Ok(false)` with no change; a processor other than 0 without `SOLID_TIMER_EACHCPU` gives `BadProcessor`; otherwise one OS call with interrupts masked, PAR keeps it stopped, OK records the owner, and any other status panics |
| Timer.Timer.Stop | common/solid/src/timer.rs:412-482 | stopped gives `Ok(false)` with no OS call; exception context gives `BadContext`; another owner gives `BadProcessor`; otherwise one OS call mapped by `StopResult` that stops the timer |
| Timer.Timer.Drop | common/solid/src/timer.rs:251-263 | `stop` under `abort_on_unwind`, where any error aborts; a normal return leaves the timer stopped |
| Timer.Timer.Reschedule | common/solid/src/timer.rs:486-497 | a running timer gives `RunningError` and keeps its descriptor; a stopped one takes `update_sys` of the new schedule |
| Timer.Timer.HandlerPin | common/solid/src/timer.rs:501-510 | the handler is reachable exactly when the timer is stopped |
| Timer.Timer.HandlerPinMut | common/solid/src/timer.rs:514-523 | only a stopped timer's handler changes |
| Timer.Timer.HandlerTrampoline | common/solid/src/timer.rs:288-327 | enables interrupts around the callback and masks them again; a panicking callback aborts; a one-shot timer ends stopped and an interval timer stays running |
| StaticEnv.SerializeLength | common/solid/src/staticenv.rs:72-83 | the compiled table is as long as the sum of `|name| + |value| + 2` |
| StaticEnv.StrTableLen | common/solid/src/staticenv.rs:72-83 | the loop computes that sum, which is the length of the compiled table |
| StaticEnv.WriteEntry | common/solid/src/staticenv.rs:93-120 | one entry is written as `name = value`, with its NUL left zero, exactly when neither part has a NUL and it fits; otherwise it panics |
| StaticEnv.StrTable | common/solid/src/staticenv.rs:86-125 | succeeds exactly when no name or value has a NUL and `LEN` is the computed length, and then returns the concatenation of `name=value\0` entries |
| StaticEnv.TerminatedIffEndsWithNul | common/solid/src/staticenv.rs:134-144 | the entry scan stays inside the table exactly when the table is empty or ends with NUL |
| StaticEnv.SkipEntry | common/solid/src/staticenv.rs:140-143 | steps past the next NUL, and panics if the table ends first |
| StaticEnv.FillEnvTable | common/solid/src/staticenv.rs:128-145 | writes the start offset of every entry in order, and panics if the entries run off the table or exceed `LEN` |
| StaticEnv.EnvTable | common/solid/src/staticenv.rs:128-151 | succeeds exactly when every entry is terminated and `LEN` is the entry count plus one, and then returns the entry pointers followed by null |
| StaticEnv.EnvTableOfStrTable | common/solid/src/staticenv.rs:37 | a compiled table has exactly one entry per prototype entry, at the entry offsets, so the macro's `PROTO_ENV_TABLE.len() + 1` is accepted |
| StaticEnv.CompiledEnvValid | common/solid/src/staticenv.rs:86-151 | every pointer of a compiled table starts a NUL-terminated string inside it |
| StaticEnv.GetenvImpl | common/solid/src/staticenv.rs:154-178 | a name holding `=` gives null; otherwise the result is the value after the first entry that starts with `name=`, or null |
| StaticEnv.LookupSerialized | common/solid/src/staticenv.rs:163-177 | scanning from pointer `j` of a compiled table finds the first value stored under the name in entries `j..`, or null when there is none |
| StaticEnv.GetenvRoundTrip | common/solid/src/staticenv.rs:86-178 | on a table compiled from entries whose names hold no `=`, looking up a name gives the value of the first entry with that name, or null |
| CpuMon.MaskAtIsBit | rust-server-gotham/rustapp/src/cpumon.rs:81 | `1usize.rotate_left(cursor as u32)` is the single bit `cursor % 64` |
| CpuMon.Stored | rust-server-gotham/rustapp/src/cpumon.rs:84-90 | the stored word records the tick's busyness in bit `cursor % 64` |
| CpuMon.StoredRecords | rust-server-gotham/rustapp/src/cpumon.rs:84-90 | clearing the mask on WFI and setting it otherwise is that record |
| CpuMon.RecordedBits | rust-server-gotham/rustapp/src/cpumon.rs:84-90 | recording sets bit `b` to the busyness and keeps every other bit |
| CpuMon.PopCountRecorded | rust-server-gotham/rustapp/src/cpumon.rs:84-90 | recording changes a word's population count by the recorded bit alone |
| CpuMon.SumBusyUpdate | rust-server-gotham/rustapp/src/cpumon.rs:105-109 | replacing one word changes the numerator by the difference of the two words' counts |
| CpuMon.RecordSum | rust-server-gotham/rustapp/src/cpumon.rs:84-90 | recording one bit of one word changes the numerator by that bit alone |
| CpuMon.SlotPosition | rust-server-gotham/rustapp/src/cpumon.rs:80-81 | the slot (word `(cursor / 64) % 16`, bit `cursor % 64`) is position `cursor % 1024` of the ring |
| CpuMon.WrapKeepsPosition | rust-server-gotham/rustapp/src/cpumon.rs:76-78 | the wrapping increment keeps the ring position, because 1024 divides 2^64 |
| CpuMon.SlotsAgree | rust-server-gotham/rustapp/src/cpumon.rs:80-81 | two cursors share a slot exactly when they agree modulo 1024 |
| CpuMon.SlotsCycle | rust-server-gotham/rustapp/src/cpumon.rs:76-81 | after 1 to 1024 further ticks the cursor is back on its slot only after exactly 1024 |
| CpuMon.SlotsCover | rust-server-gotham/rustapp/src/cpumon.rs:76-81 | every one of the 16 x 64 slots is reached within the next 1024 ticks |
| CpuMon.UsageBounded | rust-server-gotham/rustapp/src/cpumon.rs:105-110 | the numerator never exceeds the denominator 1024 |
| CpuMon.TickedSum | rust-server-gotham/rustapp/src/cpumon.rs:84-90 | a tick changes the numerator only by the bit it records |
| CpuMon.Monitor.constructor | rust-server-gotham/rustapp/src/cpumon.rs:57-62 | cursor 0 and an all-idle history |
| CpuMon.Monitor.Tick | rust-server-gotham/rustapp/src/cpumon.rs:64-91 | the cursor advances by one, wrapping at 2^64; only the slot of the old cursor changes, recording busy iff not taken on WFI; the numerator moves by that bit |
| CpuMon.Monitor.Store | rust-server-gotham/rustapp/src/cpumon.rs:84-90 | stores the read-modify-written word at the cursor's slot and nothing else |
| CpuMon.Monitor.Init | rust-server-gotham/rustapp/src/cpumon.rs:93-99 | registers the timer the first time only, whatever the number of calls, and panics if that registration fails |
| CpuMon.Monitor.Usage | rust-server-gotham/rustapp/src/cpumon.rs:102-112 | the numerator is the number of busy slots, the denominator is 1024, and numerator <= denominator |
| Led.Clamp | cpp-blinky-rtos-fs/cpp-blinky-rtos-fs/main.cpp:56 | the result lies in [0, 100], equals the input inside that range, and is 0 below it or 100 above it |
| Led.ReadRequestedPower | cpp-blinky-rtos-fs/cpp-blinky-rtos-fs/main.cpp:33-65 | -1 exactly when opening or reading fails; otherwise the clamped parsed value |
| Led.Toggle | cpp-blinky-rtos-fs/cpp-blinky-rtos-fs/main.cpp:74 | `^= 100` maps 0 to 100 and 100 to 0 |
| Led.Step | cpp-blinky-rtos-fs/cpp-blinky-rtos-fs/main.cpp:84-88 | one frame shrinks the distance to the target by one, never past it |
| Led.ApproachDistance | cpp-blinky-rtos-fs/cpp-blinky-rtos-fs/main.cpp:83-89 | after `n` frames the distance has shrunk by `n`, down to zero |
| Led.ApproachInRange | cpp-blinky-rtos-fs/cpp-blinky-rtos-fs/main.cpp:83-89 | starting in [0, 100] and aiming in [0, 100], the smoothed power stays in [0, 100] |
| Led.ApproachReachesTarget | cpp-blinky-rtos-fs/cpp-blinky-rtos-fs/main.cpp:83-89 | 100 frames always reach the target |
| Led.GammaAsWritten | cpp-blinky-rtos-fs/cpp-blinky-rtos-fs/main.cpp:91 | as written: the `int32_t` product is defined exactly when it fits in 32 signed bits |
| Led.GammaOverflowsFrom71 | cpp-blinky-rtos-fs/cpp-blinky-rtos-fs/main.cpp:91 | on [0, 100] the product overflows exactly from 71 on |
| Led.Gamma | cpp-blinky-rtos-fs/cpp-blinky-rtos-fs/main.cpp:91-93 | the intended value `s * s * 429496` on [0, 100], with 100 within 10000 of 0xffff_ffff |
| Led.GammaNoWrap | cpp-blinky-rtos-fs/cpp-blinky-rtos-fs/main.cpp:91-93 | on [0, 100] the product fits in 32 unsigned bits |
| Led.GammaAgrees | cpp-blinky-rtos-fs/cpp-blinky-rtos-fs/main.cpp:91-93 | where the written expression is defined, `Gamma` agrees with it |
| Led.GammaMonotone | cpp-blinky-rtos-fs/cpp-blinky-rtos-fs/main.cpp:91-93 | `Gamma` is monotone on [0, 100] |
| Led.FrameStores | cpp-blinky-rtos-fs/cpp-blinky-rtos-fs/main.cpp:83-96 | one stored value per frame |
| Led.TaskRun | cpp-blinky-rtos-fs/cpp-blinky-rtos-fs/main.cpp:69-98 | the blink default is always 0 or 100 |
| Led.TaskStores | cpp-blinky-rtos-fs/cpp-blinky-rtos-fs/main.cpp:69-98 | 100 stored values per second |
| Led.TaskRunReachesTarget | cpp-blinky-rtos-fs/cpp-blinky-rtos-fs/main.cpp:74-89 | each second ends at its target, read or default, so the smoothed power lies in [0, 100] |
| Led.TaskRunDefault | cpp-blinky-rtos-fs/cpp-blinky-rtos-fs/main.cpp:74 | the default alternates: 0 after an even number of seconds, 100 after an odd number |
| Led.TaskPrefixStep | cpp-blinky-rtos-fs/cpp-blinky-rtos-fs/main.cpp:74-97 | one more second smooths toward its target for 100 frames, toggles the default, and appends that second's stores |
| Led.Frames | cpp-blinky-rtos-fs/cpp-blinky-rtos-fs/main.cpp:83-96 | the frame loop ends at `Approach(smoothed, power, 100)` and stores `FrameStores` |
| Led.Task | cpp-blinky-rtos-fs/cpp-blinky-rtos-fs/main.cpp:69-98 | the task loop over the given inputs ends in `TaskRun` and stores `TaskStores` |
| Led.DacStep | cpp-blinky-rtos-fs/cpp-blinky-rtos-fs/main.cpp:131-133 | the integrator becomes `(integrator + power) mod 2^32`, and the output is on exactly when the addition wrapped |
| Led.DacCarry | cpp-blinky-rtos-fs/cpp-blinky-rtos-fs/main.cpp:131-132 | adding a 32-bit value to a running total moves its 2^32 quotient by the carry of the low word |
| Led.DacInvariantStep | cpp-blinky-rtos-fs/cpp-blinky-rtos-fs/main.cpp:131-133 | one DAC step keeps the integrator at total mod 2^32 and the on-count at total div 2^32 |
| Led.Dac | cpp-blinky-rtos-fs/cpp-blinky-rtos-fs/main.cpp:127-138 | after `n` steps the integrator is `(i0 + sum) mod 2^32`, and the number of on outputs is `(i0 + sum) div 2^32`, which is the duty cycle |
| Led.SumConstant | cpp-blinky-rtos-fs/cpp-blinky-rtos-fs/main.cpp:127-137 | with a constant power `p`, the sum over `n` steps is `n * p`, so the on-count is `(i0 + n * p) div 2^32` |
| Proxy.RepairInserts | rust-server-gotham/rustapp/src/lib.rs:194-200 | when at least two segments remain, the first ends with `:` and the second is non-empty, one empty segment is inserted at index 1 and everything else keeps its order; otherwise nothing changes |
| Proxy.RepairIdempotent | rust-server-gotham/rustapp/src/lib.rs:194-200 | repairing twice is repairing once |
| Proxy.JoinSnoc | rust-server-gotham/rustapp/src/lib.rs:201 | the join places exactly one `/` between consecutive segments |
| Proxy.SplitJoin | rust-server-gotham/rustapp/src/lib.rs:201 | splitting the join of slash-free segments gives them back, so the join reconstructs them |
| Proxy.ProxiedUri | rust-server-gotham/rustapp/src/lib.rs:190-201 | the proxied URI is the join of the repaired segments |
| Proxy.FetchExample | rust-server-gotham/rustapp/src/lib.rs:184-201 | `["http:", "aaa", "bbb"]` becomes `http://aaa/bbb`, as the doc comment says |
| Stubs.StubValuesWellFormed | rust-server-rocket/rustapp/src/stubs.rs:10-17 | both values end with their only NUL, and the two names differ |
| Stubs.Getenv | rust-server-rocket/rustapp/src/stubs.rs:8-18 | `TMPDIR` gives `\OSCOM_FS\tmp`, `RUST_MIN_STACK` gives `125536`, and any other name gives null; every value is a C string |

## Left out

- No model of `environ`'s storage: the stub's `environ` is only the constant `Stubs.ENVIRON`, 0 (rust-server-rocket/rustapp/src/stubs.rs:5).
- Memory ordering, `Relaxed`/`Acquire`/`Release` atomics and the `dsb ish` barrier are left out. The model has one processor running sequentially.
- Interrupt.LineTable.Lock: the spin loop waits for another processor to release the line. A sequential model has none, so `Lock` requires the line to be free, and the lock/enable methods start from an idle table.
- Unwinding internals (`abort_on_unwind` in `utils.rs`, `catch_unwind`, `resume_unwind`): these are represented only by the `Panic` and `Abort` outcomes and by `Smp.Run`.
- Raw pointers, `Pin`, `UnsafeCell` and `ManuallyDrop`: these become object identity, byte offsets and the `St` slot's three states.
- FFI declarations, autocxx/cxx bindings, `abi.hpp` offsets and `build.rs` are left out.
- The interrupt handler trampoline (common/solid/src/interrupt.rs:251-281) and the `HandlerFn`/`TimerHandler` impls for `Option<T>` are not part of this model.
- `Handler::register_static` is not part of this model; it only forwards to `register` with a `'static` pin.
- `interrupt::enable`/`disable` and `SOLID_MUTEX_EnaInt`/`DisInt` are modelled only as their effect on the mask (`Abi.Machine.EnaInt`/`DisInt`), because their definitions are not part of this model.
- The `pNext`/`pCallQ` fields of the OS timer descriptor are left out. Only the OS reads them.
- `TickCount`, `sleep_busy_ns` and the `Duration` conversions in timer.rs are not part of this model.
- The timer trampoline's callback is a parameter (`call`). What the callback does is the user's.
- CpuMon.Monitor.Tick: the WFI probe (`SOLID_MEM_IsValid` and a volatile read of the instruction) is the input `takenOnWfi`.
- CpuMon.Monitor.Usage: returns the numerator and the denominator, because the final `f32` division is floating point.
- Led.ReadRequestedPower: the SOLID_FS open/read statuses and the `strtol` result are inputs. The log messages are left out.
- Led.Task: the infinite task loop, and `Led.Dac`'s infinite DAC loop, are modelled over a finite sequence of inputs. `dly_tsk`, the GPIO register writes and the task creation in `slo_main` are left out.
- Led.Toggle: modelled on the values the task reaches (non-negative and below 2^31). Whether a second toggle returns to the first value is not proved.
- StaticEnv.StrTableLen: `usize` overflow of the sum is not modelled; a compile-time table that large cannot exist.
- StaticEnv.StrTable: panics are modelled, but where a write past `LEN` happens the panic message is fixed (`index out of bounds` or the final length assertion). The source's message there depends on the next entry. These are compile-time errors of the `staticenv!` macro.
- `staticenv!` itself, `AssertSync` and `as_bytes_const` are not part of this model: they are macro plumbing and a pointer reinterpretation.
- `GIC_MAXINTNO`, `SOLID_CORE_MAX`, `SOLID_TIMER_EACHCPU` and the timer type values are parameters in `Abi.Config`, because their headers are not part of this model.
- Panic messages leave out the formatted status code. All but one are the literal text of the source. `start` names `SOLID_TIMER_UnRegisterTimer` in its panic message, and the model keeps that text.
- The network servers, the Mandelbrot renderer, the blinky examples and the `bcm2711_pac` register blocks are outside the modelled core.

## Findings

| source | as written | input that shows it | evidently intended | confidence | as-written member | corrected member |
|---|---|---|---|---|---|---|
| cpp-blinky-rtos-fs/cpp-blinky-rtos-fs/main.cpp:91 | `smoothed_power * smoothed_power * 429'496` is computed in `int32_t` and overflows, which is undefined behaviour, once `smoothed_power >= 71` | `smoothed_power = 71`: 71 * 71 * 429496 = 2165089336 > 2^31 - 1 | the unsigned product, which fits in 32 bits for every power in [0, 100] | not executed | Led.GammaOverflowsFrom71 | Led.GammaAgrees |
| common/solid/src/interrupt.rs:155-160 | `with_level_triggered` stores `0b10`, the same value as `with_edge_triggered` | any `HandlerOptions`: both builders give equal results | a level-sensitive configuration (`Int_config` bit 1 clear) | not executed | Interrupt.LevelTriggeredIsEdgeTriggered | Interrupt.LevelTriggeredCorrectedDiffers |
