# FreeRTOS Cortex-A9 / GIC port: a Dafny model

This project models the core of a FreeRTOS port for the ARM Cortex-A9 running on a
Generic Interrupt Controller (GIC). It also covers the small helpers that the
port's test programs carry with them. The model proves properties of each part:

- **Frame builder.** `pxPortInitialiseStack` lays out a new task's first context.
  It is modelled as writes into a sequence of 32-bit words (`StackFrame`).
- **Mask controller and critical sections.** `ulPortSetInterruptMask` and
  `vPortClearInterruptMask` drive the GIC priority mask register (GICC_PMR).
  `vPortEnterCritical` and `vPortExitCritical` keep the nesting count on top of
  them (`Critical`).
- **Tick interrupt.** `FreeRTOS_Tick_Handler` is modelled in `Tick`.
- **Scheduler start.** `xPortStartScheduler` up to the first context restore
  (`Scheduler`). It probes the implemented priority bits, refuses User mode and
  checks the binary point register. `vPortValidateInterruptPriority` is modelled
  alongside it.
- **Hardware and globals.** The port's globals and the GIC/CPU state it touches
  are in `PortState`. The `portmacro.h` constants are parameters, with the
  relations the port relies on.
- **Heap.** `heap_simple.c` is a bump allocator (`Heap`), modelled both as
  written (32-bit `size_t`) and as evidently intended.
- **Configuration.** `FreeRTOSConfig.h` supplies the values the port compiles
  against, its preprocessor guards, and `configASSERT` (`Config`).
- **Application and diagnostic helpers.**
  - The UART number and string encoders (`Uart`).
  - `memcpy` and `memset` (`Libc`).
  - The paint-then-verify memory test (`Paint`).
  - CPSR mode decoding, the painting patterns and the `vAssertCalled`
    classification (`Diagnostics`).

## How the model is built

- **Integers.** C's integer types are int subsets: `uint8` and `uint32`, where
  `uint32` also serves for `size_t` and `unsigned long`. Wrap-around is written
  out (`Words.AddU32`). Frame words and XOR/shift patterns are `bv32`.
- **configASSERT.** `vAssertCalled` never returns, so a `configASSERT(x)` is an
  outcome: `Config.Outcome` is either `Continue(state)` or
  `AssertFailed(state, line)`, and it carries the `__LINE__` the assertion sits on.
- **Collaborators are inputs.** Code outside the modelled files becomes an input:
  - the verdict of the kernel's `xTaskIncrementTick`;
  - the byte the GIC returns after 0xFF is written to a priority register;
  - the words read back from painted memory;
  - the current status register.
- **UART output** is the sequence of characters sent.
- **The port's `portmacro.h` is not part of this model.** The constants
  `portPRIORITY_SHIFT`, `portLOWEST_INTERRUPT_PRIORITY` and
  `portMAX_BINARY_POINT_VALUE` are the fields of `PortState.PortConstants`.

The code differs in places from what its comments or the stock port promise.
In each such place the model follows the code:

- **The binary-point check no longer asserts.** The `configASSERT` at
  `port.c:487` is commented out. A binary point above the maximum therefore makes
  `xPortStartScheduler` return 0 silently (`port.c:489`, `705`).
- **Order of the start checks.** The priority probe runs before the User-mode
  check. The clobbered priority byte is restored only after the probe's
  assertion has passed.
- **Frame size.** With `configUSE_TASK_FPU_SUPPORT == 1` the initial frame is 20
  words. Its PC lies below its SPSR, as RFEIA needs.
- **Stale assertion table.** The table in `vAssertCalled` does not match the
  `port.c` it is built with: only line 444 falls in a named range, and it is
  reported as a binary-point assertion (`Diagnostics.AssertTableMissesPortLines`).

## Model

| member | source | states |
|---|---|---|
| Config.ConfigurationPassesPortGuards | Source/include/FreeRTOSConfig.h:43-51 | The configured values pass every compile-time guard of the port: the API priority 200 is non-zero, at most 256 and above 256/2, and 10 priorities fit optimised selection's 32 |
| Config.HalfRangeGuardIsStrict | Source/portable/GCC/ARM_CA9/port.c:96-114 | The guards refuse an API priority of exactly half the range and one of zero, so the half-range guard is a strict bound |
| Config.ConfiguredFpuSupportIsFlagOnly | Source/include/FreeRTOSConfig.h:54 | The configured FPU support mode is 1, a mode the port accepts |
| Config.HeapSizeIsWordMultiple | Source/include/FreeRTOSConfig.h:11 | The heap is 65*1024 = 66560 bytes, a multiple of 4 |
| Config.ConfigAssert | Source/include/FreeRTOSConfig.h:40 | An assertion fails exactly when its expression is zero; it then halts with the state unchanged and the assertion's line |
| PortState.ConstantsForConfiguredGic | Source/portable/GCC/ARM_CA9/port.c:253 | With shift 0 the API mask is 200, a valid 8-bit PMR value; a shift of 1 would not fit the register |
| StackFrame.InitialiseStack | Source/portable/GCC/ARM_CA9/port.c:276-348 | The returned top is the given top minus 19 (FPU mode 1) or minus 84 (mode 2), and only words between the two change. The core words and the FPU header sit at their places, and mode 2 sets the task's FPU flag |
| StackFrame.FlagOnlyFrameLayout | Source/portable/GCC/ARM_CA9/port.c:276-336 | In the configured FPU mode, reading up from the returned pointer p: p[0] = 0 (no FPU context), p[1] = 0 (nesting), p[2] = parameters, R1..R12 sentinels, the exit address, the entry point, then SPSR 0x1F with 0x20 exactly when the entry address is odd, then two zeros; nothing outside the 20 words changes |
| StackFrame.CoreFrameFields | Source/portable/GCC/ARM_CA9/port.c:296-328 | Position of every register in the 19-word core frame: nesting, R0 = parameters, R1..R12 sentinels, R14, PC, SPSR, two zero words |
| StackFrame.FpuHeaderFields | Source/portable/GCC/ARM_CA9/port.c:330-348 | Mode 1 puts a single zero flag below the core frame; mode 2 puts a non-zero flag under a zero-filled 65-word register block |
| StackFrame.StartSpsrFields | Source/portable/GCC/ARM_CA9/port.c:282-288 | A new task starts in System mode with IRQs enabled, in Thumb state exactly when bit 0 of its entry address is set |
| StackFrame.InitialFrameRestoresEntry | Source/portable/GCC/ARM_CA9/port.c:271-293 | Restoring a freshly built frame enters the task function with its parameter in R0, nesting 0, a System-mode interrupts-enabled CPSR and the right Thumb bit, and the FPU flag says whether a zeroed register block is restored |
| StackFrame.RestoreSeesCoreFrame | Source/portable/GCC/ARM_CA9/port.c:553-571 | The restore order (flag, optional FPU block, nesting, R0-R12, R14, PC, CPSR) recovers exactly the core frame that lies above the flag and the block |
| StackFrame.ConfiguredFrameSize | Source/portable/GCC/ARM_CA9/port.c:330-346 | The configured build reserves 20 words per new task; FPU mode 2 reserves 85 |
| StackFrame.TaskUsesFpu | Source/portable/GCC/ARM_CA9/port.c:784-796 | Registering FPU use sets the task's FPU flag and leaves the other globals alone |
| StackFrame.TaskUsesFpuKeepsFlagOnlyFrame | Source/portable/GCC/ARM_CA9/port.c:330-337 | The FPU mode is a build-time choice: after a task registers FPU use, a mode-1 frame built for a new task is unchanged, still has a zero FPU flag, and the registered flag stays set |
| Critical.ClearMask | Source/portable/GCC/ARM_CA9/port.c:169-176 | Unmasking writes 0xFF to PMR, leaves CPU IRQs enabled and touches nothing else |
| Critical.SetInterruptMask | Source/portable/GCC/ARM_CA9/port.c:810-834 | PMR ends at the API threshold with CPU IRQs enabled; the result is pdTRUE exactly when PMR already held the threshold, else pdFALSE |
| Critical.ClearInterruptMask | Source/portable/GCC/ARM_CA9/port.c:801-807 | pdFALSE unmasks every priority; any other value changes nothing |
| Critical.SetThenClearRestoresMask | Source/portable/GCC/ARM_CA9/port.c:801-834 | Masking and then clearing with the returned value restores PMR exactly when it was the threshold or 0xFF before, and leaves CPU IRQs enabled |
| Critical.EnterCritical | Source/portable/GCC/ARM_CA9/port.c:717-736 | Entering leaves PMR at the threshold and adds one to the nesting count; it asserts (line 734) exactly on the 0 to 1 step taken inside an interrupt |
| Critical.ExitCritical | Source/portable/GCC/ARM_CA9/port.c:739-756 | With count 0 nothing changes; otherwise the count drops by one, and the mask is cleared exactly on the 1 to 0 step |
| Critical.EnterManyFromTaskLevel | Source/portable/GCC/ARM_CA9/port.c:717-736 | From task level with count 0, n entries never assert, bring the count to n and keep PMR at the threshold |
| Critical.ExitManyBelowCount | Source/portable/GCC/ARM_CA9/port.c:739-756 | Fewer exits than the current count only count down; the hardware is untouched |
| Critical.ExitManyToZero | Source/portable/GCC/ARM_CA9/port.c:741-754 | Exiting exactly count times brings the count to 0 and unmasks every priority |
| Critical.BalancedCriticalSections | Source/portable/GCC/ARM_CA9/port.c:717-756 | n entries followed by n exits from task level end with the original globals and PMR 0xFF, and PMR is the threshold at every point in between |
| Critical.StartupNestingKeepsMask | Source/portable/GCC/ARM_CA9/port.c:231-247 | From the start-up globals (nesting 9999, no interrupt nesting, no pending yield, no FPU context), fewer than 9999 exits leave the hardware untouched and only count down. The 9999th exit unmasks every priority and leaves the other globals as initialised |
| Tick.TickMasked | Source/portable/GCC/ARM_CA9/port.c:766-770 | The kernel's tick increment runs with PMR at the threshold and CPU IRQs enabled, and the globals are unchanged |
| Tick.TickHandler | Source/portable/GCC/ARM_CA9/port.c:759-781 | After a tick PMR is 0xFF whatever it was. A yield is pending exactly when it was before or the increment asked for one. The nesting counts and FPU flag are untouched |
| Tick.TicksAccumulateYield | Source/portable/GCC/ARM_CA9/port.c:773-776 | Over any run of ticks a pending yield is never cleared. It is pending at the end exactly when it was at the start or some tick asked for one |
| Scheduler.ShiftToBit0 | Source/portable/GCC/ARM_CA9/port.c:428-432 | The probe loop ends at an odd value no larger than the read-back; it is only defined for a non-zero read-back |
| Scheduler.ProbeFindsImplementedBits | Source/portable/GCC/ARM_CA9/port.c:417-432 | On a GIC implementing k priority bits, writing 0xFF and shifting the read-back down yields 2^k - 1 |
| Scheduler.StartScheduler | Source/portable/GCC/ARM_CA9/port.c:415-498 | A zero read-back hangs the probe. Otherwise the start asserts at line 444 exactly when the probed value is not the lowest priority. It then asserts at 466 exactly in User mode, and returns 0 untouched exactly when the binary point is too large. In every other case it disables CPU IRQs and arms the tick. The priority byte is restored only once the probe assertion passed |
| Scheduler.StartMatchesImplementedBits | Source/portable/GCC/ARM_CA9/port.c:434-444 | On a GIC with k implemented bits the probe assertion fails exactly when the lowest priority constant is not 2^k - 1 |
| Scheduler.ValidateInterruptPriority | Source/portable/GCC/ARM_CA9/port.c:839-868 | The validation passes exactly when the running priority is at or above the threshold and the binary point is at most the maximum; it otherwise fails at line 855 or 867, whichever check fails first |
| Scheduler.StartedSchedulerPassesValidation | Source/portable/GCC/ARM_CA9/port.c:489-498 | Once the scheduler has started, an ISR whose running priority is at or above the threshold passes the run-time validation |
| Heap.AlignUp | Source/portable/MemMang/heap_simple.c:17-19 | The intended rounding: the least multiple of 4 at or above the request |
| Heap.AlignAsWritten | Source/portable/MemMang/heap_simple.c:17-19 | The rounding as written: multiples of 4 are kept and other requests round up as intended, unless the 32-bit addition wraps, in which case they round to 0 |
| Heap.MallocAsWritten | Source/portable/MemMang/heap_simple.c:12-28 | As written, the allocator keeps the offset aligned and inside the buffer. A failure changes nothing, and a success returns the old offset |
| Heap.Malloc | Source/portable/MemMang/heap_simple.c:12-28 | A request succeeds exactly when its rounded size fits in what is left. The block then starts at the old offset, which advances by the rounded size, and the block holds the request inside the buffer. A failure changes nothing. The invariant is kept and the offset never moves back |
| Heap.Free | Source/portable/MemMang/heap_simple.c:30-34 | Freeing changes nothing |
| Heap.InitialiseBlocks | Source/portable/MemMang/heap_simple.c:36-39 | A reset satisfies the invariant and makes the whole heap free again |
| Heap.FreeHeapSize | Source/portable/MemMang/heap_simple.c:41-44 | For a valid heap, the free size plus the offset is the total heap size |
| Heap.MinimumEverFreeHeapSize | Source/portable/MemMang/heap_simple.c:46-49 | The minimum-ever free size is the current free size |
| Heap.AsWrittenAgreesWithoutWrap | Source/portable/MemMang/heap_simple.c:17-25 | When offset plus rounded request stays below 2^32, the code as written behaves exactly like the intended allocator |
| Heap.ZeroRequestSucceeds | Source/portable/MemMang/heap_simple.c:17-25 | A zero-byte request always yields a block and changes nothing, even on a full heap |
| Heap.AsWrittenHugeRequestRewinds | Source/portable/MemMang/heap_simple.c:22-25 | As written, a 0xFFFFFFF0-byte request at offset 16 is granted and moves the offset back to 0, so the next block overlaps the first; the intended allocator refuses it |
| Heap.AsWrittenRoundingWraps | Source/portable/MemMang/heap_simple.c:17-19 | As written, 0xFFFFFFFD rounds to 0, so a near-4 GiB request succeeds on a full heap; the intended allocator refuses it |
| Heap.RunGrantsDisjointBlocks | Source/portable/MemMang/heap_simple.c:12-28 | Between resets, each granted block answers its own request, in the order the requests were made, and reserves that request rounded up to a multiple of 4, so at least the bytes asked for. The blocks lie inside the buffer, in increasing order and pairwise disjoint. The invariant holds, and the free and minimum-ever sizes never grow |
| Uart.HexDigit | Source/main.c:44-45 | Each nibble becomes an upper-case hex digit that reads back as that nibble |
| Uart.HexWord | Source/main.c:41-47 | uart_hex sends exactly 8 hex digits, with no prefix |
| Uart.HexLoop | Source/portable/GCC/ARM_CA9/port.c:52-58 | The shift-by-4 loop from bit 28 down sends exactly the 8-digit text of the value |
| Uart.HexPrefixValue | Source/main.c:43-46 | The first k digits sent spell the value shifted right by 32 - 4k: most significant nibble first, leading zeros kept |
| Uart.HexRoundTrip | Source/main.c:41-47 | The 8 digits read back as the value |
| Uart.HexWordInjective | Source/main.c:41-47 | Different values print differently |
| Uart.Digits | Source/main.c:30-33 | The digits of a number are decimal and have no leading zero; a number has none exactly when it is 0 |
| Uart.Decimal | Source/main.c:22-39 | uart_decimal sends 1 to 10 decimal digits; it sends exactly "0" for 0 and starts with '0' only then |
| Uart.DigitsFit | Source/main.c:28 | A 32-bit value has at most 10 digits, so the digit buffer is never overrun |
| Uart.DigitsRoundTrip | Source/main.c:30-33 | The digits read back as the number |
| Uart.DecimalRoundTrip | Source/main.c:22-39 | The decimal text reads back as the value |
| Uart.DecimalThroughBuffer | Source/portable/GCC/ARM_CA9/port.c:60-74 | Filling a buffer of at least 10 chars least-significant digit first and sending it backwards produces exactly the decimal text |
| Uart.CString | Source/main.c:15-20 | The string sent is the bytes before the first NUL: NUL-free and followed by a NUL |
| Uart.Puts | Source/portable/GCC/ARM_CA9/port.c:46-50 | The string loop sends the bytes up to the NUL, untranslated |
| Uart.CStringIsNulPrefix | Source/main.c:15-20 | Any NUL-free prefix followed by a NUL is the string uart_puts sends |
| Uart.Crlf | Source/main_memory_debug.c:42-50 | The translated text is never shorter than the input |
| Uart.CrlfPrecedesLineFeeds | Source/main_memory_debug.c:44-46 | Every line feed that goes out has a carriage return just before it |
| Uart.CrlfRoundTrip | Source/main_memory_debug.c:42-50 | Folding each CR LF pair back into LF recovers the input exactly |
| Uart.CrlfWithoutLineFeeds | Source/minimal_memory_debug.c:34-40 | A string without line feeds goes out unchanged |
| Uart.PutsCrlf | Source/minimal_memory_debug.c:34-40 | The translating string loop sends the C string with a CR inserted before each LF |
| Uart.PrefixedHex | Source/main_memory_debug.c:63-69 | The debug uart_hex sends "0x" followed by the 8 digits, 10 characters in all |
| Uart.PrefixedHexRoundTrip | Source/minimal_memory_debug.c:42-48 | The debug hex output is well formed and reads back as the value |
| Uart.DebugDecimalAsWritten | Source/main_memory_debug.c:52-61 | As written, 0 prints "0" and any other value prints "0x0x" followed by its 8 hex digits |
| Uart.DebugDecimalAsWrittenDoublesPrefix | Source/main_memory_debug.c:58-60 | As written, no non-zero value comes out as a decimal number or as a well-formed "0x" number |
| Uart.DebugNumber | Source/main_memory_debug.c:52-61 | The intended printer prints "0" for 0 and otherwise a well-formed "0x" number that reads back as the value |
| Libc.Memcpy | Source/main.c:82-89 | memcpy returns dest and changes no byte outside the destination. Unless the destination starts inside the source, every destination byte holds the corresponding source byte |
| Libc.MemcpyIsSplice | Source/main_memory_debug.c:307-314 | In that case the result is exactly the source block spliced over the destination |
| Libc.ByteOf | Source/main.c:94 | Storing an int into a char keeps it modulo 256 |
| Libc.Memset | Source/main.c:91-97 | memset returns s, sets the first n bytes to (char)c and changes no other byte |
| Paint.PaintRegion | Source/main_memory_debug.c:84-95 | Every word below the count holds the pattern and the rest are untouched. A progress line is sent at each non-zero multiple of 16384 below the count, carrying the chunk numbers 1, 2, ... |
| Paint.Mismatches | Source/main_memory_debug.c:100-115 | The mismatch count is at most the word count and is 0 exactly when every word matches |
| Paint.MismatchesGrow | Source/minimal_memory_debug.c:76-91 | Checking a longer prefix never finds fewer mismatches |
| Paint.VerifyRegion | Source/minimal_memory_debug.c:76-101 | The verify loop returns the number of mismatching words capped at 10, and 0 exactly when every word read back equals the pattern |
| Diagnostics.DecodeMode | Source/main_memory_debug.c:194-209 | An unrecognised mode carries the CPSR's mode field |
| Diagnostics.DecodeModeRoundTrip | Source/main_memory_debug.c:194-209 | The decoded mode always stands for the CPSR's mode field, and each named mode decodes back from its own encoding |
| Diagnostics.DecodeIgnoresUpperBits | Source/main_memory_debug.c:194 | Bits above the 5-bit mode field do not change the decoded mode |
| Diagnostics.ModeText | Source/main_memory_debug.c:195-209 | An unknown mode is printed as "Unknown (" with its mode field in prefixed hex |
| Diagnostics.DecodeModeMinimal | Source/minimal_memory_debug.c:122-129 | The minimal decode says Other exactly when the mode field is none of 0x10, 0x13, 0x1F |
| Diagnostics.MinimalDecodeCollapsesFull | Source/minimal_memory_debug.c:122-129 | The minimal decode is the full decode with Abort, Undefined, IRQ, FIQ and unknown modes folded into Other |
| Diagnostics.RegionWords | Source/minimal_memory_debug.c:156 | The pattern region holds 4 MiB of words and the other three hold 1 MiB each |
| Diagnostics.RegionPatternEncodesCycle | Source/minimal_memory_debug.c:155-161 | The cycle number shows in the top byte of a region's pattern and nowhere else, and regions get distinct patterns in the same cycle |
| Diagnostics.DynamicPatternEncodesCycle | Source/main_memory_debug.c:258 | The dynamic pattern's low half is always 0xAAAA and its high half carries the cycle counter's low 16 bits |
| Diagnostics.StampPatternArea | Source/main_memory_debug.c:266-268 | Word i*1024 receives pattern + i, wrapping in 32 bits, for i below 1024; every other word is untouched |
| Diagnostics.StampRecoversSlot | Source/main_memory_debug.c:267 | Subtracting the pattern from a stamp in 32 bits gives back the slot number |
| Diagnostics.ClassifyAssert | Source/main.c:120-135 | The note depends only on the line and the port-file flag. There is no note outside port files, and each named note is given exactly on its line range |
| Diagnostics.ClassifyAssertDebug | Source/main_memory_debug.c:348-360 | The debug program never gives the interrupt-nesting note |
| Diagnostics.ClassificationsDifferOnlyOnInterruptNesting | Source/main_memory_debug.c:348-360 | The two programs classify alike except on port.c lines 490-500, which the debug program reports as other lines |
| Diagnostics.AssertTableMissesPortLines | Source/main.c:122-129 | Of port.c's eight assertion lines only 444 gets a named note (wrongly "binary point"); 393, 466, 713, 734, 855, 867 and 876 come out unnamed |
| Diagnostics.MatchPortDot | Source/main.c:113 | The short-circuit comparison matches exactly when "port." starts at that position, and it reads no byte beyond the terminating NUL |
| Diagnostics.ScanForPortFile | Source/main.c:110-118 | The flag is set exactly when the file name contains "port.", and no byte past the NUL is read |

## Left out

- The context save/restore and IRQ entry/exit assembly (`portASM.S`, `vPortRestoreTaskContext`) is not part of this model. `interruptNesting` and `yieldRequired` are plain state, and a successful start ends at `FirstTaskStarted`.
- The debug instrumentation in `xPortStartScheduler` and the memory scan after frame building are UART dumps. They also write into and jump to hard-coded addresses, and state nothing the port promises.
- The User-mode branch of `xPortStartScheduler` cannot be reached: `configASSERT` at line 466 halts first, because `vAssertCalled` never returns.
- `prvTaskExitError`, `vPortEndScheduler` and `vApplicationFPUSafeIRQHandler` are left out. They only trigger an assertion and are not part of the modelled core.
- The kernel collaborators `xTaskIncrementTick`, `pxCurrentTCB` and task creation are outside the port; the tick verdict is an input.
- `vSetupTickInterrupt` is recorded only as the `tickArmed` flag, and `configCLEAR_TICK_INTERRUPT` expands to nothing.
- DSB/ISB barriers, the FPSCR write and the MRS read are left out. Only the CPU IRQ flag and the status register value are kept.
- UART register access, FIFO polling, busy-wait delays, the `printf` stub, task bodies and `main` functions are I/O and application glue. The UART is modelled as the text it receives.
- The address and label lines that the paint and verify routines print around their loops are left out. The model covers the words written, the progress chunks and the error count.
- `analyze_critical_addresses` and the other raw memory probes are left out. Verification is modelled over an arbitrary read-back sequence, since memory that keeps what was written would make the check trivially zero.
- The `vAssertCalled` text output is left out. The model covers the port-file scan and the classification, not the banner lines.
- Libc.Memcpy: when the destination starts inside the source (`src < dest < src + n`), the byte-by-byte copy propagates bytes it has already written; C leaves that overlap undefined, so the contract says only that bytes outside the destination are untouched.
- Uart.Crlf: its own contract is only a length bound; what it sends is stated by `Uart.CrlfPrecedesLineFeeds`, `Uart.CrlfRoundTrip` and `Uart.CrlfWithoutLineFeeds`.
- Diagnostics.DecodeMode: its own contract covers only unknown modes; the mapping is stated by `Diagnostics.DecodeModeRoundTrip`.
- Scheduler.StartScheduler: portmacro.h is not part of this model, so `portLOWEST_INTERRUPT_PRIORITY` and the other constants are parameters rather than values.

## Findings

| source | as written | input that shows it | evidently intended | confidence | as-written member | corrected member |
|---|---|---|---|---|---|---|
| Source/portable/MemMang/heap_simple.c:17-25 | Rounding `(xWantedSize + 4) & ~3` and the test `xNextFreeByte + xWantedSize <= configTOTAL_HEAP_SIZE` are computed in 32-bit `size_t` and can wrap | `pvPortMalloc(0xFFFFFFFD)` rounds to 0 and succeeds on a full heap. `pvPortMalloc(0xFFFFFFF0)` at offset 16 succeeds and moves the offset back to 0, so the next 16-byte block overlaps the first | A request succeeds only if its rounded size really fits in what is left, and blocks never overlap | medium, not executed | Heap.MallocAsWritten, Heap.AsWrittenHugeRequestRewinds, Heap.AsWrittenRoundingWraps | Heap.Malloc, Heap.RunGrantsDisjointBlocks |
| Source/main_memory_debug.c:52-61 | `uart_decimal` prints "0x" and then calls `uart_hex`, which prints "0x" again | `uart_decimal(5)` sends "0x0x00000005" | A single "0x" prefix before the 8 hex digits, as every other number in that log has | high, not executed | Uart.DebugDecimalAsWritten, Uart.DebugDecimalAsWrittenDoublesPrefix | Uart.DebugNumber |
