# Proteus fiber bridge and NewtonOS globals — a Dafny model

This project models the part of the Einstein Newton emulator ("Proteus") that
lets the JIT interpreter of emulated ARM code hand selected subroutines to
native code and take them back. It also models the typed accessors for the
NewtonOS scheduler globals.

- `basics.dfy` (module `Basics`): 32-bit words, `Option`, and the
  two's-complement reading of a word as a `KSInt32`.
- `fibers.dfy` (module `Fibers`): the resume reasons `kFiberAbort` …
  `kFiberUnknown` and the trampoline `TProteusFiber::SwitchToJIT`. A
  Suspend/Resume exchange is a sequence of `(reason, user data)` messages.
  The module is generic in how native functions are named, and a called
  function returns to the loop before the next resume. The
  loop's output is a trace of suspensions, native calls and "unexpected
  Resume" log lines. `SwitchToJIT` is a `while` loop proved against the
  specification function `Loop`. The lemmas about `Loop` state ordering,
  exactly-once calls, logging and where the loop stops.
- `proteus.dfy` (module `Proteus`): class `Machine` holds what the injections
  touch. That is the CPU mode, R0, R4, SP, LR, PC, a word-addressed memory, the
  `CPU` and `svcFiber` globals, and the log. The class has the four ROM
  injections, `findCurrentFiber`, `PUSH`/`POP` and the two native bodies. The
  SVC fiber is `SuspendedIn(depth)`: it is suspended in `depth` nested
  `SwitchToJIT` loops, because `swi_native_test` enters a second loop while
  the JIT runs `VEC_StartScheduler`. Three client methods run whole scenarios
  from power-on: the call/return round trip, two nested calls, and fallback
  outside supervisor mode. A fourth client runs "SWI Test 2".
- `globals.dfy` (module `NewtGlobals`): the nine `GLOBAL_GETSET_W/P` bindings,
  their addresses and types, and class `GlobalMemory` with `Get`/`Set`
  methods over a `map<Word, Word>`.

In three places the code behaves differently from what a general fiber
protocol would suggest. The model follows the code:

- `kFiberAbort` reaching `SwitchToJIT` is logged as unexpected and the loop
  keeps waiting (`Fibers.AbortIsLoggedNotHonoured`). The fiber does not
  terminate.
- The fiber is started (`Run`) as soon as "Initialize Proteus" creates it. It
  is never observable in a separate "Created" state.
- "ReturnToFiber" does not check `findCurrentFiber()` for nullptr. Outside
  supervisor mode, or with no fiber, that handler is a crash (`Fatal`), not a
  fallback.

Crashes of the emulator are modelled as results, not as preconditions:
`Outcome.Fatal` for handlers and `Exit.Faulted` for the loop. They cover
dereferencing a null `CPU` or fiber, resuming a fiber whose `Task` has
returned, and calling through nullptr user data.

## Model

| member | source | states |
|---|---|---|
| `Fibers.Code` | Proteus/Test.cpp:136-143 | the six reasons have the codes 1..6, and `ReasonOf` maps each code back to its reason, so the codes are distinct |
| `Fibers.ReasonOf` | Proteus/Test.cpp:136-143 | a code names a reason exactly when it lies in 1..6 |
| `Fibers.Dispatch` | Proteus/Test.cpp:158-167 | the switch: `kFiberReturn` leaves the loop, `kFiberCallNative` calls the user data (or faults on nullptr), and every other code is complained about with that code |
| `Fibers.Loop` | Proteus/Test.cpp:154-169 | the specification of the trampoline: it consumes no more resumes than it is given, waits only once all of them are consumed, stops only on a resume that ends the loop, and always begins by suspending with `kFiberCallJIT` |
| `Fibers.SwitchToJIT` | Proteus/Test.cpp:154-169 | the loop's trace, how it exits and how many resumes it consumed equal the specification `Loop` |
| `Fibers.LoopAdvances` | Proteus/Test.cpp:155-167 | one turn of the loop: suspend with `kFiberCallJIT`, then stop, call or log according to the reason received |
| `Fibers.FirstStop` | Proteus/Test.cpp:159-163 | the index of the first resume that ends the loop: no resume before it does, and the one at it does |
| `Fibers.LoopStopsAtFirstStop` | Proteus/Test.cpp:155-164 | the loop consumes resumes through the first `kFiberReturn` or null call and no further; it returns exactly on a `kFiberReturn` and waits when none comes |
| `Fibers.LoopCallsRequested` | Proteus/Test.cpp:161-164 | the native functions run are exactly those requested before the first `kFiberReturn`, each once, in delivery order |
| `Fibers.LoopLogsStrays` | Proteus/Test.cpp:165-166 | every unrecognised reason before the first `kFiberReturn` is logged once, in order (by `LoopCallsRequested` it calls nothing) |
| `Fibers.AlwaysSuspendsWithCallJIT` | Proteus/Test.cpp:157 | every suspension carries `kFiberCallJIT`: one before each resume consumed, plus one while waiting |
| `Fibers.LoopIgnoresRestAfterStop` | Proteus/Test.cpp:159-160 | resumes after the loop has returned have no effect on it |
| `Fibers.AbortIsLoggedNotHonoured` | Proteus/Test.cpp:165-166 | a `kFiberAbort` is logged as unexpected and the fiber suspends again |
| `Fibers.TwoCallsThenReturn` | Proteus/Test.cpp:155-164 | calls of f1 and f2, a return, then f3: f1 and f2 run in order and f3 never runs |
| `Fibers.CallsAppend` | Proteus/Test.cpp:161-164 | the native calls of two consecutive trace segments are those of the first followed by those of the second |
| `Proteus.InjectionAddress` | Proteus/Test.cpp:178-241 | the four injection addresses 0x00000000, 0x007FFFF0, 0x003AD80C and 0x000E589C are pairwise distinct (`InjectionAt` inverts the mapping) |
| `Proteus.Below` | Proteus/Test.cpp:205 | PUSH's stack-pointer decrement: four below SP, modulo 2^32 |
| `Proteus.Above` | Proteus/Test.cpp:213 | POP's stack-pointer increment undoes PUSH's decrement, with 32-bit wrap-around |
| `Proteus.Machine.constructor` | Proteus/Test.cpp:130-172 | at power-on `CPU` and `svcFiber` are nullptr and nothing is logged |
| `Proteus.Machine.FindCurrentFiber` | Proteus/Test.cpp:189-194 | reads state only; returns the SVC fiber exactly when the mode is supervisor and the fiber exists, and nullptr otherwise |
| `Proteus.Machine.Push` | Proteus/Test.cpp:205 | SP moves down one word, the value is stored there, and no other register changes |
| `Proteus.Machine.Pop` | Proteus/Test.cpp:213 | the word at SP is read and SP moves up one word; memory and other registers are unchanged |
| `Proteus.Machine.SwiNativeTestCall` | Proteus/Test.cpp:203-211 | R0 is pushed, LR becomes 0x007FFFF0 and PC becomes 0x001CC4A8+4; R0 and R4 are kept |
| `Proteus.Machine.SwiNativeTestReturn` | Proteus/Test.cpp:213-214 | R0 is popped from the stack and PC becomes 0x003AD818+4 |
| `Proteus.Machine.SwiNativeTest2` | Proteus/Test.cpp:235-239 | R4 := R0 and PC := 0x000E58A0+4; R0, SP, LR and memory are unchanged |
| `Proteus.Machine.Resume` | Proteus/Test.cpp:149-169 | the resume is handled by the innermost loop. A return closes a nested loop and finishes `swi_native_test`, or at depth 1 finishes the fiber. A native call runs its body and the fiber suspends again, one level deeper for `swi_native_test`. Other reasons are logged. A null call or a finished fiber is fatal |
| `Proteus.Machine.ResumeEach` | Proteus/Test.cpp:154-169 | resumes that neither stop the loop nor call `swi_native_test`, sent one by one through `Resume`, keep the fiber at its depth. The machine's log gets exactly the lines `Fibers.Loop` logs, and R4 and PC show that `swi_native_test_2` ran exactly when `Loop` calls a function |
| `Proteus.Machine.InitializeProteusHandler` | Proteus/Test.cpp:178-187 | binds `CPU`, creates and starts the SVC fiber only if it does not exist, leaves registers and memory alone, and always returns `ioUnit` |
| `Proteus.Machine.ReturnToFiberHandler` | Proteus/Test.cpp:217-220 | resumes the current fiber with `kFiberReturn` and returns nullptr. At depth > 1 this restores R0 and SP+4 and sets PC past the SWI fragment. At depth 1 the fiber finishes. With no current fiber it is fatal |
| `Proteus.Machine.SwiTestHandler` | Proteus/Test.cpp:222-230 | with no current fiber it returns `ioUnit` and changes nothing. Otherwise it runs `swi_native_test` under the fiber, nests one level deeper and returns nullptr |
| `Proteus.Machine.SwiTest2Handler` | Proteus/Test.cpp:241-249 | with no current fiber it returns `ioUnit` and changes nothing. Otherwise R4 := R0, PC := 0x000E58A0+4, the fiber depth is unchanged and it returns nullptr |
| `Proteus.Machine.AtAddress` | Proteus/Test.cpp:178-249 | an address without an injection interprets the unit and changes nothing |
| `Proteus.SwiCallReturnRoundTrip` | Proteus/Test.cpp:196-229 | after Initialize, SWI Test, stack-balanced JIT code (which may change R0, R4 and any other memory) and ReturnToFiber, R0 and SP equal their entry values, PC = 0x003AD818+4, and the fiber is back at depth 1 |
| `Proteus.NestedSwiCalls` | Proteus/Test.cpp:203-219 | two nested SWI Test calls are undone innermost first, each restoring its own R0, and SP and the fiber depth return to their start |
| `Proteus.FallbackOutsideSupervisor` | Proteus/Test.cpp:222-249 | outside supervisor mode both SWI handlers return their `ioUnit` and leave R0, R4, SP and PC unchanged, even after the fiber exists |
| `Proteus.SwiTest2Native` | Proteus/Test.cpp:232-249 | in supervisor mode "SWI Test 2" redirects, R4 = R0, PC = 0x000E58A0+4, R0 and SP are kept, and the fiber stays at depth 1 |
| `Basics.FromInt32` | Proteus/OS/Globals.cpp:20-32 | a KSInt32 is stored as the word congruent to it modulo 2^32 (two's complement), whose top bit is set exactly for negative values |
| `Basics.ToInt32` | Proteus/OS/Globals.cpp:20-32 | every stored word reads back as the KSInt32 congruent to it modulo 2^32, whose stored form is that word |
| `Basics.Int32RoundTrip` | Proteus/OS/Globals.cpp:20-32 | a KSInt32 value, negative ones included, survives being stored and read back |
| `NewtGlobals.Address` | Proteus/OS/Globals.cpp:14-48 | every binding is 4-aligned, lies after `gParamBlockFromImage` (the start of the global range) and ends inside the range, and `GlobalAt` maps it back to its binding, so the addresses are distinct |
| `NewtGlobals.TypeOf` | Proteus/OS/Globals.cpp:20-48 | the declared type of each binding; `CurrentTask` is the only pointer (`GLOBAL_GETSET_P`) |
| `NewtGlobals.NoOverlap` | Proteus/OS/Globals.cpp:20-48 | the 32-bit words of two different bindings do not overlap |
| `NewtGlobals.TaskToken` | Proteus/OS/Globals.cpp:36 | a `TTask*` is stored as a 32-bit token that is 0 exactly for nullptr |
| `NewtGlobals.TaskOfToken` | Proteus/OS/Globals.cpp:36 | every stored token reads back as a task pointer whose token is that word |
| `NewtGlobals.TaskTokenRoundTrip` | Proteus/OS/Globals.cpp:36 | `CurrentTask` round-trips a task pointer through its token unchanged |
| `NewtGlobals.GlobalMemory.constructor` | Proteus/OS/Globals.cpp:14-16 | the globals are backed by a memory that holds a word at every bound address |
| `NewtGlobals.GlobalMemory.GetWord` | Proteus/Test.cpp:113-119 | a getter reads the bound word live and changes nothing, so two reads with no set between them agree |
| `NewtGlobals.GlobalMemory.SetWord` | Proteus/OS/Globals.cpp:20-48 | a setter writes only its own word. Its getter then returns the value, and every other binding and memory word is unchanged |
| `NewtGlobals.GlobalMemory.GetInt32` | Proteus/OS/Globals.cpp:20-32 | the `KSInt32` getter returns the number whose two's-complement form is the stored word |
| `NewtGlobals.GlobalMemory.SetInt32` | Proteus/OS/Globals.cpp:20-32 | the `KSInt32` setter stores the two's-complement word; reading it back gives the number, and other bindings are unchanged |
| `NewtGlobals.GlobalMemory.GetUInt32` | Proteus/OS/Globals.cpp:26-48 | the `KUInt32` getter returns the stored word |
| `NewtGlobals.GlobalMemory.SetUInt32` | Proteus/OS/Globals.cpp:26-48 | the `KUInt32` setter stores the word and leaves every other binding unchanged |
| `NewtGlobals.GlobalMemory.GetCurrentTask` | Proteus/OS/Globals.cpp:36 | `GetCurrentTask` returns the task pointer whose token is stored |
| `NewtGlobals.GlobalMemory.SetCurrentTask` | Proteus/OS/Globals.cpp:36 | `SetCurrentTask` stores the pointer's token; reading it back gives the same pointer, and other bindings are unchanged |

## Left out

- Real fiber context switching (`TFiber` stack swapping) is not part of this
  model. In `Fibers`, Suspend/Resume is an input sequence. In `Proteus`, a
  `Resume` runs the fiber synchronously until its next `Suspend`.
- `Fibers.Loop` treats each native function as a call that returns before the
  next resume. A native function that enters `SwitchToJIT` again, as
  `swi_native_test` does, starts a loop of its own. That nesting is modelled
  by the fiber depth in `Proteus.Machine`. `Machine.ResumeEach` connects the
  two models only for runs that stay at one depth.
- The `T_ROM_INJECTION`, `GLOBAL_GETSET_W` and `GLOBAL_GETSET_P` macros and
  the registration table they build are in headers that are not part of this
  model. Only their observable contract is modelled: `AtAddress`, and one
  getter/setter per binding, parameterised by the binding.
- The standalone backend of the accessors (a plain field instead of emulated
  memory) lives in the same headers and is not modelled.
- The JIT interpreter loop, the rest of `TARMProcessor`, `TMemory`'s storage
  and timing, and `TInterruptManager` are not modelled. The `MEM` and `INT`
  globals are not modelled separately. The model keeps only the mode, five
  registers and a word map.
- A memory word that was never written reads as 0 (`Basics.Load`). The real
  memory backend's behaviour for such words is not modelled.
- What the JIT code between `swi_native_test` and "ReturnToFiber" does is not
  modelled. The client methods assume it is stack-balanced, and they let it
  change R0, R4 and memory other than the pushed word.
- Proteus.Machine.AtAddress: the contract covers only addresses without an
  injection. At the four injection addresses it runs the handler, whose own
  contract says what happens; it does not repeat those contracts.
- The mode never changes in this model: none of these handlers changes it.
- `Proteus.Machine.Resume` does not re-evaluate the `findCurrentFiber()` call
  inside `swi_native_test`. Its precondition says the resumed fiber is the
  current one, and nothing between the two calls changes the mode.
- `fprintf` logging is modelled only as a `Logged` event or a `log` entry.
- Function-pointer user data is modelled as the `Proteus.NativeFn`
  identifiers of the two native bodies, with `None` for nullptr.
- Fibers for IRQ, FIQ and tasks are not created by this code, so they are not
  modelled. Exclusivity of strands holds by construction, because the model
  is sequential.
