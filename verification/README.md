# jvmti-compile-events-agent, modelled in Dafny

The agent is a JVMTI agent. It writes one line to an *events file* for each
of these:

- every piece of JIT-compiled code (`method_load`);
- every unloaded method (`method_unload`);
- every generated stub;
- every thread (`thread`).

Tools use that file to put names on addresses.

This project models the two source files that hold its logic:

- **src/agent.cpp**:
  - the compiled-code decoder, which cuts a compiled unit into address ranges at its inline breakpoints and labels each range with a symbol or an `outer->...->inner` chain;
  - the record writers;
  - the naming rule for thread snapshots;
  - the option tokens;
  - the JVMTI calls that switch event notifications on and off (fail-fast) or replay earlier events;
  - the attach/shutdown singleton over `_vm`, `_jvmti`, `attach_count` and the events file.
- **src/utils.cpp**: `starts_with`, `class_name_from_sig`, `split_string` and `sig_string`.

The runtime is represented by values the model is given:

- **JVMTI lookups:** an `Env` of three maps. A missing key is a lookup that fails, e.g. because the environment is being disposed.
- **Other JVMTI calls:** a `Jvmti` object. It records the calls made on it, and its `answer` function fixes what the runtime returns to the call at each position.
- **The host:** a `Host` value holding JNI availability, which paths can be opened, the pid, the phase, the thread map and enumeration, and the clock.
- **The events file:** an `EventLog` object whose `records` each writer extends by one record. Each locked block of the source is one step.

Modules:

| file | module | models |
|---|---|---|
| wrappers.dfy | `Wrappers` | `Option` |
| utils.dfy | `Utils` | src/utils.cpp |
| events.dfy | `Events` | record writers and line rendering |
| decoder.dfy | `Decoder` | `generate_unfolded_entries` and the code callbacks |
| decoder_lemmas.dfy | `DecoderLemmas` | what the decoder's cut guarantees |
| threads.dfy | `Threads` | thread naming and snapshots |
| agent.dfy | `Agent` | options, notifications, lifecycle |

The decoder has two definitions:

- **The reference:** `Decoder.Ranges` says which ranges a unit is cut into and how each is labelled. It is the loop's state machine (breakpoint index, tracked method, pending start) written as recursion. `Decoder.Emit` says which records those ranges become.
- **The loop:** `Decoder.GenerateUnfoldedEntries` updates `start_addr` and `cur_method` breakpoint by breakpoint. It is proved to append exactly `LoadRecords`.

The loop-independent account is given by the lemmas in `DecoderLemmas`, which characterise `Ranges` by properties that mention no loop state:

- contiguity and partition;
- the delay-by-one labelling rule, in both directions;
- the trailing-gap rule;
- silent dropping of unresolved ranges.

## Model

| member | source | states |
|---|---|---|
| Utils.StartsWith | src/utils.cpp:7-9 | true exactly when `prefix` is a prefix of `subject`: an empty prefix matches, and a prefix longer than the subject does not |
| Utils.IndexOf | src/utils.cpp:23 | `find(';')`: the first position of the character, with nothing before it that matches, or the length when it does not occur |
| Utils.ClassNameFromSig | src/utils.cpp:20-28 | the copy, strip, truncate and in-place rewrite loop computes `ClassName(sig)` |
| Utils.DottedPrefixByFind | src/utils.cpp:23-26 | the class name is the text before the first `;` (all of it when there is none) with every `/` turned into `.` |
| Utils.ClassNameShape | src/utils.cpp:21-26 | a class name holds no `/` and no `;`, and is never longer than the signature |
| Utils.ClassNameOfDescriptor | src/utils.cpp:20-28 | `L` + b + `;` gives b dotted, when b has no `;` |
| Utils.ClassNameOfPlainSignature | src/utils.cpp:21-26 | a signature without a leading `L` and without `;` is only dotted |
| Utils.ClassNameOfNestedPackage | src/utils.cpp:20-28 | `La/b/C;` gives `a.b.C` |
| Utils.ClassNameStripsOneL | src/utils.cpp:22 | at most one leading `L` is stripped: `LLFoo;` gives `LFoo` |
| Utils.ClassNameDropsTail | src/utils.cpp:23 | everything from the first `;` on is dropped: `LA;B` gives `A` |
| Utils.Split | src/utils.cpp:30-38 | the `getline` items are empty exactly when the subject is empty |
| Utils.NextDelimiter | src/utils.cpp:34 | one `getline` scan stops at the next delimiter or at the end, with no delimiter in between |
| Utils.SplitString | src/utils.cpp:30-38 | the push loop returns exactly the items of `Split` |
| Utils.SplitItemsExcludeDelimiter | src/utils.cpp:34-36 | no item contains the delimiter |
| Utils.JoinSplit | src/utils.cpp:34-36 | joining the items with the delimiter gives the subject back, except one trailing delimiter, which is lost |
| Utils.SplitJoin | src/utils.cpp:34-36 | splitting a join gives the parts back when no part holds the delimiter and the last part is not empty |
| Utils.SplitTrailingDelimiter | src/utils.cpp:34-36 | `"a,"` gives `["a"]` |
| Utils.SplitTwoTrailingDelimiters | src/utils.cpp:34-36 | `"a,,"` gives `["a", ""]` |
| Utils.SplitLeadingDelimiter | src/utils.cpp:34-36 | `",a"` gives `["", "a"]` |
| Utils.Resolve | src/utils.cpp:49-54 | the symbol is non-empty exactly when GetMethodName, GetMethodDeclaringClass and GetClassSignature all succeed |
| Utils.DeallocateAll | src/utils.cpp:55-59 | one Deallocate per non-null buffer, and no buffer twice |
| Utils.SigString | src/utils.cpp:40-62 | returns `Class.method` or `""` as `Resolve` says; on every path, frees exactly the buffers the runtime allocated, each once |
| Utils.DisposedResolvesNothing | src/utils.cpp:49-54 | once the environment is disposed, every symbol is `""` |
| Utils.ResolvedSymbolShape | src/utils.cpp:52 | a resolved symbol is class name + `.` + method name, and the class name holds no `/` or `;` |
| Events.Numeral | src/agent.cpp:67 | a numeral has at least one digit, and every character is a digit of its base |
| Events.NumeralRoundTrip | src/agent.cpp:62-87 | reading back a printed `%d`/`%llu`/`%llx`/`%x` numeral gives the number |
| Events.Signed | src/agent.cpp:66 | `%d` output starts with `-` exactly for negative values |
| Events.Unsigned64 | src/agent.cpp:67 | the `(unsigned long long)` cast lands in [0, 2^64) and keeps values already in range |
| Events.LineBreaksOnlyInPayload | src/agent.cpp:62-87 | a record's line contains a line break exactly when its symbol or thread name does |
| Events.EventLog.WriteMethodLoad | src/agent.cpp:62-69 | appends one `method_load` record |
| Events.EventLog.WriteMethodUnload | src/agent.cpp:71-78 | appends one `method_unload` record |
| Events.EventLog.WriteThread | src/agent.cpp:80-87 | appends one `thread` record |
| Decoder.ChainFromJoins | src/agent.cpp:107-113 | the chain of the outer frames is their names joined by `->`, outermost first, with no trailing separator; it exists exactly when every frame resolves |
| Decoder.ChainSymbolJoins | src/agent.cpp:107-113 | the whole chain is the frames' names joined by `->`, outermost first, when every frame resolves, and nothing otherwise |
| Decoder.ChainFailsFrom | src/agent.cpp:109-110 | a frame that does not resolve makes the whole chain fail |
| Decoder.GenerateSingleEntry | src/agent.cpp:89-97 | appends one record labelled with the method, or nothing when it does not resolve |
| Decoder.BuildChain | src/agent.cpp:106-113 | the loop from the outermost frame down builds exactly the chain `ChainSymbol` |
| Decoder.WriteUnfoldedEntry | src/agent.cpp:99-117 | appends one record of size end - start labelled with the chain, or nothing when a frame does not resolve |
| Decoder.WriteRange | src/agent.cpp:152-157 | a range closed at breakpoint i > 0 is written with the chain of breakpoint i - 1; at i = 0 it is written with the root alone |
| Decoder.VisitBreakpoint | src/agent.cpp:144-161 | one loop turn closes and writes the pending range, ending at the breakpoint's pc with `LabelAt` of it, exactly when the top frame differs from the tracked method; the tracked method becomes the top frame, and the pending start moves to the pc only when a range was closed |
| Decoder.WalkBreakpoints | src/agent.cpp:136-162 | after the loop, the ranges written, followed by the trailing rule applied to the final start, are the unit's `Ranges` |
| Decoder.GenerateUnfoldedEntries | src/agent.cpp:119-177 | appends exactly `LoadRecords`: nothing for an unresolvable root, one record without an inline record, and the records of `Ranges` otherwise |
| Decoder.CompiledMethodLoad | src/agent.cpp:205-221 | a load notification appends exactly `LoadRecords`, with or without compile info |
| Decoder.CompiledMethodUnload | src/agent.cpp:223-231 | one `method_unload` record for a resolvable method; nothing otherwise |
| Decoder.DynamicCodeGenerated | src/agent.cpp:233-239 | one `method_load` record with the stub's own name, unconditionally |
| DecoderLemmas.CutContiguous | src/agent.cpp:143-175 | from any breakpoint on, the ranges start at the pending start, each later one starts where the previous one ended, and the last ends at the unit's end |
| DecoderLemmas.RangesContiguous | src/agent.cpp:136-175 | the first range starts at `code_addr`, the ranges are gap-free, and the last ends at `code_addr + code_size`; no range at all only for an empty unit |
| DecoderLemmas.CutOrdered | src/agent.cpp:143-175 | when the breakpoint pcs ascend within the unit, no range is reversed |
| DecoderLemmas.RangesPartition | src/agent.cpp:119-177 | with ascending pcs, the ranges cover every address of the unit exactly once and in address order |
| DecoderLemmas.CutLabels | src/agent.cpp:145-175 | every range except a trailing one ends at the pc of a breakpoint whose top frame changed, labelled with the previous breakpoint's frames (the root for the first); the trailing one ends at the unit's end, labelled with the last breakpoint's frames (the root when there are none) |
| DecoderLemmas.CutClosesAtEveryChange | src/agent.cpp:145-160 | every breakpoint whose top frame differs from the tracked method ends a range |
| DecoderLemmas.SameTopClosesNothing | src/agent.cpp:145-148 | breakpoints that keep the tracked top method close nothing: only the trailing range remains |
| DecoderLemmas.ZeroLengthSingleEntry | src/agent.cpp:152-157 | a first breakpoint at `code_addr` with a new top frame gives a zero-length range and record labelled with the root |
| DecoderLemmas.EmitKeepsResolved | src/agent.cpp:107-115 | every range whose label resolves is written as its record, whatever happens to the other ranges |
| DecoderLemmas.EmitOnlyResolved | src/agent.cpp:107-115 | every record written comes from a range whose label resolves, so unresolved ranges are dropped silently |
| DecoderLemmas.SingleRecordWithoutInlineInfo | src/agent.cpp:130-133 | without an inline record, exactly one record covers [addr, addr + size), labelled with the root, or none when the root does not resolve |
| DecoderLemmas.UnresolvedRootWritesNothing | src/agent.cpp:127-128 | an unresolvable root writes nothing for the unit |
| DecoderLemmas.WorkedExample | src/agent.cpp:119-177 | root A, breakpoints (0, [A]) and (100, [B, A]), size 200 give [0,100) `A` and [100,200) `A->B` |
| Threads.DisplayNameLabel | src/agent.cpp:190-199 | a name is labelled `java: ` exactly when the thread is in the Java map or its native name starts with `Java: `, and `native: ` exactly otherwise |
| Threads.DisplayNameRecovers | src/agent.cpp:190-199 | the text after the label is the map name; or the native name without `Java: `; or the native name; or the pthread id as an unsigned 64-bit decimal |
| Threads.JavaMapTakesPrecedence | src/agent.cpp:190-192 | a thread in the Java map is named from the map alone |
| Threads.NativeTidOnlyWhenUnnamed | src/agent.cpp:197-198 | the pthread id changes the name exactly when the thread is unknown and has no native name |
| Threads.Snapshot | src/agent.cpp:185-202 | one record per enumerated thread |
| Threads.SnapshotRecords | src/agent.cpp:185-202 | every thread's record, carrying its display name, is in the snapshot, and every record in it is some thread's |
| Threads.PrintAllVmThreads | src/agent.cpp:180-203 | the loop appends the snapshot's records in enumeration order |
| Threads.JThreadRecordAgreesWithSnapshot | src/agent.cpp:241-246 | a thread start or end record names a known Java thread as a snapshot would |
| Threads.PrintJThread | src/agent.cpp:241-263 | thread start and end each append one `java: ` record for the thread |
| Agent.ParseOptions | src/agent.cpp:421-433 | the token loop computes `Parse` of the comma-separated tokens, with no tokens for a null option string |
| Agent.EventsFileIsLast | src/agent.cpp:423-424 | the last `events_file=` token names the events file, or `""` when there is none |
| Agent.LogFileIsLast | src/agent.cpp:425-426 | the last `log_file=` token names the log file, or `""` when there is none |
| Agent.ShutdownTokens | src/agent.cpp:427-432 | shutdown is requested exactly when `shutdown` or `forceshutdown` occurs; force is set exactly when `forceshutdown` occurs |
| Agent.UnknownTokenIgnored | src/agent.cpp:422-433 | removing an unrecognised token from anywhere in the list changes nothing |
| Agent.FailFastStops | src/agent.cpp:274-280 | the issued calls are a prefix; all but the last succeeded; the result is the last one's answer, and it is NONE exactly when every call was issued and succeeded |
| Agent.FailFastAppend | src/agent.cpp:461-471 | issuing two call lists fail-fast is issuing the first, then the second only when the first succeeded |
| Agent.EnableNotifications | src/agent.cpp:274-280 | the calls made and the result are the fail-fast outcome of switching the events on |
| Agent.DisableNotifications | src/agent.cpp:282-287 | all six events are switched off, whatever the runtime answers |
| Agent.LoadPreviousEvents | src/agent.cpp:343-347 | the replay asks for compiled methods, then for dynamic code unless that failed, and returns the first failure |
| Agent.EnableAndReplay | src/agent.cpp:376-383 | the replay thread is requested only after every notification was switched on, and the first failure is returned |
| Agent.Setup | src/agent.cpp:461-471 | capabilities, callbacks, then either the notifications plus replay thread or VMInit, fail-fast |
| Agent.Agent.ShutdownLookupAsWritten | src/agent.cpp:434-436 | as written, the shutdown branch is taken exactly for a shutdown token and then looks JNI up through `_vm`: a null dereference exactly when the agent holds no VM |
| Agent.ShutdownBeforeAttachDereferencesNull | src/agent.cpp:434-437 | the option string `shutdown` requests a shutdown, and with no VM it reaches `get_JNI` through a null pointer |
| Agent.GetJni | src/agent.cpp:53-60 | guarded lookup: no JNI environment without a VM, and the same answer as `get_JNI` with one |
| Agent.Agent.Shutdown | src/agent.cpp:295-320 | always leaves `_vm` and `_jvmti` cleared and the events file closed. With an environment, in order: the phase query; a snapshot when live and JNI is at hand; notifications off unless the VM is dying; disposal. Without one: no call and no record |
| Agent.Agent.AgentMain | src/agent.cpp:416-473 | see the breakdown below |
| Agent.Agent.VmInitialized | src/agent.cpp:371-384 | when switching on or the replay request fails, forces a shutdown after the failing call; otherwise it changes nothing but the calls |
| Agent.Agent.VmDied | src/agent.cpp:386-391 | shuts down without switching notifications off: the phase query, then disposal; writes a thread snapshot when the phase is live |

`Agent.Agent.AgentMain`, by case:

- **Shutdown requested:** returns 0 and detaches. When attached, the held environment gets the shutdown calls (phase query, six disables, disposal), and a thread snapshot is written when the phase is live and JNI is at hand. When nothing was attached, it makes no call and writes nothing.
- **Already attached:** returns 1001 and changes nothing, not even the held environment's calls.
- **GetEnv fails:** returns 2 and stays detached.
- **Otherwise:**
  - sets the VM and the environment and adds one to the attach count;
  - falls back to `/tmp/perf-<pid>.map`;
  - returns 1 when no file opens;
  - otherwise returns 0 or 2, depending on the fail-fast setup calls.

## Left out

- **Log file:** the diagnostic log file (`log_file`, src/logger.cpp) and every write to it. `report_failed` is read as "the error code is not NONE".
- **Timing:** the timing and counting diagnostics (src/agent.cpp:28-51) and the clock. The wall-clock time is a parameter `now`. The source reads the clock once per written line (src/agent.cpp:65, 74, 83); the model gives all records of one notification the same `now`: every record of one compiled unit (`Decoder.GenerateUnfoldedEntries`) and every record of one thread snapshot (`Threads.PrintAllVmThreads`).
- **`my_formatter`:** `vsprintf` into a 2000-byte buffer (src/utils.cpp:11-18). Lines are rendered by `Events.Line` with exact numerals instead. An overflow of that buffer by a long symbol is not modelled.
- **Concurrency:**
  - the mutexes, the race between disposal and callbacks still running, and the replay thread running beside the callbacks;
  - each locked block is one atomic step.
- **The replay thread's body:** `events_logger_function` (src/agent.cpp:349-364) and `new_thread`'s JNI calls (src/agent.cpp:322-341). Starting the thread is the `RunAgentThread` call. What the thread then does is the composition of `Threads.PrintAllVmThreads` and `Agent.LoadPreviousEvents`, which are modelled separately.
- **Thread-info source:** src/thread_info.cpp is not part of this model. It provides the map from mach ids to Java names and `jthread_name`. The map is a `Host` input, and the name of a starting or ending thread is a parameter of `Threads.PrintJThread`.
- **Thread enumeration:** the mach task and pthread calls of `print_all_vm_threads` (src/agent.cpp:182-188). The enumerated threads are a `Host` input.
- **Attach entry points:** `Agent_OnLoad` and `Agent_OnAttach` (src/agent.cpp:476-484) only pass `already_in_live_phase` as false or true. That flag is the `alreadyLive` parameter.
- **Closed stream:** a write to an events file that is already closed is silently dropped by the stream. The model still appends it to `EventLog.records`; after shutdown, the disposed environment makes every lookup fail, so only stub records and thread records could be affected.
- Agent.OpenStream: opening a stream that is already open is modelled as leaving it open on its path. In the source that `open` fails and sets the stream's failbit, while `is_open()` stays true (src/agent.cpp:444). This happens after an attach whose GetEnv failed with the events file open (src/agent.cpp:444-448). The next attach then goes on and returns 0, but every later write to the events file is dropped. The model does not track the failed state and keeps appending records to `EventLog.records`.
- Decoder.WriteUnfoldedEntry: the range size is `end - start` as an unbounded integer. The `(int)` truncation of a 64-bit address difference (src/agent.cpp:114, 155, 173) is not modelled: a unit of 2 GiB or more is beyond any JIT-compiled method.
- Decoder.CompiledMethodLoad: the `map_length`/`map` arguments, which the source ignores, are not parameters.
- Agent.Agent.AgentMain:
  - the `log_file.open` call is not modelled;
  - on a failed GetEnv the environment pointer is taken to be null, as the JNI convention for `GetEnv` says.
- Agent.Agent.Shutdown: `force` is a parameter with no effect, as in the source (the `!force && !vm_death` branch is empty).

Where the code departs from what the agent evidently intends, the model follows the code:

- **Chain order:** chains are rendered outermost frame first (`A->B` for B inlined into A), not innermost first.
- **Events-file failure:** a failure to open the events file after GetEnv succeeded returns 1 but leaves the agent attached, with `_vm` and `_jvmti` set and the attach count raised.
- **Live-attach failure:** when `agent_main` runs in the live phase, a failed notification or replay request returns 2 without the forced shutdown that `cbVMInit` performs.
- **Force flag:** the forced variant of shutdown behaves exactly like the graceful one.

One departure is corrected instead: an explicit shutdown with no attachment dereferences a null VM pointer as written. `Agent.Agent.AgentMain` models the evidently intended no-op; see Findings.

## Findings

| source | as written | input that shows it | evidently intended | confidence | as-written member | corrected member |
|---|---|---|---|---|---|---|
| src/agent.cpp:434-437 | a shutdown command calls `get_JNI(_vm)`, which calls `vm->GetEnv` (src/agent.cpp:55) even when `_vm` is null | the option string `shutdown` given to an agent that never attached, or one already shut down | a shutdown with nothing attached does nothing: no JNI lookup, no JVMTI call, no record | not executed | Agent.Agent.ShutdownLookupAsWritten | Agent.Agent.AgentMain |
