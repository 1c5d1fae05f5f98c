# mipha profiler core, modelled in Dafny

mipha is a Python profiling toolkit with a native extension written in Rust.
This project models three parts of it and proves properties of them.

- **`SpRecorder`** (`src/speedscope.rs`). It is the evented-profile aggregator. Records
  (timestamp, type, filename, line, name) are appended to it. On export it interns each
  record's frame key `filename-line-name` in a cache, which hands the next free index to
  an unseen key. It also emits one event (type, time, frame index) per record.
  Module `Speedscope`, file `speedscope.dfy`.
- **`Tracer::trace`** (`src/spy.rs`). It attaches a sampler to a running interpreter and
  reads its command line, executable and one stack sample per thread. It then builds the
  `StackTraces` document. Each thread's frames are filtered: a frame is kept when it has
  a line and its shown filename ends with `trace_line`. Each frame's variables are also
  split into argument and local lists, which are then dropped. Module `Spy`, file `spy.dfy`.
- **`Recorder`** (`mipha/profiler/__init__.py`). This is the Python profile hook. Every
  call and return outside the profiler's own file becomes an `"O"` or `"C"` record of
  the native recorder. Module `Profiler`, file `profiler.dfy`.

`decimal.dfy` models how Rust's `to_string` renders a `u64` line number, which becomes
part of the frame key. `wrappers.dfy` holds `Option` and `Result`.

The stateful parts are classes or imperative methods, and each is proved against a
reference function:

- `SpRecorder` is a class whose `records` sequence is appended to. Its export loop
  `MakeSpeedScopeDict` is proved to compute `Events` and `FrameTable`.
- The thread, frame and variable loops of `Tracer::trace` are methods. They are proved
  against `TraceOf`, `Normalized` and `FirstWhere`.
- `Recorder` is a class holding a nullable reference to the native recorder. A run of
  hook calls is described by `Recorded`.

Quirks of the code that the model keeps:

- Only the event list is serialised. The frame table is built and then dropped, so no
  speedscope document with `shared.frames` is produced.
- The frame filter is `ends_with(trace_line)` on the short filename if there is one. A
  frame with line 0 is never kept.
- Once the first argument has been seen, every later variable goes to the argument list,
  including non-arguments. Once the first non-argument has been seen, every later variable
  goes to the local list.
- A reported frame's `name` is its shown filename (src/spy.rs:116), not the function
  name.
- The argument and local lists of a frame are computed and then discarded; they are
  never attached to the reported frame, whose `args` and `locals` stay empty
  (src/spy.rs:124-150).
- The per-thread `Trace` values are built and then dropped. The returned document
  always has an empty `traces` list.

## Model

| member | source | states |
|---|---|---|
| Decimal.NatToDecimal | src/speedscope.rs:99 | a `u64` line renders as a non-empty all-digit string whose first digit is `0` only for the number 0; NatToDecimalCanonical adds that such a numeral is exactly "0", so there are no leading zeros |
| Decimal.NatToDecimalCanonical | src/speedscope.rs:99 | a rendered numeral that starts with `0` is the single digit "0": zero is written "0", never "00" |
| Decimal.DecimalRoundTrip | src/speedscope.rs:99 | reading the rendered digits back gives the number: rendering loses nothing |
| Decimal.NatToDecimalInjective | src/speedscope.rs:99 | distinct lines render differently |
| Speedscope.SpRecorder.constructor | src/speedscope.rs:59-62 | a new recorder holds no records |
| Speedscope.SpRecorder.AppendRecord | src/speedscope.rs:69-86 | the new record is added at the end and earlier records are unchanged |
| Speedscope.SpRecorder.Len | src/speedscope.rs:87-89 | returns the number of records |
| Speedscope.SpRecorder.MakeSpeedScopeDict | src/speedscope.rs:90-127 | the export loop with its frame cache returns exactly `Events(records)` and builds exactly `FrameTable(records)` |
| Speedscope.FrameKey | src/speedscope.rs:97-102 | the cache key: filename, decimal line and name joined with "-"; FrameKeyInjectiveWithoutDash and JoinedKeysCollide state when it does and does not determine the three fields |
| Speedscope.FrameOf | src/speedscope.rs:105-110 | the frame pushed for an unseen key: the record's name, filename and line with column 1; FrameTableFirstWriter states that frame i is the FrameOf of its key's first record |
| Speedscope.Events | src/speedscope.rs:94-124 | one event per record, in record order, with that record's type and timestamp |
| Speedscope.FrameTable | src/speedscope.rs:103-112 | one frame per distinct key, each with column 1 |
| Speedscope.DistinctKeys | src/speedscope.rs:93-104 | the keys of `frame_cache` in the order of the index each gets, never more than the records; DistinctKeysNoDuplicates, DistinctKeyOccurs, UninternedKeyIsAbsent and DistinctKeysPrefix make it exactly the distinct keys in first-seen order, with indices never reassigned |
| Speedscope.IndexOf | src/speedscope.rs:113-118 | the index `frame_cache.get` returns for a present key: a position holding the key, with no earlier position holding it (the first occurrence) |
| Speedscope.CacheStep | src/speedscope.rs:103-104 | inserting an unseen key at `frames.len()` (and leaving a seen one) keeps the cache equal to "key present iff interned, value = the key's first position among the interned keys" |
| Speedscope.DistinctKeysStep | src/speedscope.rs:103-104 | an unseen key is appended to the interned keys and a seen key leaves them unchanged |
| Speedscope.FrameTableStep | src/speedscope.rs:103-112 | an unseen key appends its record's frame and a seen key leaves the table unchanged |
| Speedscope.EventsStep | src/speedscope.rs:113-120 | one more record appends one event that refers to its key's interned index |
| Speedscope.ExportStep | src/speedscope.rs:94-124 | one loop iteration keeps the cache invariant (key present iff interned, value is the key's index) and extends the frame table and events as the reference functions say |
| Speedscope.DistinctKeyOccurs | src/speedscope.rs:97-104 | every interned key is the key of some record |
| Speedscope.DistinctKeysNoDuplicates | src/speedscope.rs:103-104 | no key is interned twice |
| Speedscope.DistinctKeysPrefix | src/speedscope.rs:103-104 | the keys interned after a prefix are a prefix of the final keys, so an index is never reassigned |
| Speedscope.EventFrameIndex | src/speedscope.rs:113-120 | each event's frame is its record's key's index among all interned keys |
| Speedscope.EventFramesInTable | src/speedscope.rs:104-120 | every event's frame index points into the frame table |
| Speedscope.NewKeyIndex | src/speedscope.rs:103-111 | an unseen key gets index `frames.len()` and the table grows by exactly its record's frame |
| Speedscope.RepeatedKeyKeepsTable | src/speedscope.rs:103 | a repeated key changes neither the interned keys nor the frame table |
| Speedscope.FrameIndexCountsEarlierKeys | src/speedscope.rs:103-120 | a record's frame index equals the number of distinct keys seen before the first record with the same key |
| Speedscope.SameKeySameFrame | src/speedscope.rs:97-120 | two events share a frame index if and only if their records' keys are equal |
| Speedscope.KeysStep | src/speedscope.rs:97-102 | one more record adds its key at the end of the per-record keys |
| Speedscope.UninternedKeyIsAbsent | src/speedscope.rs:103-104 | a key not interned after some records is the key of none of them |
| Speedscope.FrameTableFirstWriter | src/speedscope.rs:103-111 | frame i holds the name, file and line of the first record whose key is the i-th interned key |
| Speedscope.EmptyProfile | src/speedscope.rs:91-93 | no records give no events and an empty frame table |
| Speedscope.JoinedKeysCollide | src/speedscope.rs:97-102 | records ("a-1", 2, "b") and ("a", 1, "2-b") differ in every field but share one frame |
| Speedscope.FrameKeyInjectiveWithoutDash | src/speedscope.rs:97-102 | when filenames contain no "-", equal keys mean equal filename, line and name |
| Speedscope.OneRecord | src/speedscope.rs:94-124 | a single record gives one key, one frame and one event on frame 0 |
| Speedscope.SharedSiteKeys | src/speedscope.rs:103-112 | a second record with the same key adds no key and no frame |
| Speedscope.SharedSiteEvents | src/speedscope.rs:113-120 | two records with the same key both refer to frame 0 |
| Speedscope.TwoSitesKeys | src/speedscope.rs:103-104 | a third record with a new key appends that key |
| Speedscope.TwoSitesTable | src/speedscope.rs:103-112 | a third record with a new key appends its frame after the shared one |
| Speedscope.TwoSitesEvents | src/speedscope.rs:113-120 | open, close, open over two call sites gives frames 0, 0, 1 |
| Speedscope.ThreeRecordScenario | src/speedscope.rs:90-127 | records at f.py:10 g, f.py:10 g, f.py:20 h give two frames and the events O@1→0, C@2→0, O@3→1 |
| Spy.TraceProcess | src/spy.rs:67-157 | the first failing step's message in source order (attach, cmdline, exe, stack sample); otherwise pid, version, joined cmdline, exe, no start or end time and no traces; every thread is traced as `TraceOf` says |
| Spy.TraceThread | src/spy.rs:83-153 | the trace carries the thread-id label, the thread name, the status label and exactly the `Normalized` frames |
| Spy.TraceThreads | src/spy.rs:83-154 | the loop over the sampled threads: one trace per thread, in thread order, each exactly `TraceOf` of its thread |
| Spy.TraceFrame | src/spy.rs:107-151 | a frame is reported iff its line is non-zero and its shown filename ends with `trace_line`; the reported frame is named after that file and has no args or locals |
| Spy.TraceOf | src/spy.rs:84-153 | the trace of one thread: its id label, ThreadName, status label and the Normalized frames; TraceThread is proved to build exactly it |
| Spy.EndsWith | src/spy.rs:113 | `ends_with`: the filename's last characters, as many as the filter has, equal the filter |
| Spy.ShownFilename | src/spy.rs:108-111 | the short filename when the sampler has one, else the full filename |
| Spy.Kept | src/spy.rs:112-113 | a frame is kept iff its line is non-zero and its shown filename ends with the filter; NormalizedIsKept and KeptAtComplete state that exactly the kept frames are reported |
| Spy.Emitted | src/spy.rs:114-120 | the reported frame: name and filename are the shown filename, the sampled line, no args and no locals; NormalizedIsKept states that each reported frame is the Emitted form of its input |
| Spy.ThreadName | src/spy.rs:86-103 | "Known" exactly when there is no OS thread id; otherwise a non-empty digit string whose value is the id, with a leading '0' only for id 0, and id 0 written as exactly "0" (the numeral `to_string` writes) |
| Spy.Normalized | src/spy.rs:105-122 | never more frames out than in |
| Spy.NormalizedStep | src/spy.rs:107-122 | one more sampled frame appends its emitted form when it is kept and nothing otherwise |
| Spy.NormalizedIsKept | src/spy.rs:107-122 | the j-th reported frame is the emitted form of the j-th kept input frame |
| Spy.KeptAtIncreasing | src/spy.rs:107-122 | kept positions are in range and strictly increasing, so stack order is preserved |
| Spy.KeptAtComplete | src/spy.rs:112-121 | every kept input frame is listed, so none is lost |
| Spy.NormalizedFramesPassFilter | src/spy.rs:112-120 | every reported frame has a non-zero line, a filename ending with the filter, name equal to filename, and empty args and locals |
| Spy.NormalizedAppend | src/spy.rs:107-122 | filtering the concatenation of two stacks equals concatenating their filtered frames |
| Spy.EmptyFilterKeepsAllLines | src/spy.rs:112-113 | with an empty filter a stack whose frames all have lines is reported whole: output frame i is the emitted form of input frame i |
| Spy.FirstWhere | src/spy.rs:128-135 | the position of the first variable with the given `arg` flag, or the length when there is none |
| Spy.Display | src/spy.rs:136 | a variable's repr, or "?" when it has none; ArgsThenLocals shows the "?" case |
| Spy.AsArgs | src/spy.rs:137-142 | one Arg per variable: as many args as variables; ArgsThenLocals and InterleavedArgs state their names and values on concrete frames |
| Spy.AsLocals | src/spy.rs:143-148 | one Local per variable: as many locals as variables; ArgsThenLocals and InterleavedArgs state their names and values on concrete frames |
| Spy.PartitionLocals | src/spy.rs:124-150 | the loop ends in the state `PartitionOf` gives; arguments = every variable from the first argument on; locals = every variable from the first non-argument on; each shown with its repr or "?" |
| Spy.PartitionOf | src/spy.rs:128-148 | the flags and lists after some variables (each list no longer than the variables seen); PartitionOfArgs and PartitionOfLocals read it against `FirstWhere` |
| Spy.PartitionOfArgs | src/spy.rs:128-142 | after the first i variables the argument flag is set iff an argument occurs among them, and the argument list holds every variable from the first argument up to i |
| Spy.PartitionOfLocals | src/spy.rs:128-148 | after the first i variables the local flag is set iff a non-argument occurs among them, and the local list holds every variable from the first non-argument up to i |
| Spy.ArgsStep | src/spy.rs:130-142 | one variable sets the argument flag iff one is seen, and a shown variable is appended to the arguments |
| Spy.LocalsStep | src/spy.rs:130-148 | one variable sets the local flag iff a non-argument is seen, and a shown variable is appended to the locals |
| Spy.ArgsShownIff | src/spy.rs:131-132 | the argument flag is set at position j iff some variable up to j is an argument |
| Spy.LocalsShownIff | src/spy.rs:133-134 | the local flag is set at position j iff some variable up to j is not an argument |
| Spy.OneListHoldsAll | src/spy.rs:128-150 | one of the two lists holds every variable |
| Spy.ArgsThenLocals | src/spy.rs:124-150 | args a, b then locals c, d give arguments [a, b, c, d] and locals [c, d], with "?" for a missing repr |
| Spy.InterleavedArgs | src/spy.rs:124-150 | arg a, local b, arg c give arguments [a, b, c] and locals [b, c] |
| Spy.Concat | src/spy.rs:75 | joining no parts gives the empty string |
| Spy.ConcatAppend | src/spy.rs:75 | joining one more part appends that part |
| Spy.ConcatLength | src/spy.rs:75 | the joined command line is as long as its parts together |
| Profiler.Recorder.constructor | mipha/profiler/__init__.py:8-9 | a new recorder has no native recorder and no begin or end time |
| Profiler.Recorder.Start | mipha/profiler/__init__.py:14-17 | notes the begin time and attaches a fresh, empty native recorder |
| Profiler.Recorder.Stop | mipha/profiler/__init__.py:19-21 | notes the end time and keeps the native recorder |
| Profiler.Recorder.TraceFunc | mipha/profiler/__init__.py:26-43 | appends exactly the accepted record and nothing else; fails iff a record would be appended before `start` |
| Profiler.Recorder.Length | mipha/profiler/__init__.py:45-46 | the number of records, or an attribute error before `start` |
| Profiler.RecordType | mipha/profiler/__init__.py:32-38 | "call" maps to "O", "return" to "C", and every other event to nothing |
| Profiler.Accept | mipha/profiler/__init__.py:27-43 | the record one hook call appends, if any; AcceptIff states when there is one and what it holds |
| Profiler.Recorded | mipha/profiler/__init__.py:26-43 | the records a sequence of hook calls appends, never more than the calls; RecordedIsAccepted, AcceptedAtIncreasing and AcceptedAtComplete make it exactly the accepted calls' records in order |
| Profiler.ProfileRun | mipha/profiler/__init__.py:26-43 | a run of hook calls on a started recorder appends exactly `Recorded` of those calls, so after `start` the records are exactly `Recorded` |
| Profiler.AcceptIff | mipha/profiler/__init__.py:26-43 | a hook call is recorded iff it is a call or return outside the profiler's file; the record carries the clock reading, filename, first line and name |
| Profiler.RecordedStep | mipha/profiler/__init__.py:26-43 | one more hook call extends the recorded stream by that call's record, if any |
| Profiler.RecordedIsAccepted | mipha/profiler/__init__.py:26-43 | the j-th record is the record of the j-th accepted hook call |
| Profiler.AcceptedAtIncreasing | mipha/profiler/__init__.py:26-43 | accepted positions are in range and strictly increasing, so call order is preserved |
| Profiler.AcceptedAtComplete | mipha/profiler/__init__.py:26-43 | every accepted hook call has its record |
| Profiler.RecordedWellFormed | mipha/profiler/__init__.py:27-38 | no record comes from the profiler's own file, and every record has type "O" or "C" |
| Profiler.ProfiledEvents | mipha/profiler/__init__.py:26-43 | exporting a profiled run: each event has type "O" or "C" and its call's time, and refers to the frame written by the first call with the same key |

## Left out

- Attaching to a process and reading it (`PythonSpy::new`, `cmdline`, `exe`, `get_stack_traces`) are I/O. Their results, or their error messages, are the input `SampledProcess`. The requested `pid` and the `Config` are not modelled.
- `Tracer::trace` ignores `sample_rate`, so the model has no such parameter.
- The sampler's `format_threadid`, `status_str` and `version` texts are opaque strings of the input.
- JSON encoding with `serde_json::to_string` is left out. `MakeSpeedScopeDict` returns the event list it would encode, and `TraceProcess` returns the `StackTraces` value. The encoding error path and `CustomError` are not modelled.
- `SpRecorder::export_to_json`, the no-op `start`/`stop` of `SpRecorder` and `Tracer`, `Tracer::new`, `make_error` and the `#[pymodule]` registration are left out. They are Python binding glue with no logic.
- `Recorder.get_nanos` reads a clock. Its reading is the parameter `now`.
- `sys.setprofile`, `Recorder.export_to_json` and the `track` context manager are left out. They are interpreter hooks and file output.
- The web server, configuration, routes and the other example modules in the repository are left out. They are not part of this core.
- Speedscope.Record, Speedscope.Event, Speedscope.Frame: the `u64` timestamps, lines and frame indices and the `u8` column of Speedscope.Frame are unbounded naturals. `frames.len() as u64` cannot overflow for any recorder that fits in memory.
- Spy.SampledFrame, Spy.Frame, Spy.SampledProcess, Spy.StackTraces: the `i32` frame line (SampledFrame, Frame) and pid (SampledProcess, StackTraces) are unbounded integers, because they are copied and never computed on.
- Profiler.Recorder.TraceFunc: a `co_firstlineno` below 0 would make the Rust binding raise an error. That cannot happen in CPython, so the model takes a natural number.
