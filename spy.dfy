/**
 * The `Tracer::trace` operation of the native `spy` module: attach a sampler
 * to a running interpreter, read its command line, executable and one stack
 * sample per thread, and build the `StackTraces` document.
 *
 * The sampler is not modelled: what it reports (or the error it fails with)
 * is the input `SampledProcess`. The per-thread work is proved against the
 * reference functions `TraceOf` and `Normalized`, the variable partition
 * against `FirstWhere`.
 */
module Spy {
  import opened Wrappers
  import opened Decimal

  /** One variable of a sampled frame, as the sampler reports it. */
  datatype SampledLocal = SampledLocal(name: string, arg: bool, repr: Option<string>)

  /** One frame of a sampled stack; `locals` is absent when it was not collected. */
  datatype SampledFrame = SampledFrame(
    filename: string,
    shortFilename: Option<string>,
    line: int,
    locals: Option<seq<SampledLocal>>)

  /**
   * One sampled thread. `threadIdLabel` and `statusLabel` are the texts the
   * sampler formats for the thread id and its idle/running status.
   */
  datatype SampledThread = SampledThread(
    threadIdLabel: string,
    osThreadId: Option<nat>,
    statusLabel: string,
    frames: seq<SampledFrame>)

  /**
   * What the sampler reports about an attached process; each query that can
   * fail carries either its value or the error message it fails with.
   */
  datatype SampledProcess = SampledProcess(
    pid: int,
    version: string,
    cmdline: Result<seq<string>, string>,
    exe: Result<string, string>,
    stackTraces: Result<seq<SampledThread>, string>)

  datatype Arg = Arg(name: string, repr: string)

  datatype Local = Local(name: string, repr: string)

  datatype Frame = Frame(name: string, filename: string, line: int, args: seq<Arg>, locals: seq<Local>)

  datatype Trace = Trace(threadId: string, name: string, status: string, frames: seq<Frame>)

  datatype StackTraces = StackTraces(
    pid: int,
    version: string,
    cmdline: string,
    exe: string,
    startAt: Option<string>,
    endAt: Option<string>,
    traces: seq<Trace>)

  /** `s.ends_with(suffix)`. */
  predicate EndsWith(s: string, suffix: string)
    ensures EndsWith(s, suffix) ==> |suffix| <= |s|
    ensures suffix == [] || suffix == s ==> EndsWith(s, suffix)
  {
    |suffix| <= |s| && s[|s| - |suffix|..] == suffix
  }

  /** The short filename when the sampler has one, else the full one. */
  function ShownFilename(f: SampledFrame): (shown: string)
    ensures f.shortFilename.Some? ==> shown == f.shortFilename.value
    ensures f.shortFilename.None? ==> shown == f.filename
  {
    match f.shortFilename
    case Some(short) => short
    case None => f.filename
  }

  /** A frame is reported when it has a line and its shown filename ends with the filter. */
  predicate Kept(f: SampledFrame, traceLine: string)
    ensures traceLine == "" ==> (Kept(f, traceLine) <==> f.line != 0)
    ensures Kept(f, traceLine) ==> f.line != 0 && |traceLine| <= |ShownFilename(f)|
  {
    f.line != 0 && EndsWith(ShownFilename(f), traceLine)
  }

  /** The reported frame: named after its file, with no arguments or locals. */
  function Emitted(f: SampledFrame): (fr: Frame)
    ensures fr.name == fr.filename == ShownFilename(f) && fr.line == f.line
    ensures fr.args == [] && fr.locals == []
  {
    Frame(ShownFilename(f), ShownFilename(f), f.line, [], [])
  }

  /** The frames reported for a sampled stack, in stack order. */
  function Normalized(fs: seq<SampledFrame>, traceLine: string): (out: seq<Frame>)
    ensures |out| <= |fs|
    decreases |fs|
  {
    if fs == [] then []
    else
      var prefix := Normalized(fs[..|fs| - 1], traceLine);
      var last := fs[|fs| - 1];
      if Kept(last, traceLine) then prefix + [Emitted(last)] else prefix
  }

  /** The trace's name: the OS thread id in decimal, or "Known" when there is none. */
  function ThreadName(osThreadId: Option<nat>): (name: string)
    ensures osThreadId.None? <==> name == "Known"
    ensures osThreadId.Some? ==> IsDigits(name) && DecimalValue(name) == osThreadId.value
    ensures osThreadId.Some? ==> |name| >= 1 && (name[0] == '0' <==> osThreadId.value == 0)
    ensures osThreadId == Some(0) ==> name == "0"
  {
    match osThreadId
    case Some(id) => DecimalRoundTrip(id); NatToDecimal(id)
    case None => "Known"
  }

  /** The trace built for one sampled thread. */
  function TraceOf(t: SampledThread, traceLine: string): (tr: Trace)
    ensures tr.threadId == t.threadIdLabel && tr.status == t.statusLabel
    ensures |tr.frames| <= |t.frames|
  {
    Trace(t.threadIdLabel, ThreadName(t.osThreadId), t.statusLabel, Normalized(t.frames, traceLine))
  }

  /** `parts.join("")`. */
  function Concat(parts: seq<string>): (s: string)
    ensures parts == [] ==> s == ""
    decreases |parts|
  {
    if parts == [] then "" else parts[0] + Concat(parts[1..])
  }

  /** The displayed value of a variable: its repr, or "?" when it has none. */
  function Display(v: SampledLocal): (shown: string)
    ensures v.repr.Some? ==> shown == v.repr.value
    ensures v.repr.None? ==> shown == "?"
  {
    match v.repr
    case Some(r) => r
    case None => "?"
  }

  function AsArgs(vs: seq<SampledLocal>): (args: seq<Arg>)
    ensures |args| == |vs|
  {
    seq(|vs|, j requires 0 <= j < |vs| => Arg(vs[j].name, Display(vs[j])))
  }

  function AsLocals(vs: seq<SampledLocal>): (locals: seq<Local>)
    ensures |locals| == |vs|
  {
    seq(|vs|, j requires 0 <= j < |vs| => Local(vs[j].name, Display(vs[j])))
  }

  /**
   * The position of the first variable whose `arg` flag is `isArg`, or |vs|
   * when there is none.
   */
  function FirstWhere(vs: seq<SampledLocal>, isArg: bool): (i: nat)
    ensures i <= |vs|
    ensures i < |vs| ==> vs[i].arg == isArg
    ensures forall j :: 0 <= j < i ==> vs[j].arg != isArg
    decreases |vs|
  {
    if vs == [] then 0
    else if vs[0].arg == isArg then 0
    else 1 + FirstWhere(vs[1..], isArg)
  }

  /**
   * Splits a frame's variables into the argument and local lists: once a
   * first argument has been seen every later variable is listed as an
   * argument, and once a first non-argument has been seen every later
   * variable is listed as a local.
   */
  method PartitionLocals(vars: seq<SampledLocal>) returns (pyArgs: seq<Arg>, pyLocals: seq<Local>)
    ensures pyArgs == PartitionOf(vars).args && pyLocals == PartitionOf(vars).locals
    ensures pyArgs == AsArgs(vars[FirstWhere(vars, true)..])
    ensures pyLocals == AsLocals(vars[FirstWhere(vars, false)..])
  {
    pyArgs, pyLocals := [], [];
    var shownArgs, shownLocals := false, false;
    var i := 0;
    while i < |vars|
      invariant i <= |vars|
      invariant PartitionOf(vars[..i]) == Partition(shownArgs, shownLocals, pyArgs, pyLocals)
    {
      var v := vars[i];
      if v.arg && !shownArgs {
        shownArgs := true;
      } else if !v.arg && !shownLocals {
        shownLocals := true;
      }
      var repr := Display(v);
      if shownArgs {
        pyArgs := pyArgs + [Arg(v.name, repr)];
      }
      if shownLocals {
        pyLocals := pyLocals + [Local(v.name, repr)];
      }
      assert vars[..i + 1][..i] == vars[..i];
      i := i + 1;
    }
    assert vars[..i] == vars;
    PartitionOfArgs(vars, |vars|);
    PartitionOfLocals(vars, |vars|);
    ArgsDone(vars, shownArgs, pyArgs);
    LocalsDone(vars, shownLocals, pyLocals);
  }

  /** The loop state after some variables: the two flags and the two lists. */
  datatype Partition = Partition(shownArgs: bool, shownLocals: bool, args: seq<Arg>, locals: seq<Local>)

  /**
   * The loop state after the variables `vs`: the last variable sets the
   * argument flag if it is an argument and the local flag otherwise, and is
   * appended to each list whose flag is then set.
   */
  function PartitionOf(vs: seq<SampledLocal>): (st: Partition)
    ensures |st.args| <= |vs| && |st.locals| <= |vs|
    decreases |vs|
  {
    if vs == [] then Partition(false, false, [], [])
    else
      var st := PartitionOf(vs[..|vs| - 1]);
      var v := vs[|vs| - 1];
      var shownArgs := st.shownArgs || v.arg;
      var shownLocals := st.shownLocals || !v.arg;
      Partition(
        shownArgs, shownLocals,
        if shownArgs then st.args + [Arg(v.name, Display(v))] else st.args,
        if shownLocals then st.locals + [Local(v.name, Display(v))] else st.locals)
  }

  /** The argument half of the loop state after the first `i` variables, read against `FirstWhere`. */
  lemma {:induction false} PartitionOfArgs(vars: seq<SampledLocal>, i: nat)
    requires i <= |vars|
    ensures ArgsSoFar(vars, i, PartitionOf(vars[..i]).shownArgs, PartitionOf(vars[..i]).args)
  {
    if i > 0 {
      PartitionOfArgs(vars, i - 1);
      var st := PartitionOf(vars[..i - 1]);
      assert vars[..i][..i - 1] == vars[..i - 1];
      ArgsStep(vars, i - 1, st.shownArgs, st.args, PartitionOf(vars[..i]).shownArgs, PartitionOf(vars[..i]).args);
    }
  }

  /** The local half of the loop state after the first `i` variables, read against `FirstWhere`. */
  lemma {:induction false} PartitionOfLocals(vars: seq<SampledLocal>, i: nat)
    requires i <= |vars|
    ensures LocalsSoFar(vars, i, PartitionOf(vars[..i]).shownLocals, PartitionOf(vars[..i]).locals)
  {
    if i > 0 {
      PartitionOfLocals(vars, i - 1);
      var st := PartitionOf(vars[..i - 1]);
      assert vars[..i][..i - 1] == vars[..i - 1];
      LocalsStep(vars, i - 1, st.shownLocals, st.locals, PartitionOf(vars[..i]).shownLocals, PartitionOf(vars[..i]).locals);
    }
  }

  /**
   * The argument list after the first `i` variables: the argument flag is
   * set once an argument has been seen, and the list holds every variable
   * from the first argument on.
   */
  ghost predicate ArgsSoFar(vars: seq<SampledLocal>, i: nat, shown: bool, args: seq<Arg>) {
    var first := FirstWhere(vars, true);
    && i <= |vars|
    && (shown <==> first < i)
    && args == AsArgs(vars[if shown then first else i..i])
  }

  /** The local list after the first `i` variables, as for the arguments. */
  ghost predicate LocalsSoFar(vars: seq<SampledLocal>, i: nat, shown: bool, locals: seq<Local>) {
    var first := FirstWhere(vars, false);
    && i <= |vars|
    && (shown <==> first < i)
    && locals == AsLocals(vars[if shown then first else i..i])
  }

  /** One more variable: the argument flag turns on at an argument, and a shown variable is appended. */
  lemma ArgsStep(vars: seq<SampledLocal>, i: nat, shown: bool, args: seq<Arg>, shown': bool, args': seq<Arg>)
    requires i < |vars| && ArgsSoFar(vars, i, shown, args)
    requires shown' == (shown || vars[i].arg)
    requires args' == if shown' then args + [Arg(vars[i].name, Display(vars[i]))] else args
    ensures ArgsSoFar(vars, i + 1, shown', args')
  {
    if shown {
      assert vars[FirstWhere(vars, true)..i + 1] == vars[FirstWhere(vars, true)..i] + [vars[i]];
    } else if shown' {
      assert vars[i..i + 1] == [vars[i]];
    }
  }

  /** One more variable: the local flag turns on at a non-argument, and a shown variable is appended. */
  lemma LocalsStep(vars: seq<SampledLocal>, i: nat, shown: bool, locals: seq<Local>, shown': bool, locals': seq<Local>)
    requires i < |vars| && LocalsSoFar(vars, i, shown, locals)
    requires shown' == (shown || !vars[i].arg)
    requires locals' == if shown' then locals + [Local(vars[i].name, Display(vars[i]))] else locals
    ensures LocalsSoFar(vars, i + 1, shown', locals')
  {
    if shown {
      assert vars[FirstWhere(vars, false)..i + 1] == vars[FirstWhere(vars, false)..i] + [vars[i]];
    } else if shown' {
      assert vars[i..i + 1] == [vars[i]];
    }
  }

  /** After the last variable the argument list holds every variable from the first argument on. */
  lemma ArgsDone(vars: seq<SampledLocal>, shown: bool, args: seq<Arg>)
    requires ArgsSoFar(vars, |vars|, shown, args)
    ensures args == AsArgs(vars[FirstWhere(vars, true)..])
  {
  }

  /** After the last variable the local list holds every variable from the first non-argument on. */
  lemma LocalsDone(vars: seq<SampledLocal>, shown: bool, locals: seq<Local>)
    requires LocalsSoFar(vars, |vars|, shown, locals)
    ensures locals == AsLocals(vars[FirstWhere(vars, false)..])
  {
  }

  /**
   * The work done for one sampled frame: the frame to report, if it has a
   * line and passes the filter. Its variable lists are computed and dropped.
   */
  method TraceFrame(f: SampledFrame, traceLine: string) returns (reported: Option<Frame>)
    ensures reported.Some? <==> f.line != 0 && EndsWith(ShownFilename(f), traceLine)
    ensures reported.Some? ==> reported.value == Emitted(f)
  {
    reported := None;
    var filename := ShownFilename(f);
    if f.line != 0 {
      if EndsWith(filename, traceLine) {
        reported := Some(Frame(filename, filename, f.line, [], []));
      }
    }
    if f.locals.Some? {
      var pyArgs, pyLocals := PartitionLocals(f.locals.value);
    }
  }

  /**
   * Traces one sampled thread: the kept frames in stack order under the
   * thread's name.
   */
  method TraceThread(t: SampledThread, traceLine: string) returns (trace: Trace)
    ensures trace == TraceOf(t, traceLine)
  {
    var name;
    match t.osThreadId {
      case Some(id) => name := NatToDecimal(id);
      case None => name := "Known";
    }
    trace := Trace(t.threadIdLabel, name, t.statusLabel, []);
    var frames: seq<Frame> := [];
    var i := 0;
    while i < |t.frames|
      invariant i <= |t.frames|
      invariant frames == Normalized(t.frames[..i], traceLine)
    {
      var f := t.frames[i];
      var reported := TraceFrame(f, traceLine);
      if reported.Some? {
        frames := frames + [reported.value];
      }
      assert t.frames[..i + 1] == t.frames[..i] + [f];
      NormalizedStep(t.frames[..i], f, traceLine);
      i := i + 1;
    }
    assert t.frames[..i] == t.frames;
    trace := trace.(frames := trace.frames + frames);
  }

  /**
   * `Tracer::trace`: the first failing step's message in source order (attach,
   * command line, executable, stack sample), or the document. Each thread is
   * traced (`built`), but no trace is added to the document.
   */
  method TraceProcess(attach: Result<SampledProcess, string>, traceLine: string)
    returns (r: Result<StackTraces, string>, ghost built: seq<Trace>)
    ensures attach.Failure? ==> r == Failure(attach.error)
    ensures attach.Success? && attach.value.cmdline.Failure? ==> r == Failure(attach.value.cmdline.error)
    ensures attach.Success? && attach.value.cmdline.Success? && attach.value.exe.Failure?
      ==> r == Failure(attach.value.exe.error)
    ensures attach.Success? && attach.value.cmdline.Success? && attach.value.exe.Success?
            && attach.value.stackTraces.Failure?
      ==> r == Failure(attach.value.stackTraces.error)
    ensures r.Success? <==>
      attach.Success? && attach.value.cmdline.Success? && attach.value.exe.Success?
      && attach.value.stackTraces.Success?
    ensures r.Success? ==>
      var p := attach.value;
      && r.value == StackTraces(p.pid, p.version, Concat(p.cmdline.value), p.exe.value, None, None, [])
      && |built| == |p.stackTraces.value|
      && forall j :: 0 <= j < |built| ==> built[j] == TraceOf(p.stackTraces.value[j], traceLine)
  {
    built := [];
    if attach.Failure? {
      return Failure(attach.error), built;
    }
    var p := attach.value;
    if p.cmdline.Failure? {
      return Failure(p.cmdline.error), built;
    }
    if p.exe.Failure? {
      return Failure(p.exe.error), built;
    }
    var stacktrace := StackTraces(p.pid, p.version, Concat(p.cmdline.value), p.exe.value, None, None, []);
    if p.stackTraces.Failure? {
      return Failure(p.stackTraces.error), built;
    }
    var traces := TraceThreads(p.stackTraces.value, traceLine);
    built := traces;
    r := Success(stacktrace);
  }

  /** The loop over the sampled threads: one trace per thread, in order. */
  method TraceThreads(threads: seq<SampledThread>, traceLine: string) returns (traces: seq<Trace>)
    ensures |traces| == |threads|
    ensures forall j :: 0 <= j < |threads| ==> traces[j] == TraceOf(threads[j], traceLine)
  {
    traces := [];
    var i := 0;
    while i < |threads|
      invariant i <= |threads|
      invariant |traces| == i
      invariant forall j :: 0 <= j < i ==> traces[j] == TraceOf(threads[j], traceLine)
    {
      var trace := TraceThread(threads[i], traceLine);
      traces := traces + [trace];
      i := i + 1;
    }
  }

  /** The positions of the frames the filter keeps, in stack order. */
  function KeptAt(fs: seq<SampledFrame>, traceLine: string): seq<nat>
    decreases |fs|
  {
    if fs == [] then []
    else
      var p := fs[..|fs| - 1];
      KeptAt(p, traceLine) + if Kept(fs[|p|], traceLine) then [|p|] else []
  }

  /** One more frame extends the reported frames by its emitted form, if it is kept. */
  lemma NormalizedStep(p: seq<SampledFrame>, f: SampledFrame, traceLine: string)
    ensures Normalized(p + [f], traceLine)
      == if Kept(f, traceLine) then Normalized(p, traceLine) + [Emitted(f)] else Normalized(p, traceLine)
  {
    assert (p + [f])[..|p|] == p;
  }

  /** The reported frames are the kept frames' emitted forms, one per kept position. */
  lemma {:induction false} NormalizedIsKept(fs: seq<SampledFrame>, traceLine: string)
    ensures var idx := KeptAt(fs, traceLine);
      && |idx| == |Normalized(fs, traceLine)|
      && forall j :: 0 <= j < |idx| ==>
           idx[j] < |fs| && Kept(fs[idx[j]], traceLine)
           && Normalized(fs, traceLine)[j] == Emitted(fs[idx[j]])
    decreases |fs|
  {
    if fs != [] {
      var p, f := fs[..|fs| - 1], fs[|fs| - 1];
      NormalizedIsKept(p, traceLine);
      assert fs == p + [f];
      NormalizedStep(p, f, traceLine);
    }
  }

  /** The kept positions are increasing: frames keep their stack order. */
  lemma {:induction false} KeptAtIncreasing(fs: seq<SampledFrame>, traceLine: string)
    ensures var idx := KeptAt(fs, traceLine);
      && (forall j :: 0 <= j < |idx| ==> idx[j] < |fs|)
      && forall j, k :: 0 <= j < k < |idx| ==> idx[j] < idx[k]
    decreases |fs|
  {
    if fs != [] {
      var p := fs[..|fs| - 1];
      KeptAtIncreasing(p, traceLine);
      assert KeptAt(fs, traceLine) == KeptAt(p, traceLine) + if Kept(fs[|p|], traceLine) then [|p|] else [];
    }
  }

  /** Every kept frame has its position listed: no kept frame is lost. */
  lemma {:induction false} KeptAtComplete(fs: seq<SampledFrame>, traceLine: string)
    ensures forall i :: 0 <= i < |fs| && Kept(fs[i], traceLine) ==> i in KeptAt(fs, traceLine)
    decreases |fs|
  {
    if fs != [] {
      var p := fs[..|fs| - 1];
      KeptAtComplete(p, traceLine);
      assert forall i :: 0 <= i < |p| ==> p[i] == fs[i];
    }
  }

  /** Every reported frame has a line, passes the filter and is named after its file. */
  lemma NormalizedFramesPassFilter(fs: seq<SampledFrame>, traceLine: string)
    ensures forall g :: g in Normalized(fs, traceLine) ==>
      g.line != 0 && EndsWith(g.filename, traceLine) && g.name == g.filename && g.args == [] && g.locals == []
  {
    NormalizedIsKept(fs, traceLine);
  }

  /** Frames are filtered one by one: the filter distributes over concatenation. */
  lemma {:induction false} NormalizedAppend(a: seq<SampledFrame>, b: seq<SampledFrame>, traceLine: string)
    ensures Normalized(a + b, traceLine) == Normalized(a, traceLine) + Normalized(b, traceLine)
    decreases |b|
  {
    if b == [] {
      assert a + b == a;
    } else {
      var b', f := b[..|b| - 1], b[|b| - 1];
      assert (a + b)[..|a + b| - 1] == a + b';
      NormalizedAppend(a, b', traceLine);
    }
  }

  /**
   * With an empty filter every frame with a line is reported, so a stack
   * whose frames all have lines is reported whole.
   */
  lemma {:induction false} EmptyFilterKeepsAllLines(fs: seq<SampledFrame>)
    requires forall i :: 0 <= i < |fs| ==> fs[i].line != 0
    ensures Normalized(fs, "") == seq(|fs|, i requires 0 <= i < |fs| => Emitted(fs[i]))
    decreases |fs|
  {
    if fs != [] {
      var p := fs[..|fs| - 1];
      EmptyFilterKeepsAllLines(p);
      assert EndsWith(ShownFilename(fs[|fs| - 1]), "");
    }
  }

  /** The argument flag is set at position j exactly when some variable up to j is an argument. */
  lemma ArgsShownIff(vars: seq<SampledLocal>, j: nat)
    requires j < |vars|
    ensures FirstWhere(vars, true) <= j <==> exists i :: 0 <= i <= j && vars[i].arg
  {
    if FirstWhere(vars, true) <= j {
      assert vars[FirstWhere(vars, true)].arg;
    }
  }

  /** The local flag is set at position j exactly when some variable up to j is not an argument. */
  lemma LocalsShownIff(vars: seq<SampledLocal>, j: nat)
    requires j < |vars|
    ensures FirstWhere(vars, false) <= j <==> exists i :: 0 <= i <= j && !vars[i].arg
  {
    if FirstWhere(vars, false) <= j {
      assert !vars[FirstWhere(vars, false)].arg;
    }
  }

  /** The first variable, if any, sets one of the two flags, so one of the lists holds every variable. */
  lemma OneListHoldsAll(vars: seq<SampledLocal>)
    ensures AsArgs(vars[FirstWhere(vars, true)..]) == AsArgs(vars)
         || AsLocals(vars[FirstWhere(vars, false)..]) == AsLocals(vars)
  {
    if vars == [] {
    } else if vars[0].arg {
      assert vars[FirstWhere(vars, true)..] == vars;
    } else {
      assert vars[FirstWhere(vars, false)..] == vars;
    }
  }

  /** `join("")` of one more part appends that part. */
  lemma {:induction false} ConcatAppend(parts: seq<string>, x: string)
    ensures Concat(parts + [x]) == Concat(parts) + x
    decreases |parts|
  {
    if parts == [] {
      assert [] + [x] == [x];
    } else {
      assert (parts + [x])[1..] == parts[1..] + [x];
      ConcatAppend(parts[1..], x);
    }
  }

  /** The joined command line is as long as its parts together. */
  lemma {:induction false} ConcatLength(parts: seq<string>)
    ensures |Concat(parts)| == TotalLength(parts)
    decreases |parts|
  {
    if parts != [] {
      ConcatLength(parts[1..]);
    }
  }

  function TotalLength(parts: seq<string>): nat
    decreases |parts|
  {
    if parts == [] then 0 else |parts[0]| + TotalLength(parts[1..])
  }

  /**
   * Arguments a, b followed by locals c, d: the arguments list shows all four
   * variables and the locals list shows c and d.
   */
  lemma ArgsThenLocals()
    ensures var vs := [SampledLocal("a", true, Some("1")), SampledLocal("b", true, None),
                       SampledLocal("c", false, Some("3")), SampledLocal("d", false, Some("4"))];
            && AsArgs(vs[FirstWhere(vs, true)..]) == [Arg("a", "1"), Arg("b", "?"), Arg("c", "3"), Arg("d", "4")]
            && AsLocals(vs[FirstWhere(vs, false)..]) == [Local("c", "3"), Local("d", "4")]
  {
    var vs := [SampledLocal("a", true, Some("1")), SampledLocal("b", true, None),
               SampledLocal("c", false, Some("3")), SampledLocal("d", false, Some("4"))];
    assert vs[1..][1..][1..] == vs[2..][1..];
    assert FirstWhere(vs, false) == 2;
  }

  /**
   * A local between two arguments: the arguments list shows every variable
   * from the first argument on, the locals list every variable from the
   * local on, including the argument after it.
   */
  lemma InterleavedArgs()
    ensures var vs := [SampledLocal("a", true, Some("1")), SampledLocal("b", false, Some("2")),
                       SampledLocal("c", true, Some("3"))];
            && AsArgs(vs[FirstWhere(vs, true)..]) == [Arg("a", "1"), Arg("b", "2"), Arg("c", "3")]
            && AsLocals(vs[FirstWhere(vs, false)..]) == [Local("b", "2"), Local("c", "3")]
  {
    var vs := [SampledLocal("a", true, Some("1")), SampledLocal("b", false, Some("2")),
               SampledLocal("c", true, Some("3"))];
    assert FirstWhere(vs, false) == 1;
  }
}
