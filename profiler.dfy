/**
 * The Python `Recorder` of the `mipha.profiler` package: installed as the
 * interpreter's profile hook, it turns every function call and return
 * outside its own file into a record of the native `SpRecorder`.
 *
 * The clock is a parameter (`now`, the nanosecond reading the hook takes),
 * and a profiled event is the code object's filename, first line and name
 * with the event's kind. `Recorded` is the record stream a run of hook calls
 * leaves behind; the lemmas say which calls it keeps and what the exported
 * events then are.
 */
module Profiler {
  import opened Wrappers
  import Speedscope

  /** The fields of a code object the hook reads. */
  datatype Code = Code(coFilename: string, coFirstlineno: nat, coName: string)

  /** One invocation of the profile hook. */
  datatype ProfileCall = ProfileCall(code: Code, event: string, now: nat)

  /** The record type for a profile event: "O" opens a frame, "C" closes one. */
  function RecordType(event: string): (typ: Option<string>)
    ensures typ.Some? <==> event == "call" || event == "return"
    ensures typ == Some("O") <==> event == "call"
    ensures typ == Some("C") <==> event == "return"
  {
    if event == "call" then Some("O")
    else if event == "return" then Some("C")
    else None
  }

  /** The record the hook appends for one call, if any. */
  function Accept(ownFile: string, c: ProfileCall): (rec: Option<Speedscope.Record>)
    ensures rec.Some? ==> rec.value.filename == c.code.coFilename != ownFile
    ensures rec.Some? ==> rec.value.typ == "O" || rec.value.typ == "C"
  {
    if c.code.coFilename == ownFile then None
    else
      match RecordType(c.event)
      case None => None
      case Some(typ) => Some(Speedscope.Record(c.now, typ, c.code.coFilename, c.code.coFirstlineno, c.code.coName))
  }

  function AsSeq<T>(o: Option<T>): seq<T> {
    match o
    case None => []
    case Some(x) => [x]
  }

  /** The records a run of hook calls appends, in call order. */
  function Recorded(ownFile: string, calls: seq<ProfileCall>): (rs: seq<Speedscope.Record>)
    ensures |rs| <= |calls|
    decreases |calls|
  {
    if calls == [] then []
    else Recorded(ownFile, calls[..|calls| - 1]) + AsSeq(Accept(ownFile, calls[|calls| - 1]))
  }

  /**
   * The profiler of the `mipha.profiler` package. Before `Start` it has no
   * native recorder, and reading one fails as Python's attribute lookup does.
   */
  class Recorder {
    /** The profiler module's own file, whose calls are never recorded. */
    const ownFile: string
    var spRecorder: Speedscope.SpRecorder?
    var beginTime: Option<nat>
    var endTime: Option<nat>

    constructor (ownFile: string)
      ensures this.ownFile == ownFile
      ensures spRecorder == null && beginTime == None && endTime == None
    {
      this.ownFile := ownFile;
      spRecorder := null;
      beginTime := None;
      endTime := None;
    }

    /** Notes the begin time and attaches a fresh, empty native recorder. */
    method Start(now: nat)
      modifies this
      ensures beginTime == Some(now) && endTime == old(endTime)
      ensures spRecorder != null && fresh(spRecorder) && spRecorder.records == []
    {
      beginTime := Some(now);
      spRecorder := new Speedscope.SpRecorder();
    }

    /** Notes the end time; the records are kept. */
    method Stop(now: nat)
      modifies this
      ensures endTime == Some(now)
      ensures beginTime == old(beginTime) && spRecorder == old(spRecorder)
    {
      endTime := Some(now);
    }

    /**
     * The profile hook: a call or return outside the profiler's own file is
     * appended as an "O" or "C" record; anything else is ignored. Appending
     * before `Start` fails with an attribute error.
     */
    method TraceFunc(code: Code, event: string, now: nat) returns (r: Result<(), string>)
      modifies spRecorder
      ensures spRecorder == old(spRecorder)
      ensures var accepted := Accept(ownFile, ProfileCall(code, event, now));
        && (r.Failure? <==> accepted.Some? && spRecorder == null)
        && (spRecorder != null ==> spRecorder.records == old(spRecorder.records) + AsSeq(accepted))
    {
      var filename := code.coFilename;
      if filename == ownFile {
        return Success(());
      }
      var typ;
      if event == "call" {
        typ := "O";
      } else if event == "return" {
        typ := "C";
      } else {
        return Success(());
      }
      if spRecorder == null {
        return Failure("AttributeError: sp_recorder");
      }
      var timestamp := now;
      var line := code.coFirstlineno;
      var name := code.coName;
      spRecorder.AppendRecord(timestamp, typ, filename, line, name);
      r := Success(());
    }

    /** The number of records so far, or an attribute error before `Start`. */
    method Length() returns (r: Result<nat, string>)
      ensures spRecorder == null <==> r.Failure?
      ensures spRecorder != null ==> r == Success(|spRecorder.records|)
    {
      if spRecorder == null {
        return Failure("AttributeError: sp_recorder");
      }
      var n := spRecorder.Len();
      r := Success(n);
    }
  }

  /**
   * A profiled run: the interpreter invokes the hook once per event, in
   * order. A started recorder's records grow by exactly what `Recorded`
   * lists for those events; after `Start` they are exactly that list.
   */
  method ProfileRun(rec: Recorder, calls: seq<ProfileCall>)
    modifies rec.spRecorder
    ensures rec.spRecorder == old(rec.spRecorder)
    ensures old(rec.spRecorder) != null ==>
      rec.spRecorder.records == old(rec.spRecorder.records) + Recorded(rec.ownFile, calls)
  {
    var i := 0;
    while i < |calls|
      invariant i <= |calls|
      invariant rec.spRecorder == old(rec.spRecorder)
      invariant old(rec.spRecorder) != null ==>
        rec.spRecorder.records == old(rec.spRecorder.records) + Recorded(rec.ownFile, calls[..i])
    {
      var c := calls[i];
      var r := rec.TraceFunc(c.code, c.event, c.now);
      assert calls[..i + 1] == calls[..i] + [c];
      RecordedStep(rec.ownFile, calls[..i], c);
      i := i + 1;
    }
    assert calls[..i] == calls;
  }

  /** A call is recorded exactly when it is a call or return outside the profiler's file. */
  lemma AcceptIff(ownFile: string, c: ProfileCall)
    ensures Accept(ownFile, c).Some? <==> c.code.coFilename != ownFile && (c.event == "call" || c.event == "return")
    ensures Accept(ownFile, c).Some? ==>
      var rec := Accept(ownFile, c).value;
      && rec.timestamp == c.now && rec.filename == c.code.coFilename
      && rec.line == c.code.coFirstlineno && rec.name == c.code.coName
      && (rec.typ == "O" <==> c.event == "call")
      && (rec.typ == "C" <==> c.event == "return")
  {
  }

  /** One more hook call extends the recorded stream by that call's record, if any. */
  lemma RecordedStep(ownFile: string, calls: seq<ProfileCall>, c: ProfileCall)
    ensures Recorded(ownFile, calls + [c]) == Recorded(ownFile, calls) + AsSeq(Accept(ownFile, c))
  {
    assert (calls + [c])[..|calls|] == calls;
  }

  /** The positions of the calls the hook turns into records, in call order. */
  function AcceptedAt(ownFile: string, calls: seq<ProfileCall>): seq<nat>
    decreases |calls|
  {
    if calls == [] then []
    else
      var p := calls[..|calls| - 1];
      AcceptedAt(ownFile, p) + if Accept(ownFile, calls[|p|]).Some? then [|p|] else []
  }

  /** The recorded stream is the accepted calls' records, one per accepted position. */
  lemma {:induction false} RecordedIsAccepted(ownFile: string, calls: seq<ProfileCall>)
    ensures var idx := AcceptedAt(ownFile, calls);
      && |idx| == |Recorded(ownFile, calls)|
      && forall j :: 0 <= j < |idx| ==>
           idx[j] < |calls| && Accept(ownFile, calls[idx[j]]).Some?
           && Recorded(ownFile, calls)[j] == Accept(ownFile, calls[idx[j]]).value
    decreases |calls|
  {
    if calls != [] {
      var p, c := calls[..|calls| - 1], calls[|calls| - 1];
      RecordedIsAccepted(ownFile, p);
      assert calls == p + [c];
      RecordedStep(ownFile, p, c);
    }
  }

  /** The accepted positions are increasing: records keep the order of the calls. */
  lemma {:induction false} AcceptedAtIncreasing(ownFile: string, calls: seq<ProfileCall>)
    ensures var idx := AcceptedAt(ownFile, calls);
      && (forall j :: 0 <= j < |idx| ==> idx[j] < |calls|)
      && forall j, k :: 0 <= j < k < |idx| ==> idx[j] < idx[k]
    decreases |calls|
  {
    if calls != [] {
      var p := calls[..|calls| - 1];
      AcceptedAtIncreasing(ownFile, p);
      assert AcceptedAt(ownFile, calls)
        == AcceptedAt(ownFile, p) + if Accept(ownFile, calls[|p|]).Some? then [|p|] else [];
    }
  }

  /** Every accepted call has its position listed: no accepted call is lost. */
  lemma {:induction false} AcceptedAtComplete(ownFile: string, calls: seq<ProfileCall>)
    ensures forall i :: 0 <= i < |calls| && Accept(ownFile, calls[i]).Some? ==> i in AcceptedAt(ownFile, calls)
    decreases |calls|
  {
    if calls != [] {
      var p := calls[..|calls| - 1];
      AcceptedAtComplete(ownFile, p);
      assert forall i :: 0 <= i < |p| ==> p[i] == calls[i];
    }
  }

  /** No record comes from the profiler's own file, and every record opens or closes. */
  lemma RecordedWellFormed(ownFile: string, calls: seq<ProfileCall>)
    ensures forall rec :: rec in Recorded(ownFile, calls) ==>
      rec.filename != ownFile && (rec.typ == "O" || rec.typ == "C")
  {
    var idx := AcceptedAt(ownFile, calls);
    RecordedIsAccepted(ownFile, calls);
    forall rec | rec in Recorded(ownFile, calls)
      ensures rec.filename != ownFile && (rec.typ == "O" || rec.typ == "C")
    {
      var j :| 0 <= j < |idx| && Recorded(ownFile, calls)[j] == rec;
      AcceptIff(ownFile, calls[idx[j]]);
    }
  }

  /**
   * Exporting a profiled run: the j-th event has the j-th recorded call's
   * type and time, and refers to the frame written for the first recorded
   * call that shares its frame key.
   */
  lemma ProfiledEvents(ownFile: string, calls: seq<ProfileCall>, j: nat)
    requires j < |Recorded(ownFile, calls)|
    ensures var rs := Recorded(ownFile, calls);
      var e := Speedscope.Events(rs)[j];
      && (e.typ == "O" || e.typ == "C")
      && e.at == rs[j].timestamp
      && e.frame < |Speedscope.FrameTable(rs)|
      && var first := Speedscope.IndexOf(Speedscope.Keys(rs), Speedscope.FrameKey(rs[j]));
      && first <= j
      && Speedscope.FrameTable(rs)[e.frame] == Speedscope.FrameOf(rs[first])
  {
    var rs := Recorded(ownFile, calls);
    RecordedWellFormed(ownFile, calls);
    assert rs[j] in rs;
    Speedscope.EventFrameIndex(rs, j);
    Speedscope.EventFramesInTable(rs);
    var e := Speedscope.Events(rs)[j];
    Speedscope.FrameTableFirstWriter(rs, e.frame);
  }
}
