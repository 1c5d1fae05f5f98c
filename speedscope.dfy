/**
 * The evented-profile aggregator `SpRecorder` (src/speedscope.rs).
 *
 * The recorder keeps the records appended to it. Exporting walks them in
 * order, interns each record's frame key (`filename-line-name`) in a
 * cache that assigns the next free index to an unseen key, and emits one
 * event per record that refers to the frame by that index.
 *
 * The reference functions Keys, DistinctKeys, FrameTable and Events say
 * what the export computes; the method MakeSpeedScopeDict is proved to
 * compute exactly that, and the lemmas state what the format promises.
 */
module Speedscope {
  import opened Decimal

  /** One appended sample (`u64` fields as `nat`). */
  datatype Record = Record(timestamp: nat, typ: string, filename: string, line: nat, name: string)

  /** An entry of the shared frame table; `col` is a placeholder. */
  datatype Frame = Frame(name: string, file: string, line: nat, col: nat)

  /** One event of the evented profile; `frame` indexes the frame table. */
  datatype Event = Event(typ: string, at: nat, frame: nat)

  /** The cache key of a record: its filename, line and name joined with "-". */
  function FrameKey(r: Record): (key: string)
    ensures |key| == |r.filename| + |NatToDecimal(r.line)| + |r.name| + 2
  {
    r.filename + "-" + NatToDecimal(r.line) + "-" + r.name
  }

  /** The frame a record contributes when its key is first seen. */
  function FrameOf(r: Record): (fr: Frame)
    ensures fr.name == r.name && fr.file == r.filename && fr.line == r.line
    ensures fr.col == 1
  {
    Frame(r.name, r.filename, r.line, 1)
  }

  /** The key of every record, position by position. */
  function Keys(rs: seq<Record>): (ks: seq<string>)
    ensures |ks| == |rs|
    ensures forall j :: 0 <= j < |rs| ==> ks[j] == FrameKey(rs[j])
  {
    seq(|rs|, j requires 0 <= j < |rs| => FrameKey(rs[j]))
  }

  /** The position of the first occurrence of `k` in `ks`. */
  function IndexOf(ks: seq<string>, k: string): (i: nat)
    requires k in ks
    ensures i < |ks| && ks[i] == k
    ensures forall j :: 0 <= j < i ==> ks[j] != k
  {
    if ks[0] == k then 0 else 1 + IndexOf(ks[1..], k)
  }

  predicate NoDuplicates(ks: seq<string>) {
    forall a, b :: 0 <= a < b < |ks| ==> ks[a] != ks[b]
  }

  /**
   * The keys of the frame cache after the records `rs`, ordered by the index
   * the cache gives them: an unseen key is appended, a seen one ignored.
   */
  function DistinctKeys(rs: seq<Record>): (ks: seq<string>)
    ensures |ks| <= |rs|
    decreases |rs|
  {
    if rs == [] then []
    else
      var prefix := DistinctKeys(rs[..|rs| - 1]);
      var k := FrameKey(rs[|rs| - 1]);
      if k in prefix then prefix else prefix + [k]
  }

  /** The frame table after the records `rs`: one frame per distinct key. */
  function FrameTable(rs: seq<Record>): (fs: seq<Frame>)
    ensures |fs| == |DistinctKeys(rs)|
    ensures forall i :: 0 <= i < |fs| ==> fs[i].col == 1
    decreases |rs|
  {
    if rs == [] then []
    else
      var prefix := FrameTable(rs[..|rs| - 1]);
      if FrameKey(rs[|rs| - 1]) in DistinctKeys(rs[..|rs| - 1]) then prefix
      else prefix + [FrameOf(rs[|rs| - 1])]
  }

  /**
   * The events emitted for the records `rs`: the last record's event refers
   * to its key's index in the cache as it stands after that record.
   */
  function Events(rs: seq<Record>): (es: seq<Event>)
    ensures |es| == |rs|
    ensures forall j :: 0 <= j < |rs| ==> es[j].typ == rs[j].typ && es[j].at == rs[j].timestamp
    decreases |rs|
  {
    if rs == [] then []
    else
      var last := rs[|rs| - 1];
      Events(rs[..|rs| - 1]) + [Event(last.typ, last.timestamp, IndexOf(DistinctKeys(rs), FrameKey(last)))]
  }

  /** How one more record changes the distinct keys. */
  lemma DistinctKeysStep(p: seq<Record>, r: Record)
    ensures DistinctKeys(p + [r])
      == if FrameKey(r) in DistinctKeys(p) then DistinctKeys(p) else DistinctKeys(p) + [FrameKey(r)]
  {
    assert (p + [r])[..|p|] == p;
  }

  /** How one more record changes the frame table. */
  lemma FrameTableStep(p: seq<Record>, r: Record)
    ensures FrameTable(p + [r])
      == if FrameKey(r) in DistinctKeys(p) then FrameTable(p) else FrameTable(p) + [FrameOf(r)]
  {
    assert (p + [r])[..|p|] == p;
  }

  /** How one more record changes the events. */
  lemma EventsStep(p: seq<Record>, r: Record)
    ensures FrameKey(r) in DistinctKeys(p + [r])
    ensures Events(p + [r])
      == Events(p) + [Event(r.typ, r.timestamp, IndexOf(DistinctKeys(p + [r]), FrameKey(r)))]
  {
    assert (p + [r])[..|p|] == p;
  }

  lemma IndexOfPrefix(s: seq<string>, t: seq<string>, x: string)
    requires s <= t && x in s
    ensures x in t && IndexOf(t, x) == IndexOf(s, x)
  {
    assert t[IndexOf(s, x)] == x;
  }

  lemma IndexOfAppended(s: seq<string>, x: string)
    requires x !in s
    ensures IndexOf(s + [x], x) == |s|
  {
    var i := IndexOf(s + [x], x);
    if i < |s| {
      assert false;
    }
  }

  /**
   * The frame cache after one more record: an unseen key is inserted with
   * the next index, and every entry still names its key's index.
   */
  lemma CacheStep(seen: seq<Record>, r: Record, cache: map<string, nat>)
    requires forall k :: k in cache <==> k in DistinctKeys(seen)
    requires forall k :: k in cache ==> cache[k] == IndexOf(DistinctKeys(seen), k)
    ensures var key := FrameKey(r);
      var cache' := if key in cache then cache else cache[key := |DistinctKeys(seen)|];
      && (forall k :: k in cache' <==> k in DistinctKeys(seen + [r]))
      && (forall k :: k in cache' ==> cache'[k] == IndexOf(DistinctKeys(seen + [r]), k))
  {
    var key := FrameKey(r);
    DistinctKeysStep(seen, r);
    if key !in cache {
      IndexOfAppended(DistinctKeys(seen), key);
      forall k | k in DistinctKeys(seen)
        ensures IndexOf(DistinctKeys(seen) + [key], k) == IndexOf(DistinctKeys(seen), k)
      {
        IndexOfPrefix(DistinctKeys(seen), DistinctKeys(seen) + [key], k);
      }
    }
  }

  /**
   * One iteration of the export loop over `rs[i]`, stated on the prefixes
   * before and after it: what the cache, the frame table and the events become.
   */
  lemma ExportStep(rs: seq<Record>, i: nat, cache: map<string, nat>)
    requires i < |rs|
    requires forall k :: k in cache <==> k in DistinctKeys(rs[..i])
    requires forall k :: k in cache ==> cache[k] == IndexOf(DistinctKeys(rs[..i]), k)
    ensures var key := FrameKey(rs[i]);
      var cache' := if key in cache then cache else cache[key := |FrameTable(rs[..i])|];
      && (forall k :: k in cache' <==> k in DistinctKeys(rs[..i + 1]))
      && (forall k :: k in cache' ==> cache'[k] == IndexOf(DistinctKeys(rs[..i + 1]), k))
      && FrameTable(rs[..i + 1])
         == (if key in cache then FrameTable(rs[..i]) else FrameTable(rs[..i]) + [FrameOf(rs[i])])
      && Events(rs[..i + 1]) == Events(rs[..i]) + [Event(rs[i].typ, rs[i].timestamp, cache'[key])]
  {
    var seen, r := rs[..i], rs[i];
    assert rs[..i + 1] == seen + [r];
    FrameTableStep(seen, r);
    EventsStep(seen, r);
    CacheStep(seen, r, cache);
  }

  /** Every distinct key is the key of some record. */
  lemma {:induction false} DistinctKeyOccurs(rs: seq<Record>, k: string) returns (j: nat)
    requires k in DistinctKeys(rs)
    ensures j < |rs| && FrameKey(rs[j]) == k
    decreases |rs|
  {
    var p := rs[..|rs| - 1];
    assert rs == p + [rs[|rs| - 1]];
    DistinctKeysStep(p, rs[|rs| - 1]);
    if k in DistinctKeys(p) {
      j := DistinctKeyOccurs(p, k);
      assert p[j] == rs[j];
    } else {
      j := |rs| - 1;
    }
  }

  /** No key is interned twice. */
  lemma {:induction false} DistinctKeysNoDuplicates(rs: seq<Record>)
    ensures NoDuplicates(DistinctKeys(rs))
    decreases |rs|
  {
    if rs != [] {
      var p := rs[..|rs| - 1];
      assert rs == p + [rs[|rs| - 1]];
      DistinctKeysStep(p, rs[|rs| - 1]);
      DistinctKeysNoDuplicates(p);
    }
  }

  /** Keys seen in a prefix keep their place: indices are never reassigned. */
  lemma {:induction false} DistinctKeysPrefix(rs: seq<Record>, n: nat)
    requires n <= |rs|
    ensures DistinctKeys(rs[..n]) <= DistinctKeys(rs)
    decreases |rs| - n
  {
    if n == |rs| {
      assert rs[..n] == rs;
    } else {
      DistinctKeysPrefix(rs, n + 1);
      assert rs[..n + 1] == rs[..n] + [rs[n]];
      DistinctKeysStep(rs[..n], rs[n]);
    }
  }

  /**
   * Every event's frame is the index of its record's key among all the
   * distinct keys: the index an event gets is never revised later.
   */
  lemma {:induction false} EventFrameIndex(rs: seq<Record>, j: nat)
    requires j < |rs|
    ensures FrameKey(rs[j]) in DistinctKeys(rs)
    ensures Events(rs)[j].frame == IndexOf(DistinctKeys(rs), FrameKey(rs[j]))
    decreases |rs|
  {
    var p, r := rs[..|rs| - 1], rs[|rs| - 1];
    assert rs == p + [r];
    EventsStep(p, r);
    if j < |p| {
      EventFrameIndex(p, j);
      assert p[j] == rs[j];
      DistinctKeysStep(p, r);
      IndexOfPrefix(DistinctKeys(p), DistinctKeys(rs), FrameKey(rs[j]));
    }
  }

  /** Every event refers to an entry of the frame table. */
  lemma EventFramesInTable(rs: seq<Record>)
    ensures forall j :: 0 <= j < |rs| ==> Events(rs)[j].frame < |FrameTable(rs)|
  {
    forall j | 0 <= j < |rs|
      ensures Events(rs)[j].frame < |FrameTable(rs)|
    {
      EventFrameIndex(rs, j);
    }
  }

  /**
   * An unseen key receives index |frames|, the number of distinct keys seen
   * before it, and the frame table grows by exactly its record's frame.
   */
  lemma NewKeyIndex(rs: seq<Record>, i: nat)
    requires i < |rs| && FrameKey(rs[i]) !in DistinctKeys(rs[..i])
    ensures FrameKey(rs[i]) in DistinctKeys(rs)
    ensures IndexOf(DistinctKeys(rs), FrameKey(rs[i])) == |DistinctKeys(rs[..i])| == |FrameTable(rs[..i])|
    ensures FrameTable(rs[..i + 1]) == FrameTable(rs[..i]) + [FrameOf(rs[i])]
  {
    var p, k := rs[..i], FrameKey(rs[i]);
    assert rs[..i + 1] == p + [rs[i]];
    DistinctKeysStep(p, rs[i]);
    FrameTableStep(p, rs[i]);
    IndexOfAppended(DistinctKeys(p), k);
    DistinctKeysPrefix(rs, i + 1);
    IndexOfPrefix(DistinctKeys(rs[..i + 1]), DistinctKeys(rs), k);
  }

  /** A repeated key changes neither the keys nor the frame table: the first writer wins. */
  lemma RepeatedKeyKeepsTable(rs: seq<Record>, i: nat)
    requires i < |rs| && FrameKey(rs[i]) in DistinctKeys(rs[..i])
    ensures DistinctKeys(rs[..i + 1]) == DistinctKeys(rs[..i])
    ensures FrameTable(rs[..i + 1]) == FrameTable(rs[..i])
  {
    assert rs[..i + 1] == rs[..i] + [rs[i]];
    DistinctKeysStep(rs[..i], rs[i]);
    FrameTableStep(rs[..i], rs[i]);
  }

  /**
   * The frame index of record j is the number of distinct keys seen strictly
   * before the first record that has record j's key.
   */
  lemma FrameIndexCountsEarlierKeys(rs: seq<Record>, j: nat)
    requires j < |rs|
    ensures FrameKey(rs[j]) in Keys(rs)
    ensures Events(rs)[j].frame == |DistinctKeys(rs[..IndexOf(Keys(rs), FrameKey(rs[j]))])|
  {
    var k := FrameKey(rs[j]);
    assert Keys(rs)[j] == k;
    var f := IndexOf(Keys(rs), k);
    assert FrameKey(rs[f]) == k;
    if k in DistinctKeys(rs[..f]) {
      var t := DistinctKeyOccurs(rs[..f], k);
      assert false;
    }
    NewKeyIndex(rs, f);
    EventFrameIndex(rs, j);
  }

  /** Two events refer to the same frame exactly when their records' keys are equal. */
  lemma SameKeySameFrame(rs: seq<Record>, i: nat, j: nat)
    requires i < |rs| && j < |rs|
    ensures Events(rs)[i].frame == Events(rs)[j].frame <==> FrameKey(rs[i]) == FrameKey(rs[j])
  {
    EventFrameIndex(rs, i);
    EventFrameIndex(rs, j);
  }

  lemma KeysStep(p: seq<Record>, r: Record)
    ensures Keys(p + [r]) == Keys(p) + [FrameKey(r)]
  {
  }

  /** A key that is not interned after `p` is the key of no record of `p`. */
  lemma UninternedKeyIsAbsent(p: seq<Record>, k: string)
    requires k !in DistinctKeys(p)
    ensures k !in Keys(p)
  {
    if k in Keys(p) {
      var t :| 0 <= t < |p| && Keys(p)[t] == k;
      EventFrameIndex(p, t);
      assert false;
    }
  }

  /**
   * Frame i of the table holds the name, file and line of the first record
   * whose key is the i-th distinct key.
   */
  lemma {:induction false} FrameTableFirstWriter(rs: seq<Record>, i: nat)
    requires i < |FrameTable(rs)|
    ensures DistinctKeys(rs)[i] in Keys(rs)
    ensures FrameTable(rs)[i] == FrameOf(rs[IndexOf(Keys(rs), DistinctKeys(rs)[i])])
    decreases |rs|
  {
    var p, r := rs[..|rs| - 1], rs[|rs| - 1];
    assert rs == p + [r];
    FrameTableStep(p, r);
    if i < |FrameTable(p)| {
      FrameTableFirstWriter(p, i);
      FirstWriterKept(p, r, i);
    } else {
      FirstWriterNew(p, r);
    }
  }

  /** A frame written before one more record keeps its first writer. */
  lemma FirstWriterKept(p: seq<Record>, r: Record, i: nat)
    requires i < |FrameTable(p)| && DistinctKeys(p)[i] in Keys(p)
    requires FrameTable(p)[i] == FrameOf(p[IndexOf(Keys(p), DistinctKeys(p)[i])])
    ensures i < |FrameTable(p + [r])| && DistinctKeys(p + [r])[i] in Keys(p + [r])
    ensures FrameTable(p + [r])[i] == FrameOf((p + [r])[IndexOf(Keys(p + [r]), DistinctKeys(p + [r])[i])])
  {
    DistinctKeysStep(p, r);
    FrameTableStep(p, r);
    KeysStep(p, r);
    var x := DistinctKeys(p)[i];
    assert DistinctKeys(p + [r])[i] == x;
    IndexOfPrefix(Keys(p), Keys(p + [r]), x);
    assert p[IndexOf(Keys(p), x)] == (p + [r])[IndexOf(Keys(p), x)];
  }

  /** The frame a new key appends is written by the record that brings the key. */
  lemma FirstWriterNew(p: seq<Record>, r: Record)
    requires FrameKey(r) !in DistinctKeys(p)
    ensures |FrameTable(p + [r])| == |FrameTable(p)| + 1
    ensures DistinctKeys(p + [r])[|FrameTable(p)|] in Keys(p + [r])
    ensures FrameTable(p + [r])[|FrameTable(p)|]
      == FrameOf((p + [r])[IndexOf(Keys(p + [r]), DistinctKeys(p + [r])[|FrameTable(p)|])])
  {
    DistinctKeysStep(p, r);
    FrameTableStep(p, r);
    KeysStep(p, r);
    UninternedKeyIsAbsent(p, FrameKey(r));
    IndexOfAppended(Keys(p), FrameKey(r));
  }

  /** No records: no events and an empty frame table. */
  lemma EmptyProfile()
    ensures Events([]) == [] && FrameTable([]) == []
  {
  }

  /**
   * Deduplication is by the joined string: two records whose filename, line
   * and name differ, but whose joins coincide, share one frame, and the frame
   * table keeps only the first of them.
   */
  lemma JoinedKeysCollide()
    ensures var a := Record(1, "O", "a-1", 2, "b");
            var b := Record(2, "O", "a", 1, "2-b");
            && (a.filename != b.filename && a.line != b.line && a.name != b.name)
            && Events([a, b])[0].frame == Events([a, b])[1].frame == 0
            && FrameTable([a, b]) == [FrameOf(a)]
  {
    var a := Record(1, "O", "a-1", 2, "b");
    var b := Record(2, "O", "a", 1, "2-b");
    assert NatToDecimal(2) == "2" && NatToDecimal(1) == "1";
    assert FrameKey(a) == FrameKey(b) == "a-1-2-b";
    assert [a, b][..1] == [a];
    assert DistinctKeys([a]) == [FrameKey(a)];
  }

  /** In `x + "-" + y` with no "-" in `x`, the first "-" stands at |x|. */
  lemma FirstDashAt(x: string, y: string)
    requires '-' !in x
    ensures (x + "-" + y)[|x|] == '-'
    ensures forall i :: 0 <= i < |x| ==> (x + "-" + y)[i] != '-'
  {
  }

  lemma SplitAtFirstDash(x: string, y: string, x': string, y': string)
    requires '-' !in x && '-' !in x'
    requires x + "-" + y == x' + "-" + y'
    ensures x == x' && y == y'
  {
    var s := x + "-" + y;
    FirstDashAt(x, y);
    FirstDashAt(x', y');
    assert |x| == |x'|;
    assert x == s[..|x|] == x';
    assert y == s[|x| + 1..] == y';
  }

  /**
   * When filenames contain no "-", the joined key determines filename, line
   * and name, so distinct call sites get distinct frames.
   */
  lemma FrameKeyInjectiveWithoutDash(a: Record, b: Record)
    requires '-' !in a.filename && '-' !in b.filename
    requires FrameKey(a) == FrameKey(b)
    ensures a.filename == b.filename && a.line == b.line && a.name == b.name
  {
    var da, db := NatToDecimal(a.line), NatToDecimal(b.line);
    assert FrameKey(a) == a.filename + "-" + (da + "-" + a.name);
    assert FrameKey(b) == b.filename + "-" + (db + "-" + b.name);
    SplitAtFirstDash(a.filename, da + "-" + a.name, b.filename, db + "-" + b.name);
    assert '-' !in da by { assert IsDigits(da); }
    assert '-' !in db by { assert IsDigits(db); }
    SplitAtFirstDash(da, a.name, db, b.name);
    NatToDecimalInjective(a.line, b.line);
  }

  /** A single record: one key, one frame, one event on frame 0. */
  lemma OneRecord(a: Record)
    ensures DistinctKeys([a]) == [FrameKey(a)]
    ensures FrameTable([a]) == [FrameOf(a)]
    ensures Events([a]) == [Event(a.typ, a.timestamp, 0)]
  {
    assert [a] == [] + [a];
    DistinctKeysStep([], a);
    FrameTableStep([], a);
    EventsStep([], a);
  }

  /** A second record from the same call site adds no key and no frame. */
  lemma SharedSiteKeys(a: Record, b: Record)
    requires FrameKey(a) == FrameKey(b)
    ensures DistinctKeys([a, b]) == [FrameKey(a)]
    ensures FrameTable([a, b]) == [FrameOf(a)]
  {
    OneRecord(a);
    assert [a, b] == [a] + [b];
    DistinctKeysStep([a], b);
    FrameTableStep([a], b);
  }

  /** Both records of one call site refer to frame 0. */
  lemma SharedSiteEvents(a: Record, b: Record)
    requires FrameKey(a) == FrameKey(b)
    ensures Events([a, b]) == [Event(a.typ, a.timestamp, 0), Event(b.typ, b.timestamp, 0)]
  {
    OneRecord(a);
    SharedSiteKeys(a, b);
    assert [a, b] == [a] + [b];
    EventsStep([a], b);
  }

  /** A third record from a new call site appends its key. */
  lemma TwoSitesKeys(a: Record, b: Record, c: Record)
    requires FrameKey(a) == FrameKey(b) != FrameKey(c)
    ensures DistinctKeys([a, b, c]) == [FrameKey(a), FrameKey(c)]
  {
    SharedSiteKeys(a, b);
    assert [a, b, c] == [a, b] + [c];
    DistinctKeysStep([a, b], c);
  }

  /** A third record from a new call site appends its frame after the shared one. */
  lemma TwoSitesTable(a: Record, b: Record, c: Record)
    requires FrameKey(a) == FrameKey(b) != FrameKey(c)
    ensures FrameTable([a, b, c]) == [FrameOf(a), FrameOf(c)]
  {
    SharedSiteKeys(a, b);
    assert [a, b, c] == [a, b] + [c];
    FrameTableStep([a, b], c);
  }

  /**
   * Open, close and open again over two call sites: the repeated site reuses
   * frame 0 and the new one gets frame 1.
   */
  lemma TwoSitesEvents(a: Record, b: Record, c: Record)
    requires FrameKey(a) == FrameKey(b) != FrameKey(c)
    ensures Events([a, b, c])
      == [Event(a.typ, a.timestamp, 0), Event(b.typ, b.timestamp, 0), Event(c.typ, c.timestamp, 1)]
  {
    SharedSiteEvents(a, b);
    TwoSitesKeys(a, b, c);
    assert [a, b, c] == [a, b] + [c];
    EventsStep([a, b], c);
    assert IndexOf([FrameKey(a), FrameKey(c)], FrameKey(c)) == 1;
  }

  /**
   * Records (1, O, f.py:10 g), (2, C, f.py:10 g), (3, O, f.py:20 h) give the
   * frames [f.py:10 g, f.py:20 h] and the events [O@1 -> 0, C@2 -> 0, O@3 -> 1].
   */
  lemma ThreeRecordScenario()
    ensures var rs := [Record(1, "O", "f.py", 10, "g"), Record(2, "C", "f.py", 10, "g"), Record(3, "O", "f.py", 20, "h")];
            && FrameTable(rs) == [Frame("g", "f.py", 10, 1), Frame("h", "f.py", 20, 1)]
            && Events(rs) == [Event("O", 1, 0), Event("C", 2, 0), Event("O", 3, 1)]
  {
    var a, b, c := Record(1, "O", "f.py", 10, "g"), Record(2, "C", "f.py", 10, "g"), Record(3, "O", "f.py", 20, "h");
    if FrameKey(a) == FrameKey(c) {
      FrameKeyInjectiveWithoutDash(a, c);
      assert false;
    }
    TwoSitesTable(a, b, c);
    TwoSitesEvents(a, b, c);
  }

  /** The recorder exposed to Python: an append-only vector of records. */
  class SpRecorder {
    var records: seq<Record>

    constructor ()
      ensures records == []
    {
      records := [];
    }

    /** Adds one record at the end; the earlier records stay as they were. */
    method AppendRecord(timestamp: nat, typ: string, filename: string, line: nat, name: string)
      modifies this
      ensures records == old(records) + [Record(timestamp, typ, filename, line, name)]
    {
      var record := Record(timestamp, typ, filename, line, name);
      records := records + [record];
    }

    method Len() returns (n: nat)
      ensures n == |records|
    {
      n := |records|;
    }

    /**
     * Builds the events (the part that is serialised) and the frame table
     * (built and then dropped; returned here as a ghost for the proofs).
     */
    method MakeSpeedScopeDict() returns (events: seq<Event>, ghost frameTable: seq<Frame>)
      ensures events == Events(records)
      ensures frameTable == FrameTable(records)
    {
      events := [];
      var frames: seq<Frame> := [];
      var frameCache: map<string, nat> := map[];
      var i := 0;
      while i < |records|
        invariant 0 <= i <= |records|
        invariant frames == FrameTable(records[..i])
        invariant forall k :: k in frameCache <==> k in DistinctKeys(records[..i])
        invariant forall k :: k in frameCache ==> frameCache[k] == IndexOf(DistinctKeys(records[..i]), k)
        invariant events == Events(records[..i])
      {
        var record := records[i];
        var key := FrameKey(record);
        ExportStep(records, i, frameCache);
        if key !in frameCache {
          frameCache := frameCache[key := |frames|];
          frames := frames + [Frame(record.name, record.filename, record.line, 1)];
        }
        if key in frameCache {
          events := events + [Event(record.typ, record.timestamp, frameCache[key])];
        }
        i := i + 1;
      }
      assert records[..i] == records;
      frameTable := frames;
    }
  }
}
