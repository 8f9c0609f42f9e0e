/**
 * A per-destination append writer that keeps records in a bounded
 * in-memory queue while its destination cannot be written, and replays
 * them, oldest first, once it can.
 */
module BufferedSink {
  import opened Wrappers
  import opened Destination

  /** A formatted log line and the date (`YYYY-MM-DD`) of the moment it was produced. */
  datatype Record = Record(line: string, date: string)

  datatype Sink = Sink(
    root: Option<string>,
    appName: string,
    suffix: string,
    maxBuffer: nat,
    buffer: seq<Record>,
    offline: bool,
    lastError: Option<string>,
    lastPath: Option<Path>,
    justRecovered: bool)

  /** The sink after an operation, the destination after it, and the operation's result. */
  datatype Step = Step(sink: Sink, store: Store, ok: bool)

  /**
   * The state a sink keeps between operations: the queue respects its
   * bound; the sink is offline exactly when an error is on record; queued
   * records mean it is offline, and (with room to queue) offline means
   * records are queued; a sink with no root holds nothing.
   */
  ghost predicate Valid(s: Sink) {
    && |s.buffer| <= s.maxBuffer
    && (s.offline <==> s.lastError.Some?)
    && (|s.buffer| > 0 ==> s.offline)
    && (s.offline && s.maxBuffer > 0 ==> |s.buffer| > 0)
    && (s.root.None? ==> s.buffer == [] && !s.offline && s.lastPath.None? && !s.justRecovered)
  }

  /** The root text used in paths; a sink without a usable root never reaches a path. */
  function RootText(root: Option<string>): string {
    root.GetOr("")
  }

  /** The file a record of this sink goes to: the file of the record's own date. */
  function Target(s: Sink, rec: Record): Path {
    Path(RootText(s.root), DateFileName(s.appName, s.suffix, rec.date))
  }

  /** The lines a run of records puts on the destination, each bound for its file. */
  function Entries(s: Sink, recs: seq<Record>): (es: seq<Entry>)
    ensures |es| == |recs|
    ensures forall i :: 0 <= i < |recs| ==> es[i] == Entry(Target(s, recs[i]), recs[i].line)
    decreases |recs|
  {
    if |recs| == 0 then [] else [Entry(Target(s, recs[0]), recs[0].line)] + Entries(s, recs[1..])
  }

  /** Only where a sink writes matters to its entries, not its queue or flags. */
  lemma EntriesFollowNaming(s: Sink, t: Sink, recs: seq<Record>)
    requires s.root == t.root && s.appName == t.appName && s.suffix == t.suffix
    ensures Entries(s, recs) == Entries(t, recs)
  {
    assert forall i :: 0 <= i < |recs| ==> Entries(s, recs)[i] == Entries(t, recs)[i];
  }

  lemma EntriesConcat(s: Sink, a: seq<Record>, b: seq<Record>)
    ensures Entries(s, a + b) == Entries(s, a) + Entries(s, b)
  {
  }

  /** `_write_direct`: one append of a record to its dated file. */
  function WriteRecord(s: Sink, rec: Record, st: Store): Attempt {
    WriteDirect(s.root, DateFileName(s.appName, s.suffix, rec.date), rec.line, st)
  }

  /** The sink as its constructor leaves it: empty queue, online, no error. */
  function Create(root: Option<string>, appName: string, suffix: string, maxBuffer: nat): (s: Sink)
    ensures Valid(s)
    ensures s.root == root && s.appName == appName && s.suffix == suffix && s.maxBuffer == maxBuffer
    ensures s.buffer == [] && !s.offline && s.lastError.None? && s.lastPath.None? && !s.justRecovered
  {
    Configure(Sink(root, appName, suffix, maxBuffer, [], false, None, None, false), root, appName)
  }

  /**
   * `configure`: re-points the sink and forgets any pending recovery. A
   * missing root disables the sink and discards what it had queued; a
   * present root keeps the queue and the error state.
   */
  function Configure(s: Sink, root: Option<string>, appName: string): (r: Sink)
    ensures Valid(s) ==> Valid(r)
    ensures r.root == root && r.appName == appName && !r.justRecovered
    ensures r.suffix == s.suffix && r.maxBuffer == s.maxBuffer
    ensures root.None? ==> r.buffer == [] && !r.offline && r.lastError.None? && r.lastPath.None?
    ensures root.Some? ==>
      r.buffer == s.buffer && r.offline == s.offline && r.lastError == s.lastError && r.lastPath == s.lastPath
  {
    var t := s.(root := root, appName := appName, justRecovered := false);
    if root.None? then t.(buffer := [], offline := false, lastError := None, lastPath := None) else t
  }

  /**
   * `_append_buffer`: queues a record and, past the bound, keeps only the
   * newest `maxBuffer` records: the result is the longest suffix of the old
   * queue followed by the record that fits the bound.
   */
  function AppendBuffer(buffer: seq<Record>, rec: Record, maxBuffer: nat): (r: seq<Record>)
    ensures |r| == Min(|buffer| + 1, maxBuffer)
    ensures r == (buffer + [rec])[|buffer| + 1 - |r|..]
  {
    var all := buffer + [rec];
    if |all| > maxBuffer then all[|all| - maxBuffer..] else all
  }

  /** Python's `xs[start:]`, where a negative start counts from the end and `-0` is `0`. */
  function SliceFrom<T>(xs: seq<T>, start: int): (r: seq<T>)
    ensures |r| <= |xs|
  {
    if start >= 0 then (if start >= |xs| then [] else xs[start..])
    else if -start >= |xs| then xs
    else xs[|xs| + start..]
  }

  /** `_append_buffer` exactly as written: the trim is `buffer[-max_buffer:]`. */
  function AppendBufferAsWritten(buffer: seq<Record>, rec: Record, maxBuffer: int): (r: seq<Record>)
    ensures maxBuffer >= 1 ==> r == AppendBuffer(buffer, rec, maxBuffer)
  {
    var all := buffer + [rec];
    if |all| > maxBuffer then SliceFrom(all, -maxBuffer) else all
  }

  /**
   * With a bound of 0 the trim `buffer[-0:]` keeps the whole queue, so the
   * queue grows past its bound with every failed write.
   */
  lemma ZeroBoundKeepsEverything(rec: Record)
    ensures |AppendBufferAsWritten([], rec, 0)| == 1
    ensures |AppendBufferAsWritten([rec], rec, 0)| == 2
  {
  }

  /** Delivering a non-empty prefix is delivering its first record, then the rest of it. */
  lemma DeliverFirst(s: Sink, pending: seq<Record>, k: nat, files: map<Path, seq<string>>)
    requires k < |pending|
    ensures Deliver(files, Entries(s, pending[..k + 1]))
         == Deliver(Append(files, Entry(Target(s, pending[0]), pending[0].line)), Entries(s, pending[1..][..k]))
  {
    assert pending[..k + 1] == [pending[0]] + pending[1..][..k];
    EntriesConcat(s, [pending[0]], pending[1..][..k]);
  }

  /** Delivering a record ahead of a run appends its line first. */
  lemma DeliverCons(s: Sink, rec: Record, recs: seq<Record>, files: map<Path, seq<string>>)
    ensures Deliver(files, Entries(s, [rec] + recs))
         == Deliver(Append(files, Entry(Target(s, rec), rec.line)), Entries(s, recs))
  {
    assert ([rec] + recs)[1..] == recs;
  }

  /** The bookkeeping of a replay: how many records landed, the destination after, the last path, the error. */
  datatype Drained = Drained(written: nat, store: Store, lastPath: Option<Path>, error: Option<string>)

  /**
   * Writes `pending` in order until the first refusal. With a usable root,
   * the number written is the number of leading landing fates; exactly
   * those records reach their files, in order.
   */
  function Drain(s: Sink, pending: seq<Record>, st: Store, lastPath: Option<Path>): (r: Drained)
    ensures r.written == (if LogsDir(s.root).Some? then LeadingLands(st.fate, |pending|) else 0)
    ensures r.error.None? <==> r.written == |pending|
    ensures r.store.files == Deliver(st.files, Entries(s, pending[..r.written]))
    ensures LogsDir(s.root).None? && |pending| > 0 ==> r.error == Some(NotConfigured)
    ensures r.written > 0 ==> r.lastPath == Some(Target(s, pending[r.written - 1]))
    ensures r.written == 0 ==> r.lastPath == lastPath
    ensures LogsDir(s.root).Some? ==> r.store.fate == Skip(st.fate, Min(r.written + 1, |pending|))
    ensures LogsDir(s.root).None? ==> r.store == st
    ensures LogsDir(s.root).Some? && r.written < |pending| ==> r.error == Some(At(st.fate, r.written).reason)
    decreases |pending|
  {
    if |pending| == 0 then Drained(0, st, lastPath, None)
    else
      var a := WriteRecord(s, pending[0], st);
      match a.outcome
      case Failed(reason) => Drained(0, a.store, lastPath, Some(reason))
      case Written(p) =>
        var r := Drain(s, pending[1..], a.store, Some(p));
        DeliverFirst(s, pending, r.written, st.files);
        SkipRest(st.fate, Min(r.written + 1, |pending| - 1));
        AtRest(st.fate, r.written);
        Drained(r.written + 1, r.store, r.lastPath, r.error)
  }

  /** How many queued records a replay writes: those before the first refusal, none without a logs directory. */
  function Reached(s: Sink, st: Store): (k: nat)
    ensures k <= |s.buffer|
  {
    if LogsDir(s.root).Some? then LeadingLands(st.fate, |s.buffer|) else 0
  }

  /**
   * `_flush_buffer_locked`: replays the queue. With `k` the index of the
   * first refused record, records `[0, k)` reach the destination in order,
   * the queue becomes exactly the records from `k` on, and the sink is
   * offline with the refusal on record; when nothing is refused the queue is
   * empty, the sink online, the error cleared and the result true.
   */
  function FlushBuffer(s: Sink, st: Store): (r: Step)
    ensures r.store.files == Deliver(st.files, Entries(s, s.buffer[..Reached(s, st)]))
    ensures r.sink.buffer == s.buffer[Reached(s, st)..]
    ensures r.ok <==> Reached(s, st) == |s.buffer|
    ensures r.sink.offline == !r.ok
    ensures r.ok <==> r.sink.lastError.None?
    ensures LogsDir(s.root).Some? ==> r.store.fate == Skip(st.fate, Min(Reached(s, st) + 1, |s.buffer|))
    ensures LogsDir(s.root).None? ==> r.store == st
    ensures Reached(s, st) < |s.buffer| ==>
      r.sink.lastError == Some(if LogsDir(s.root).Some? then At(st.fate, Reached(s, st)).reason else NotConfigured)
    ensures r.sink.lastPath == (if Reached(s, st) > 0 then Some(Target(s, s.buffer[Reached(s, st) - 1])) else s.lastPath)
    ensures |s.buffer| == 0 ==> r.ok && r.store == st
    ensures r.sink == s.(buffer := r.sink.buffer, offline := r.sink.offline,
                         lastError := r.sink.lastError, lastPath := r.sink.lastPath)
  {
    if |s.buffer| == 0 then
      Step(s.(offline := false, lastError := None), st, true)
    else
      var d := Drain(s, s.buffer, st, s.lastPath);
      if d.error.Some? then
        Step(s.(buffer := s.buffer[d.written..], offline := true, lastError := d.error, lastPath := d.lastPath),
             d.store, false)
      else
        Step(s.(buffer := [], offline := false, lastError := None, lastPath := d.lastPath), d.store, true)
  }

  /** Whether the sink was offline or had records queued: what recovery is measured against. */
  function PreviouslyOffline(s: Sink): bool {
    s.offline || |s.buffer| > 0
  }

  /** How many queued records the replay after a landed write reaches: the fate of the new record is spent first. */
  function Replayed(s: Sink, st: Store): (k: nat)
    ensures k <= |s.buffer|
  {
    LeadingLands(Rest(st.fate), |s.buffer|)
  }

  /**
   * The second half of `write`, once the new record has landed: the queue is
   * replayed after it. With `k` the index of the first refused queued record,
   * the new record and queued records `[0, k)` reach the destination in
   * that order and the queue keeps the records from `k` on.
   */
  function Landed(s: Sink, rec: Record, st: Store): (r: Step)
    requires LogsDir(s.root).Some? && At(st.fate, 0) == Lands
    ensures r.sink.root == s.root && r.sink.appName == s.appName
    ensures r.sink.suffix == s.suffix && r.sink.maxBuffer == s.maxBuffer
    ensures r.store.files == Deliver(st.files, Entries(s, [rec] + s.buffer[..Replayed(s, st)]))
    ensures r.sink.buffer == s.buffer[Replayed(s, st)..]
    ensures r.ok <==> Replayed(s, st) == |s.buffer|
    ensures r.sink.offline == !r.ok && (r.ok <==> r.sink.lastError.None?)
    ensures r.sink.justRecovered <==> r.ok && PreviouslyOffline(s)
  {
    var s0 := s.(justRecovered := false);
    var a := WriteRecord(s0, rec, st);
    var e := Entry(Target(s, rec), rec.line);
    assert a == Attempt(Written(e.path), Store(Append(st.files, e), Rest(st.fate)));
    var s1 := s0.(lastPath := Some(e.path));
    var f := FlushBuffer(s1, a.store);
    var k := Replayed(s, st);
    assert Reached(s1, a.store) == k;
    EntriesFollowNaming(s, s1, s.buffer[..k]);
    DeliverCons(s, rec, s.buffer[..k], st.files);
    assert s.buffer[..|s.buffer|] == s.buffer;
    Step(f.sink.(justRecovered := f.ok && PreviouslyOffline(s)), f.store, f.ok)
  }

  /**
   * The bookkeeping of the second half of `write`: one fate for the new
   * record and `min(k + 1, n)` for the replay are consumed, a refusal
   * during the replay is kept as the sink's error, and the last path is
   * that of the last record written.
   */
  lemma LandedBookkeeping(s: Sink, rec: Record, st: Store)
    requires LogsDir(s.root).Some? && At(st.fate, 0) == Lands
    ensures
      var r := Landed(s, rec, st);
      var k := Replayed(s, st);
      && r.store.fate == Skip(st.fate, 1 + Min(k + 1, |s.buffer|))
      && (k < |s.buffer| ==> r.sink.lastError == Some(At(st.fate, k + 1).reason))
      && r.sink.lastPath == Some(if k > 0 then Target(s, s.buffer[k - 1]) else Target(s, rec))
  {
    var s0 := s.(justRecovered := false);
    var a := WriteRecord(s0, rec, st);
    var s1 := s0.(lastPath := Some(Target(s, rec)));
    var f := FlushBuffer(s1, a.store);
    var k := Replayed(s, st);
    assert Reached(s1, a.store) == k;
    SkipRest(st.fate, Min(k + 1, |s.buffer|));
    AtRest(st.fate, k);
    assert k > 0 ==> Target(s1, s.buffer[k - 1]) == Target(s, s.buffer[k - 1]);
  }

  /**
   * `write`: a sink with no root accepts and changes nothing. Otherwise the
   * new record is written directly; if that fails it is queued (subject to
   * the bound), the sink goes offline and the result is false. If it lands,
   * the queue is replayed after it, and the result is the replay's result.
   */
  function Write(s: Sink, rec: Record, st: Store): (r: Step)
    ensures Valid(s) ==> Valid(r.sink)
    ensures s.root.None? ==> r == Step(s, st, true)
    ensures r.sink.root == s.root && r.sink.appName == s.appName
    ensures r.sink.suffix == s.suffix && r.sink.maxBuffer == s.maxBuffer
    ensures s.root.Some? && (LogsDir(s.root).None? || At(st.fate, 0).Refused?) ==>
      && !r.ok
      && r.sink.offline
      && r.sink.lastError == Some(if LogsDir(s.root).None? then NotConfigured else At(st.fate, 0).reason)
      && r.sink.buffer == AppendBuffer(s.buffer, rec, s.maxBuffer)
      && r.store == (if LogsDir(s.root).None? then st else st.(fate := Rest(st.fate)))
      && r.sink.lastPath == s.lastPath
    ensures LogsDir(s.root).Some? && At(st.fate, 0) == Lands ==>
      var k := Replayed(s, st);
      && r.store.files == Deliver(st.files, Entries(s, [rec] + s.buffer[..k]))
      && r.sink.buffer == s.buffer[k..]
      && (r.ok <==> k == |s.buffer|)
    ensures s.root.Some? && r.ok ==> !r.sink.offline && r.sink.lastError.None?
    ensures s.root.Some? ==> (r.sink.justRecovered <==> r.ok && PreviouslyOffline(s))
  {
    if s.root.None? then Step(s, st, true)
    else
      var s0 := s.(justRecovered := false);
      var a := WriteRecord(s0, rec, st);
      match a.outcome
      case Failed(reason) =>
        Step(s0.(offline := true, lastError := Some(reason), buffer := AppendBuffer(s.buffer, rec, s.maxBuffer)),
             a.store, false)
      case Written(_) => Landed(s, rec, st)
  }

  /**
   * The bookkeeping of `write` once the new record has landed: with `k` the
   * index of the first refused queued record and `n` the queue's length,
   * `1 + min(k + 1, n)` fates are consumed, a refusal leaves the sink
   * offline with that refusal's text as its error, and the last path is that
   * of the last record written, the new record's when no queued one landed.
   */
  lemma WriteBookkeeping(s: Sink, rec: Record, st: Store)
    requires LogsDir(s.root).Some? && At(st.fate, 0) == Lands
    ensures
      var r := Write(s, rec, st);
      var k := Replayed(s, st);
      && r.store.fate == Skip(st.fate, 1 + Min(k + 1, |s.buffer|))
      && (k < |s.buffer| ==> r.sink.offline && r.sink.lastError == Some(At(st.fate, k + 1).reason))
      && r.sink.lastPath == Some(if k > 0 then Target(s, s.buffer[k - 1]) else Target(s, rec))
  {
    LandedBookkeeping(s, rec, st);
  }

  /**
   * `try_flush`: a sink with no root accepts and changes nothing; otherwise
   * the queue is replayed and the result is the replay's.
   */
  function TryFlush(s: Sink, st: Store): (r: Step)
    ensures Valid(s) ==> Valid(r.sink)
    ensures s.root.None? ==> r == Step(s, st, true)
    ensures r.sink.root == s.root && r.sink.appName == s.appName
    ensures r.sink.suffix == s.suffix && r.sink.maxBuffer == s.maxBuffer
    ensures s.root.Some? ==> r.store.files == Deliver(st.files, Entries(s, s.buffer[..Reached(s, st)]))
    ensures s.root.Some? ==> r.sink.buffer == s.buffer[Reached(s, st)..]
    ensures s.root.Some? ==> (r.ok <==> Reached(s, st) == |s.buffer|)
    ensures s.root.Some? ==> r.sink.offline == !r.ok && (r.ok <==> r.sink.lastError.None?)
    ensures LogsDir(s.root).Some? ==> r.store.fate == Skip(st.fate, Min(Reached(s, st) + 1, |s.buffer|))
    ensures LogsDir(s.root).None? ==> r.store == st
    ensures s.root.Some? && Reached(s, st) < |s.buffer| ==>
      r.sink.lastError == Some(if LogsDir(s.root).Some? then At(st.fate, Reached(s, st)).reason else NotConfigured)
    ensures s.root.Some? ==>
      r.sink.lastPath == (if Reached(s, st) > 0 then Some(Target(s, s.buffer[Reached(s, st) - 1])) else s.lastPath)
    ensures s.root.Some? ==> (r.sink.justRecovered <==> r.ok && PreviouslyOffline(s))
  {
    if s.root.None? then Step(s, st, true)
    else
      var s0 := s.(justRecovered := false);
      var f := FlushBuffer(s0, st);
      var k := Reached(s, st);
      assert Reached(s0, st) == k;
      EntriesFollowNaming(s, s0, s.buffer[..k]);
      assert k > 0 ==> Target(s0, s.buffer[k - 1]) == Target(s, s.buffer[k - 1]);
      Step(f.sink.(justRecovered := f.ok && PreviouslyOffline(s)), f.store, f.ok)
  }

  /** The newest `m` elements of `xs`, in their original order. */
  function Newest(m: nat, xs: seq<Record>): seq<Record> {
    if |xs| > m then xs[|xs| - m..] else xs
  }

  /** Queuing onto the newest `m` records keeps the newest `m` of the longer history. */
  lemma AppendToNewest(m: nat, xs: seq<Record>, rec: Record)
    ensures AppendBuffer(Newest(m, xs), rec, m) == Newest(m, xs + [rec])
  {
    var all := xs + [rec];
    if |xs| > m {
      var r := AppendBuffer(Newest(m, xs), rec, m);
      assert |r| == m;
      assert forall i :: 0 <= i < m ==> r[i] == Newest(m, all)[i];
    }
  }

  /** Several writes in a row; the result is true only when every write returned true. */
  function WriteAll(s: Sink, recs: seq<Record>, st: Store): (r: Step)
    ensures r.sink.root == s.root && r.sink.appName == s.appName
    ensures r.sink.suffix == s.suffix && r.sink.maxBuffer == s.maxBuffer
    ensures Valid(s) ==> Valid(r.sink)
    decreases |recs|
  {
    if |recs| == 0 then Step(s, st, true)
    else
      var w := Write(s, recs[0], st);
      var rest := WriteAll(w.sink, recs[1..], w.store);
      rest.(ok := w.ok && rest.ok)
  }

  /**
   * Eviction: writing records to a sink whose destination refuses every
   * attempt leaves in its queue exactly the newest `maxBuffer` records of the
   * old queue followed by the new ones, in their original order, and leaves
   * every file untouched.
   */
  lemma {:induction false} UnreachableKeepsNewest(s: Sink, recs: seq<Record>, st: Store)
    requires s.root.Some? && |s.buffer| <= s.maxBuffer
    requires forall i :: 0 <= i < |recs| ==> At(st.fate, i).Refused?
    ensures WriteAll(s, recs, st).sink.buffer == Newest(s.maxBuffer, s.buffer + recs)
    ensures WriteAll(s, recs, st).store.files == st.files
    ensures |recs| > 0 ==> !WriteAll(s, recs, st).ok && WriteAll(s, recs, st).sink.offline
    ensures |recs| == 0 ==> WriteAll(s, recs, st).sink == s
    decreases |recs|
  {
    if |recs| == 0 {
      assert s.buffer + recs == s.buffer;
    } else {
      var w := Write(s, recs[0], st);
      assert w.sink.buffer == AppendBuffer(s.buffer, recs[0], s.maxBuffer);
      assert Newest(s.maxBuffer, s.buffer) == s.buffer;
      AppendToNewest(s.maxBuffer, s.buffer, recs[0]);
      forall i | 0 <= i < |recs| - 1
        ensures At(w.store.fate, i).Refused?
      {
        if LogsDir(s.root).Some? { AtRest(st.fate, i); }
      }
      UnreachableKeepsNewest(w.sink, recs[1..], w.store);
      assert (s.buffer + [recs[0]]) + recs[1..] == s.buffer + recs;
      assert Newest(s.maxBuffer, Newest(s.maxBuffer, s.buffer + [recs[0]]) + recs[1..])
          == Newest(s.maxBuffer, s.buffer + recs) by {
        NewestOfNewest(s.maxBuffer, s.buffer + [recs[0]], recs[1..]);
      }
    }
  }

  /** Trimming early or late keeps the same newest records. */
  lemma NewestOfNewest(m: nat, xs: seq<Record>, ys: seq<Record>)
    ensures Newest(m, Newest(m, xs) + ys) == Newest(m, xs + ys)
  {
    var a := Newest(m, xs) + ys;
    var b := xs + ys;
    var ra := Newest(m, a);
    var rb := Newest(m, b);
    assert |ra| == |rb|;
    forall i | 0 <= i < |ra|
      ensures ra[i] == rb[i]
    {
      if |xs| > m {
        assert a == xs[|xs| - m..] + ys;
      }
    }
  }

  /**
   * Flush ordering: once the destination accepts every attempt, replaying a
   * queue puts all of it on the destination, oldest first, and empties it.
   */
  lemma ReachableFlushDrainsAll(s: Sink, st: Store)
    requires LogsDir(s.root).Some?
    requires forall i :: 0 <= i < |s.buffer| ==> At(st.fate, i) == Lands
    ensures TryFlush(s, st).ok
    ensures TryFlush(s, st).sink.buffer == []
    ensures !TryFlush(s, st).sink.offline
    ensures TryFlush(s, st).store.files == Deliver(st.files, Entries(s, s.buffer))
    ensures TryFlush(s, st).sink.justRecovered == PreviouslyOffline(s)
  {
    var k := LeadingLands(st.fate, |s.buffer|);
    assert k == |s.buffer|;
    assert s.buffer[..k] == s.buffer;
  }

  /**
   * A replay cut short by a refusal loses nothing: the records from the
   * refused one on stay queued, and a later replay on which every attempt
   * lands finishes the job, so across both replays the whole original queue
   * reaches the destination in order, each record exactly once.
   */
  lemma PartialReplayResumes(s: Sink, st: Store, fate: seq<Fate>)
    requires LogsDir(s.root).Some?
    requires forall i :: 0 <= i < |s.buffer| - Reached(s, st) ==> At(fate, i) == Lands
    ensures
      var f1 := TryFlush(s, st);
      var f2 := TryFlush(f1.sink, Store(f1.store.files, fate));
      && f2.ok
      && f2.sink.buffer == []
      && f2.store.files == Deliver(st.files, Entries(s, s.buffer))
  {
    var f1 := TryFlush(s, st);
    ReachableFlushDrainsAll(f1.sink, Store(f1.store.files, fate));
    ResumedRunIsWholeQueue(s, f1.sink, Reached(s, st), st.files);
  }

  /** The delivered prefix followed by the re-queued rest, delivered by a sink with the same naming, is the whole queue. */
  lemma ResumedRunIsWholeQueue(s: Sink, t: Sink, k: nat, files: map<Path, seq<string>>)
    requires k <= |s.buffer| && t.buffer == s.buffer[k..]
    requires s.root == t.root && s.appName == t.appName && s.suffix == t.suffix
    ensures Deliver(Deliver(files, Entries(s, s.buffer[..k])), Entries(t, t.buffer)) == Deliver(files, Entries(s, s.buffer))
  {
    var done := s.buffer[..k];
    assert done + t.buffer == s.buffer;
    var a := Entries(s, done);
    var b := Entries(s, t.buffer);
    EntriesFollowNaming(s, t, t.buffer);
    DeliverConcat(files, a, b);
    EntriesConcat(s, done, t.buffer);
    calc {
      Deliver(Deliver(files, a), Entries(t, t.buffer));
      Deliver(Deliver(files, a), b);
      Deliver(files, a + b);
      Deliver(files, Entries(s, done + t.buffer));
      Deliver(files, Entries(s, s.buffer));
    }
  }

  /**
   * Records written while the destination refused everything are replayed,
   * once it accepts again, to their files in the exact order they were
   * produced (the newest `maxBuffer` of them); the queue empties, the sink is
   * back online and reports the recovery.
   */
  lemma OfflineRecordsReplayInOrder(s: Sink, recs: seq<Record>, st: Store, later: Store)
    requires Valid(s) && LogsDir(s.root).Some?
    requires forall i :: 0 <= i < |recs| ==> At(st.fate, i).Refused?
    requires forall i :: 0 <= i < |s.buffer| + |recs| ==> At(later.fate, i) == Lands
    ensures
      var f := TryFlush(WriteAll(s, recs, st).sink, later);
      && f.ok
      && f.sink.buffer == []
      && !f.sink.offline
      && f.store.files == Deliver(later.files, Entries(s, Newest(s.maxBuffer, s.buffer + recs)))
      && (|s.buffer| + |recs| > 0 ==> f.sink.justRecovered)
  {
    var w := WriteAll(s, recs, st).sink;
    UnreachableKeepsNewest(s, recs, st);
    assert |w.buffer| <= |s.buffer| + |recs|;
    ReachableFlushDrainsAll(w, later);
    EntriesFollowNaming(s, w, w.buffer);
    assert |s.buffer| + |recs| > 0 ==> PreviouslyOffline(w);
  }

  /**
   * Date rollover: two records of different dates that both land go to two
   * different files, each to the file of its own date.
   */
  lemma NewDayNewFile(s: Sink, r1: Record, r2: Record, st: Store)
    requires Valid(s) && LogsDir(s.root).Some? && s.buffer == []
    requires At(st.fate, 0) == Lands && At(st.fate, 1) == Lands
    requires r1.date != r2.date
    ensures
      var w := WriteAll(s, [r1, r2], st);
      && w.ok
      && w.store.files == Append(Append(st.files, Entry(Target(s, r1), r1.line)), Entry(Target(s, r2), r2.line))
      && Target(s, r1) != Target(s, r2)
  {
    var w1 := Write(s, r1, st);
    assert w1.sink.buffer == [];
    AtRest(st.fate, 0);
    var w2 := Write(w1.sink, r2, w1.store);
    EntriesFollowNaming(s, w1.sink, [r2]);
    assert [r1, r2][1..] == [r2];
    assert WriteAll(w1.sink, [r2], w1.store) == w2.(ok := w2.ok && true);
    DistinctDatesDistinctFiles(s.appName, s.suffix, r1.date, r2.date);
  }
}
