/**
 * The file system as the sinks see it: log files named by date under a
 * `logs` directory, and a scripted oracle that decides whether each attempt
 * to append a line lands or is refused.
 */
module Destination {
  import opened Wrappers

  /** A log file: the root directory it lives under (`<root>/logs/`) and its file name. */
  datatype Path = Path(root: string, file: string)

  /** What the file system does with one append attempt. */
  datatype Fate = Lands | Refused(reason: string)

  /**
   * The destination: the lines every file holds, and the fates of the
   * coming append attempts in order. Attempts past the end of the script land.
   */
  datatype Store = Store(files: map<Path, seq<string>>, fate: seq<Fate>)

  /** One line bound for one file. */
  datatype Entry = Entry(path: Path, line: string)

  /** The outcome of one direct write: the path it landed in, or the error text. */
  datatype Direct = Written(path: Path) | Failed(reason: string)

  datatype Attempt = Attempt(outcome: Direct, store: Store)

  /** The error a sink with no usable root reports. */
  const NotConfigured: string := "Logs directory not configured"

  function Lines(files: map<Path, seq<string>>, p: Path): seq<string> {
    if p in files then files[p] else []
  }

  /** The fate of the i-th coming attempt. */
  function At(fate: seq<Fate>, i: nat): Fate {
    if i < |fate| then fate[i] else Lands
  }

  function Rest(fate: seq<Fate>): seq<Fate> {
    if |fate| == 0 then [] else fate[1..]
  }

  /** The script left after `n` attempts. */
  function Skip(fate: seq<Fate>, n: nat): seq<Fate> {
    if n <= |fate| then fate[n..] else []
  }

  /** One attempt, then `n` more, consume `n + 1` fates. */
  lemma SkipRest(fate: seq<Fate>, n: nat)
    ensures Skip(Rest(fate), n) == Skip(fate, n + 1)
    ensures Skip(fate, 0) == fate && Skip(fate, 1) == Rest(fate)
  {
  }

  /** Consuming one fate shifts the script by one. */
  lemma AtRest(fate: seq<Fate>, i: nat)
    ensures At(Rest(fate), i) == At(fate, i + 1)
  {
  }

  /** The `logs` directory of a root: none when the root is missing or empty (falsy). */
  function LogsDir(root: Option<string>): (dir: Option<string>)
    ensures dir.Some? <==> root.Some? && root.value != ""
    ensures dir.Some? ==> dir.value == root.value
  {
    if root.None? || root.value == "" then None else Some(root.value)
  }

  /**
   * The dated file name `<app><suffix>_<date>.log`. The source spells out
   * an empty and a non-empty suffix separately; both give the same shape.
   */
  function DateFileName(app: string, suffix: string, date: string): (name: string)
    ensures name == app + suffix + "_" + date + ".log"
  {
    if |suffix| > 0 then app + suffix + "_" + date + ".log"
    else app + "_" + date + ".log"
  }

  /** Recovers the date from a file name of one application and suffix. */
  function DateOf(app: string, suffix: string, name: string): Option<string> {
    var head := app + suffix + "_";
    if |name| >= |head| + 4 && name[..|head|] == head && name[|name| - 4..] == ".log"
    then Some(name[|head|..|name| - 4])
    else None
  }

  /** The date can be read back from every dated file name. */
  lemma DateRoundTrip(app: string, suffix: string, date: string)
    ensures DateOf(app, suffix, DateFileName(app, suffix, date)) == Some(date)
  {
    var head := app + suffix + "_";
    var name := DateFileName(app, suffix, date);
    assert name == head + date + ".log";
    assert name[..|head|] == head;
    assert name[|name| - 4..] == ".log";
    assert name[|head|..|name| - 4] == date;
  }

  /** Two different dates never share a file: a day change moves the sink to a new file. */
  lemma DistinctDatesDistinctFiles(app: string, suffix: string, d1: string, d2: string)
    ensures DateFileName(app, suffix, d1) == DateFileName(app, suffix, d2) <==> d1 == d2
  {
    if DateFileName(app, suffix, d1) == DateFileName(app, suffix, d2) {
      DateRoundTrip(app, suffix, d1);
      DateRoundTrip(app, suffix, d2);
    }
  }

  /** Appends one line at the end of one file. */
  function Append(files: map<Path, seq<string>>, e: Entry): map<Path, seq<string>> {
    files[e.path := Lines(files, e.path) + [e.line]]
  }

  /** Appends a run of lines, each to its own file, in order. */
  function Deliver(files: map<Path, seq<string>>, es: seq<Entry>): map<Path, seq<string>>
    decreases |es|
  {
    if |es| == 0 then files else Deliver(Append(files, es[0]), es[1..])
  }

  /** The lines of a run that are bound for `p`, in order. */
  function Route(es: seq<Entry>, p: Path): seq<string>
    decreases |es|
  {
    if |es| == 0 then []
    else (if es[0].path == p then [es[0].line] else []) + Route(es[1..], p)
  }

  /** Delivering a run leaves every file as it was followed by the run's lines for it, in order. */
  lemma {:induction false} DeliverRoutes(files: map<Path, seq<string>>, es: seq<Entry>, p: Path)
    ensures Lines(Deliver(files, es), p) == Lines(files, p) + Route(es, p)
    decreases |es|
  {
    if |es| > 0 {
      DeliverRoutes(Append(files, es[0]), es[1..], p);
    }
  }

  /** Delivering two runs one after the other is delivering their concatenation. */
  lemma {:induction false} DeliverConcat(files: map<Path, seq<string>>, a: seq<Entry>, b: seq<Entry>)
    ensures Deliver(files, a + b) == Deliver(Deliver(files, a), b)
    decreases |a|
  {
    if |a| > 0 {
      assert (a + b)[0] == a[0];
      assert (a + b)[1..] == a[1..] + b;
      DeliverConcat(Append(files, a[0]), a[1..], b);
    } else {
      assert a + b == b;
    }
  }

  /**
   * How many of the next `n` attempts land before the first refusal: the
   * index of the first refused attempt, or `n` when none of them is refused.
   */
  function LeadingLands(fate: seq<Fate>, n: nat): (k: nat)
    ensures k <= n
    ensures forall i :: 0 <= i < k ==> At(fate, i) == Lands
    ensures k < n ==> At(fate, k).Refused?
    decreases n
  {
    if n == 0 then 0
    else if At(fate, 0).Refused? then 0
    else
      var k := LeadingLands(Rest(fate), n - 1);
      forall i | 0 <= i < k + 1
        ensures At(fate, i) == Lands
      {
        if i > 0 { AtRest(fate, i - 1); }
      }
      AtRest(fate, k);
      1 + k
  }

  /**
   * One append attempt of `line` to `file` under `root`: with no usable
   * root it fails without touching the file system; otherwise the next fate
   * decides, and a landed line is added at the end of its file.
   */
  function WriteDirect(root: Option<string>, file: string, line: string, st: Store): (r: Attempt)
    ensures LogsDir(root).None? ==> r == Attempt(Failed(NotConfigured), st)
    ensures LogsDir(root).Some? ==> r.store.fate == Rest(st.fate)
    ensures LogsDir(root).Some? ==> (r.outcome.Written? <==> At(st.fate, 0) == Lands)
    ensures r.outcome.Written? ==>
      r.outcome.path == Path(root.value, file) &&
      r.store.files == Append(st.files, Entry(Path(root.value, file), line))
    ensures r.outcome.Failed? ==> r.store.files == st.files
    ensures r.outcome.Failed? && LogsDir(root).Some? ==> At(st.fate, 0) == Refused(r.outcome.reason)
  {
    match LogsDir(root)
    case None => Attempt(Failed(NotConfigured), st)
    case Some(dir) =>
      match At(st.fate, 0)
      case Refused(reason) => Attempt(Failed(reason), st.(fate := Rest(st.fate)))
      case Lands =>
        var p := Path(dir, file);
        Attempt(Written(p), Store(Append(st.files, Entry(p, line)), Rest(st.fate)))
  }
}
