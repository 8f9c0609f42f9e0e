/**
 * The connectivity tracker: the last known state (unknown, up or down) of
 * the network share and of the local disk, which announces one named event
 * per actual change, guarded against re-entry, and the rule that turns a
 * sink's result into an ok or error observation.
 */
module Connectivity {
  import opened Wrappers
  import BufferedSink

  datatype Kind = Network | Disk {
    function Name(): string {
      match this
      case Network => "network"
      case Disk => "disk"
    }
  }

  /** First observation up, later observation up, observation down. */
  datatype Verb = Available | Restored | Lost {
    function Word(): string {
      match this
      case Available => "available"
      case Restored => "restored"
      case Lost => "lost"
    }
  }

  /** A state-change event, logged under the name `<kind>_connection_<verb>`. */
  datatype StatusEvent = StatusEvent(kind: Kind, verb: Verb) {
    function Name(): string {
      kind.Name() + "_connection_" + verb.Word()
    }

    /** Whether the event announces the resource as reachable. */
    predicate Up() {
      verb != Lost
    }
  }

  /**
   * The process-wide status of each kind (None while unknown) and the
   * per-kind flags that are raised while a state change is being announced.
   */
  datatype Tracker = Tracker(networkUp: Option<bool>, diskUp: Option<bool>, networkGuard: bool, diskGuard: bool) {
    function Up(k: Kind): Option<bool> {
      match k
      case Network => networkUp
      case Disk => diskUp
    }

    function Guard(k: Kind): bool {
      match k
      case Network => networkGuard
      case Disk => diskGuard
    }

    function WithUp(k: Kind, v: Option<bool>): (t: Tracker)
      ensures t.Up(k) == v
    {
      match k
      case Network => this.(networkUp := v)
      case Disk => this.(diskUp := v)
    }

    function WithGuard(k: Kind, g: bool): (t: Tracker)
      ensures t.Guard(k) == g
    {
      match k
      case Network => this.(networkGuard := g)
      case Disk => this.(diskGuard := g)
    }
  }

  /** The tracker after an observation and the event it announces, if any. */
  datatype Note = Note(tracker: Tracker, event: Option<StatusEvent>)

  /**
   * `_update_status`: records the observation and announces it only when
   * it differs from what was known: a first observation as available or
   * lost, a later change as restored or lost.
   */
  function UpdateStatus(t: Tracker, kind: Kind, ok: bool): (r: Note)
    ensures r.tracker == t.WithUp(kind, Some(ok))
    ensures r.event.Some? <==> t.Up(kind) != Some(ok)
    ensures r.event.Some? ==> r.event.value.kind == kind && r.event.value.Up() == ok
    ensures r.event.Some? ==> (r.event.value.verb == Available <==> t.Up(kind).None? && ok)
    ensures r.event.Some? ==>
      r.event.value.Name()
      == kind.Name() + "_connection_" + (if !ok then "lost" else if t.Up(kind).None? then "available" else "restored")
  {
    var previous := t.Up(kind);
    var t' := t.WithUp(kind, Some(ok));
    if previous.None? then
      Note(t', Some(StatusEvent(kind, if ok then Available else Lost)))
    else if previous.value == ok then
      Note(t', None)
    else
      Note(t', Some(StatusEvent(kind, if ok then Restored else Lost)))
  }

  /**
   * The `_safe_note_*` guards: while an announcement of this kind is in
   * progress, a further observation of the same kind is dropped; otherwise
   * the observation is recorded, and the guard is lowered again afterwards.
   */
  function SafeNote(t: Tracker, kind: Kind, ok: bool): (r: Note)
    ensures t.Guard(kind) ==> r == Note(t, None)
    ensures !t.Guard(kind) ==> r.tracker == t.WithUp(kind, Some(ok))
    ensures !t.Guard(kind) ==> (r.event.Some? <==> t.Up(kind) != Some(ok))
    ensures !t.Guard(kind) && r.event.Some? ==>
      r.event.value == StatusEvent(kind, if !ok then Lost else if t.Up(kind).None? then Available else Restored)
    ensures r.tracker.Guard(Network) == t.Guard(Network) && r.tracker.Guard(Disk) == t.Guard(Disk)
  {
    if t.Guard(kind) then Note(t, None) else UpdateStatus(t, kind, ok)
  }

  /**
   * Re-entry: while the event for `kind` is being logged (its guard
   * raised), any observation of that kind that the logging triggers changes
   * nothing and announces nothing, so an announcement cannot recurse; the
   * other kind's observations are unaffected by the raised guard.
   */
  lemma NestedNoteIsSilent(t: Tracker, kind: Kind, ok: bool, other: Kind, ok2: bool)
    requires other != kind
    ensures SafeNote(t.WithGuard(kind, true), kind, ok) == Note(t.WithGuard(kind, true), None)
    ensures SafeNote(t.WithGuard(kind, true), other, ok2).event == SafeNote(t, other, ok2).event
  {
  }

  /** A sink's result and where the status tracker stands afterwards. */
  datatype Handled = Handled(sink: Option<BufferedSink.Sink>, note: Note)

  /**
   * `_handle_sink_result`: a success is reported as ok when the sink just
   * recovered or the kind is not known to be up, and then clears the sink's
   * recovery marker; a failure is always reported as an error; a success
   * on a kind already up with no recovery is not reported.
   */
  function HandleSinkResult(sink: Option<BufferedSink.Sink>, success: bool, kind: Kind, t: Tracker): (r: Handled)
    ensures sink.None? ==> r == Handled(sink, Note(t, None))
    ensures sink.Some? && !t.Guard(kind) ==> r.note.tracker.Up(kind) == Some(success)
    ensures r.note.tracker.Up(if kind == Network then Disk else Network)
         == t.Up(if kind == Network then Disk else Network)
    ensures r.note.event.Some? <==> sink.Some? && !t.Guard(kind) && t.Up(kind) != Some(success)
    ensures r.note.event.Some? ==> r.note.event.value == StatusEvent(kind,
      if !success then Lost else if t.Up(kind).None? then Available else Restored)
    ensures sink.Some? && success ==> r.sink == Some(sink.value.(justRecovered := false))
    ensures !success ==> r.sink == sink
    ensures sink.Some? && t.Guard(kind) ==> r.note.tracker == t
    ensures r.note.tracker.Guard(Network) == t.Guard(Network) && r.note.tracker.Guard(Disk) == t.Guard(Disk)
  {
    if sink.None? then Handled(sink, Note(t, None))
    else if success && (sink.value.justRecovered || t.Up(kind) != Some(true)) then
      Handled(Some(sink.value.(justRecovered := false)), SafeNote(t, kind, true))
    else if !success then
      Handled(sink, SafeNote(t, kind, false))
    else
      Handled(sink, Note(t, None))
  }

  /**
   * The recovery marker never decides which event is announced: when a
   * recovered sink reports ok on a kind already up, the tracker sees no
   * change and stays silent.
   */
  lemma RecoveryMarkerNeverChangesEvents(sink: BufferedSink.Sink, success: bool, kind: Kind, t: Tracker)
    ensures HandleSinkResult(Some(sink), success, kind, t).note
         == HandleSinkResult(Some(sink.(justRecovered := !sink.justRecovered)), success, kind, t).note
  {
  }

  /** A series of observations of one kind and the events they announce, in order. */
  datatype Trace = Trace(tracker: Tracker, events: seq<StatusEvent>)

  function Run(t: Tracker, kind: Kind, obs: seq<bool>): Trace
    decreases |obs|
  {
    if |obs| == 0 then Trace(t, [])
    else
      var n := UpdateStatus(t, kind, obs[0]);
      var rest := Run(n.tracker, kind, obs[1..]);
      Trace(rest.tracker, (if n.event.Some? then [n.event.value] else []) + rest.events)
  }

  /** The state known just before the i-th observation. */
  function Before(prev: Option<bool>, obs: seq<bool>, i: nat): Option<bool>
    requires i <= |obs|
  {
    if i == 0 then prev else Some(obs[i - 1])
  }

  /** The number of observations that differ from the state known just before them. */
  function Changes(prev: Option<bool>, obs: seq<bool>): nat
    decreases |obs|
  {
    if |obs| == 0 then 0
    else
      Changes(prev, obs[..|obs| - 1])
      + (if Before(prev, obs, |obs| - 1) != Some(obs[|obs| - 1]) then 1 else 0)
  }

  lemma {:induction false} ChangesCons(prev: Option<bool>, x: bool, rest: seq<bool>)
    ensures Changes(prev, [x] + rest) == (if prev != Some(x) then 1 else 0) + Changes(Some(x), rest)
    decreases |rest|
  {
    var obs := [x] + rest;
    if |rest| == 0 {
      assert obs[..0] == [];
    } else {
      var r' := rest[..|rest| - 1];
      assert obs[..|obs| - 1] == [x] + r';
      ChangesCons(prev, x, r');
    }
  }

  /**
   * De-duplication: over any series of observations of one kind, the
   * number of announced events is the number of actual changes of state,
   * the first observation after unknown counting as one.
   */
  lemma {:induction false} EventsCountChanges(t: Tracker, kind: Kind, obs: seq<bool>)
    ensures |Run(t, kind, obs).events| == Changes(t.Up(kind), obs)
    decreases |obs|
  {
    if |obs| > 0 {
      var n := UpdateStatus(t, kind, obs[0]);
      EventsCountChanges(n.tracker, kind, obs[1..]);
      assert obs == [obs[0]] + obs[1..];
      ChangesCons(t.Up(kind), obs[0], obs[1..]);
    }
  }

  /** Every event of a series is about the observed kind. */
  lemma {:induction false} RunKinds(t: Tracker, kind: Kind, obs: seq<bool>)
    ensures forall e :: e in Run(t, kind, obs).events ==> e.kind == kind
    decreases |obs|
  {
    if |obs| > 0 {
      RunKinds(UpdateStatus(t, kind, obs[0]).tracker, kind, obs[1..]);
    }
  }

  /**
   * Over a series, the first event differs from what was known before, and
   * the tracker ends at the state the last event announced (or where it
   * started, when nothing was announced), which is the last observation.
   */
  lemma {:induction false} RunEnds(t: Tracker, kind: Kind, obs: seq<bool>)
    ensures var r := Run(t, kind, obs);
      && (|r.events| > 0 ==> t.Up(kind) != Some(r.events[0].Up()))
      && (|r.events| > 0 ==> r.tracker.Up(kind) == Some(r.events[|r.events| - 1].Up()))
      && (|r.events| == 0 ==> r.tracker.Up(kind) == t.Up(kind))
    ensures |obs| > 0 ==> Run(t, kind, obs).tracker.Up(kind) == Some(obs[|obs| - 1])
    decreases |obs|
  {
    if |obs| > 0 {
      var n := UpdateStatus(t, kind, obs[0]);
      var rest := Run(n.tracker, kind, obs[1..]);
      RunEnds(n.tracker, kind, obs[1..]);
      var r := Run(t, kind, obs);
      assert r.tracker == rest.tracker;
      if |obs| > 1 {
        assert obs[1..][|obs[1..]| - 1] == obs[|obs| - 1];
      }
      if n.event.Some? {
        assert r.events == [n.event.value] + rest.events;
        assert n.event.value.Up() == obs[0];
        if |rest.events| > 0 {
          assert r.events[|r.events| - 1] == rest.events[|rest.events| - 1];
        }
      } else {
        assert r.events == rest.events;
        assert n.tracker.Up(kind) == t.Up(kind);
      }
    }
  }

  /** Consecutive events alternate between up and lost. */
  ghost predicate Alternates(ev: seq<StatusEvent>) {
    forall i :: 0 < i < |ev| ==> ev[i].Up() != ev[i - 1].Up()
  }

  /** Only an up event announced first, from an unknown state, is `available`. */
  ghost predicate AvailableOnlyFirst(prev: Option<bool>, ev: seq<StatusEvent>) {
    forall i :: 0 <= i < |ev| ==> (ev[i].verb == Available <==> i == 0 && prev.None? && ev[i].Up())
  }

  /** Over a series, consecutive events alternate between up and lost. */
  lemma {:induction false} EventsAlternate(t: Tracker, kind: Kind, obs: seq<bool>)
    ensures Alternates(Run(t, kind, obs).events)
    decreases |obs|
  {
    if |obs| > 0 {
      var n := UpdateStatus(t, kind, obs[0]);
      var rest := Run(n.tracker, kind, obs[1..]).events;
      EventsAlternate(n.tracker, kind, obs[1..]);
      var ev := Run(t, kind, obs).events;
      if n.event.Some? {
        RunEnds(n.tracker, kind, obs[1..]);
        assert ev == [n.event.value] + rest;
        assert n.tracker.Up(kind) == Some(n.event.value.Up());
        forall i | 0 < i < |ev|
          ensures ev[i].Up() != ev[i - 1].Up()
        {
          assert ev[i] == rest[i - 1];
          if i > 1 { assert ev[i - 1] == rest[i - 2]; }
        }
      } else {
        assert ev == rest;
        forall i | 0 < i < |ev|
          ensures ev[i].Up() != ev[i - 1].Up()
        {
          assert ev[i] == rest[i] && ev[i - 1] == rest[i - 1];
        }
      }
    }
  }

  /**
   * Over a series, only the very first observation after unknown can be
   * announced as `available`; every later recovery is `restored`.
   */
  lemma {:induction false} OnlyFirstIsAvailable(t: Tracker, kind: Kind, obs: seq<bool>)
    ensures AvailableOnlyFirst(t.Up(kind), Run(t, kind, obs).events)
    decreases |obs|
  {
    if |obs| > 0 {
      var n := UpdateStatus(t, kind, obs[0]);
      var rest := Run(n.tracker, kind, obs[1..]).events;
      OnlyFirstIsAvailable(n.tracker, kind, obs[1..]);
      var ev := Run(t, kind, obs).events;
      assert n.tracker.Up(kind).Some?;
      if n.event.Some? {
        assert ev == [n.event.value] + rest;
        forall i | 0 < i < |ev|
          ensures ev[i].verb != Available
        {
          assert ev[i] == rest[i - 1];
          assert rest[i - 1].verb != Available;
        }
      } else {
        assert ev == rest;
        assert t.Up(kind).Some?;
        forall i | 0 <= i < |ev|
          ensures ev[i].verb != Available
        {
          assert ev[i] == rest[i];
          assert rest[i].verb != Available;
        }
      }
    }
  }
}
