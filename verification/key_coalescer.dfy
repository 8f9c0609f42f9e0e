/**
 * The key-sequence coalescer: keystrokes typed by the same user into the
 * same widget, each within one second of the previous one, are gathered
 * into one `key_sequence` record, which is flushed with the reason that
 * ended it. Timestamps are milliseconds.
 */
module KeyCoalescer {
  import opened Wrappers

  /** The longest gap, in milliseconds, between two keys of one sequence. */
  const Timeout: int := 1000

  /** One keystroke as kept inside a sequence. */
  datatype KeyEntry = KeyEntry(key: Option<int>, keyName: Option<string>, text: string, ts: int)

  /** The sequence being accumulated. */
  datatype KeyBuffer = KeyBuffer(
    text: string,
    user: Option<string>,
    widget: Option<string>,
    startTs: int,
    lastTs: int,
    keys: seq<KeyEntry>,
    level: string)

  /**
   * A call to log an event: its name, level and moment, and the fields a
   * keystroke carries (absent fields are None; an absent level is "").
   */
  datatype Event = Event(
    name: string,
    level: string,
    ts: int,
    key: Option<int>,
    keyName: Option<string>,
    text: Option<string>,
    user: Option<string>,
    widget: Option<string>)

  /** What the coalescer hands on to the sinks, in order. */
  datatype Output =
    | KeyLogged(event: Event)
    | KeySequence(
        text: string,
        length: nat,
        user: Option<string>,
        widget: Option<string>,
        startedAt: int,
        endedAt: int,
        keys: seq<KeyEntry>,
        reason: string,
        level: string)
    | SinksFlushed(reason: string)
    | Emitted(name: string, level: string, ts: int)

  /** The pending sequence (None while idle) and the outputs of one call. */
  datatype Coalesced = Coalesced(pending: Option<KeyBuffer>, out: seq<Output>)

  function LowerChar(c: char): char {
    if 'A' <= c <= 'Z' then (c as int + 32) as char else c
  }

  function Lower(s: string): (r: string)
    ensures |r| == |s|
    ensures forall i :: 0 <= i < |s| ==> r[i] == LowerChar(s[i])
    decreases |s|
  {
    if |s| == 0 then [] else [LowerChar(s[0])] + Lower(s[1..])
  }

  /** `(level or "info").lower()`. */
  function Level(level: string): string {
    Lower(if level == "" then "info" else level)
  }

  /** `kwargs.get("text") or ""`. */
  function TextOf(ev: Event): string {
    ev.text.GetOr("")
  }

  /** A key that types something: non-empty text that is printable. */
  predicate Textual(text: string, printable: string -> bool) {
    text != "" && printable(text)
  }

  /** The texts of a run of keys, concatenated. */
  function Typed(keys: seq<KeyEntry>): string
    decreases |keys|
  {
    if |keys| == 0 then "" else Typed(keys[..|keys| - 1]) + keys[|keys| - 1].text
  }

  /**
   * What a pending sequence always satisfies: at least one key; its text is
   * the keys' texts in order; its start and end are its first and last key's
   * moments; each key came within the timeout of the one before; every key
   * typed something printable.
   */
  ghost predicate WellFormed(b: KeyBuffer, printable: string -> bool) {
    && |b.keys| > 0
    && b.text == Typed(b.keys)
    && b.startTs == b.keys[0].ts
    && b.lastTs == b.keys[|b.keys| - 1].ts
    && (forall i :: 0 < i < |b.keys| ==> b.keys[i].ts - b.keys[i - 1].ts <= Timeout)
    && (forall i :: 0 <= i < |b.keys| ==> Textual(b.keys[i].text, printable))
  }

  /** What every flushed sequence record satisfies. */
  ghost predicate Sound(o: Output, printable: string -> bool)
    requires o.KeySequence?
  {
    && o.length == |o.text|
    && WellFormed(KeyBuffer(o.text, o.user, o.widget, o.startedAt, o.endedAt, o.keys, o.level), printable)
  }

  function SequenceOf(b: KeyBuffer, reason: string): Output {
    KeySequence(b.text, |b.text|, b.user, b.widget, b.startTs, b.lastTs, b.keys, reason, b.level)
  }

  /**
   * `_flush_key_buffer`: an idle coalescer does nothing; otherwise the
   * pending sequence goes out as one record carrying its text and length,
   * its user and widget, its first and last timestamps, its keys, its level
   * and the reason, and the coalescer is idle afterwards.
   */
  function FlushKeyBuffer(pending: Option<KeyBuffer>, reason: string): (r: Coalesced)
    ensures r.pending.None?
    ensures pending.None? ==> r.out == []
    ensures pending.Some? ==>
      && |r.out| == 1
      && r.out[0].KeySequence?
      && r.out[0].text == pending.value.text
      && r.out[0].length == |pending.value.text|
      && r.out[0].keys == pending.value.keys
      && r.out[0].reason == reason
      && r.out[0].user == pending.value.user
      && r.out[0].widget == pending.value.widget
      && r.out[0].startedAt == pending.value.startTs
      && r.out[0].endedAt == pending.value.lastTs
      && r.out[0].level == pending.value.level
  {
    match pending
    case None => Coalesced(None, [])
    case Some(b) => Coalesced(None, [SequenceOf(b, reason)])
  }

  /** `flush_pending_events`: the pending sequence first, then every sink's queue. */
  function FlushPending(pending: Option<KeyBuffer>, reason: string): Coalesced {
    var f := FlushKeyBuffer(pending, reason);
    Coalesced(None, f.out + [SinksFlushed(reason)])
  }

  function Entry(ev: Event): KeyEntry {
    KeyEntry(ev.key, ev.keyName, TextOf(ev), ev.ts)
  }

  /** A new sequence holding just this key. */
  function Start(ev: Event): KeyBuffer {
    KeyBuffer(TextOf(ev), ev.user, ev.widget, ev.ts, ev.ts, [Entry(ev)], Level(ev.level))
  }

  /** The sequence with this key added at its end. */
  function Extend(b: KeyBuffer, ev: Event): KeyBuffer {
    b.(text := b.text + TextOf(ev), lastTs := ev.ts, keys := b.keys + [Entry(ev)])
  }

  /** Whether a key continues the pending sequence: same user, same widget, within the timeout. */
  predicate Continues(b: KeyBuffer, ev: Event) {
    b.user == ev.user && b.widget == ev.widget && ev.ts - b.lastTs <= Timeout
  }

  /**
   * `log_event`, as far as the coalescer is concerned. A non-key event
   * flushes everything (reason `non_key_event`) and goes out itself. A key
   * is logged raw first; a pending sequence older than the timeout is
   * flushed (`timeout`); a key that types nothing flushes everything
   * (`non_textual_key`) and goes out itself; a typing key extends the
   * pending sequence when it continues it, and otherwise flushes it
   * (`sequence_break`) and starts a new one.
   */
  function LogEvent(pending: Option<KeyBuffer>, ev: Event, printable: string -> bool): (r: Coalesced)
    ensures r.pending.Some? <==> ev.name == "key" && Textual(TextOf(ev), printable)
  {
    var lvl := Level(ev.level);
    if ev.name != "key" then
      var f := FlushPending(pending, "non_key_event");
      Coalesced(None, f.out + [Emitted(ev.name, lvl, ev.ts)])
    else
      var raw := [KeyLogged(ev)];
      var t := if pending.Some? && ev.ts - pending.value.lastTs > Timeout
               then FlushKeyBuffer(pending, "timeout") else Coalesced(pending, []);
      if !Textual(TextOf(ev), printable) then
        var f := FlushPending(t.pending, "non_textual_key");
        Coalesced(None, raw + t.out + f.out + [Emitted(ev.name, lvl, ev.ts)])
      else if t.pending.Some? && Continues(t.pending.value, ev) then
        Coalesced(Some(Extend(t.pending.value, ev)), raw + t.out)
      else
        var f := FlushKeyBuffer(t.pending, "sequence_break");
        Coalesced(Some(Start(ev)), raw + t.out + f.out)
  }

  /** Appending a key that continues a sequence keeps it well formed. */
  lemma ExtendKeepsWellFormed(b: KeyBuffer, ev: Event, printable: string -> bool)
    requires WellFormed(b, printable) && Continues(b, ev) && Textual(TextOf(ev), printable)
    ensures WellFormed(Extend(b, ev), printable)
  {
    var e := Extend(b, ev);
    assert e.keys[..|e.keys| - 1] == b.keys;
  }

  /** The outputs of a call flush only well-formed sequences. */
  ghost predicate AllSound(out: seq<Output>, printable: string -> bool) {
    forall i :: 0 <= i < |out| && out[i].KeySequence? ==> Sound(out[i], printable)
  }

  lemma FlushIsSound(pending: Option<KeyBuffer>, reason: string, printable: string -> bool)
    requires pending.Some? ==> WellFormed(pending.value, printable)
    ensures AllSound(FlushKeyBuffer(pending, reason).out, printable)
  {
  }

  /**
   * The coalescer's invariant: from an idle or well-formed state, every call
   * leaves it idle or well formed, and every sequence it flushes is sound:
   * one user, one widget, its text the keys' texts in order, its length the
   * text's length, each key within the timeout of the one before.
   */
  lemma LogEventKeepsWellFormed(pending: Option<KeyBuffer>, ev: Event, printable: string -> bool)
    requires pending.Some? ==> WellFormed(pending.value, printable)
    ensures var r := LogEvent(pending, ev, printable);
      && (r.pending.Some? ==> WellFormed(r.pending.value, printable))
      && AllSound(r.out, printable)
  {
    var r := LogEvent(pending, ev, printable);
    var raw := [KeyLogged(ev)];
    var t := if pending.Some? && ev.ts - pending.value.lastTs > Timeout
             then FlushKeyBuffer(pending, "timeout") else Coalesced(pending, []);
    if ev.name != "key" {
      FlushIsSound(pending, "non_key_event", printable);
    } else {
      FlushIsSound(pending, "timeout", printable);
      assert AllSound(t.out, printable);
      if !Textual(TextOf(ev), printable) {
        FlushIsSound(t.pending, "non_textual_key", printable);
      } else if t.pending.Some? && Continues(t.pending.value, ev) {
        ExtendKeepsWellFormed(t.pending.value, ev, printable);
      } else {
        FlushIsSound(t.pending, "sequence_break", printable);
        assert Start(ev).keys == [Entry(ev)];
      }
    }
  }

  /**
   * How a typing key meets a pending sequence: after a gap longer than the
   * timeout the old sequence is flushed as `timeout` (whoever types); within
   * the timeout, the same user and widget extend it, and a different user or
   * widget flushes it as `sequence_break`. In every case the key is logged
   * raw first, and a flushed sequence is replaced by one holding the new key.
   */
  lemma TypingKeyCases(b: KeyBuffer, ev: Event, printable: string -> bool)
    requires ev.name == "key" && Textual(TextOf(ev), printable)
    ensures var r := LogEvent(Some(b), ev, printable);
      && (ev.ts - b.lastTs > Timeout ==>
            r == Coalesced(Some(Start(ev)), [KeyLogged(ev), SequenceOf(b, "timeout")]))
      && (ev.ts - b.lastTs <= Timeout && b.user == ev.user && b.widget == ev.widget ==>
            r == Coalesced(Some(Extend(b, ev)), [KeyLogged(ev)]))
      && (ev.ts - b.lastTs <= Timeout && (b.user != ev.user || b.widget != ev.widget) ==>
            r == Coalesced(Some(Start(ev)), [KeyLogged(ev), SequenceOf(b, "sequence_break")]))
    ensures LogEvent(None, ev, printable) == Coalesced(Some(Start(ev)), [KeyLogged(ev)])
  {
  }

  /**
   * How anything else meets the coalescer, idle or not: a key that types
   * nothing is logged raw, flushes the pending sequence (as `timeout` past
   * the gap, else as `non_textual_key`), then every sink, and goes out
   * itself; any other event flushes the pending sequence as
   * `non_key_event`, then every sink, and goes out itself. Either way the
   * coalescer ends idle.
   */
  lemma InterruptionCases(pending: Option<KeyBuffer>, ev: Event, printable: string -> bool)
    ensures ev.name != "key" ==>
      LogEvent(pending, ev, printable) == Coalesced(None,
        FlushKeyBuffer(pending, "non_key_event").out
        + [SinksFlushed("non_key_event"), Emitted(ev.name, Level(ev.level), ev.ts)])
    ensures ev.name == "key" && !Textual(TextOf(ev), printable) ==>
      var stale := pending.Some? && ev.ts - pending.value.lastTs > Timeout;
      LogEvent(pending, ev, printable) == Coalesced(None,
        [KeyLogged(ev)] + FlushKeyBuffer(pending, if stale then "timeout" else "non_textual_key").out
        + [SinksFlushed("non_textual_key"), Emitted(ev.name, Level(ev.level), ev.ts)])
  {
    var last := Emitted(ev.name, Level(ev.level), ev.ts);
    if ev.name != "key" {
      var f := FlushKeyBuffer(pending, "non_key_event");
      assert f.out + [SinksFlushed("non_key_event")] + [last] == f.out + [SinksFlushed("non_key_event"), last];
    } else if !Textual(TextOf(ev), printable) {
      var stale := pending.Some? && ev.ts - pending.value.lastTs > Timeout;
      var f := FlushKeyBuffer(pending, if stale then "timeout" else "non_textual_key");
      if stale {
        assert [KeyLogged(ev)] + f.out + [] + [SinksFlushed("non_textual_key")] + [last]
            == [KeyLogged(ev)] + f.out + [SinksFlushed("non_textual_key"), last];
      } else {
        assert [KeyLogged(ev)] + [] + f.out + [SinksFlushed("non_textual_key")] + [last]
            == [KeyLogged(ev)] + f.out + [SinksFlushed("non_textual_key"), last];
      }
    }
  }

  /** A series of calls; the outputs of all of them, in order. */
  function Run(pending: Option<KeyBuffer>, evs: seq<Event>, printable: string -> bool): Coalesced
    decreases |evs|
  {
    if |evs| == 0 then Coalesced(pending, [])
    else
      var a := LogEvent(pending, evs[0], printable);
      var b := Run(a.pending, evs[1..], printable);
      Coalesced(b.pending, a.out + b.out)
  }

  /** The texts of all flushed sequences among some outputs, in order. */
  function FlushedText(out: seq<Output>): string
    decreases |out|
  {
    if |out| == 0 then ""
    else (if out[0].KeySequence? then out[0].text else "") + FlushedText(out[1..])
  }

  function PendingText(pending: Option<KeyBuffer>): string {
    if pending.Some? then pending.value.text else ""
  }

  /** The texts typed by a series of events: the text of every typing key, in order. */
  function TypedText(evs: seq<Event>, printable: string -> bool): string
    decreases |evs|
  {
    if |evs| == 0 then ""
    else (if evs[0].name == "key" && Textual(TextOf(evs[0]), printable) then TextOf(evs[0]) else "")
         + TypedText(evs[1..], printable)
  }

  lemma {:induction false} FlushedTextConcat(a: seq<Output>, b: seq<Output>)
    ensures FlushedText(a + b) == FlushedText(a) + FlushedText(b)
    decreases |a|
  {
    if |a| == 0 {
      assert a + b == b;
    } else {
      assert (a + b)[1..] == a[1..] + b;
      FlushedTextConcat(a[1..], b);
    }
  }

  /** A flush hands on exactly the pending text. */
  lemma FlushHandsOnText(pending: Option<KeyBuffer>, reason: string)
    ensures FlushedText(FlushKeyBuffer(pending, reason).out) == PendingText(pending)
    ensures FlushedText(FlushPending(pending, reason).out) == PendingText(pending)
  {
    var f := FlushKeyBuffer(pending, reason);
    FlushedTextConcat(f.out, [SinksFlushed(reason)]);
  }

  lemma FlushedTextOne(o: Output)
    ensures FlushedText([o]) == if o.KeySequence? then o.text else ""
  {
    assert [o][1..] == [];
  }

  /** What one event types: its text when it is a typing key, nothing otherwise. */
  lemma TypedTextOne(ev: Event, printable: string -> bool)
    ensures TypedText([ev], printable) == if ev.name == "key" && Textual(TextOf(ev), printable) then TextOf(ev) else ""
  {
    assert [ev][1..] == [];
  }

  lemma TypedTextCons(evs: seq<Event>, printable: string -> bool)
    requires |evs| > 0
    ensures TypedText(evs, printable) == TypedText([evs[0]], printable) + TypedText(evs[1..], printable)
  {
    TypedTextOne(evs[0], printable);
  }

  /** A non-key event hands on the pending text and leaves nothing pending. */
  lemma NonKeyKeepsText(pending: Option<KeyBuffer>, ev: Event, printable: string -> bool)
    requires ev.name != "key"
    ensures var r := LogEvent(pending, ev, printable);
      FlushedText(r.out) + PendingText(r.pending) == PendingText(pending) + TypedText([ev], printable)
  {
    var f := FlushPending(pending, "non_key_event");
    var last := Emitted(ev.name, Level(ev.level), ev.ts);
    assert LogEvent(pending, ev, printable) == Coalesced(None, f.out + [last]);
    FlushHandsOnText(pending, "non_key_event");
    FlushedTextConcat(f.out, [last]);
    FlushedTextOne(last);
    TypedTextOne(ev, printable);
  }

  /** A key that types nothing hands on the pending text and leaves nothing pending. */
  lemma NonTextualKeepsText(pending: Option<KeyBuffer>, ev: Event, printable: string -> bool)
    requires ev.name == "key" && !Textual(TextOf(ev), printable)
    ensures var r := LogEvent(pending, ev, printable);
      FlushedText(r.out) + PendingText(r.pending) == PendingText(pending) + TypedText([ev], printable)
  {
    var raw := [KeyLogged(ev)];
    var t := if pending.Some? && ev.ts - pending.value.lastTs > Timeout
             then FlushKeyBuffer(pending, "timeout") else Coalesced(pending, []);
    var f := FlushPending(t.pending, "non_textual_key");
    var last := Emitted(ev.name, Level(ev.level), ev.ts);
    assert LogEvent(pending, ev, printable) == Coalesced(None, raw + t.out + f.out + [last]);
    FlushHandsOnText(pending, "timeout");
    FlushHandsOnText(t.pending, "non_textual_key");
    assert FlushedText(t.out) + FlushedText(f.out) == PendingText(pending);
    FlushedTextOne(KeyLogged(ev));
    FlushedTextOne(last);
    FlushedTextConcat(raw, t.out);
    FlushedTextConcat(raw + t.out, f.out);
    FlushedTextConcat(raw + t.out + f.out, [last]);
    TypedTextOne(ev, printable);
  }

  /** A typing key hands on whatever it flushes and adds its text after the pending text. */
  lemma TypingKeepsText(pending: Option<KeyBuffer>, ev: Event, printable: string -> bool)
    requires ev.name == "key" && Textual(TextOf(ev), printable)
    ensures var r := LogEvent(pending, ev, printable);
      FlushedText(r.out) + PendingText(r.pending) == PendingText(pending) + TypedText([ev], printable)
  {
    var raw := [KeyLogged(ev)];
    var t := if pending.Some? && ev.ts - pending.value.lastTs > Timeout
             then FlushKeyBuffer(pending, "timeout") else Coalesced(pending, []);
    FlushHandsOnText(pending, "timeout");
    assert FlushedText(t.out) + PendingText(t.pending) == PendingText(pending);
    FlushedTextOne(KeyLogged(ev));
    FlushedTextConcat(raw, t.out);
    TypedTextOne(ev, printable);
    if t.pending.Some? && Continues(t.pending.value, ev) {
      assert LogEvent(pending, ev, printable) == Coalesced(Some(Extend(t.pending.value, ev)), raw + t.out);
    } else {
      var f := FlushKeyBuffer(t.pending, "sequence_break");
      assert LogEvent(pending, ev, printable) == Coalesced(Some(Start(ev)), raw + t.out + f.out);
      FlushHandsOnText(t.pending, "sequence_break");
      FlushedTextConcat(raw + t.out, f.out);
    }
  }

  /** One call neither loses nor reorders typed text. */
  lemma StepKeepsText(pending: Option<KeyBuffer>, ev: Event, printable: string -> bool)
    ensures var r := LogEvent(pending, ev, printable);
      FlushedText(r.out) + PendingText(r.pending)
      == PendingText(pending) + TypedText([ev], printable)
  {
    if ev.name != "key" {
      NonKeyKeepsText(pending, ev, printable);
    } else if !Textual(TextOf(ev), printable) {
      NonTextualKeepsText(pending, ev, printable);
    } else {
      TypingKeepsText(pending, ev, printable);
    }
  }

  lemma Regroup(fa: string, fb: string, pa: string, pb: string, p0: string, t0: string, tr: string)
    requires fa + pa == p0 + t0
    requires fb + pb == pa + tr
    ensures (fa + fb) + pb == p0 + (t0 + tr)
  {
    calc {
      (fa + fb) + pb;
      fa + (fb + pb);
      fa + (pa + tr);
      (fa + pa) + tr;
      (p0 + t0) + tr;
    }
  }

  /**
   * No keystroke is lost or reordered: over any series of events, the texts
   * of the flushed sequences followed by the pending text are the pending
   * text before the series followed by everything typed during it.
   */
  lemma {:induction false} NoTypedTextLost(pending: Option<KeyBuffer>, evs: seq<Event>, printable: string -> bool)
    ensures var r := Run(pending, evs, printable);
      FlushedText(r.out) + PendingText(r.pending) == PendingText(pending) + TypedText(evs, printable)
    decreases |evs|
  {
    if |evs| > 0 {
      var a := LogEvent(pending, evs[0], printable);
      var b := Run(a.pending, evs[1..], printable);
      var r := Run(pending, evs, printable);
      assert r == Coalesced(b.pending, a.out + b.out);
      StepKeepsText(pending, evs[0], printable);
      NoTypedTextLost(a.pending, evs[1..], printable);
      FlushedTextConcat(a.out, b.out);
      TypedTextCons(evs, printable);
      Regroup(FlushedText(a.out), FlushedText(b.out), PendingText(a.pending), PendingText(b.pending),
              PendingText(pending), TypedText([evs[0]], printable), TypedText(evs[1..], printable));
    }
  }

  /** `ev` is a key event by `user` in `widget` that produced the entry `e`. */
  predicate KeyBy(ev: Event, e: KeyEntry, user: Option<string>, widget: Option<string>) {
    ev.name == "key" && Entry(ev) == e && ev.user == user && ev.widget == widget
  }

  /** Some key event among `evs` by `user` in `widget` produced `e`. */
  ghost predicate TypedBy(e: KeyEntry, user: Option<string>, widget: Option<string>, evs: seq<Event>) {
    exists j :: 0 <= j < |evs| && KeyBy(evs[j], e, user, widget)
  }

  /** Every key of a sequence was typed by its user into its widget. */
  ghost predicate Attributed(keys: seq<KeyEntry>, user: Option<string>, widget: Option<string>, evs: seq<Event>) {
    forall i :: 0 <= i < |keys| ==> TypedBy(keys[i], user, widget, evs)
  }

  ghost predicate PendingAttributed(pending: Option<KeyBuffer>, evs: seq<Event>) {
    pending.Some? ==> Attributed(pending.value.keys, pending.value.user, pending.value.widget, evs)
  }

  ghost predicate OutAttributed(out: seq<Output>, evs: seq<Event>) {
    forall i :: 0 <= i < |out| && out[i].KeySequence? ==> Attributed(out[i].keys, out[i].user, out[i].widget, evs)
  }

  /** A longer history still holds every key event of a shorter one. */
  lemma AttributedGrows(keys: seq<KeyEntry>, user: Option<string>, widget: Option<string>, evs: seq<Event>, more: seq<Event>)
    requires Attributed(keys, user, widget, evs)
    ensures Attributed(keys, user, widget, evs + more)
  {
    forall i | 0 <= i < |keys|
      ensures TypedBy(keys[i], user, widget, evs + more)
    {
      assert TypedBy(keys[i], user, widget, evs);
      var j :| 0 <= j < |evs| && KeyBy(evs[j], keys[i], user, widget);
      assert (evs + more)[j] == evs[j];
    }
  }

  lemma OutAttributedGrows(out: seq<Output>, evs: seq<Event>, more: seq<Event>)
    requires OutAttributed(out, evs)
    ensures OutAttributed(out, evs + more)
  {
    forall i | 0 <= i < |out| && out[i].KeySequence?
      ensures Attributed(out[i].keys, out[i].user, out[i].widget, evs + more)
    {
      AttributedGrows(out[i].keys, out[i].user, out[i].widget, evs, more);
    }
  }

  lemma OutAttributedConcat(a: seq<Output>, b: seq<Output>, evs: seq<Event>)
    requires OutAttributed(a, evs) && OutAttributed(b, evs)
    ensures OutAttributed(a + b, evs)
  {
    forall i | 0 <= i < |a + b| && (a + b)[i].KeySequence?
      ensures Attributed((a + b)[i].keys, (a + b)[i].user, (a + b)[i].widget, evs)
    {
      if i >= |a| {
        assert (a + b)[i] == b[i - |a|];
      }
    }
  }

  /** One call: every sequence it flushes or keeps pending holds only keys its own user typed into its own widget. */
  lemma StepAttributed(pending: Option<KeyBuffer>, ev: Event, printable: string -> bool, past: seq<Event>)
    requires PendingAttributed(pending, past)
    ensures var r := LogEvent(pending, ev, printable);
      && PendingAttributed(r.pending, past + [ev])
      && OutAttributed(r.out, past + [ev])
  {
    var r := LogEvent(pending, ev, printable);
    var h := past + [ev];
    assert h[|past|] == ev;
    if pending.Some? {
      AttributedGrows(pending.value.keys, pending.value.user, pending.value.widget, past, [ev]);
    }
    if r.pending.Some? {
      var b := r.pending.value;
      forall i | 0 <= i < |b.keys|
        ensures TypedBy(b.keys[i], b.user, b.widget, h)
      {
        if i == |b.keys| - 1 {
          assert KeyBy(h[|past|], b.keys[i], b.user, b.widget);
        }
      }
    }
  }

  /**
   * Over any series of calls, every sequence flushed and the one left
   * pending hold only keys that were typed, as key events of the earlier
   * history `past` or of the series, by that sequence's user into that
   * sequence's widget: a sequence never mixes users or widgets. Starting
   * idle, `past` can be empty.
   */
  lemma {:induction false} KeysShareUserAndWidget(pending: Option<KeyBuffer>, evs: seq<Event>, printable: string -> bool, past: seq<Event>)
    requires PendingAttributed(pending, past)
    ensures var r := Run(pending, evs, printable);
      && OutAttributed(r.out, past + evs)
      && PendingAttributed(r.pending, past + evs)
    decreases |evs|
  {
    if |evs| > 0 {
      var a := LogEvent(pending, evs[0], printable);
      var b := Run(a.pending, evs[1..], printable);
      StepAttributed(pending, evs[0], printable, past);
      KeysShareUserAndWidget(a.pending, evs[1..], printable, past + [evs[0]]);
      assert (past + [evs[0]]) + evs[1..] == past + evs;
      OutAttributedGrows(a.out, past + [evs[0]], evs[1..]);
      OutAttributedConcat(a.out, b.out, past + evs);
    } else {
      assert past + evs == past;
    }
  }

  function AnyText(s: string): bool {
    true
  }

  /** A typing key from operator `op` in widget `w`. */
  function Typing(c: string, ts: int): Event {
    Event("key", "info", ts, None, None, Some(c), Some("op"), Some("w"))
  }

  /**
   * Keys `a`, `b`, `c` at 0, 300 and 900 ms coalesce into one sequence
   * `abc`; a key `d` at 2500 ms, more than a second later, flushes it with
   * reason `timeout` and starts a new sequence.
   */
  lemma TypingExample()
    ensures
      var evs := [Typing("a", 0), Typing("b", 300), Typing("c", 900), Typing("d", 2500)];
      var r := Run(None, evs, AnyText);
      && r.out == [KeyLogged(evs[0]), KeyLogged(evs[1]), KeyLogged(evs[2]), KeyLogged(evs[3]),
                   KeySequence("abc", 3, Some("op"), Some("w"), 0, 900,
                               [Entry(evs[0]), Entry(evs[1]), Entry(evs[2])], "timeout", "info")]
      && r.pending == Some(Start(evs[3]))
      && r.pending.value.text == "d"
  {
    var evs := [Typing("a", 0), Typing("b", 300), Typing("c", 900), Typing("d", 2500)];
    assert Level("info") == "info";
    var s1 := LogEvent(None, evs[0], AnyText);
    assert s1.pending == Some(Start(evs[0]));
    var s2 := LogEvent(s1.pending, evs[1], AnyText);
    assert s2.pending == Some(Extend(Start(evs[0]), evs[1]));
    var s3 := LogEvent(s2.pending, evs[2], AnyText);
    var b3 := Extend(Extend(Start(evs[0]), evs[1]), evs[2]);
    assert s3.pending == Some(b3);
    assert b3.text == "abc";
    assert b3.keys == [Entry(evs[0]), Entry(evs[1]), Entry(evs[2])];
    assert SequenceOf(b3, "timeout") == KeySequence("abc", 3, Some("op"), Some("w"), 0, 900,
                               [Entry(evs[0]), Entry(evs[1]), Entry(evs[2])], "timeout", "info");
    assert s1.out == [KeyLogged(evs[0])];
    assert s2.out == [KeyLogged(evs[1])];
    assert s3.out == [KeyLogged(evs[2])];
    var s4 := LogEvent(s3.pending, evs[3], AnyText);
    assert s4.out == [KeyLogged(evs[3]), SequenceOf(b3, "timeout")];
    assert evs[3..][1..] == [];
    assert Run(s4.pending, evs[3..][1..], AnyText) == Coalesced(s4.pending, []);
    assert Run(s3.pending, evs[3..], AnyText) == Coalesced(s4.pending, s4.out);
    assert evs[2..][1..] == evs[3..];
    assert Run(s2.pending, evs[2..], AnyText) == Coalesced(s4.pending, s3.out + s4.out);
    assert evs[1..][1..] == evs[2..];
    assert Run(s1.pending, evs[1..], AnyText) == Coalesced(s4.pending, s2.out + (s3.out + s4.out));
    assert Run(None, evs, AnyText) == Coalesced(s4.pending, s1.out + (s2.out + (s3.out + s4.out)));
  }
}
