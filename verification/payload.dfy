/**
 * Event payloads: caller-supplied fields are merged into a payload, and
 * any value the wire format cannot represent is replaced by its text.
 */
module Payload {

  /**
   * A field value: the scalars the wire format represents, or a foreign
   * object, known only by its textual form.
   */
  datatype Value = Null | Flag(b: bool) | Number(n: int) | Text(s: string) | Foreign(text: string)

  /** Whether the wire format can represent a value as it is. */
  predicate Serializable(v: Value) {
    !v.Foreign?
  }

  /** The value that goes on the wire: the value itself, or its text when it cannot. */
  function Coerce(v: Value): (w: Value)
    ensures Serializable(w)
    ensures Serializable(v) ==> w == v
    ensures v.Foreign? ==> w == Text(v.text)
  {
    if v.Foreign? then Text(v.text) else v
  }

  ghost predicate AllSerializable(m: map<string, Value>) {
    forall k :: k in m ==> Serializable(m[k])
  }

  /**
   * `_merge_payload`: every caller field is set on the payload, coerced to
   * something the wire format represents; a caller field overrides a payload
   * field of the same name (even `ts` or `event`); other payload fields stay.
   */
  function MergePayload(payload: map<string, Value>, extra: map<string, Value>): (r: map<string, Value>)
    ensures r.Keys == payload.Keys + extra.Keys
    ensures forall k :: k in extra ==> r[k] == Coerce(extra[k])
    ensures forall k :: k in payload && k !in extra ==> r[k] == payload[k]
    ensures AllSerializable(payload) ==> AllSerializable(r)
  {
    map k | k in payload.Keys + extra.Keys :: if k in extra then Coerce(extra[k]) else payload[k]
  }

  /** Merging fields the wire format already represents is plain map override. */
  lemma MergeSerializableIsOverride(payload: map<string, Value>, extra: map<string, Value>)
    requires AllSerializable(extra)
    ensures MergePayload(payload, extra) == payload + extra
  {
  }

  /** Merging the same fields twice changes nothing more. */
  lemma MergeIdempotent(payload: map<string, Value>, extra: map<string, Value>)
    ensures MergePayload(MergePayload(payload, extra), extra) == MergePayload(payload, extra)
  {
  }
}
