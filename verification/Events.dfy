/** The values that the event pipeline passes around: JSON documents, system events and emissions. */
module Events {

  /** A decoded JSON value. A string remembers whether its bytes are valid UTF-8, because encoding one that is not fails. */
  datatype Json =
    | Null
    | Bool(b: bool)
    | Number(n: int)
    | Str(chars: string, validUtf8: bool)
    | Array(items: seq<Json>)
    | Object(fields: map<string, Json>)

  /** The payload_json field: absent, text that does not parse, or the text of a JSON value. */
  datatype Payload =
    | Empty
    | Malformed(raw: string, validUtf8: bool)
    | Text(json: Json)

  /** A dedupe key. Keys are only ever compared, so they are numbered; NoKey is the empty string, which asks for no debouncing. */
  datatype Key = NoKey | Key(id: nat)

  /** A system event: the dedupe key it is grouped by, what happened, and its payload. */
  datatype Event = Event(key: Key, kind: string, payload: Payload)

  /** One call of the emit callback, and the instant at which it was made. */
  datatype Emission = Emission(event: Event, count: nat, at: int)

  /** The emissions for one key, in order. */
  function Trace(es: seq<Emission>, k: Key): seq<Emission> {
    if es == [] then []
    else Trace(es[..|es| - 1], k) + (if es[|es| - 1].event.key == k then [es[|es| - 1]] else [])
  }

  lemma TraceConcat(a: seq<Emission>, b: seq<Emission>, k: Key)
    ensures Trace(a + b, k) == Trace(a, k) + Trace(b, k)
  {
    if b == [] {
      assert a + b == a;
    } else {
      assert (a + b)[..|a + b| - 1] == a + b[..|b| - 1];
      TraceConcat(a, b[..|b| - 1], k);
    }
  }

  lemma TraceOne(a: seq<Emission>, e: Emission, k: Key)
    ensures Trace(a + [e], k) == if e.event.key == k then Trace(a, k) + [e] else Trace(a, k)
  {
    assert (a + [e])[..|a|] == a;
  }
}
