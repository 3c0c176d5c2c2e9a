/** How a count gets onto the wire: the aggregate count is merged into the event's JSON payload, and reading it back
    from everything that was pushed gives the number of events that were submitted. */
module WireCount {
  import opened Options
  import opened Events
  import opened InterleavedDebouncer
  import opened DebouncerSafety

  const AGGREGATE_COUNT := "aggregate_count"
  const ORIGINAL_PAYLOAD := "payload"

  /** A JSON value can be encoded unless some string in it is not valid UTF-8. */
  predicate Encodable(j: Json) {
    match j
    case Str(_, valid) => valid
    case Array(items) => forall i :: 0 <= i < |items| ==> Encodable(items[i])
    case Object(fields) => forall f :: f in fields ==> Encodable(fields[f])
    case _ => true
  }

  /** Decoding a JSON text sends every number through a 64-bit float; float says which integer comes out. */
  function Decoded(j: Json, float: int -> int): Json {
    match j
    case Number(n) => Number(float(n))
    case Array(items) => Array(seq(|items|, i requires 0 <= i < |items| => Decoded(items[i], float)))
    case Object(fields) => Object(map f | f in fields :: Decoded(fields[f], float))
    case _ => j
  }

  /** No number in the value is changed by that. */
  predicate Exact(j: Json, float: int -> int) {
    match j
    case Number(n) => float(n) == n
    case Array(items) => forall i :: 0 <= i < |items| ==> Exact(items[i], float)
    case Object(fields) => forall f :: f in fields ==> Exact(fields[f], float)
    case _ => true
  }

  /** The object that the count is added to. */
  function Fields(p: Payload, float: int -> int): map<string, Json> {
    match p
    case Empty => map[]
    case Malformed(raw, valid) => map[ORIGINAL_PAYLOAD := Str(raw, valid)]
    case Text(j) => if j.Object? then Decoded(j, float).fields else map[ORIGINAL_PAYLOAD := Decoded(j, float)]
  }

  function Merged(p: Payload, count: int, float: int -> int): Option<Payload> {
    var obj := Fields(p, float)[AGGREGATE_COUNT := Number(count)];
    if count > 1 && Encodable(Object(obj)) then Some(Text(Object(obj))) else None
  }

  /** Everything but a count of its own can be encoded. */
  predicate Sendable(p: Payload) {
    match p
    case Empty => true
    case Malformed(_, valid) => valid
    case Text(j) =>
      if j.Object? then forall f :: f in j.fields && f != AGGREGATE_COUNT ==> Encodable(j.fields[f]) else Encodable(j)
  }

  lemma {:induction false} DecodedEncodes(j: Json, float: int -> int)
    ensures Encodable(Decoded(j, float)) <==> Encodable(j)
  {
    match j
    case Array(items) =>
      forall i | 0 <= i < |items| ensures Encodable(Decoded(items[i], float)) <==> Encodable(items[i]) {
        DecodedEncodes(items[i], float);
      }
      assert forall i :: 0 <= i < |items| ==> Decoded(j, float).items[i] == Decoded(items[i], float);
    case Object(fields) =>
      forall f | f in fields ensures Encodable(Decoded(fields[f], float)) <==> Encodable(fields[f]) {
        DecodedEncodes(fields[f], float);
      }
      assert forall f :: f in fields ==> Decoded(j, float).fields[f] == Decoded(fields[f], float);
    case _ =>
  }

  /** Replacing the count leaves an object that can be encoded exactly if all of the rest can. */
  lemma MergeEncodes(p: Payload, count: int, float: int -> int)
    ensures Encodable(Object(Fields(p, float)[AGGREGATE_COUNT := Number(count)])) <==> Sendable(p)
  {
    var fields := Fields(p, float);
    var obj := fields[AGGREGATE_COUNT := Number(count)];
    assert AGGREGATE_COUNT != ORIGINAL_PAYLOAD;
    assert forall f :: f in fields && f != AGGREGATE_COUNT ==> obj[f] == fields[f];
    assert Encodable(Object(obj)) <==> forall f :: f in fields && f != AGGREGATE_COUNT ==> Encodable(fields[f]);
    match p
    case Empty =>
    case Malformed(raw, valid) => assert fields[ORIGINAL_PAYLOAD] == Str(raw, valid);
    case Text(j) =>
      if j.Object? {
        forall f | f in j.fields ensures Encodable(fields[f]) <==> Encodable(j.fields[f]) {
          DecodedEncodes(j.fields[f], float);
        }
      } else {
        DecodedEncodes(j, float);
        assert fields[ORIGINAL_PAYLOAD] == Decoded(j, float);
      }
  }

  /** Injects the count; None tells the caller to leave its event alone. */
  method MergeAggregateCount(payload: Payload, count: int, float: int -> int) returns (merged: Option<Payload>)
    ensures merged.Some? <==> count > 1 && Sendable(payload)
    ensures merged == Merged(payload, count, float)
  {
    MergeEncodes(payload, count, float);
    if count <= 1 {
      return None;
    }
    var obj: map<string, Json> := map[];
    if payload != Empty {
      if payload.Text? {
        var decoded := Decoded(payload.json, float);
        if decoded.Object? {
          obj := decoded.fields;
        } else {
          obj := obj[ORIGINAL_PAYLOAD := decoded];
        }
      } else {
        obj := obj[ORIGINAL_PAYLOAD := Str(payload.raw, payload.validUtf8)];
      }
    }
    obj := obj[AGGREGATE_COUNT := Number(count)];
    if !Encodable(Object(obj)) {
      return None;
    }
    return Some(Text(Object(obj)));
  }

  /** The event as a message that callers share by reference. */
  class EventMessage {
    var event: Event

    constructor (event: Event)
      ensures this.event == event
    {
      this.event := event;
    }
  }

  function Annotated(e: Event, count: int, float: int -> int): Event {
    match Merged(e.payload, count, float)
    case Some(p) => e.(payload := p)
    case None => e
  }

  /** Copy on annotate: the message passed in is never modified, and is returned itself when there is nothing to add. */
  method WithAggregateCount(message: EventMessage?, count: int, float: int -> int) returns (r: EventMessage?)
    ensures message == null ==> r == null
    ensures message != null ==> r != null && r.event == Annotated(message.event, count, float)
    ensures message != null ==> if count > 1 && Sendable(message.event.payload) then fresh(r) else r == message
    ensures message != null ==> r.event.key == message.event.key && r.event.kind == message.event.kind
  {
    if message == null {
      return message;
    }
    var merged := MergeAggregateCount(message.event.payload, count, float);
    if merged.None? {
      return message;
    }
    var clone := new EventMessage(message.event);
    clone.event := clone.event.(payload := merged.value);
    return clone;
  }

  // ------------------------------------------------------------------ reading it back

  predicate HasOwnCount(p: Payload) {
    p.Text? && p.json.Object? && AGGREGATE_COUNT in p.json.fields
  }

  /** How many occurrences a reader takes a pushed event to stand for. */
  function WireCount(p: Payload): int {
    if HasOwnCount(p) && p.json.fields[AGGREGATE_COUNT].Number? then p.json.fields[AGGREGATE_COUNT].n else 1
  }

  /** The payload can be encoded again. */
  predicate Mergeable(p: Payload) {
    match p
    case Empty => true
    case Malformed(_, valid) => valid
    case Text(j) => Encodable(j)
  }

  /** The count arrives exactly when there is none to send, or the payload can be encoded again. */
  lemma CountReadsBack(e: Event, count: nat, float: int -> int)
    requires count > 0 && !HasOwnCount(e.payload)
    ensures WireCount(Annotated(e, count, float).payload) == count <==> count == 1 || Mergeable(e.payload)
  {
    MergeEncodes(e.payload, count, float);
    assert WireCount(e.payload) == 1;
  }

  /** For every payload and count: a reader finds the count if there is one to send and the rest can be encoded, and
      otherwise what the event said before. */
  lemma CountOnWire(e: Event, count: int, float: int -> int)
    ensures WireCount(Annotated(e, count, float).payload) ==
            if count > 1 && Sendable(e.payload) then count else WireCount(e.payload)
  {
    MergeEncodes(e.payload, count, float);
  }

  /** An event whose payload neither parses nor is valid UTF-8, emitted for two occurrences, is read as one. */
  lemma CountLost(kind: string, raw: string, float: int -> int)
    ensures var e := Event(NoKey, kind, Malformed(raw, false));
            Annotated(e, 2, float) == e && WireCount(Annotated(e, 2, float).payload) == 1
  {
    var p := Malformed(raw, false);
    MergeEncodes(p, 2, float);
  }

  // ------------------------------------------------------------------ what is inside a value

  /** One move into a value: to an item of an array, or to a field of an object. */
  datatype Hop = Item(index: nat) | Field(name: string)

  /** What a path leads to. */
  function Inside(j: Json, path: seq<Hop>): Option<Json>
    decreases |path|
  {
    if path == [] then Some(j)
    else if j.Array? && path[0].Item? && path[0].index < |j.items| then Inside(j.items[path[0].index], path[1..])
    else if j.Object? && path[0].Field? && path[0].name in j.fields then Inside(j.fields[path[0].name], path[1..])
    else None
  }

  lemma {:induction false} EncodableInside(j: Json, path: seq<Hop>)
    requires Encodable(j) && Inside(j, path).Some?
    ensures Encodable(Inside(j, path).value)
    decreases |path|
  {
    if path != [] {
      EncodableInside(if j.Array? then j.items[path[0].index] else j.fields[path[0].name], path[1..]);
    }
  }

  lemma HopIn(j: Json, hop: Hop, path: seq<Hop>)
    ensures Inside(j, [hop] + path) ==
            if j.Array? && hop.Item? && hop.index < |j.items| then Inside(j.items[hop.index], path)
            else if j.Object? && hop.Field? && hop.name in j.fields then Inside(j.fields[hop.name], path)
            else None
  {
    assert ([hop] + path)[1..] == path;
  }

  lemma {:induction false} BadString(j: Json) returns (path: seq<Hop>)
    requires !Encodable(j)
    ensures Inside(j, path).Some? && Inside(j, path).value.Str? && !Inside(j, path).value.validUtf8
  {
    match j
    case Array(items) =>
      var i :| 0 <= i < |items| && !Encodable(items[i]);
      var rest := BadString(items[i]);
      HopIn(j, Item(i), rest);
      path := [Item(i)] + rest;
    case Object(fields) =>
      var f :| f in fields && !Encodable(fields[f]);
      var rest := BadString(fields[f]);
      HopIn(j, Field(f), rest);
      path := [Field(f)] + rest;
    case _ =>
      path := [];
  }

  /** A value can be encoded if and only if every string inside it, however deep, is valid UTF-8. */
  lemma EncodableIff(j: Json)
    ensures Encodable(j) <==>
            forall path :: Inside(j, path).Some? && Inside(j, path).value.Str? ==> Inside(j, path).value.validUtf8
  {
    if Encodable(j) {
      forall path | Inside(j, path).Some? && Inside(j, path).value.Str? ensures Inside(j, path).value.validUtf8 {
        EncodableInside(j, path);
      }
    } else {
      var path := BadString(j);
    }
  }

  /** What a value looks like from outside once its numbers have been through a float. */
  predicate Alike(was: Json, now: Json, float: int -> int) {
    match was
    case Number(n) => now == Number(float(n))
    case Array(items) => now.Array? && |now.items| == |items|
    case Object(fields) => now.Object? && now.fields.Keys == fields.Keys
    case _ => now == was
  }

  /** Decoding changes nothing but numbers, at every place inside a value, and no place comes or goes. */
  lemma {:induction false} DecodedInside(j: Json, float: int -> int, path: seq<Hop>)
    ensures Inside(Decoded(j, float), path).Some? <==> Inside(j, path).Some?
    ensures Inside(j, path).Some? ==> Alike(Inside(j, path).value, Inside(Decoded(j, float), path).value, float)
    decreases |path|
  {
    if path != [] {
      if j.Array? && path[0].Item? && path[0].index < |j.items| {
        DecodedInside(j.items[path[0].index], float, path[1..]);
      } else if j.Object? && path[0].Field? && path[0].name in j.fields {
        DecodedInside(j.fields[path[0].name], float, path[1..]);
      }
    }
  }

  lemma {:induction false} DecodedIfExact(j: Json, float: int -> int)
    ensures Decoded(j, float) == j <==> Exact(j, float)
  {
    match j
    case Array(items) =>
      forall i | 0 <= i < |items| ensures Decoded(items[i], float) == items[i] <==> Exact(items[i], float) {
        DecodedIfExact(items[i], float);
      }
      var d := Decoded(j, float).items;
      assert forall i :: 0 <= i < |items| ==> d[i] == Decoded(items[i], float);
      assert d == items <==> forall i :: 0 <= i < |items| ==> d[i] == items[i];
    case Object(fields) =>
      forall f | f in fields ensures Decoded(fields[f], float) == fields[f] <==> Exact(fields[f], float) {
        DecodedIfExact(fields[f], float);
      }
      var d := Decoded(j, float).fields;
      assert d.Keys == fields.Keys && forall f :: f in fields ==> d[f] == Decoded(fields[f], float);
      assert d == fields <==> forall f :: f in fields ==> d[f] == fields[f];
    case _ =>
  }

  /** Annotating replaces nothing but the count. Every other field of an object payload stays, unchanged exactly when its
      numbers survive the decoding, and anything that is not an object is kept whole under its own name. */
  lemma MergeKeepsPayload(p: Payload, count: int, float: int -> int)
    requires Merged(p, count, float).Some?
    ensures Merged(p, count, float).value.Text? && Merged(p, count, float).value.json.Object?
    ensures var out := Merged(p, count, float).value.json.fields;
            && "aggregate_count" in out && out["aggregate_count"] == Number(count)
            && out.Keys == (match p
                            case Empty => {"aggregate_count"}
                            case Malformed(_, _) => {"payload", "aggregate_count"}
                            case Text(j) =>
                              if j.Object? then j.fields.Keys + {"aggregate_count"} else {"payload", "aggregate_count"})
            && (p.Text? && p.json.Object? ==> forall f :: f in p.json.fields && f != "aggregate_count" ==>
                  && f in out && out[f] == Decoded(p.json.fields[f], float)
                  && (out[f] == p.json.fields[f] <==> Exact(p.json.fields[f], float)))
            && (p.Text? && !p.json.Object? ==>
                  && "payload" in out && out["payload"] == Decoded(p.json, float)
                  && (out["payload"] == p.json <==> Exact(p.json, float)))
            && (p.Malformed? ==> "payload" in out && out["payload"] == Str(p.raw, p.validUtf8))
  {
    assert AGGREGATE_COUNT != ORIGINAL_PAYLOAD;
    if p.Text? && p.json.Object? {
      forall f | f in p.json.fields
        ensures Decoded(p.json.fields[f], float) == p.json.fields[f] <==> Exact(p.json.fields[f], float)
      {
        DecodedIfExact(p.json.fields[f], float);
      }
    } else if p.Text? {
      DecodedIfExact(p.json, float);
    }
  }

  /** A number that the decoding changes, above 2^53 say, is changed by annotating its event. */
  lemma NumberLost(n: int, float: int -> int)
    requires float(n) != n
    ensures var p := Text(Object(map["id" := Number(n)]));
            && Merged(p, 2, float).Some? && "id" in Merged(p, 2, float).value.json.fields
            && Merged(p, 2, float).value.json.fields["id"] == Number(float(n))
  {
    var p := Text(Object(map["id" := Number(n)]));
    assert |"id"| != |AGGREGATE_COUNT| && p.json.fields["id"] == Number(n);
    assert Decoded(p.json, float).fields["id"] == Number(float(n));
    assert !HasOwnCount(p);
    MergeEncodes(p, 2, float);
  }

  lemma {:induction false} DecodedTwice(j: Json, float: int -> int)
    requires forall n :: float(float(n)) == float(n)
    ensures Decoded(Decoded(j, float), float) == Decoded(j, float)
  {
    match j
    case Array(items) =>
      forall i | 0 <= i < |items| ensures Decoded(Decoded(items[i], float), float) == Decoded(items[i], float) {
        DecodedTwice(items[i], float);
      }
    case Object(fields) =>
      forall f | f in fields ensures Decoded(Decoded(fields[f], float), float) == Decoded(fields[f], float) {
        DecodedTwice(fields[f], float);
      }
    case _ =>
  }

  lemma FieldTwice(p: Payload, float: int -> int, f: string)
    requires f in Fields(p, float) && forall n :: float(float(n)) == float(n)
    ensures Decoded(Fields(p, float)[f], float) == Fields(p, float)[f]
  {
    match p
    case Text(j) => if j.Object? { DecodedTwice(j.fields[f], float); } else { DecodedTwice(j, float); }
    case _ =>
  }

  /** Annotating twice is annotating with the last count: what has been through a float once is not changed again. */
  lemma MergeTwice(p: Payload, first: int, second: int, float: int -> int)
    requires Merged(p, first, float).Some? && second > 1 && forall n :: float(float(n)) == float(n)
    ensures Merged(Merged(p, first, float).value, second, float) == Merged(p, second, float)
  {
    var once := Fields(p, float)[AGGREGATE_COUNT := Number(first)];
    var again := Fields(Text(Object(once)), float);
    var twice := Fields(p, float)[AGGREGATE_COUNT := Number(second)];
    forall f | f in Fields(p, float) && f != AGGREGATE_COUNT ensures again[f] == Fields(p, float)[f] {
      FieldTwice(p, float, f);
    }
    assert again[AGGREGATE_COUNT := Number(second)] == twice;
    forall f | f in twice ensures Encodable(twice[f]) {
      assert f != AGGREGATE_COUNT ==> twice[f] == once[f];
    }
  }

  // ------------------------------------------------------------------ end to end

  /** What a reader adds up over everything that was pushed for key k. */
  function WireTotal(es: seq<Emit>, k: Key, float: int -> int): int {
    if es == [] then 0
    else
      var x := es[|es| - 1];
      WireTotal(es[..|es| - 1], k, float) +
      (if x.event.key == k then WireCount(Annotated(x.event, x.count, float).payload) else 0)
  }

  /** Everything the machine emits, or is about to, was submitted, and is emitted for at least one occurrence. */
  ghost predicate Sourced(s: State) {
    && (forall id :: 0 <= id < |s.heap| ==> s.heap[id].last in s.submitted)
    && (forall i :: 0 <= i < |s.threads| && s.threads[i].Emitting? ==>
          s.threads[i].event in s.submitted && s.threads[i].count > 0)
    && (forall i :: 0 <= i < |s.emitted| ==> s.emitted[i].event in s.submitted && s.emitted[i].count > 0)
  }

  lemma SubmitSourced(s: State, e: Event)
    requires Inv(s) && Sourced(s)
    ensures Sourced(DoSubmit(s, e))
  {
    var submitted := s.submitted + [e];
    assert submitted[|s.submitted|] == e;
    assert forall x :: x in s.submitted ==> x in submitted;
  }

  lemma RunSourced(s: State, i: nat)
    requires Inv(s) && Sourced(s) && Enabled(s, Run(i))
    ensures Sourced(DoRun(s, i))
  {
    var t := s.threads[i];
    match t {
      case Holding(id) => assert id in Held(t) && Left(Held(t), |s.heap|, s.pending.Values);
      case Stopping(rest) =>
        if rest != [] {
          assert rest[0] in Held(t) && Left(Held(t), |s.heap|, s.pending.Values);
        }
      case _ =>
    }
  }

  lemma StepSourced(s: State, a: Action)
    requires Inv(s) && Sourced(s) && Enabled(s, a)
    ensures Sourced(Step(s, a))
  {
    match a
    case Submit(event) => if event.Some? { SubmitSourced(s, event.value); }
    case Run(i) => RunSourced(s, i);
    case _ =>
  }

  lemma {:induction false} AlwaysSourced(ss: seq<State>, acts: seq<Action>, n: nat)
    requires Execution(ss, acts) && n < |ss|
    ensures Sourced(ss[n])
  {
    if n == 0 {
    } else {
      AlwaysSourced(ss, acts, n - 1);
      AlwaysConserved(ss, acts, n - 1);
      StepSourced(ss[n - 1], acts[n - 1]);
      assert ss[n - 1 + 1] == Step(ss[n - 1], acts[n - 1]);
    }
  }

  lemma {:induction false} TotalIsEmitted(es: seq<Emit>, k: Key, float: int -> int)
    requires forall i :: 0 <= i < |es| ==> es[i].count > 0 && !HasOwnCount(es[i].event.payload) && Mergeable(es[i].event.payload)
    ensures WireTotal(es, k, float) == EmittedCount(es, k)
  {
    if es == [] {
    } else {
      var x := es[|es| - 1];
      TotalIsEmitted(es[..|es| - 1], k, float);
      CountReadsBack(x.event, x.count, float);
    }
  }

  /** End to end: in any run that has settled, what a reader adds up for a key is the number of events submitted for it. */
  lemma WireCountsSubmissions(ss: seq<State>, acts: seq<Action>, n: nat, k: Key, float: int -> int)
    requires Execution(ss, acts) && n < |ss|
    requires AllDone(ss[n]) && (ss[n].stopped || NoTimers(ss[n]))
    requires forall e :: e in ss[n].submitted ==> !HasOwnCount(e.payload) && Mergeable(e.payload)
    ensures WireTotal(ss[n].emitted, k, float) == Count(ss[n].submitted, k)
  {
    AlwaysSourced(ss, acts, n);
    TotalIsEmitted(ss[n].emitted, k, float);
    NothingLost(ss, acts, n, k);
  }
}
