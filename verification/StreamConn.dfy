/** A connection that carries a byte stream over WebSocket messages (section 5.6 of RFC 6455): every Write is one binary
    message, and Read serves messages piece by piece from a leftover buffer. */
module StreamConns {
  newtype byte = b: int | 0 <= b < 256

  type Bytes = seq<byte>

  /** A message as the WebSocket layer delivers it; past the last one, or at a broken one, reading a message fails. */
  datatype Message = Binary(data: Bytes) | NotBinary(kind: nat) | Broken

  datatype ReadError = NoError | EndOfFile | ReadFailed | UnexpectedType(kind: nat)

  /** The reading side: bytes left over from the last message, and the messages still to come. */
  datatype Stream = Stream(buffer: Bytes, inbound: seq<Message>)

  /** bytes.Buffer.Read: an empty buffer is the end of the file, unless nothing was asked for. */
  function ServeBuffer(s: Stream, size: nat): (r: (Stream, Bytes, ReadError))
    ensures |r.1| <= size
  {
    if s.buffer == [] then (s, [], if size == 0 then NoError else EndOfFile)
    else
      var n := if size < |s.buffer| then size else |s.buffer|;
      (s.(buffer := s.buffer[n..]), s.buffer[..n], NoError)
  }

  function ReadFrom(s: Stream, size: nat): (r: (Stream, Bytes, ReadError))
    ensures |r.1| <= size
  {
    if s.buffer != [] then ServeBuffer(s, size)
    else if s.inbound == [] then (s, [], ReadFailed)
    else
      var rest := s.(inbound := s.inbound[1..]);
      match s.inbound[0]
      case Broken => (rest, [], ReadFailed)
      case NotBinary(kind) => (rest, [], UnexpectedType(kind))
      case Binary(data) => ServeBuffer(rest.(buffer := data), size)
  }

  /** The connection object; both ends of the link use this adaptor. */
  class Conn {
    var readBuffer: Bytes
    var inbound: seq<Message>
    var outbound: seq<Message>

    function View(): Stream
      reads this
    {
      Stream(readBuffer, inbound)
    }

    constructor (inbound: seq<Message>)
      ensures View() == Stream([], inbound) && outbound == []
    {
      this.readBuffer, this.inbound, this.outbound := [], inbound, [];
    }

    /** Copies up to p.Length bytes into p. */
    method Read(p: array<byte>) returns (n: nat, err: ReadError)
      modifies this`readBuffer, this`inbound, p
      ensures n <= p.Length && (View(), p[..n], err) == ReadFrom(old(View()), p.Length)
      ensures p[n..] == old(p[n..])
    {
      if |readBuffer| == 0 {
        if inbound == [] {
          return 0, ReadFailed;
        }
        var message := inbound[0];
        inbound := inbound[1..];
        match message {
          case Broken => return 0, ReadFailed;
          case NotBinary(kind) => return 0, UnexpectedType(kind);
          case Binary(data) => readBuffer := data;
        }
      }
      if |readBuffer| == 0 {
        return 0, if p.Length == 0 then NoError else EndOfFile;
      }
      var data, rest := readBuffer, inbound;
      n := if p.Length < |data| then p.Length else |data|;
      for i := 0 to n
        invariant p[..i] == data[..i]
        invariant p[i..] == old(p[i..])
        invariant readBuffer == data && inbound == rest
      {
        p[i] := data[i];
      }
      readBuffer := data[n..];
      err := NoError;
    }

    /** Sends p as one message, unless the WebSocket layer fails. */
    method Write(p: array<byte>, linkUp: bool) returns (n: nat, ok: bool)
      modifies this`outbound
      ensures ok == linkUp && n == (if ok then p.Length else 0)
      ensures outbound == if ok then old(outbound) + [Binary(p[..])] else old(outbound)
    {
      if !linkUp {
        return 0, false;
      }
      outbound := outbound + [Binary(p[..])];
      return p.Length, true;
    }
  }

  /** The server's end also has a done channel, and closes both it and the socket once. */
  class ServerConn {
    const conn: Conn
    var closed: bool
    var socketCloses: nat
    var doneCloses: nat

    ghost predicate Valid()
      reads this
    {
      socketCloses == doneCloses == if closed then 1 else 0
    }

    constructor (conn: Conn)
      ensures Valid() && !closed && this.conn == conn
    {
      this.conn := conn;
      closed, socketCloses, doneCloses := false, 0, 0;
    }

    /** Only the first call reports what closing the socket returned. */
    method Close(socketOk: bool) returns (ok: bool)
      requires Valid()
      modifies this
      ensures Valid() && closed && socketCloses == 1 && doneCloses == 1
      ensures ok == (old(closed) || socketOk)
    {
      if closed {
        return true;
      }
      closed := true;
      socketCloses := socketCloses + 1;
      doneCloses := doneCloses + 1;
      return socketOk;
    }
  }

  // ------------------------------------------------------------------ the stream

  function Concat(parts: seq<Bytes>): Bytes {
    if parts == [] then [] else parts[0] + Concat(parts[1..])
  }

  lemma {:induction false} ConcatAppend(parts: seq<Bytes>, p: Bytes)
    ensures Concat(parts + [p]) == Concat(parts) + p
  {
    if parts == [] {
      assert parts + [p] == [p] && [p][1..] == [];
    } else {
      assert (parts + [p])[1..] == parts[1..] + [p];
      ConcatAppend(parts[1..], p);
    }
  }

  function Payloads(inbound: seq<Message>): seq<Bytes> {
    if inbound == [] then []
    else (if inbound[0].Binary? then [inbound[0].data] else []) + Payloads(inbound[1..])
  }

  /** The bytes a reader has still to get. */
  function Pending(s: Stream): Bytes {
    s.buffer + Concat(Payloads(s.inbound))
  }

  lemma PayloadsHead(inbound: seq<Message>)
    requires inbound != [] && inbound[0].Binary?
    ensures Concat(Payloads(inbound)) == inbound[0].data + Concat(Payloads(inbound[1..]))
  {
    var d, rest := inbound[0].data, Payloads(inbound[1..]);
    assert ([d] + rest)[0] == d && ([d] + rest)[1..] == rest;
  }

  lemma ServeLosesNothing(s: Stream, size: nat)
    ensures var (s', got, _) := ServeBuffer(s, size); Pending(s) == got + Pending(s')
  {
    var (s', got, _) := ServeBuffer(s, size);
    assert got + s'.buffer == s.buffer;
    assert got + (s'.buffer + Concat(Payloads(s.inbound))) == s.buffer + Concat(Payloads(s.inbound));
  }

  /** Whatever a read finds and returns, it takes bytes only from the front of the stream, and loses none. */
  lemma ReadLosesNothing(s: Stream, size: nat)
    ensures var (s', got, _) := ReadFrom(s, size); Pending(s) == got + Pending(s')
  {
    if s.buffer != [] {
      ServeLosesNothing(s, size);
    } else if s.inbound != [] {
      var rest := s.(inbound := s.inbound[1..]);
      if s.inbound[0].Binary? {
        PayloadsHead(s.inbound);
        ServeLosesNothing(rest.(buffer := s.inbound[0].data), size);
      } else {
        assert Payloads(s.inbound) == [] + Payloads(s.inbound[1..]) == Payloads(s.inbound[1..]);
      }
    }
  }

  /** What a read serves from: what is left over, or else the next message, if it is data. */
  function Piece(s: Stream): Bytes {
    if s.buffer != [] then s.buffer
    else if s.inbound != [] && s.inbound[0].Binary? then s.inbound[0].data
    else []
  }

  /** A read returns all of that it was asked for and can, and leaves the rest over; it takes one message exactly when
      nothing is left over; and it fails without data for a broken or missing message, one of another kind, and an empty one
      unless nothing was asked for. */
  lemma ReadServesPiece(s: Stream, size: nat)
    ensures var (s', got, err) := ReadFrom(s, size);
            var n := if size < |Piece(s)| then size else |Piece(s)|;
            && got == Piece(s)[..n] && s'.buffer == Piece(s)[n..]
            && s'.inbound == (if s.buffer == [] && s.inbound != [] then s.inbound[1..] else s.inbound)
            && (Piece(s) != [] ==> err == NoError)
            && (s.buffer == [] && (s.inbound == [] || s.inbound[0].Broken?) ==> err == ReadFailed)
            && (s.buffer == [] && s.inbound != [] && s.inbound[0].NotBinary? ==> err == UnexpectedType(s.inbound[0].kind))
            && (s.buffer == [] && s.inbound != [] && s.inbound[0] == Binary([]) ==>
                  err == if size == 0 then NoError else EndOfFile)
  {
  }

  /** How many bytes come before the first message that is empty, is not data, or cannot be read. */
  function Reach(inbound: seq<Message>): nat {
    if inbound != [] && inbound[0].Binary? && inbound[0].data != [] then |inbound[0].data| + Reach(inbound[1..]) else 0
  }

  /** A read that asks for data returns at least one byte, without an error, exactly when some byte comes before the first
      such message, and then no more than asked for. */
  lemma ReadMakesProgress(s: Stream, size: nat)
    requires size > 0
    ensures var (s', got, err) := ReadFrom(s, size);
            var reach := |s.buffer| + Reach(s.inbound);
            && (err == NoError <==> reach > 0) && (got != [] <==> reach > 0) && |got| <= size
            && (reach > 0 ==> |s'.buffer| + Reach(s'.inbound) == reach - |got|)
            && (err == EndOfFile <==> s.buffer == [] && s.inbound != [] && s.inbound[0] == Binary([]))
  {
  }

  /** What is left after a reading, what it returned, and how it ended. */
  type Reading = (Stream, Bytes, ReadError)

  function Min(a: nat, b: nat): nat {
    if a < b then a else b
  }

  /** A loop that reads until it has n bytes, asking each time for what is missing, or for at most chunk bytes. */
  function Repeated(read: (Stream, nat) -> Reading, s: Stream, n: nat, chunk: nat): Reading
    requires chunk > 0
    decreases n
  {
    if n == 0 then (s, [], NoError)
    else
      var r := read(s, Min(n, chunk));
      if r.2 != NoError || r.1 == [] then r
      else
        var q := Repeated(read, r.0, n - Min(n, |r.1|), chunk);
        (q.0, r.1 + q.1, q.2)
  }

  function ReadFull(s: Stream, n: nat, chunk: nat): Reading
    requires chunk > 0
  {
    Repeated(ReadFrom, s, n, chunk)
  }

  /** Whatever counts as left of a stream: if every single read takes what it returns off its front, so does the loop. */
  lemma {:induction false} RepeatedFollows(
    read: (Stream, nat) -> Reading, left: Stream -> Bytes, s: Stream, n: nat, chunk: nat)
    requires chunk > 0 && forall u, size :: left(u) == read(u, size).1 + left(read(u, size).0)
    ensures left(s) == Repeated(read, s, n, chunk).1 + left(Repeated(read, s, n, chunk).0)
    decreases n
  {
    if n == 0 {
      assert [] + left(s) == left(s);
    } else {
      var r := read(s, Min(n, chunk));
      if r.2 == NoError && r.1 != [] {
        var q := Repeated(read, r.0, n - Min(n, |r.1|), chunk);
        RepeatedFollows(read, left, r.0, n - Min(n, |r.1|), chunk);
        assert r.1 + (q.1 + left(q.0)) == (r.1 + q.1) + left(q.0);
      }
    }
  }

  /** A read that asks for data fails with nothing ahead, and otherwise returns some of it. */
  ghost predicate Advances(read: (Stream, nat) -> Reading, ahead: Stream -> nat, u: Stream, size: nat) {
    var r := read(u, size);
    if ahead(u) == 0 then r.2 != NoError && r.1 == []
    else r.2 == NoError && 0 < |r.1| <= size && ahead(r.0) == ahead(u) - |r.1|
  }

  lemma {:induction false} RepeatedAdvances(
    read: (Stream, nat) -> Reading, ahead: Stream -> nat, s: Stream, n: nat, chunk: nat)
    requires chunk > 0 && forall u, size: nat :: size > 0 ==> Advances(read, ahead, u, size)
    ensures |Repeated(read, s, n, chunk).1| == Min(n, ahead(s))
    ensures Repeated(read, s, n, chunk).2 == NoError <==> n <= ahead(s)
    decreases n
  {
    if n > 0 {
      var r := read(s, Min(n, chunk));
      assert Advances(read, ahead, s, Min(n, chunk));
      if ahead(s) > 0 {
        RepeatedAdvances(read, ahead, r.0, n - Min(n, |r.1|), chunk);
      }
    }
  }

  /** How many bytes are within reach. */
  function Ahead(s: Stream): nat {
    |s.buffer| + Reach(s.inbound)
  }

  lemma ReadFullLosesNothing(s: Stream, n: nat, chunk: nat)
    requires chunk > 0
    ensures Pending(s) == ReadFull(s, n, chunk).1 + Pending(ReadFull(s, n, chunk).0)
  {
    forall u, size ensures Pending(u) == ReadFrom(u, size).1 + Pending(ReadFrom(u, size).0) {
      ReadLosesNothing(u, size);
    }
    RepeatedFollows(ReadFrom, Pending, s, n, chunk);
  }

  lemma ReadFullReaches(s: Stream, n: nat, chunk: nat)
    requires chunk > 0
    ensures |ReadFull(s, n, chunk).1| == Min(n, Ahead(s)) && (ReadFull(s, n, chunk).2 == NoError <==> n <= Ahead(s))
  {
    forall u, size: nat | size > 0 ensures Advances(ReadFrom, Ahead, u, size) {
      ReadMakesProgress(u, size);
    }
    RepeatedAdvances(ReadFrom, Ahead, s, n, chunk);
  }

  /** Reading until n bytes are there always ends. It has then rebuilt exactly the first n bytes of the stream, the rest
      still to come, if and only if no empty, foreign or broken message comes before the n-th byte; otherwise it has all
      the bytes before that message, and an error. */
  lemma ReadFullRebuilds(s: Stream, n: nat, chunk: nat)
    requires chunk > 0
    ensures var (s', got, err) := ReadFull(s, n, chunk);
            var reach := |s.buffer| + Reach(s.inbound);
            && Pending(s) == got + Pending(s')
            && (if n <= reach then |got| == n && err == NoError else |got| == reach && err != NoError)
  {
    ReadFullLosesNothing(s, n, chunk);
    ReadFullReaches(s, n, chunk);
  }

  /** When every message is data and none is empty, everything pending is within reach. */
  lemma {:induction false} AllWithinReach(s: Stream)
    requires forall i :: 0 <= i < |s.inbound| ==> s.inbound[i].Binary? && s.inbound[i].data != []
    ensures |s.buffer| + Reach(s.inbound) == |Pending(s)|
    decreases |s.inbound|
  {
    if s.inbound == [] {
    } else {
      PayloadsHead(s.inbound);
      AllWithinReach(s.(inbound := s.inbound[1..]));
    }
  }

  // ------------------------------------------------------------------ one end writing while the other reads

  /** A link: what was written, what is on its way, and what the reader has got. */
  datatype Link = Link(written: seq<Bytes>, stream: Stream, got: Bytes)

  datatype Action = WriteBytes(p: Bytes) | ReadBytes(size: nat)

  function Act(l: Link, a: Action): Link {
    match a
    case WriteBytes(p) => l.(written := l.written + [p], stream := l.stream.(inbound := l.stream.inbound + [Binary(p)]))
    case ReadBytes(size) => var (s, bytes, _) := ReadFrom(l.stream, size); l.(stream := s, got := l.got + bytes)
  }

  function Acts(l: Link, acts: seq<Action>): Link
    decreases |acts|
  {
    if acts == [] then l else Acts(Act(l, acts[0]), acts[1..])
  }

  /** Nothing written is lost, repeated or reordered. */
  ghost predicate Faithful(l: Link) {
    l.got + Pending(l.stream) == Concat(l.written)
  }

  lemma {:induction false} PayloadsAppend(inbound: seq<Message>, p: Bytes)
    ensures Payloads(inbound + [Binary(p)]) == Payloads(inbound) + [p]
  {
    var longer := inbound + [Binary(p)];
    if inbound == [] {
      assert longer[1..] == [] && Payloads(longer) == [p] + Payloads([]);
    } else {
      assert longer[1..] == inbound[1..] + [Binary(p)] && longer[0] == inbound[0];
      PayloadsAppend(inbound[1..], p);
      var first := if inbound[0].Binary? then [inbound[0].data] else [];
      assert Payloads(longer) == first + Payloads(longer[1..]);
      assert first + (Payloads(inbound[1..]) + [p]) == (first + Payloads(inbound[1..])) + [p];
    }
  }

  lemma ActKeeps(l: Link, a: Action)
    requires Faithful(l)
    ensures Faithful(Act(l, a))
  {
    match a
    case WriteBytes(p) =>
      ConcatAppend(l.written, p);
      PayloadsAppend(l.stream.inbound, p);
      ConcatAppend(Payloads(l.stream.inbound), p);
      assert l.got + (l.stream.buffer + (Concat(Payloads(l.stream.inbound)) + p)) == (l.got + Pending(l.stream)) + p;
    case ReadBytes(size) =>
      ReadLosesNothing(l.stream, size);
      var (s, bytes, _) := ReadFrom(l.stream, size);
      assert (l.got + bytes) + Pending(s) == l.got + (bytes + Pending(s));
  }

  /** Round trip: however writes and reads of any size alternate, what was read is a prefix of what was written, and the
      rest is still on its way. */
  lemma {:induction false} RoundTrip(l: Link, acts: seq<Action>)
    requires Faithful(l)
    ensures Faithful(Acts(l, acts)) && Acts(l, acts).got <= Concat(Acts(l, acts).written)
    decreases |acts|
  {
    if acts == [] {
    } else {
      ActKeeps(l, acts[0]);
      RoundTrip(Act(l, acts[0]), acts[1..]);
    }
  }

  /** What the writes of a run wrote, in order. */
  function WrittenBy(acts: seq<Action>): seq<Bytes> {
    if acts == [] then [] else (if acts[0].WriteBytes? then [acts[0].p] else []) + WrittenBy(acts[1..])
  }

  lemma {:induction false} AllWritten(l: Link, acts: seq<Action>)
    ensures Acts(l, acts).written == l.written + WrittenBy(acts)
    decreases |acts|
  {
    if acts == [] {
    } else {
      var head := if acts[0].WriteBytes? then [acts[0].p] else [];
      AllWritten(Act(l, acts[0]), acts[1..]);
      assert Act(l, acts[0]).written == l.written + head;
      assert (l.written + head) + WrittenBy(acts[1..]) == l.written + (head + WrittenBy(acts[1..]));
    }
  }

  function Reads(n: nat, size: nat): seq<Action> {
    if n == 0 then [] else [ReadBytes(size)] + Reads(n - 1, size)
  }

  predicate NoneEmpty(inbound: seq<Message>) {
    forall i :: 0 <= i < |inbound| ==> inbound[i].Binary? && inbound[i].data != []
  }

  /** Delivery: when every message on its way is data and none is empty, as many reads of any size as there are bytes get
      everything that was written. */
  lemma {:induction false} ReadsGetEverything(l: Link, n: nat, size: nat)
    requires Faithful(l) && NoneEmpty(l.stream.inbound) && size > 0 && n >= |Pending(l.stream)|
    ensures Acts(l, Reads(n, size)).got == Concat(l.written)
    decreases n
  {
    AllWithinReach(l.stream);
    if n == 0 {
      assert l.got + [] == l.got;
    } else {
      var l' := Act(l, ReadBytes(size));
      ActKeeps(l, ReadBytes(size));
      ReadMakesProgress(l.stream, size);
      ReadServesPiece(l.stream, size);
      assert NoneEmpty(l'.stream.inbound);
      AllWithinReach(l'.stream);
      assert Reads(n, size)[0] == ReadBytes(size) && Reads(n, size)[1..] == Reads(n - 1, size);
      ReadsGetEverything(l', n - 1, size);
    }
  }

  /** An empty write ends the reader's stream early: the next read reports the end of the file, and yet the read after it
      returns bytes written later. */
  lemma EmptyWriteEndsFile(b: byte)
    ensures var l := Acts(Link([], Stream([], []), []), [WriteBytes([]), WriteBytes([b])]);
            var (s, got, err) := ReadFrom(l.stream, 1);
            err == EndOfFile && got == [] && ReadFrom(s, 1).1 == [b] && ReadFrom(s, 1).2 == NoError
  {
    var l0 := Link([], Stream([], []), []);
    var l1 := Act(l0, WriteBytes([]));
    assert l1.stream.inbound == [Binary([])];
    var l2 := Act(l1, WriteBytes([b]));
    assert l2.stream.inbound == [Binary([]), Binary([b])];
    assert [WriteBytes([]), WriteBytes([b])][1..] == [WriteBytes([b])];
    assert [WriteBytes([b])][1..] == [];
    var l := Acts(l0, [WriteBytes([]), WriteBytes([b])]);
    assert l == Acts(l1, [WriteBytes([b])]) == Acts(l2, []) == l2;
    var (s, got, err) := ReadFrom(l2.stream, 1);
    assert s == Stream([], [Binary([b])]);
    assert [b][..1] == [b];
  }
}
