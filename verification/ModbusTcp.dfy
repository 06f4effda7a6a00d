/**
  The Modbus TCP client of `modbus.rs` as a state machine over its awaits: connecting,
  writing, reading the MBAP header, reading the PDU, and failing or timing out at any
  of them. The peer answers each request it received at most once, with whatever header
  fields it likes, the length included; bytes travel in pieces. A dropped socket takes
  everything still under way with it.
 */
module ModbusTcp {
  import opened Common

  // ----- MBAP frames (modbus.rs:841-887) -----

  /** A two-byte field, high byte first. */
  datatype Field = Field(hi: Byte, lo: Byte)
  {
    function Value(): nat { BeWord(hi, lo) }
  }

  /** One call of `send_and_recv_tcp`; `serial` numbers the calls. */
  datatype Request = Request(serial: nat, tid: nat, unit: Byte, pdu: seq<Byte>)

  /** A reply as the peer sends it: any ids, any length field and any bytes after the header. */
  datatype Reply = Reply(tid: Field, proto: Field, size: Field, unit: Byte, pdu: seq<Byte>)
  {
    /** The length field, which counts the unit byte. */
    function Len(): nat { size.Value() }
  }

  function Header(r: Reply): (h: seq<Byte>)
    ensures |h| == 7
  {
    [r.tid.hi, r.tid.lo, r.proto.hi, r.proto.lo, r.size.hi, r.size.lo, r.unit]
  }

  function ReplyBytes(r: Reply): seq<Byte> {
    Header(r) + r.pdu
  }

  /** The header checks of the client, on the fields. */
  predicate Matches(reply: Reply, req: Request) {
    reply.proto.Value() == 0 && reply.tid.Value() == req.tid && reply.unit == req.unit && reply.Len() >= 2
  }

  /** The checks on a seven-byte header; the length of the PDU that follows, or None. */
  function CheckHeader(h: seq<Byte>, req: Request): Option<nat>
    requires |h| == 7
  {
    if BeWord(h[2], h[3]) != 0 then None
    else if BeWord(h[0], h[1]) != req.tid then None
    else if h[6] != req.unit then None
    else if BeWord(h[4], h[5]) < 2 then None
    else Some(BeWord(h[4], h[5]) - 1)
  }

  lemma {:induction false} HeaderOfReply(r: Reply, req: Request)
    ensures |ReplyBytes(r)| == 7 + |r.pdu|
    ensures ReplyBytes(r)[7..] == r.pdu
    ensures CheckHeader(ReplyBytes(r)[..7], req) == if Matches(r, req) then Some(r.Len() - 1) else None
  {
    ConcatSplits(Header(r), r.pdu);
  }

  /** The frame that is written for a request: MBAP header and PDU. */
  function RequestBytes(req: Request): seq<Byte>
    requires req.tid < U16
  {
    var len := (|req.pdu| + 1) % U16;
    [req.tid / 256, req.tid % 256, 0, 0, len / 256, len % 256, req.unit] + req.pdu
  }

  /**
    What the peer reads off it, high bytes first: the transaction id, protocol 0, a length that
    counts the unit and the PDU, the unit, and the PDU whole.
   */
  lemma {:induction false} RequestReads(req: Request)
    requires req.tid < 65536 && |req.pdu| < 65535
    ensures var b := RequestBytes(req);
            && |b| == 7 + |req.pdu|
            && 256 * b[0] as int + b[1] as int == req.tid
            && b[2] == 0 && b[3] == 0
            && 256 * b[4] as int + b[5] as int == 1 + |req.pdu|
            && b[6] == req.unit && b[7..] == req.pdu
  {
    var len := (|req.pdu| + 1) % U16;
    ConcatSplits([req.tid / 256, req.tid % 256, 0, 0, len / 256, len % 256, req.unit], req.pdu);
  }

  // ----- Client, connection and peer -----

  datatype Phase =
    | Idle
    | Started(req: Request)
    | AwaitHeader(req: Request)
    | AwaitBody(req: Request, len: nat)

  /**
    An open connection: bytes that arrived, bytes under way, the request the peer still
    owes a reply, and the last reply it gave (known to the peer, not to the client).
   */
  datatype Conn = Conn(inbox: seq<Byte>, transit: seq<Byte>, owed: Option<Request>, answered: Option<(Request, Reply)>)

  /** A call that returned Ok, with the reply whose bytes it consumed. */
  datatype Success = Success(req: Request, pdu: seq<Byte>, answered: Option<(Request, Reply)>)

  datatype State = State(stream: Option<Conn>, tid: nat, serial: nat, phase: Phase, done: seq<Success>)

  const FRESH: Conn := Conn([], [], None, None)

  ghost predicate Init(s: State) {
    s.stream == None && s.tid == 1 && s.phase == Idle && s.done == []
  }

  /** What can happen next. */
  datatype Event =
    | Call(unit: Byte, pdu: seq<Byte>)
    | ConnectOk
    | Write
    | PeerReplies(reply: Reply)
    | Arrive(n: nat)
    | ReadHeader
    | ReadBody
    | Fail
    | Disconnect

  /** Connect error, write error, end of stream or timeout: the socket is dropped. */
  function Dropped(s: State): State {
    s.(stream := None, phase := Idle)
  }

  /** `tid.fetch_add(1)`, which wraps at sixteen bits. */
  function NextTid(tid: nat): nat {
    if tid + 1 == U16 then 0 else tid + 1
  }

  /** The state after an event, or None when it cannot happen. */
  function Next(s: State, e: Event): Option<State> {
    match e
    case Call(unit, pdu) =>
      if s.phase != Idle then None
      else Some(s.(tid := NextTid(s.tid), serial := s.serial + 1,
                   phase := Started(Request(s.serial, s.tid, unit, pdu))))
    case ConnectOk =>
      if !s.phase.Started? || s.stream != None then None
      else Some(s.(stream := Some(FRESH)))
    case Write =>
      if !s.phase.Started? || s.stream == None then None
      else Some(s.(stream := Some(s.stream.value.(owed := Some(s.phase.req))), phase := AwaitHeader(s.phase.req)))
    case PeerReplies(reply) =>
      if s.stream == None || s.stream.value.owed == None then None
      else
        var c := s.stream.value;
        Some(s.(stream := Some(Conn(c.inbox, c.transit + ReplyBytes(reply), None, Some((c.owed.value, reply))))))
    case Arrive(n) =>
      if s.stream == None || n > |s.stream.value.transit| then None
      else
        var c := s.stream.value;
        Some(s.(stream := Some(c.(inbox := c.inbox + c.transit[..n], transit := c.transit[n..]))))
    case ReadHeader =>
      if !s.phase.AwaitHeader? || s.stream == None || |s.stream.value.inbox| < 7 then None
      else
        var c := s.stream.value;
        (match CheckHeader(c.inbox[..7], s.phase.req)
         case None => Some(Dropped(s))
         case Some(len) => Some(s.(stream := Some(c.(inbox := c.inbox[7..])), phase := AwaitBody(s.phase.req, len))))
    case ReadBody =>
      if !s.phase.AwaitBody? || s.stream == None || |s.stream.value.inbox| < s.phase.len then None
      else
        var c := s.stream.value;
        Some(s.(stream := Some(c.(inbox := c.inbox[s.phase.len..])), phase := Idle,
                done := s.done + [Success(s.phase.req, c.inbox[..s.phase.len], c.answered)]))
    case Fail => if s.phase == Idle then None else Some(Dropped(s))
    case Disconnect => if s.phase != Idle then None else Some(s.(stream := None))
  }

  /** A call that fails at any await, and a disconnect between calls, close the socket and keep the results. */
  lemma {:induction false} SocketsAreDropped(s: State)
    ensures Next(s, Fail).Some? <==> s.phase != Idle
    ensures Next(s, Disconnect).Some? <==> s.phase == Idle
    ensures var n := Next(s, if s.phase == Idle then Disconnect else Fail).value;
            n.stream == None && n.phase == Idle && n.done == s.done && n.tid == s.tid && n.serial == s.serial
  {
  }

  // ----- Safety -----

  /** Everything that was sent to the client and not yet read. */
  function Unread(c: Conn): seq<Byte> {
    c.inbox + c.transit
  }

  /** Nothing owed and nothing unread. */
  predicate Quiet(c: Conn) {
    c.owed == None && Unread(c) == []
  }

  /** The client takes the header for its own, but the length leaves bytes of the reply unread. */
  predicate Truncates(reply: Reply, req: Request) {
    Matches(reply, req) && reply.Len() < |reply.pdu| + 1
  }

  ghost predicate ConnOk(c: Conn, phase: Phase) {
    match phase
    case Idle => Quiet(c)
    case Started(_) => Quiet(c)
    case AwaitHeader(req) =>
      || (c.owed == Some(req) && Unread(c) == [])
      || (c.owed == None && c.answered.Some? && c.answered.value.0 == req
          && Unread(c) == ReplyBytes(c.answered.value.1))
    case AwaitBody(req, len) =>
      && c.owed == None && c.answered.Some? && c.answered.value.0 == req
      && Matches(c.answered.value.1, req)
      && Unread(c) == c.answered.value.1.pdu && len == c.answered.value.1.Len() - 1
  }

  /** A returned PDU is the whole of what the peer sent in answer to this very request. */
  predicate Genuine(d: Success) {
    && d.answered.Some?
    && d.answered.value.0 == d.req
    && d.answered.value.1.pdu == d.pdu
    && Matches(d.answered.value.1, d.req)
  }

  /** Every Ok so far was genuine, and an open connection between calls is quiet. */
  ghost predicate Promise(s: State) {
    && (forall i :: 0 <= i < |s.done| ==> Genuine(s.done[i]))
    && (s.phase == Idle && s.stream.Some? ==> Quiet(s.stream.value))
  }

  /** What the client and the peer keep, whatever the lengths declared. */
  ghost predicate Inv(s: State) {
    && (s.stream.Some? ==> ConnOk(s.stream.value, s.phase))
    && ((s.phase.AwaitHeader? || s.phase.AwaitBody?) ==> s.stream.Some?)
    && (s.phase != Idle ==> s.phase.req.serial < s.serial && s.phase.req.tid < U16) && s.tid < U16
    && forall i :: 0 <= i < |s.done| ==> Genuine(s.done[i])
  }

  lemma {:induction false} ArrivalKeepsUnread(c: Conn, n: nat)
    requires n <= |c.transit|
    ensures Unread(c.(inbox := c.inbox + c.transit[..n], transit := c.transit[n..])) == Unread(c)
  {
    assert c.transit[..n] + c.transit[n..] == c.transit;
  }

  lemma {:induction false} ReadingTakesFromUnread(c: Conn, n: nat)
    requires n <= |c.inbox|
    ensures c.inbox[..n] == Unread(c)[..n]
    ensures Unread(c.(inbox := c.inbox[n..])) == Unread(c)[n..]
  {
  }

  /** The client reads a body whose declared length leaves bytes of the reply unread. */
  predicate ReadsPart(s: State, e: Event) {
    && e.ReadBody? && s.phase.AwaitBody? && s.stream.Some? && s.stream.value.answered.Some?
    && s.phase.len < |s.stream.value.answered.value.1.pdu|
  }

  lemma {:induction false} ReplyIsSafe(s: State, reply: Reply)
    requires Inv(s) && Next(s, PeerReplies(reply)).Some?
    ensures Inv(Next(s, PeerReplies(reply)).value)
  {
    var c := s.stream.value;
    ConcatAssociates(c.inbox, c.transit, ReplyBytes(reply));
    ConcatNil(ReplyBytes(reply));
  }

  lemma {:induction false} ReadHeaderIsSafe(s: State)
    requires Inv(s) && Next(s, ReadHeader).Some?
    ensures Inv(Next(s, ReadHeader).value)
  {
    var c := s.stream.value;
    ReadingTakesFromUnread(c, 7);
    assert c.owed == None;
    HeaderOfReply(c.answered.value.1, s.phase.req);
  }

  lemma {:induction false} ReadBodyIsSafeIff(s: State)
    requires Inv(s) && Next(s, ReadBody).Some?
    ensures Inv(Next(s, ReadBody).value) <==> !ReadsPart(s, ReadBody)
    ensures ReadsPart(s, ReadBody) ==> !Promise(Next(s, ReadBody).value)
  {
    var c, len := s.stream.value, s.phase.len;
    ReadingTakesFromUnread(c, len);
    var n := Next(s, ReadBody).value;
    assert n.done[|s.done|] == Success(s.phase.req, c.inbox[..len], c.answered);
    assert |c.inbox[..len]| == len;
  }

  /** A step keeps the promise, and what it rests on, if and only if it does not read part of a reply. */
  lemma {:induction false} StepKeepsPromiseIff(s: State, e: Event)
    requires Inv(s) && Next(s, e).Some?
    ensures Inv(Next(s, e).value) <==> !ReadsPart(s, e)
    ensures Promise(Next(s, e).value) <==> !ReadsPart(s, e)
  {
    match e
    case PeerReplies(reply) => ReplyIsSafe(s, reply);
    case Arrive(n) => ArrivalKeepsUnread(s.stream.value, n);
    case ReadHeader => ReadHeaderIsSafe(s);
    case ReadBody => ReadBodyIsSafeIff(s);
    case _ =>
  }

  /** `trace` is a run: it starts in an initial state and each state follows by some event. */
  ghost predicate IsRun(trace: seq<State>, events: seq<Event>) {
    && |trace| == |events| + 1 && Init(trace[0])
    && forall i :: 0 <= i < |events| ==> Next(trace[i], events[i]) == Some(trace[i + 1])
  }

  lemma {:induction false} RunsKeepInv(trace: seq<State>, events: seq<Event>, i: nat)
    requires IsRun(trace, events) && i < |trace|
    requires forall j | 0 <= j < i :: !ReadsPart(trace[j], events[j])
    ensures Inv(trace[i])
  {
    if i > 0 {
      RunsKeepInv(trace, events, i - 1);
      assert Next(trace[i - 1], events[i - 1]) == Some(trace[i - 1 + 1]);
      StepKeepsPromiseIff(trace[i - 1], events[i - 1]);
    }
  }

  lemma {:induction false} FirstPart(trace: seq<State>, events: seq<Event>, n: nat) returns (i: nat)
    requires n < |events| < |trace| && ReadsPart(trace[n], events[n])
    ensures i <= n && ReadsPart(trace[i], events[i]) && forall j | 0 <= j < i :: !ReadsPart(trace[j], events[j])
  {
    i := n;
    if j: nat :| j < n && ReadsPart(trace[j], events[j]) {
      i := FirstPart(trace, events, j);
    }
  }

  /**
    Over every run of calls, replies with any header, partial arrivals, failures, timeouts and
    reconnects, with transaction ids wrapping: every Ok answers the request just sent and idle
    connections are quiet throughout if and only if no body is read that the reply's length
    field declares shorter than it is.
   */
  lemma {:induction false} RunKeepsPromiseIff(trace: seq<State>, events: seq<Event>)
    requires IsRun(trace, events)
    ensures (forall i | 0 <= i < |trace| :: Promise(trace[i]))
            <==> forall i | 0 <= i < |events| :: !ReadsPart(trace[i], events[i])
  {
    if forall i | 0 <= i < |events| :: !ReadsPart(trace[i], events[i]) {
      forall i | 0 <= i < |trace|
        ensures Promise(trace[i])
      {
        RunsKeepInv(trace, events, i);
      }
    } else {
      var n :| 0 <= n < |events| && ReadsPart(trace[n], events[n]);
      var i := FirstPart(trace, events, n);
      RunsKeepInv(trace, events, i);
      assert Next(trace[i], events[i]) == Some(trace[i + 1]);
      StepKeepsPromiseIff(trace[i], events[i]);
      assert !Promise(trace[i + 1]);
    }
  }

  /** The peer sends a reply that the client would cut short. */
  predicate SendsTruncated(s: State, e: Event) {
    e.PeerReplies? && s.stream.Some? && s.stream.value.owed.Some? && Truncates(e.reply, s.stream.value.owed.value)
  }

  /** No reply up to step `n` declares fewer bytes than it has while matching its request. */
  ghost predicate NoneTruncated(trace: seq<State>, events: seq<Event>, n: nat)
    requires n <= |events| < |trace|
  {
    forall i | 0 <= i < n :: !SendsTruncated(trace[i], events[i])
  }

  /** The last reply on the connection, if any, is whole. */
  predicate WholeReply(s: State) {
    s.stream.Some? && s.stream.value.answered.Some? ==>
      !Truncates(s.stream.value.answered.value.1, s.stream.value.answered.value.0)
  }

  lemma {:induction false} RepliesAreWhole(trace: seq<State>, events: seq<Event>, i: nat)
    requires IsRun(trace, events) && i < |trace| && NoneTruncated(trace, events, i)
    ensures WholeReply(trace[i])
  {
    if i > 0 {
      RepliesAreWhole(trace, events, i - 1);
      assert Next(trace[i - 1], events[i - 1]) == Some(trace[i - 1 + 1]);
    }
  }

  /**
    In particular the promise is kept if no reply that matches its request declares fewer bytes
    than it has: each PDU returned as Ok answers the request just sent, and between calls an
    open connection has no reply outstanding.
   */
  lemma {:induction false} EveryOkAnswersItsRequest(trace: seq<State>, events: seq<Event>, i: nat)
    requires IsRun(trace, events) && i < |trace| && NoneTruncated(trace, events, i)
    ensures forall k :: 0 <= k < |trace[i].done| ==> Genuine(trace[i].done[k])
    ensures trace[i].phase == Idle && trace[i].stream.Some? ==> Quiet(trace[i].stream.value)
    ensures forall j | 0 <= j < i :: !ReadsPart(trace[j], events[j])
  {
    if i > 0 {
      EveryOkAnswersItsRequest(trace, events, i - 1);
      RunsKeepInv(trace, events, i - 1);
      RepliesAreWhole(trace, events, i - 1);
    }
    RunsKeepInv(trace, events, i);
  }

  // ----- What a length that is too small does -----

  /** The state after several events, if all can happen. */
  function After(s: State, events: seq<Event>): Option<State>
    decreases |events|
  {
    if events == [] then Some(s)
    else
      match Next(s, events[0])
      case None => None
      case Some(t) => After(t, events[1..])
  }

  lemma {:induction false} AfterOne(s: State, e: Event, events: seq<Event>)
    ensures After(s, [e] + events) == match Next(s, e) case None => None case Some(t) => After(t, events)
  {
    ConcatSplits([e], events);
  }

  /** A reply that arrives, is taken for the answer and is read up to its declared length. */
  function Exchange(reply: Reply): seq<Event> {
    [PeerReplies(reply)] + ([Arrive(|ReplyBytes(reply)|)] + TakeReply())
  }

  function TakeReply(): seq<Event> {
    [ReadHeader] + ([ReadBody] + [])
  }

  /** A matching header at the front of the inbox is accepted with its length. */
  lemma {:induction false} TakingHeader(s: State, c: Conn, req: Request, reply: Reply, rest: seq<Byte>)
    requires s.phase == AwaitHeader(req) && s.stream == Some(c) && c.inbox == ReplyBytes(reply) + rest
    requires Matches(reply, req)
    ensures Next(s, ReadHeader)
            == Some(s.(stream := Some(c.(inbox := reply.pdu + rest)), phase := AwaitBody(req, reply.Len() - 1)))
  {
    HeaderOfReply(reply, req);
    HeaderInFront(s, c, req, ReplyBytes(reply), reply.Len() - 1, reply.pdu, rest);
  }

  lemma {:induction false} HeaderInFront(s: State, c: Conn, req: Request, bytes: seq<Byte>, len: nat, pdu: seq<Byte>,
                                         rest: seq<Byte>)
    requires s.phase == AwaitHeader(req) && s.stream == Some(c) && c.inbox == bytes + rest
    requires |bytes| >= 7 && CheckHeader(bytes[..7], req) == Some(len) && bytes[7..] == pdu
    ensures Next(s, ReadHeader) == Some(s.(stream := Some(c.(inbox := pdu + rest)), phase := AwaitBody(req, len)))
  {
    DropOfConcat(bytes, rest, 7);
    HeaderStep(s, c, req, len, pdu + rest);
  }

  lemma {:induction false} HeaderStep(s: State, c: Conn, req: Request, len: nat, after: seq<Byte>)
    requires s.phase == AwaitHeader(req) && s.stream == Some(c) && |c.inbox| >= 7
    requires CheckHeader(c.inbox[..7], req) == Some(len) && c.inbox[7..] == after
    ensures Next(s, ReadHeader) == Some(s.(stream := Some(c.(inbox := after)), phase := AwaitBody(req, len)))
  {
  }

  lemma {:induction false} BodyStep(s: State, c: Conn, req: Request, len: nat, pdu: seq<Byte>, after: seq<Byte>)
    requires s.phase == AwaitBody(req, len) && s.stream == Some(c) && |c.inbox| >= len
    requires c.inbox[..len] == pdu && c.inbox[len..] == after
    ensures Next(s, ReadBody) == Some(s.(stream := Some(c.(inbox := after)), phase := Idle,
                                         done := s.done + [Success(req, pdu, c.answered)]))
  {
  }

  lemma {:induction false} TwoSteps(s: State, e: Event, t: State, f: Event, u: State, more: seq<Event>)
    requires Next(s, e) == Some(t) && Next(t, f) == Some(u)
    ensures After(s, [e] + ([f] + more)) == After(u, more)
  {
    AfterOne(s, e, [f] + more);
    AfterOne(t, f, more);
  }

  lemma {:induction false} TakingReply(s: State, c: Conn, req: Request, reply: Reply, n: nat, rest: seq<Byte>)
    requires s.phase == AwaitHeader(req) && s.stream == Some(c) && c.inbox == ReplyBytes(reply) + rest
    requires Matches(reply, req) && n == reply.Len() - 1 && n <= |reply.pdu|
    ensures After(s, TakeReply()) == Some(s.(phase := Idle,
              stream := Some(c.(inbox := reply.pdu[n..] + rest)),
              done := s.done + [Success(req, reply.pdu[..n], c.answered)]))
  {
    TakingHeader(s, c, req, reply, rest);
    var c1 := c.(inbox := reply.pdu + rest);
    var s1 := s.(stream := Some(c1), phase := AwaitBody(req, n));
    DropOfConcat(reply.pdu, rest, n);
    BodyStep(s1, c1, req, n, reply.pdu[..n], reply.pdu[n..] + rest);
    TwoSteps(s, ReadHeader, s1, ReadBody, Next(s1, ReadBody).value, []);
  }

  /** A quiet connection after the peer's reply has arrived in full. */
  function Arrived(s: State, req: Request, reply: Reply): State {
    s.(stream := Some(Conn(ReplyBytes(reply), [], None, Some((req, reply)))))
  }

  lemma {:induction false} ReplyStep(s: State, c: Conn, req: Request, reply: Reply)
    requires s.stream == Some(c) && c.inbox == [] && c.transit == [] && c.owed == Some(req)
    ensures Next(s, PeerReplies(reply))
            == Some(s.(stream := Some(Conn([], ReplyBytes(reply), None, Some((req, reply))))))
  {
    ConcatNil(ReplyBytes(reply));
  }

  lemma {:induction false} ArriveStep(s: State, c: Conn)
    requires s.stream == Some(c) && c.inbox == []
    ensures Next(s, Arrive(|c.transit|)) == Some(s.(stream := Some(c.(inbox := c.transit, transit := []))))
  {
    ConcatNil(c.transit);
    assert c.transit[..|c.transit|] == c.transit && c.transit[|c.transit|..] == [];
  }

  lemma {:induction false} ReplyArrives(s: State, req: Request, reply: Reply, more: seq<Event>)
    requires s.stream.Some? && s.stream.value.inbox == [] && s.stream.value.transit == []
    requires s.stream.value.owed == Some(req)
    ensures After(s, [PeerReplies(reply)] + ([Arrive(|ReplyBytes(reply)|)] + more))
            == After(Arrived(s, req, reply), more)
  {
    var c := Conn([], ReplyBytes(reply), None, Some((req, reply)));
    var s1 := s.(stream := Some(c));
    ReplyStep(s, s.stream.value, req, reply);
    ArriveStep(s1, c);
    TwoSteps(s, PeerReplies(reply), s1, Arrive(|ReplyBytes(reply)|), Arrived(s, req, reply), more);
  }

  /** What is left after a reply was read up to its declared length. */
  function CutShort(s: State, req: Request, reply: Reply, n: nat): State
    requires n <= |reply.pdu|
  {
    s.(phase := Idle, stream := Some(Conn(reply.pdu[n..], [], None, Some((req, reply)))),
       done := s.done + [Success(req, reply.pdu[..n], Some((req, reply)))])
  }

  /** The call is under way on a connection with nothing unread, its request sent. */
  predicate Awaits(s: State, req: Request) {
    s.phase == AwaitHeader(req) && s.stream.Some? && s.stream.value.owed == Some(req)
  }

  lemma {:induction false} AwaitsQuietly(s: State, req: Request)
    requires Inv(s) && Awaits(s, req)
    ensures s.stream.value.inbox == [] && s.stream.value.transit == []
  {
    assert |Unread(s.stream.value)| == 0;
  }

  lemma {:induction false} ReadingCutsShort(s: State, req: Request, reply: Reply, n: nat)
    requires s.phase == AwaitHeader(req) && Matches(reply, req) && n == reply.Len() - 1 && n <= |reply.pdu|
    ensures After(Arrived(s, req, reply), TakeReply()) == Some(CutShort(s, req, reply, n))
  {
    var t := Arrived(s, req, reply);
    ConcatNil(ReplyBytes(reply));
    ConcatNil(reply.pdu[n..]);
    TakingReply(t, t.stream.value, req, reply, n, []);
  }

  lemma {:induction false} ExchangeCutsShort(s: State, req: Request, reply: Reply)
    requires Inv(s) && Awaits(s, req) && Truncates(reply, req)
    ensures After(s, Exchange(reply)) == Some(CutShort(s, req, reply, reply.Len() - 1))
  {
    AwaitsQuietly(s, req);
    ReplyArrives(s, req, reply, TakeReply());
    ReadingCutsShort(s, req, reply, reply.Len() - 1);
  }

  /**
    A reply that declares too few bytes does break the promise: from any state that awaits it,
    the call returns its beginning as Ok and leaves the rest on an open connection.
   */
  lemma {:induction false} TruncationIsReturned(s: State, req: Request, reply: Reply)
    requires Inv(s) && Awaits(s, req) && Truncates(reply, req)
    ensures var n := After(s, Exchange(reply));
            && n.Some? && n.value.phase == Idle && n.value.stream.Some? && !Quiet(n.value.stream.value)
            && |n.value.done| == |s.done| + 1 && !Genuine(n.value.done[|s.done|])
  {
    ExchangeCutsShort(s, req, reply);
    assert |reply.pdu[..reply.Len() - 1]| < |reply.pdu|;
  }

  /** A frame that would answer `req` with the single byte `b`. */
  function Forged(req: Request, b: Byte): Reply
    requires req.tid < U16
  {
    Reply(FieldOf(req.tid), Field(0, 0), Field(0, 2), req.unit, [b])
  }

  function FieldOf(n: nat): (f: Field)
    requires n < U16
    ensures f.Value() == n
  {
    Field(n / 256, n % 256)
  }

  /** The first byte of an answer, declared as all of it, with a forged frame for `next` behind it. */
  function Smuggling(req: Request, next: Request, x: Byte, y: Byte): Reply
    requires req.tid < U16 && next.tid < U16
  {
    Reply(FieldOf(req.tid), Field(0, 0), Field(0, 2), req.unit, [x] + ReplyBytes(Forged(next, y)))
  }

  function NextCall(next: Request): seq<Event> {
    [Call(next.unit, next.pdu)] + ([Write] + TakeReply())
  }

  /** Such a state is three steps from the start. */
  lemma {:induction false} FirstCallAwaits(s: State, unit: Byte, pdu: seq<Byte>)
    requires Init(s)
    ensures var t := After(s, [Call(unit, pdu)] + ([ConnectOk] + ([Write] + [])));
            t.Some? && Inv(t.value) && Awaits(t.value, Request(s.serial, 1, unit, pdu))
  {
    var s1 := Next(s, Call(unit, pdu)).value;
    var s2 := Next(s1, ConnectOk).value;
    TwoSteps(s, Call(unit, pdu), s1, ConnectOk, s2, [Write] + []);
    AfterOne(s2, Write, []);
  }

  lemma {:induction false} CallIsSent(s: State, c: Conn, next: Request, more: seq<Event>)
    requires s.phase == Idle && s.stream == Some(c) && s.tid < U16
    requires next == Request(s.serial, s.tid, next.unit, next.pdu)
    ensures After(s, [Call(next.unit, next.pdu)] + ([Write] + more))
            == After(s.(tid := NextTid(s.tid), serial := s.serial + 1, phase := AwaitHeader(next),
                        stream := Some(c.(owed := Some(next)))), more)
  {
    var s1 := s.(tid := NextTid(s.tid), serial := s.serial + 1, phase := Started(next));
    CallStep(s, next);
    WriteStep(s1, c, next);
    TwoSteps(s, Call(next.unit, next.pdu), s1, Write, Next(s1, Write).value, more);
  }

  lemma {:induction false} CallStep(s: State, next: Request)
    requires s.phase == Idle && s.tid < U16 && next == Request(s.serial, s.tid, next.unit, next.pdu)
    ensures Next(s, Call(next.unit, next.pdu))
            == Some(s.(tid := NextTid(s.tid), serial := s.serial + 1, phase := Started(next)))
  {
  }

  lemma {:induction false} WriteStep(s: State, c: Conn, next: Request)
    requires s.phase == Started(next) && s.stream == Some(c)
    ensures Next(s, Write) == Some(s.(stream := Some(c.(owed := Some(next))), phase := AwaitHeader(next)))
  {
  }

  /**
    The next call takes what was left for its own answer: it returns the forged byte as Ok
    while the peer still owes it a reply.
   */
  lemma {:induction false} StaleBytesAreReturned(s: State, req: Request, next: Request, x: Byte, y: Byte)
    requires Inv(s) && Awaits(s, req) && next == Request(s.serial, s.tid, next.unit, next.pdu)
    ensures var reply := Smuggling(req, next, x, y);
            var n := After(s, Exchange(reply));
            n.Some? &&
            var m := After(n.value, NextCall(next));
            && m.Some? && m.value.phase == Idle && m.value.stream.Some? && m.value.stream.value.owed == Some(next)
            && m.value.done == n.value.done + [Success(next, [y], Some((req, reply)))]
            && !Genuine(m.value.done[|n.value.done|])
  {
    var forged, reply := Forged(next, y), Smuggling(req, next, x, y);
    ExchangeCutsShort(s, req, reply);
    var n := CutShort(s, req, reply, 1);
    ConcatSplits([x], ReplyBytes(forged));
    CallIsSent(n, n.stream.value, next, TakeReply());
    var c := n.stream.value.(owed := Some(next));
    var t := n.(tid := NextTid(n.tid), serial := n.serial + 1, phase := AwaitHeader(next), stream := Some(c));
    ConcatNil(ReplyBytes(forged));
    TakingReply(t, c, next, forged, 1, []);
    assert [y][..1] == [y];
  }

  // ----- Why the socket is dropped -----

  /** `k` calls that fail one after the other. */
  function FailedCalls(k: nat, unit: Byte, pdu: seq<Byte>): seq<Event>
    decreases k, |pdu|
  {
    if k == 0 then [] else [Call(unit, pdu)] + ([Fail] + FailedCalls(k - 1, unit, pdu))
  }

  /** The transaction id after `k` calls. */
  function TidAfter(tid: nat, k: nat): nat
    decreases k, tid
  {
    if k == 0 then tid else TidAfter(NextTid(tid), k - 1)
  }

  lemma {:induction false} TidCounts(tid: nat, k: nat)
    requires tid < U16 && k <= U16
    ensures TidAfter(tid, k) == if tid + k < U16 then tid + k else tid + k - U16
    decreases k
  {
    if k > 0 {
      TidCounts(NextTid(tid), k - 1);
    }
  }

  lemma {:induction false} CallsFail(s: State, k: nat, unit: Byte, pdu: seq<Byte>)
    requires s.phase == Idle && s.tid < U16
    ensures After(s, FailedCalls(k, unit, pdu))
            == Some(s.(tid := TidAfter(s.tid, k), serial := s.serial + k, stream := if k == 0 then s.stream else None))
    decreases k
  {
    if k > 0 {
      var called := s.(tid := NextTid(s.tid), serial := s.serial + 1,
                       phase := Started(Request(s.serial, s.tid, unit, pdu)));
      var failed := called.(stream := None, phase := Idle);
      TwoSteps(s, Call(unit, pdu), called, Fail, failed, FailedCalls(k - 1, unit, pdu));
      CallsFail(failed, k - 1, unit, pdu);
    }
  }

  /**
    The transaction id alone would not do. After 65536 calls that fail it has come round, and a
    reply to the first of them passes every header check of the next call: had a failed call
    left its socket open, the next one would take that reply for its own.
   */
  lemma {:induction false} StaleReplyPassesTheHeaderChecks(s: State, unit: Byte, pdu: seq<Byte>, other: seq<Byte>,
                                                           late: Reply)
    requires s.phase == Idle && s.tid < U16 && Matches(late, Request(s.serial, s.tid, unit, pdu))
    ensures var t := After(s, FailedCalls(U16, unit, pdu));
            t.Some? && t.value.serial == s.serial + U16 &&
            var now := Next(t.value, Call(unit, other));
            && now.Some? && now.value.phase == Started(Request(t.value.serial, s.tid, unit, other))
            && CheckHeader(ReplyBytes(late)[..7], now.value.phase.req) == Some(late.Len() - 1)
  {
    CallsFail(s, U16, unit, pdu);
    TidCounts(s.tid, U16);
    HeaderOfReply(late, Request(s.serial + U16, s.tid, unit, other));
  }
}
