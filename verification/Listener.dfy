/** The receive loop of the websocket session (`_do_start_listening` in
    custom_components/loxone/pyloxone_api/connection.py): headers and bodies are
    told apart by state, never by length. */
module Listener {
  import opened Wire
  import opened Message

  type Bytes = seq<Byte>

  /** Code the loop calls: JSON parsing of a text payload, the auth-response test,
      and whether `_websocket_event` raises for a message. That is a matter of the
      message alone: what it lets through is raised by the test of a reply's code. */
  datatype Handlers = Handlers(
    hasCallback: bool,
    parses: Bytes -> bool,
    isAuth: Bytes -> bool,
    fatal: (MessageType, Bytes) -> bool)

  /** What leaves the loop: a message handed to `_websocket_event`, or to `_run_callback`,
      which counts a keepalive even where there is no callback to call. */
  datatype Delivery = Handled(t: MessageType, payload: Bytes) | Forwarded(t: MessageType, payload: Bytes)

  datatype SessionError = OutOfServiceError | HeaderError(e: ParseError) | HandlerError | SocketClosed | ClosedOk

  datatype Incoming = Frame(data: Bytes) | FrameAfterClose(data: Bytes)

  datatype State = State(header: Option<MessageHeader>, body: Bytes)

  const IDLE := State(None, [])

  datatype Outcome = Outcome(state: State, out: seq<Delivery>, error: Option<SessionError>)

  predicate CarriesBody(t: MessageType)
  {
    t.Text? || t.ValueStates? || t.TextStates? || t.DaytimerStates? || t.WeatherStates?
  }

  predicate ReachesCallback(t: MessageType)
  {
    t.ValueStates? || t.TextStates? || t.Text? || t.KeepAlive?
  }

  /** Handling of one complete payload; an unparseable text is data, not an error. */
  function Deliver(h: Handlers, t: MessageType, payload: Bytes): (seq<Delivery>, Option<SessionError>)
  {
    if t == Text && !h.parses(payload) then ([], None)
    else if h.fatal(t, payload) then ([Handled(t, payload)], Some(HandlerError))
    else if h.hasCallback && ReachesCallback(t) && !(t == Text && h.isAuth(payload)) then
      ([Handled(t, payload), Forwarded(t, payload)], None)
    else ([Handled(t, payload)], None)
  }

  /** One frame in header position. */
  function OnHeaderFrame(s: State, data: Bytes): Outcome
  {
    if |data| != 8 then Outcome(s, [], None)
    else match ParseHeader(data)
      case Err(e) => Outcome(s, [], Some(HeaderError(e)))
      case Ok(p) =>
        if p.messageType == OutOfService then Outcome(State(Some(p), s.body), [], Some(OutOfServiceError))
        else if p.messageType == KeepAlive then Outcome(State(None, s.body), [Forwarded(KeepAlive, [])], None)
        else if !CarriesBody(p.messageType) then Outcome(State(None, s.body), [], None)
        else Outcome(State(Some(p), s.body), [], None)
  }

  /** One frame behind an estimated header, before any body byte. */
  function OnExactFrame(s: State, data: Bytes): Outcome
  {
    match ParseHeader(data)
    case Err(e) => Outcome(s, [], Some(HeaderError(e)))
    case Ok(p) =>
      if p.messageType == OutOfService then Outcome(State(Some(p), s.body), [], Some(OutOfServiceError))
      else if !CarriesBody(p.messageType) then Outcome(State(None, s.body), [], None)
      else Outcome(State(Some(p), s.body), [], None)
  }

  function OnBodyFrame(h: Handlers, s: State, data: Bytes): Outcome
    requires s.header.Some?
  {
    var p, body := s.header.value, s.body + data;
    if |body| < p.payloadLength then Outcome(State(s.header, body), [], None)
    else
      var (out, error) := Deliver(h, p.messageType, body[..p.payloadLength]);
      Outcome(IDLE, out, error)
  }

  function OnFrame(h: Handlers, s: State, m: Incoming): Outcome
  {
    if m.FrameAfterClose? then Outcome(s, [], Some(SocketClosed))
    else if s.header.None? then OnHeaderFrame(s, m.data)
    else if s.header.value.estimated && s.body == [] && |m.data| == 8 then OnExactFrame(s, m.data)
    else OnBodyFrame(h, s, m.data)
  }

  /** An exception ends the loop: nothing that follows happens. */
  function AndThen(first: Outcome, rest: Outcome): Outcome
  {
    if first.error.Some? then first else Outcome(rest.state, first.out + rest.out, rest.error)
  }

  /** All frames of a socket, up to the first exception. */
  function Run(h: Handlers, s: State, frames: seq<Incoming>): Outcome
    decreases |frames|
  {
    if frames == [] then Outcome(s, [], None)
    else
      var first := OnFrame(h, s, frames[0]);
      AndThen(first, Run(h, first.state, frames[1..]))
  }

  lemma AndThenAssociates(a: Outcome, b: Outcome, c: Outcome)
    ensures AndThen(a, AndThen(b, c)) == AndThen(AndThen(a, b), c)
  {
    assert a.out + (b.out + c.out) == (a.out + b.out) + c.out;
  }

  predicate Consistent(s: State)
  {
    match s.header
    case None => s.body == []
    case Some(p) => s.body == [] || |s.body| < p.payloadLength
  }

  /** Over any frames at all: no pending header means an empty buffer, and a
      pending one means an empty buffer or one shorter than the payload. */
  lemma {:induction false} RunKeepsConsistent(h: Handlers, s: State, frames: seq<Incoming>)
    requires Consistent(s)
    ensures Consistent(Run(h, s, frames).state)
    decreases |frames|
  {
    if frames != [] && OnFrame(h, s, frames[0]).error.None? {
      RunKeepsConsistent(h, OnFrame(h, s, frames[0]).state, frames[1..]);
    }
  }

  /** What may be handed to `_run_callback`: keepalives, and with a callback states and
      readable texts that are no authentication responses. */
  predicate MayBeForwarded(h: Handlers, d: Delivery)
  {
    d.Forwarded? ==>
      || d.t == KeepAlive
      || (h.hasCallback && !h.fatal(d.t, d.payload)
          && (d.t == ValueStates || d.t == TextStates || (d.t == Text && h.parses(d.payload) && !h.isAuth(d.payload))))
  }

  /** Over any frames at all, nothing else is handed on. */
  lemma {:induction false} AuthResponsesStayInside(h: Handlers, s: State, frames: seq<Incoming>)
    ensures forall i :: 0 <= i < |Run(h, s, frames).out| ==> MayBeForwarded(h, Run(h, s, frames).out[i])
    decreases |frames|
  {
    if frames != [] {
      var first := OnFrame(h, s, frames[0]);
      AuthResponsesStayInside(h, first.state, frames[1..]);
      FrameForwards(h, s, frames[0]);
      var rest := Run(h, first.state, frames[1..]);
      forall i | 0 <= i < |Run(h, s, frames).out| ensures MayBeForwarded(h, Run(h, s, frames).out[i]) {
        if i >= |first.out| { assert Run(h, s, frames).out[i] == rest.out[i - |first.out|]; }
      }
    }
  }

  lemma FrameForwards(h: Handlers, s: State, m: Incoming)
    ensures forall i :: 0 <= i < |OnFrame(h, s, m).out| ==> MayBeForwarded(h, OnFrame(h, s, m).out[i])
  {
  }

  lemma {:induction false} RunConcat(h: Handlers, s: State, a: seq<Incoming>, b: seq<Incoming>)
    ensures Run(h, s, a + b) == AndThen(Run(h, s, a), Run(h, Run(h, s, a).state, b))
    decreases |a|
  {
    if a == [] {
      assert a + b == b;
      assert [] + Run(h, s, b).out == Run(h, s, b).out;
    } else {
      var first := OnFrame(h, s, a[0]);
      assert (a + b)[0] == a[0] && (a + b)[1..] == a[1..] + b;
      RunConcat(h, first.state, a[1..], b);
      var ra := Run(h, first.state, a[1..]);
      AndThenAssociates(first, ra, Run(h, ra.state, b));
    }
  }

  lemma RunOne(h: Handlers, s: State, m: Incoming)
    ensures Run(h, s, [m]) == OnFrame(h, s, m)
  {
    var first := OnFrame(h, s, m);
    assert first.out + [] == first.out;
  }

  /** The outcome so far and the frames still to come make up the whole outcome. */
  ghost predicate Leads(h: Handlers, sofar: Outcome, frames: seq<Incoming>, all: Outcome)
  {
    sofar.error.None? && AndThen(sofar, Run(h, sofar.state, frames)) == all
  }

  lemma RunStart(h: Handlers, s: State, frames: seq<Incoming>)
    ensures Leads(h, Outcome(s, [], None), frames, Run(h, s, frames))
  {
    assert [] + Run(h, s, frames).out == Run(h, s, frames).out;
  }

  lemma RunEnd(h: Handlers, sofar: Outcome, all: Outcome)
    requires Leads(h, sofar, [], all)
    ensures all == sofar
  {
    assert sofar.out + [] == sofar.out;
  }

  lemma RunNext(h: Handlers, sofar: Outcome, m: Incoming, later: seq<Incoming>, all: Outcome)
    requires Leads(h, sofar, [m] + later, all)
    ensures var next := AndThen(sofar, OnFrame(h, sofar.state, m));
            if next.error.Some? then all == next else Leads(h, next, later, all)
  {
    var o := OnFrame(h, sofar.state, m);
    assert ([m] + later)[1..] == later;
    AndThenAssociates(sofar, o, Run(h, o.state, later));
  }

  /** The receive loop's locals and what it has handed on. */
  class FrameListener {
    const handlers: Handlers
    var lastHeader: Option<MessageHeader>
    var body: Bytes
    var deliveries: seq<Delivery>

    constructor (handlers: Handlers)
      ensures this.handlers == handlers && Current() == IDLE && deliveries == []
    {
      this.handlers := handlers;
      lastHeader, body, deliveries := None, [], [];
    }

    function Current(): State
      reads this
    {
      State(lastHeader, body)
    }

    ghost predicate Valid()
      reads this
    {
      Consistent(Current())
    }

    /** A complete payload: parse, handle, forward. */
    method Dispatch(t: MessageType, payload: Bytes) returns (error: Option<SessionError>)
      modifies this`deliveries
      ensures deliveries == old(deliveries) + Deliver(handlers, t, payload).0
      ensures error == Deliver(handlers, t, payload).1
    {
      if t == Text && !handlers.parses(payload) { return None; }
      deliveries := deliveries + [Handled(t, payload)];
      if handlers.fatal(t, payload) { return Some(HandlerError); }
      if handlers.hasCallback && ReachesCallback(t) && !(t == Text && handlers.isAuth(payload)) {
        deliveries := deliveries + [Forwarded(t, payload)];
      }
      return None;
    }

    /** One iteration of the `async for` loop. */
    method Receive(m: Incoming) returns (error: Option<SessionError>)
      requires Valid()
      modifies this
      ensures Valid()
      ensures var o := OnFrame(handlers, old(Current()), m);
              Current() == o.state && deliveries == old(deliveries) + o.out && error == o.error
    {
      if m.FrameAfterClose? { return Some(SocketClosed); }
      var message := m.data;
      if lastHeader.None? {
        if |message| != 8 { return None; }
        var parsed := ParseHeader(message);
        if parsed.Err? { return Some(HeaderError(parsed.error)); }
        lastHeader := Some(parsed.value);
        if parsed.value.messageType == OutOfService { return Some(OutOfServiceError); }
        if parsed.value.messageType == KeepAlive {
          lastHeader := None;
          deliveries := deliveries + [Forwarded(KeepAlive, [])];
          return None;
        }
        if !CarriesBody(parsed.value.messageType) { lastHeader := None; }
        return None;
      }
      if lastHeader.value.estimated && |body| == 0 && |message| == 8 {
        var parsed := ParseHeader(message);
        if parsed.Err? { return Some(HeaderError(parsed.error)); }
        lastHeader := Some(parsed.value);
        if parsed.value.messageType == OutOfService { return Some(OutOfServiceError); }
        if !CarriesBody(parsed.value.messageType) { lastHeader := None; }
        return None;
      }
      body := body + message;
      if |body| < lastHeader.value.payloadLength { return None; }
      var msgType, length := lastHeader.value.messageType, lastHeader.value.payloadLength;
      var payload := body[..length];
      body := [];
      lastHeader := None;
      error := Dispatch(msgType, payload);
    }

    /** The deliveries since `start` and the frames still to come make up `all`. */
    ghost predicate Underway(start: seq<Delivery>, frames: seq<Incoming>, all: Outcome)
      reads this
    {
      && Valid() && start <= deliveries
      && Leads(handlers, Outcome(Current(), deliveries[|start|..], None), frames, all)
    }

    /** `Receive`, told in terms of the whole run. */
    method ReceiveNext(m: Incoming, ghost start: seq<Delivery>, ghost later: seq<Incoming>, ghost all: Outcome)
      returns (error: Option<SessionError>)
      requires Underway(start, [m] + later, all)
      modifies this
      ensures Valid()
      ensures if error.Some? then all == Outcome(Current(), all.out, error) && deliveries == start + all.out
              else Underway(start, later, all)
    {
      ghost var sofar := Outcome(Current(), deliveries[|start|..], None);
      RunNext(handlers, sofar, m, later, all);
      ghost var next := AndThen(sofar, OnFrame(handlers, Current(), m));
      error := Receive(m);
      assert deliveries[|start|..] == next.out;
      assert deliveries == start + next.out;
    }

    /** The whole loop: it ends with the first exception, at the latest with the
        clean close of the socket. */
    method Listen(frames: seq<Incoming>) returns (error: SessionError)
      requires Valid()
      modifies this
      ensures Valid()
      ensures var r := Run(handlers, old(Current()), frames);
              && Current() == r.state && deliveries == old(deliveries) + r.out
              && error == (if r.error.Some? then r.error.value else ClosedOk)
    {
      ghost var start, all := deliveries, Run(handlers, Current(), frames);
      RunStart(handlers, Current(), frames);
      assert frames[0..] == frames && deliveries[|start|..] == [];
      for i := 0 to |frames|
        invariant Underway(start, frames[i..], all)
      {
        assert frames[i..] == [frames[i]] + frames[i + 1..];
        var raised := ReceiveNext(frames[i], start, frames[i + 1..], all);
        if raised.Some? { return raised.value; }
      }
      RunEnd(handlers, Outcome(Current(), deliveries[|start|..], None), all);
      return ClosedOk;
    }
  }

  /* ---- what the Miniserver may put on the wire ---- */

  /** The units a stream is made of. `estimates` are estimated headers. */
  datatype Item =
    | Junk(data: Bytes)                                          // not 8 bytes, where a header belongs
    | Standalone(header: Bytes)                                  // a header without body
    | Message(estimates: seq<Bytes>, header: Bytes, fragments: seq<Bytes>)
    | Withdrawn(estimates: seq<Bytes>, header: Bytes)            // estimates whose exact header has no body
    | Breaking(estimates: seq<Bytes>, header: Bytes)             // out of service, or an unknown identifier

  /** The identifiers of the messages that have a body: texts, value, text, daytimer
      and weather states. */
  predicate AnnouncesBody(id: Byte)
  {
    id == 0 || id == 2 || id == 3 || id == 4 || id == 7
  }

  /** A header, by its bytes, that a body or (estimated) an exact header follows. */
  predicate BodyHeader(header: Bytes, estimated: bool)
  {
    |header| == 8 && header[0] == 3 && AnnouncesBody(header[1]) && (header[2] >= 0x80 <==> estimated)
  }

  predicate Estimates(hs: seq<Bytes>)
  {
    forall i :: 0 <= i < |hs| ==> BodyHeader(hs[i], true)
  }

  /** Not a header of the Miniserver at all, a binary file's, or a keepalive. */
  predicate HasNoBody(header: Bytes)
  {
    |header| == 8 && (header[0] != 3 || header[1] == 1 || header[1] == 6)
  }

  /** Out of service, or an identifier there is no message for. */
  predicate EndsSession(header: Bytes)
  {
    |header| == 8 && header[0] == 3 && (header[1] == 5 || header[1] >= 8)
  }

  predicate IsKeepAlive(header: Bytes)
  {
    |header| == 8 && header[0] == 3 && header[1] == 6
  }

  function LengthOf(header: Bytes): nat
    requires |header| == 8
  {
    U32(header[4..8])
  }

  /** The header as the loop keeps it. */
  function Pending(header: Bytes): MessageHeader
    requires |header| == 8 && header[1] < 8
  {
    MessageHeader(WIRE_TYPES[header[1]], header[2] >= 0x80, LengthOf(header))
  }

  /** What an idle loop makes of a header, told by its bytes alone. */
  lemma IdleReadsHeader(h: Handlers, header: Bytes)
    requires |header| == 8
    ensures BodyHeader(header, header[2] >= 0x80) ==>
              OnFrame(h, IDLE, Frame(header)) == Outcome(State(Some(Pending(header)), []), [], None)
    ensures HasNoBody(header) ==>
              OnFrame(h, IDLE, Frame(header)) ==
                Outcome(IDLE, if IsKeepAlive(header) then [Forwarded(KeepAlive, [])] else [], None)
    ensures EndsSession(header) ==>
              && OnFrame(h, IDLE, Frame(header)).out == []
              && OnFrame(h, IDLE, Frame(header)).error == Some(BreakingError(header))
  {
    HeaderReads(header);
  }

  /** What a loop makes of a header that waits for the one behind an estimate. */
  lemma EstimateIsReplaced(h: Handlers, pending: MessageHeader, header: Bytes)
    requires |header| == 8 && pending.estimated
    ensures BodyHeader(header, header[2] >= 0x80) ==>
              OnFrame(h, State(Some(pending), []), Frame(header)) == Outcome(State(Some(Pending(header)), []), [], None)
    ensures HasNoBody(header) ==> OnFrame(h, State(Some(pending), []), Frame(header)) == Outcome(IDLE, [], None)
    ensures EndsSession(header) ==>
              && OnFrame(h, State(Some(pending), []), Frame(header)).out == []
              && OnFrame(h, State(Some(pending), []), Frame(header)).error == Some(BreakingError(header))
  {
    HeaderReads(header);
  }

  function BreakingError(header: Bytes): SessionError
    requires |header| == 8
  {
    if header[1] == 5 then OutOfServiceError else HeaderError(ValueError)
  }

  /** `fragments` complete a payload of `n` bytes of which `have` are there; what
      follows the completing fragment cannot be taken for a header. */
  predicate Completes(have: nat, fragments: seq<Bytes>, n: nat)
    decreases |fragments|
  {
    fragments != [] &&
    if have + |fragments[0]| < n then Completes(have + |fragments[0]|, fragments[1..], n)
    else forall k :: 1 <= k < |fragments| ==> |fragments[k]| != 8
  }

  predicate ValidItem(item: Item)
  {
    match item
    case Junk(data) => |data| != 8
    case Standalone(header) => HasNoBody(header)
    case Message(es, header, fragments) =>
      && Estimates(es) && BodyHeader(header, false)
      && Completes(0, fragments, LengthOf(header))
    case Withdrawn(es, header) => es != [] && Estimates(es) && HasNoBody(header)
    case Breaking(es, header) => Estimates(es) && EndsSession(header)
  }

  function Frames(data: seq<Bytes>): (fs: seq<Incoming>)
    ensures |fs| == |data| && forall i :: 0 <= i < |fs| ==> fs[i] == Frame(data[i])
  {
    seq(|data|, i requires 0 <= i < |data| => Frame(data[i]))
  }

  function WireForm(item: Item): seq<Incoming>
  {
    match item
    case Junk(data) => [Frame(data)]
    case Standalone(header) => [Frame(header)]
    case Message(es, header, fragments) => Frames(es) + [Frame(header)] + Frames(fragments)
    case Withdrawn(es, header) => Frames(es) + [Frame(header)]
    case Breaking(es, header) => Frames(es) + [Frame(header)]
  }

  function Concat(fragments: seq<Bytes>): Bytes
  {
    if fragments == [] then [] else fragments[0] + Concat(fragments[1..])
  }

  lemma {:induction false} CompletesLength(have: nat, fragments: seq<Bytes>, n: nat)
    requires Completes(have, fragments, n)
    ensures have + |Concat(fragments)| >= n
    decreases |fragments|
  {
    if have + |fragments[0]| < n {
      CompletesLength(have + |fragments[0]|, fragments[1..], n);
    }
  }

  /** What an item amounts to, with no reference to parsed headers, buffers or frames. */
  function Meaning(h: Handlers, item: Item): (seq<Delivery>, Option<SessionError>)
    requires ValidItem(item)
  {
    match item
    case Junk(_) => ([], None)
    case Standalone(header) =>
      (if IsKeepAlive(header) then [Forwarded(KeepAlive, [])] else [], None)
    case Message(_, header, fragments) =>
      CompletesLength(0, fragments, LengthOf(header));
      Deliver(h, WIRE_TYPES[header[1]], Concat(fragments)[..LengthOf(header)])
    case Withdrawn(_, _) => ([], None)
    case Breaking(_, header) => ([], Some(BreakingError(header)))
  }

  predicate ValidItems(items: seq<Item>)
  {
    forall i :: 0 <= i < |items| ==> ValidItem(items[i])
  }

  function Stream(items: seq<Item>): seq<Incoming>
  {
    if items == [] then [] else WireForm(items[0]) + Stream(items[1..])
  }

  /** The deliveries of a stream, in order, up to the first item that ends the session. */
  function StreamMeaning(h: Handlers, items: seq<Item>): (seq<Delivery>, Option<SessionError>)
    requires ValidItems(items)
  {
    if items == [] then ([], None)
    else
      var (out, error) := Meaning(h, items[0]);
      if error.Some? then (out, error)
      else var (rest, later) := StreamMeaning(h, items[1..]); (out + rest, later)
  }

  /** Frames without a pending header that are not 8 bytes change nothing. */
  lemma {:induction false} JunkIsDropped(h: Handlers, frames: seq<Bytes>)
    requires forall k :: 0 <= k < |frames| ==> |frames[k]| != 8
    ensures Run(h, IDLE, Frames(frames)) == Outcome(IDLE, [], None)
  {
    if frames != [] {
      assert Frames(frames)[1..] == Frames(frames[1..]);
      JunkIsDropped(h, frames[1..]);
    }
  }

  /** A pending exact header: the fragments are gathered whatever their sizes. */
  lemma {:induction false} BodyIsGathered(h: Handlers, p: MessageHeader, body: Bytes, fragments: seq<Bytes>)
    requires !p.estimated && Completes(|body|, fragments, p.payloadLength)
    ensures |body + Concat(fragments)| >= p.payloadLength
    ensures var d := Deliver(h, p.messageType, (body + Concat(fragments))[..p.payloadLength]);
            Run(h, State(Some(p), body), Frames(fragments)) == Outcome(IDLE, d.0, d.1)
    decreases |fragments|
  {
    var s, first, later := State(Some(p), body), fragments[0], fragments[1..];
    CompletesLength(|body|, fragments, p.payloadLength);
    assert Frames(fragments)[1..] == Frames(later);
    assert body + Concat(fragments) == (body + first) + Concat(later);
    if |body| + |first| < p.payloadLength {
      BodyIsGathered(h, p, body + first, later);
      var rest := Run(h, State(Some(p), body + first), Frames(later));
      assert [] + rest.out == rest.out;
    } else {
      forall k | 0 <= k < |later| ensures |later[k]| != 8 { assert |fragments[k + 1]| != 8; }
      JunkIsDropped(h, later);
      assert (body + Concat(fragments))[..p.payloadLength] == (body + first)[..p.payloadLength];
      var o := OnFrame(h, s, Frame(first));
      assert o.out + [] == o.out;
    }
  }

  /** Estimated headers only prepare for the header that follows them. */
  lemma {:induction false} EstimatesAreReplaced(h: Handlers, pending: MessageHeader, es: seq<Bytes>, header: Bytes)
    requires pending.estimated && Estimates(es) && |header| == 8
    ensures exists e: MessageHeader ::
              && e.estimated
              && Run(h, State(Some(pending), []), Frames(es) + [Frame(header)])
                 == OnFrame(h, State(Some(e), []), Frame(header))
    decreases |es|
  {
    var s := State(Some(pending), []);
    if es == [] {
      assert Frames(es) + [Frame(header)] == [Frame(header)];
      RunOne(h, s, Frame(header));
    } else {
      assert BodyHeader(es[0], true);
      EstimateIsReplaced(h, pending, es[0]);
      FirstIsSilent(h, s, Frames(es) + [Frame(header)], State(Some(Pending(es[0])), []));
      assert (Frames(es) + [Frame(header)])[1..] == Frames(es[1..]) + [Frame(header)];
      EstimatesAreReplaced(h, Pending(es[0]), es[1..], header);
    }
  }

  lemma FirstIsSilent(h: Handlers, s: State, frames: seq<Incoming>, next: State)
    requires frames != [] && OnFrame(h, s, frames[0]) == Outcome(next, [], None)
    ensures Run(h, s, frames) == Run(h, next, frames[1..])
  {
    var rest := Run(h, next, frames[1..]);
    assert [] + rest.out == rest.out;
  }

  lemma ItemIsUnderstood(h: Handlers, item: Item)
    requires ValidItem(item)
    ensures var r := Run(h, IDLE, WireForm(item));
            && r.out == Meaning(h, item).0 && r.error == Meaning(h, item).1
            && (r.error.None? ==> r.state == IDLE)
  {
    match item {
      case Junk(data) => RunOne(h, IDLE, Frame(data));
      case Standalone(header) => RunOne(h, IDLE, Frame(header));
      case Message(es, header, fragments) =>
        HeaderBehindEstimates(h, es, header);
        var p := Pending(header);
        RunConcat(h, IDLE, Frames(es) + [Frame(header)], Frames(fragments));
        BodyIsGathered(h, p, [], fragments);
        assert [] + Concat(fragments) == Concat(fragments);
        var r := Run(h, State(Some(p), []), Frames(fragments));
        assert [] + r.out == r.out;
      case Withdrawn(es, header) => HeaderBehindEstimates(h, es, header);
      case Breaking(es, header) => HeaderBehindEstimates(h, es, header);
    }
  }

  /** From an idle loop, a header behind any run of estimates is read as a header;
      only a keepalive is treated differently when no estimate precedes it. */
  lemma HeaderBehindEstimates(h: Handlers, es: seq<Bytes>, header: Bytes)
    requires Estimates(es) && |header| == 8
    ensures var r := Run(h, IDLE, Frames(es) + [Frame(header)]);
            && (BodyHeader(header, header[2] >= 0x80) ==> r == Outcome(State(Some(Pending(header)), []), [], None))
            && (HasNoBody(header) ==>
                  r == Outcome(IDLE, if es == [] && IsKeepAlive(header) then [Forwarded(KeepAlive, [])] else [], None))
            && (EndsSession(header) ==> r.out == [] && r.error == Some(BreakingError(header)))
  {
    if es == [] {
      assert Frames(es) + [Frame(header)] == [Frame(header)];
      RunOne(h, IDLE, Frame(header));
      IdleReadsHeader(h, header);
    } else {
      assert BodyHeader(es[0], true);
      IdleReadsHeader(h, es[0]);
      FirstIsSilent(h, IDLE, Frames(es) + [Frame(header)], State(Some(Pending(es[0])), []));
      assert (Frames(es) + [Frame(header)])[1..] == Frames(es[1..]) + [Frame(header)];
      EstimatesAreReplaced(h, Pending(es[0]), es[1..], header);
      var e: MessageHeader :| e.estimated && Run(h, IDLE, Frames(es) + [Frame(header)])
                                             == OnFrame(h, State(Some(e), []), Frame(header));
      EstimateIsReplaced(h, e, header);
    }
  }

  /** Of the eight headers the protocol knows, whatever came before the idle loop: a
      message body is awaited behind exactly the identifiers 0, 2, 3, 4 and 7. */
  lemma BodyIsAwaitedIff(h: Handlers, es: seq<Bytes>, header: Bytes)
    requires Estimates(es) && |header| == 8 && header[0] == 3 && header[1] < 8 && header[1] != 5
    ensures var s := Run(h, IDLE, Frames(es) + [Frame(header)]).state;
            && (s.header.Some? <==>
                  header[1] == 0 || header[1] == 2 || header[1] == 3 || header[1] == 4 || header[1] == 7)
            && (s.header.Some? ==> s.header.value.payloadLength == U32(header[4..8]))
  {
    HeaderBehindEstimates(h, es, header);
  }

  /** Every stream of valid items, malformed ones included, is delivered exactly
      and in order; a malformed item never disturbs another one. */
  lemma {:induction false} StreamIsUnderstood(h: Handlers, items: seq<Item>)
    requires ValidItems(items)
    ensures var r := Run(h, IDLE, Stream(items));
            && r.out == StreamMeaning(h, items).0 && r.error == StreamMeaning(h, items).1
            && (r.error.None? ==> r.state == IDLE)
    decreases |items|
  {
    if items != [] {
      ItemIsUnderstood(h, items[0]);
      RunConcat(h, IDLE, WireForm(items[0]), Stream(items[1..]));
      StreamIsUnderstood(h, items[1..]);
    }
  }

  /** A frame ends the session exactly when the socket is already closed, when it
      is read as a header that is out of service or of no known type, or when it
      completes a message whose handler raises. */
  lemma RaisesExactlyWhen(h: Handlers, s: State, m: Incoming)
    requires Consistent(s)
    ensures OnFrame(h, s, m).error.Some? <==>
      || m.FrameAfterClose?
      || (|m.data| == 8 && (s.header.None? || (s.header.value.estimated && s.body == []))
          && m.data[0] == 3 && (m.data[1] == 5 || m.data[1] >= 8))
      || (s.header.Some? && !(s.header.value.estimated && s.body == [] && |m.data| == 8)
          && |s.body + m.data| >= s.header.value.payloadLength
          && var t, p := s.header.value.messageType, (s.body + m.data)[..s.header.value.payloadLength];
             !(t == Text && !h.parses(p)) && h.fatal(t, p))
  {
    if m.Frame? && |m.data| == 8 && m.data[0] == 3 {
      assert TypeOfId(m.data[1]) == Some(OutOfService) <==> m.data[1] == 5;
    }
  }

  /* ---- the Miniserver as a sender of messages ---- */

  datatype Estimate = Estimate(id: Byte, info: Byte, reserved: Byte, length: nat)

  /** `id` is the identifier on the wire. */
  datatype Sent =
    | KeepAliveSent(info: Byte, reserved: Byte, length: nat)
    | MessageSent(id: Byte, payload: Bytes, info: Byte, reserved: Byte, estimates: seq<Estimate>, cut: seq<Bytes>)

  predicate ValidEstimate(e: Estimate)
  {
    AnnouncesBody(e.id) && e.info >= 0x80 && e.length < 0x1_0000_0000
  }

  /** Any cut into at least one fragment, empty and 8-byte ones included. */
  predicate ValidSent(s: Sent)
  {
    match s
    case KeepAliveSent(_, _, length) => length < 0x1_0000_0000
    case MessageSent(id, payload, info, _, es, cut) =>
      && AnnouncesBody(id) && |payload| < 0x1_0000_0000 && info < 0x80
      && (forall i :: 0 <= i < |es| ==> ValidEstimate(es[i]))
      && cut != [] && Concat(cut) == payload
  }

  function EncodeEstimates(es: seq<Estimate>): (hs: seq<Bytes>)
    requires forall i :: 0 <= i < |es| ==> ValidEstimate(es[i])
    ensures |hs| == |es|
  {
    if es == [] then []
    else
      assert ValidEstimate(es[0]);
      [EncodeHeader(es[0].id, es[0].info, es[0].reserved, es[0].length)] + EncodeEstimates(es[1..])
  }

  function AsItem(s: Sent): Item
    requires ValidSent(s)
  {
    match s
    case KeepAliveSent(info, reserved, length) => Standalone(EncodeHeader(6, info, reserved, length))
    case MessageSent(id, payload, info, reserved, es, cut) =>
      Message(EncodeEstimates(es), EncodeHeader(id, info, reserved, |payload|), cut)
  }

  lemma {:induction false} EncodedEstimates(es: seq<Estimate>)
    requires forall i :: 0 <= i < |es| ==> ValidEstimate(es[i])
    ensures Estimates(EncodeEstimates(es))
  {
    if es != [] {
      assert ValidEstimate(es[0]);
      EncodedEstimates(es[1..]);
    }
  }

  lemma {:induction false} CutCompletes(have: nat, cut: seq<Bytes>)
    requires cut != []
    ensures Completes(have, cut, have + |Concat(cut)|)
    decreases |cut|
  {
    var n := have + |Concat(cut)|;
    if have + |cut[0]| < n {
      assert Concat(cut[1..]) != [];
      CutCompletes(have + |cut[0]|, cut[1..]);
    } else {
      OnlyEmpty(cut[1..]);
      forall k | 1 <= k < |cut| ensures |cut[k]| != 8 { assert cut[k] == cut[1..][k - 1]; }
    }
  }

  lemma {:induction false} OnlyEmpty(fragments: seq<Bytes>)
    requires |Concat(fragments)| == 0
    ensures forall k :: 0 <= k < |fragments| ==> fragments[k] == []
  {
    if fragments != [] {
      OnlyEmpty(fragments[1..]);
      forall k | 0 <= k < |fragments| ensures fragments[k] == [] {
        if k > 0 { assert fragments[k] == fragments[1..][k - 1]; }
      }
    }
  }

  lemma SentIsValid(s: Sent)
    requires ValidSent(s)
    ensures ValidItem(AsItem(s))
  {
    match s {
      case KeepAliveSent(_, _, _) =>
      case MessageSent(id, payload, info, reserved, es, cut) =>
        U32RoundTrip(|payload|);
        EncodedEstimates(es);
        CutCompletes(0, cut);
    }
  }

  function AsItems(sent: seq<Sent>): (items: seq<Item>)
    requires forall i :: 0 <= i < |sent| ==> ValidSent(sent[i])
    ensures |items| == |sent|
  {
    if sent == [] then [] else [AsItem(sent[0])] + AsItems(sent[1..])
  }

  /** The messages themselves, as one delivery each. */
  function Deliveries(h: Handlers, sent: seq<Sent>): (seq<Delivery>, Option<SessionError>)
    requires forall i :: 0 <= i < |sent| ==> ValidSent(sent[i])
  {
    if sent == [] then ([], None)
    else
      assert ValidSent(sent[0]);
      var (out, error) := match sent[0]
        case KeepAliveSent(_, _, _) => ([Forwarded(KeepAlive, [])], None)
        case MessageSent(id, payload, _, _, _, _) => Deliver(h, WIRE_TYPES[id], payload);
      if error.Some? then (out, error)
      else var (rest, later) := Deliveries(h, sent[1..]); (out + rest, later)
  }

  /** However the Miniserver announces and fragments its messages, the listener
      delivers exactly those messages, in order. */
  lemma {:induction false} SentIsDelivered(h: Handlers, sent: seq<Sent>)
    requires forall i :: 0 <= i < |sent| ==> ValidSent(sent[i])
    ensures ValidItems(AsItems(sent))
    ensures var r := Run(h, IDLE, Stream(AsItems(sent)));
            r.out == Deliveries(h, sent).0 && r.error == Deliveries(h, sent).1
  {
    SentMeans(h, sent);
    StreamIsUnderstood(h, AsItems(sent));
  }

  lemma {:induction false} SentMeans(h: Handlers, sent: seq<Sent>)
    requires forall i :: 0 <= i < |sent| ==> ValidSent(sent[i])
    ensures ValidItems(AsItems(sent)) && StreamMeaning(h, AsItems(sent)) == Deliveries(h, sent)
    decreases |sent|
  {
    if sent != [] {
      var s, items := sent[0], AsItems(sent);
      assert ValidSent(s);
      SentIsValid(s);
      SentMeans(h, sent[1..]);
      assert items[0] == AsItem(s) && items[1..] == AsItems(sent[1..]);
      forall i | 0 <= i < |items| ensures ValidItem(items[i]) {
        if i > 0 { assert items[i] == items[1..][i - 1]; }
      }
      SentMeansItself(h, s);
    }
  }

  lemma SentMeansItself(h: Handlers, s: Sent)
    requires ValidSent(s) && ValidItem(AsItem(s))
    ensures Meaning(h, AsItem(s)) == match s
              case KeepAliveSent(_, _, _) => ([Forwarded(KeepAlive, [])], None)
              case MessageSent(id, payload, _, _, _, _) => Deliver(h, WIRE_TYPES[id], payload)
  {
    if s.MessageSent? {
      U32RoundTrip(|s.payload|);
      assert Concat(s.cut)[..|s.payload|] == s.payload;
    }
  }

  /** The frames of one message, from an idle loop. */
  function Arrives(h: Handlers, s: Sent): (seq<Delivery>, Option<SessionError>)
    requires ValidSent(s)
  {
    SentIsDelivered(h, [s]);
    var r := Run(h, IDLE, Stream(AsItems([s])));
    (r.out, r.error)
  }

  /** What becomes of one message, by its identifier on the wire, however it is
      announced and cut. An unreadable text (0) is dropped. Everything else is handled,
      and unless that raises, value states (2), text states (3) and texts that are no
      authentication response are forwarded to a callback; daytimer (4) and weather
      states (7) are not. */
  lemma MessageArrives(h: Handlers, s: Sent)
    requires ValidSent(s) && s.MessageSent?
    ensures var t, dropped := WIRE_TYPES[s.id], s.id == 0 && !h.parses(s.payload);
            var raises := !dropped && h.fatal(t, s.payload);
            var forwarded := !dropped && !raises && h.hasCallback
                             && (s.id == 2 || s.id == 3 || (s.id == 0 && !h.isAuth(s.payload)));
            && Arrives(h, s).0 == (if dropped then [] else [Handled(t, s.payload)])
                                  + (if forwarded then [Forwarded(t, s.payload)] else [])
            && Arrives(h, s).1 == if raises then Some(HandlerError) else None
  {
    SentIsDelivered(h, [s]);
    assert [s][1..] == [];
    var d := Deliver(h, WIRE_TYPES[s.id], s.payload).0;
    assert d + [] == d;
  }

  /** End to end: however a value table is announced and cut, what reaches the
      callback unpacks to the records that were packed. */
  lemma ValueTableArrives(h: Handlers, rs: seq<(Uuid, Double)>, tail: Bytes, s: Sent)
    requires ValidSent(s) && s.MessageSent? && s.id == 2 && |tail| < 24 && s.payload == EncodeValues(rs) + tail
    requires h.hasCallback && !h.fatal(ValueStates, s.payload)
    ensures Run(h, IDLE, Stream(AsItems([s]))).out
         == [Handled(ValueStates, s.payload), Forwarded(ValueStates, s.payload)]
    ensures ValueRecords(s.payload) == rs
  {
    MessageArrives(h, s);
    ValueRoundTrip(rs, tail);
  }

  /** The same for a text table whose last padding may be cut short. */
  lemma TextTableArrives(h: Handlers, rs: seq<TextRecord>, s: Sent)
    requires ValidTable(rs)
    requires ValidSent(s) && s.MessageSent? && s.id == 3 && s.payload == EncodeTexts(rs)
    requires h.hasCallback && !h.fatal(TextStates, s.payload)
    ensures Run(h, IDLE, Stream(AsItems([s]))).out
         == [Handled(TextStates, s.payload), Forwarded(TextStates, s.payload)]
    ensures TextRecords(s.payload) == Ok(rs)
  {
    MessageArrives(h, s);
    TextRoundTrip(rs);
  }

  /** A readable text is handled, and handed on unless it is an authentication
      response; an unreadable one is dropped and disturbs nothing. */
  lemma TextArrives(h: Handlers, s: Sent)
    requires ValidSent(s) && s.MessageSent? && s.id == 0 && h.hasCallback && !h.fatal(Text, s.payload)
    ensures Run(h, IDLE, Stream(AsItems([s]))).out ==
              if !h.parses(s.payload) then []
              else if h.isAuth(s.payload) then [Handled(Text, s.payload)]
              else [Handled(Text, s.payload), Forwarded(Text, s.payload)]
  {
    MessageArrives(h, s);
  }
}
