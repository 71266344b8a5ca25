/** Secured commands (custom_components/loxone/pyloxone_api/connection.py): the
    parameters wait in a deque while a `getvisusalt` request travels through the
    bounded message queue; each reply releases or drops the oldest fresh entry. */
module SecuredCommands {
  import opened Wire

  const SECURED_COMMAND_TIMEOUT := 30.0
  const QUEUE_LIMIT := 1000

  datatype Value = Text(text: string) | Number(number: real) | OfAnotherType

  datatype Command = Command(device: string, value: Value, code: string, created: real)

  datatype Message = SaltRequest | Plain(text: string) | SecuredAction(command: Command)

  /** A message on the queue; `owner` is the position, in sending order, of the
      command a salt request was queued for. The program has no such mark. */
  datatype Queued = Queued(message: Message, owner: Option<int>)

  /** How a `getvisusalt` reply reads; only `Usable` yields a command text. */
  datatype ReplyKind = Usable | NoHash | ErrorCode | Unauthorised | Unreadable

  datatype Event =
    | Send(command: Command)            // send_secured_websocket_command
    | SendPlain(text: string)           // send_websocket_command
    | Transmit(ok: bool)                // the queue's writer takes one message
    | Reply(kind: ReplyKind, now: real) // a getvisusalt reply is handled
    | StartSession                      // start_listening on a new socket: the stale drain
    | Close                             // a close() that was not latched yet

  /** One handled reply: whose request it answered, and whose command it consumed. */
  datatype Handled = Handled(kind: ReplyKind, now: real, answered: Option<int>, taken: Option<int>)

  /** `outstanding` are the owners of the requests the Miniserver received and has
      not answered, oldest first; `sent` and `replies` are the history of the run. */
  datatype State = State(
    pending: seq<Command>, queue: seq<Queued>, outstanding: seq<int>,
    sent: seq<Command>, replies: seq<Handled>)

  const INITIAL := State([], [], [], [], [])

  predicate Fresh(c: Command, now: real)
  {
    now - c.created <= SECURED_COMMAND_TIMEOUT
  }

  /** The number of entries the deque loses to one reply: the expired ones at its
      head and, if one is left, the first fresh one. */
  function Expired(pending: seq<Command>, now: real): (n: nat)
    ensures n <= |pending|
    ensures forall i :: 0 <= i < n ==> !Fresh(pending[i], now)
    ensures n < |pending| ==> Fresh(pending[n], now)
  {
    if pending == [] || Fresh(pending[0], now) then 0 else 1 + Expired(pending[1..], now)
  }

  function Put(queue: seq<Queued>, m: Queued): seq<Queued>
  {
    if |queue| < QUEUE_LIMIT then queue + [m] else queue
  }

  function Step(s: State, e: Event): State
  {
    match e
    case Send(c) =>
      s.(pending := s.pending + [c], sent := s.sent + [c],
         queue := Put(s.queue, Queued(SaltRequest, Some(|s.sent|))))
    case SendPlain(text) => s.(queue := Put(s.queue, Queued(Plain(text), None)))
    case Transmit(ok) =>
      if s.queue == [] then s
      else s.(queue := s.queue[1..],
              outstanding := s.outstanding + if ok then OwnerOf(s.queue[0]) else [])
    case Reply(kind, now) => OnReply(s, kind, now)
    case StartSession => s.(queue := [], outstanding := [])
    case Close => s.(pending := [], outstanding := [])
  }

  /** A reply answers the oldest request and consumes the first fresh command. */
  function OnReply(s: State, kind: ReplyKind, now: real): State
  {
    var n := Expired(s.pending, now);
    var found := n < |s.pending|;
    s.(pending := if found then s.pending[n + 1..] else [],
       queue := if found && kind == Usable then s.queue + [Queued(SecuredAction(s.pending[n]), None)] else s.queue,
       outstanding := if s.outstanding == [] then [] else s.outstanding[1..],
       replies := s.replies + [Handled(
         kind, now,
         if s.outstanding == [] then None else Some(s.outstanding[0]),
         if found then Some(|s.sent| - |s.pending| + n) else None)])
  }

  /** The owners of the salt requests on the queue, in order. */
  function Owners(queue: seq<Queued>): (os: seq<int>)
    ensures |os| <= |queue|
  {
    if queue == [] then [] else OwnerOf(queue[0]) + Owners(queue[1..])
  }

  function OwnerOf(m: Queued): (os: seq<int>)
    ensures |os| <= 1
  {
    if m.owner.Some? then [m.owner.value] else []
  }

  function Run(s: State, events: seq<Event>): State
    decreases |events|
  {
    if events == [] then s else Run(Step(s, events[0]), events[1..])
  }

  /* ---- the object ---- */

  datatype SendError = ValueError | QueueFullError

  /** What the program's queue holds. */
  ghost function Messages(queue: seq<Queued>): (ms: seq<Message>)
    ensures |ms| == |queue|
  {
    seq(|queue|, i requires 0 <= i < |queue| => queue[i].message)
  }

  class SecuredSender {
    var securedQueue: seq<Command>
    var messageQueue: seq<Message>
    ghost var model: State

    ghost predicate Valid()
      reads this
    {
      model.pending == securedQueue && Messages(model.queue) == messageQueue && WellFormed(model)
    }

    constructor ()
      ensures Valid() && model == INITIAL
    {
      securedQueue, messageQueue, model := [], [], INITIAL;
    }

    /** `_pop_secured_command`: drops expired entries until one can be returned. */
    method PopSecured(now: real) returns (popped: Option<Command>)
      modifies this`securedQueue
      ensures var n, q := Expired(old(securedQueue), now), old(securedQueue);
              if n == |q| then popped == None && securedQueue == []
              else popped == Some(q[n]) && securedQueue == q[n + 1..]
    {
      ghost var n, done := Expired(securedQueue, now), 0;
      while |securedQueue| > 0
        invariant done <= n && securedQueue == old(securedQueue)[done..]
        decreases |securedQueue|
      {
        var secured := securedQueue[0];
        securedQueue := securedQueue[1..];
        if now - secured.created <= SECURED_COMMAND_TIMEOUT { return Some(secured); }
        done := done + 1;
      }
      return None;
    }

    /** `send_secured_websocket_command`: the parameters are queued first. */
    method SendSecured(c: Command) returns (error: Option<SendError>)
      requires Valid()
      modifies this
      ensures Valid()
      ensures error == Some(ValueError) <==> c.device == "" || c.value.OfAnotherType? || c.code == ""
      ensures error == Some(ValueError) ==> model == old(model)
      ensures error != Some(ValueError) ==>
                model == Step(old(model), Send(c)) && (error.Some? <==> |old(messageQueue)| >= 1000)
    {
      if c.device == "" { return Some(ValueError); }
      if c.value.OfAnotherType? { return Some(ValueError); }
      if c.code == "" { return Some(ValueError); }
      StepKeepsWellFormed(model, Send(c));
      model := Step(model, Send(c));
      securedQueue := securedQueue + [c];
      if |messageQueue| >= QUEUE_LIMIT { return Some(QueueFullError); }
      messageQueue := messageQueue + [SaltRequest];
      return None;
    }

    /** `send_websocket_command`: a plain command goes straight to the queue. */
    method SendCommand(device: string, value: string) returns (error: Option<SendError>)
      requires Valid()
      modifies this
      ensures Valid()
      ensures error == Some(ValueError) <==> device == ""
      ensures error == Some(ValueError) ==> model == old(model)
      ensures error != Some(ValueError) ==>
                && model == Step(old(model), SendPlain("jdev/sps/io/" + device + "/" + value))
                && (error.Some? <==> |old(messageQueue)| >= 1000)
    {
      if device == "" { return Some(ValueError); }
      var command := "jdev/sps/io/" + device + "/" + value;
      StepKeepsWellFormed(model, SendPlain(command));
      model := Step(model, SendPlain(command));
      if |messageQueue| >= QUEUE_LIMIT { return Some(QueueFullError); }
      messageQueue := messageQueue + [Plain(command)];
      return None;
    }

    /** The `getvisusalt` branch of `_websocket_event`. */
    method OnVisuSaltReply(kind: ReplyKind, now: real) returns (raisesUnauthorised: bool)
      requires Valid()
      modifies this
      ensures Valid() && model == Step(old(model), Reply(kind, now))
      ensures raisesUnauthorised == kind.Unauthorised?
    {
      StepKeepsWellFormed(model, Reply(kind, now));
      model := Step(model, Reply(kind, now));
      var secured := PopSecured(now);
      if secured.Some? && kind.Usable? {
        messageQueue := messageQueue + [SecuredAction(secured.value)];
      }
      return kind.Unauthorised?;
    }

    /** The drain at the start of a session empties the message queue only. */
    method DrainStale() returns (stale: nat)
      requires Valid()
      modifies this
      ensures Valid() && model == Step(old(model), StartSession) && stale == |old(messageQueue)|
    {
      StepKeepsWellFormed(model, StartSession);
      model := Step(model, StartSession);
      stale := 0;
      while |messageQueue| > 0
        invariant stale + |messageQueue| == |old(messageQueue)| && securedQueue == old(securedQueue)
        invariant model == Step(old(model), StartSession)
        decreases |messageQueue|
      {
        messageQueue := messageQueue[1..];
        stale := stale + 1;
      }
    }

    method CloseQueues()
      requires Valid()
      modifies this
      ensures Valid() && model == Step(old(model), Close)
    {
      StepKeepsWellFormed(model, Close);
      model := Step(model, Close);
      securedQueue := [];
    }
  }

  /* ---- every run ---- */

  /** The deque is a suffix of everything sent; the replies consumed positions in
      increasing order, all of them already gone from the deque. */
  ghost predicate WellFormed(s: State)
  {
    && |s.pending| <= |s.sent| && s.pending == s.sent[|s.sent| - |s.pending|..]
    && (forall i :: 0 <= i < |s.replies| && s.replies[i].taken.Some? ==> ConsumedInTime(s, s.replies[i]))
    && (forall i, j :: 0 <= i < j < |s.replies| && s.replies[i].taken.Some? && s.replies[j].taken.Some? ==>
          s.replies[i].taken.value < s.replies[j].taken.value)
  }

  ghost predicate ConsumedInTime(s: State, r: Handled)
    requires |s.pending| <= |s.sent| && r.taken.Some?
  {
    0 <= r.taken.value < |s.sent| - |s.pending| && Fresh(s.sent[r.taken.value], r.now)
  }

  lemma StepKeepsWellFormed(s: State, e: Event)
    requires WellFormed(s)
    ensures WellFormed(Step(s, e))
    ensures s.sent <= Step(s, e).sent && s.replies <= Step(s, e).replies
    ensures |Step(s, e).replies| == |s.replies| + if e.Reply? then 1 else 0
    ensures |s.sent| - |s.pending| <= |Step(s, e).sent| - |Step(s, e).pending|
  {
    var t := Step(s, e);
    if e.Reply? {
      ReplyKeepsWellFormed(s, e.kind, e.now);
    } else {
      forall i | 0 <= i < |t.replies| && t.replies[i].taken.Some? ensures ConsumedInTime(t, t.replies[i]) {
        assert ConsumedInTime(s, s.replies[i]);
      }
    }
  }

  lemma ReplyKeepsWellFormed(s: State, kind: ReplyKind, now: real)
    requires WellFormed(s)
    ensures WellFormed(Step(s, Reply(kind, now)))
  {
    var t, n, last := Step(s, Reply(kind, now)), Expired(s.pending, now), |s.replies|;
    assert t.replies[..last] == s.replies;
    forall i | 0 <= i < |t.replies| && t.replies[i].taken.Some? ensures ConsumedInTime(t, t.replies[i]) {
      if i < last {
        assert ConsumedInTime(s, s.replies[i]);
      } else {
        assert s.pending[n] == s.sent[|s.sent| - |s.pending| + n];
      }
    }
    forall i, j | 0 <= i < j < |t.replies| && t.replies[i].taken.Some? && t.replies[j].taken.Some?
      ensures t.replies[i].taken.value < t.replies[j].taken.value
    {
      assert ConsumedInTime(s, s.replies[i]);
    }
  }

  function CountReplies(events: seq<Event>): nat
  {
    if events == [] then 0 else (if events[0].Reply? then 1 else 0) + CountReplies(events[1..])
  }

  /** In every run, failures, drains and closes included: the consumed commands
      are an order-preserving, duplicate-free selection of those sent, at most one
      per reply, each no more than 30 s old when its reply came. */
  lemma {:induction false} EveryRunIsWellFormed(s: State, events: seq<Event>)
    requires WellFormed(s)
    ensures WellFormed(Run(s, events))
    ensures s.sent <= Run(s, events).sent && s.replies <= Run(s, events).replies
    ensures |Run(s, events).replies| == |s.replies| + CountReplies(events)
    ensures |s.sent| - |s.pending| <= |Run(s, events).sent| - |Run(s, events).pending|
    decreases |events|
  {
    if events != [] {
      StepKeepsWellFormed(s, events[0]);
      EveryRunIsWellFormed(Step(s, events[0]), events[1..]);
    }
  }

  /* ---- what is released ---- */

  /** A secured command put on the message queue, and when. */
  datatype Release = Release(command: Command, at: real)

  /** What a step put behind the messages that were there. */
  function Added(before: seq<Queued>, after: seq<Queued>): seq<Queued>
  {
    if before <= after then after[|before|..] else []
  }

  function Actions(added: seq<Queued>, at: real): seq<Release>
  {
    if added == [] then []
    else (if added[0].message.SecuredAction? then [Release(added[0].message.command, at)] else [])
         + Actions(added[1..], at)
  }

  /** Every secured command the run puts on the message queue, read off the queue. */
  function Released(s: State, events: seq<Event>): seq<Release>
    decreases |events|
  {
    if events == [] then [] else
      var t := Step(s, events[0]);
      Actions(Added(s.queue, t.queue), if events[0].Reply? then events[0].now else 0.0)
      + Released(t, events[1..])
  }

  predicate Releases(r: Handled)
  {
    r.kind == Usable && r.taken.Some?
  }

  /** The positions of the commands that usable replies consumed. */
  function UsableTaken(replies: seq<Handled>): seq<int>
  {
    if replies == [] then []
    else (if Releases(replies[0]) then [replies[0].taken.value] else []) + UsableTaken(replies[1..])
  }

  lemma {:induction false} UsableTakenHolds(replies: seq<Handled>)
    ensures forall p :: p in UsableTaken(replies) <==>
              exists i :: 0 <= i < |replies| && Releases(replies[i]) && replies[i].taken.value == p
  {
    if replies != [] {
      var rest := replies[1..];
      UsableTakenHolds(rest);
      forall p
        ensures p in UsableTaken(replies) <==>
                  exists i :: 0 <= i < |replies| && Releases(replies[i]) && replies[i].taken.value == p
      {
        if p in UsableTaken(rest) {
          var i :| 0 <= i < |rest| && Releases(rest[i]) && rest[i].taken.value == p;
          assert replies[i + 1] == rest[i];
        }
        if i :| 0 < i < |replies| && Releases(replies[i]) && replies[i].taken.value == p {
          assert rest[i - 1] == replies[i];
        }
      }
    }
  }

  /** The k-th release is the command sent at the k-th of some increasing positions,
      no more than 30 s old. */
  ghost predicate SelectedFrom(released: seq<Release>, sent: seq<Command>, positions: seq<int>)
  {
    && |released| == |positions|
    && (forall k :: 0 <= k < |positions| ==> ReleasedFrom(released[k], sent, positions[k]))
    && (forall j, k :: 0 <= j < k < |positions| ==> positions[j] < positions[k])
  }

  ghost predicate ReleasedFrom(r: Release, sent: seq<Command>, p: int)
  {
    0 <= p < |sent| && r.command == sent[p] && r.at - r.command.created <= 30.0
  }

  /** One step releases exactly the command its reply consumed with a usable salt;
      a step that does not extend the queue only takes messages off its front. */
  lemma StepReleases(s: State, e: Event)
    requires WellFormed(s)
    ensures var t := Step(s, e);
            && (s.queue <= t.queue || t.queue == [] || t.queue == s.queue[1..])
            && Actions(Added(s.queue, t.queue), if e.Reply? then e.now else 0.0)
               == if e.Reply? && Releases(t.replies[|s.replies|])
                  then [Release(s.sent[t.replies[|s.replies|].taken.value], e.now)] else []
  {
    var n := Expired(s.pending, if e.Reply? then e.now else 0.0);
    if e.Reply? && n < |s.pending| {
      assert s.pending[n] == s.sent[|s.sent| - |s.pending| + n];
    }
  }

  lemma ReleasedOnce(s: State, e: Event)
    ensures Released(s, [e])
         == Actions(Added(s.queue, Step(s, e).queue), if e.Reply? then e.now else 0.0)
  {
    assert Released(Step(s, e), []) == [];
  }

  /** From any state, the commands a run releases are those that its usable replies
      consumed: an order-preserving, duplicate-free selection of what was sent and
      not yet consumed, each no more than 30 s old. */
  lemma {:induction false} RunReleases(s: State, events: seq<Event>)
    requires WellFormed(s)
    ensures var t := Run(s, events);
            && |s.replies| <= |t.replies|
            && SelectedFrom(Released(s, events), t.sent, UsableTaken(t.replies[|s.replies|..]))
            && forall p :: p in UsableTaken(t.replies[|s.replies|..]) ==> |s.sent| - |s.pending| <= p
    decreases |events|
  {
    if events == [] {
      assert s.replies[|s.replies|..] == [];
    } else {
      var e, rest := events[0], events[1..];
      var n := Step(s, e);
      StepKeepsWellFormed(s, e);
      EveryRunIsWellFormed(n, rest);
      RunReleases(n, rest);
      ReleasesBehind(s, e, Run(n, rest), Released(n, rest));
    }
  }

  /** What one step puts in front of the releases of the steps behind it. */
  lemma ReleasesBehind(s: State, e: Event, t: State, rest: seq<Release>)
    requires WellFormed(s)
    requires var n := Step(s, e);
             && n.sent <= t.sent && n.replies <= t.replies
             && SelectedFrom(rest, t.sent, UsableTaken(t.replies[|n.replies|..]))
             && forall p :: p in UsableTaken(t.replies[|n.replies|..]) ==> |n.sent| - |n.pending| <= p
    ensures var first := Actions(Added(s.queue, Step(s, e).queue), if e.Reply? then e.now else 0.0);
            && |s.replies| <= |t.replies|
            && SelectedFrom(first + rest, t.sent, UsableTaken(t.replies[|s.replies|..]))
            && forall p :: p in UsableTaken(t.replies[|s.replies|..]) ==> |s.sent| - |s.pending| <= p
  {
    var n := Step(s, e);
    StepKeepsWellFormed(s, e);
    StepReleases(s, e);
    if e.Reply? {
      var r := n.replies[|s.replies|];
      Uncons(t.replies, |s.replies|);
      assert t.replies[|s.replies|] == r;
      if Releases(r) { assert ConsumedInTime(n, r); }
      HandledReleases(r, t.replies[|n.replies|..], rest, t.sent, |s.sent| - |s.pending|, |n.sent| - |n.pending|);
    } else {
      assert [] + rest == rest;
    }
  }

  /** One more handled reply in front, whose command lies between two positions. */
  lemma HandledReleases(r: Handled, later: seq<Handled>, rest: seq<Release>, sent: seq<Command>, low: int, next: int)
    requires low <= next && SelectedFrom(rest, sent, UsableTaken(later))
    requires forall p :: p in UsableTaken(later) ==> next <= p
    requires Releases(r) ==>
               && 0 <= low <= r.taken.value < next && r.taken.value < |sent| && Fresh(sent[r.taken.value], r.now)
    ensures var first := if Releases(r) then [Release(sent[r.taken.value], r.now)] else [];
            && SelectedFrom(first + rest, sent, UsableTaken([r] + later))
            && forall p :: p in UsableTaken([r] + later) ==> low <= p
  {
    assert ([r] + later)[1..] == later;
    if Releases(r) {
      SelectedCons(Release(sent[r.taken.value], r.now), rest, sent, r.taken.value, UsableTaken(later));
    } else {
      assert [] + rest == rest && [] + UsableTaken(later) == UsableTaken(later);
    }
  }

  lemma SelectedCons(r: Release, rest: seq<Release>, sent: seq<Command>, p: int, positions: seq<int>)
    requires ReleasedFrom(r, sent, p) && SelectedFrom(rest, sent, positions)
    requires forall q :: q in positions ==> p < q
    ensures SelectedFrom([r] + rest, sent, [p] + positions)
  {
    forall k | 0 <= k < |[p] + positions| ensures ReleasedFrom(([r] + rest)[k], sent, ([p] + positions)[k]) {
      if k > 0 { assert ReleasedFrom(rest[k - 1], sent, positions[k - 1]); }
    }
    forall j, k | 0 <= j < k < |[p] + positions| ensures ([p] + positions)[j] < ([p] + positions)[k] {
      assert positions[k - 1] in positions;
    }
  }

  lemma Uncons<T>(s: seq<T>, n: nat)
    requires n < |s|
    ensures s[n..] == [s[n]] + s[n + 1..]
  {
  }

  /** Over every run, failures, drains and closes included: the released commands
      are an order-preserving, duplicate-free selection of those sent, each no more
      than 30 s old, and no more in number than the replies. */
  lemma EveryRunReleasesASelection(events: seq<Event>)
    ensures var t := Run(INITIAL, events);
            && SelectedFrom(Released(INITIAL, events), t.sent, UsableTaken(t.replies))
            && |Released(INITIAL, events)| <= CountReplies(events)
  {
    var t := Run(INITIAL, events);
    RunReleases(INITIAL, events);
    EveryRunIsWellFormed(INITIAL, events);
    assert t.replies[0..] == t.replies;
    UsableTakenShort(t.replies);
  }

  lemma {:induction false} UsableTakenShort(replies: seq<Handled>)
    ensures |UsableTaken(replies)| <= |replies|
  {
    if replies != [] { UsableTakenShort(replies[1..]); }
  }

  /** Released is a selection of what was sent from position `first` on. */
  ghost predicate SentFrom(first: nat, released: seq<Release>, sent: seq<Command>)
  {
    exists positions :: SelectedFrom(released, sent, positions) && forall p :: p in positions ==> first <= p
  }

  /** A command sent before a close is not released after it: what the rest of the
      run releases was sent behind that close. */
  lemma NothingSurvivesClose(start: State, before: seq<Event>, after: seq<Event>)
    requires WellFormed(start)
    ensures var s, t := Run(start, before), Run(start, before + [Close] + after);
            && Released(start, before + [Close] + after)
               == Released(start, before) + Released(Step(s, Close), after)
            && s.sent <= t.sent
            && SentFrom(|s.sent|, Released(Step(s, Close), after), t.sent)
  {
    var s := Run(start, before);
    EveryRunIsWellFormed(start, before);
    RunAcross(start, before, Close, after);
    AfterClose(s, after);
    assert Released(start, before) + [] == Released(start, before);
  }

  lemma RunAcross(s: State, before: seq<Event>, e: Event, after: seq<Event>)
    ensures var t := Run(s, before);
            && Run(s, before + [e] + after) == Run(Step(t, e), after)
            && Released(s, before + [e] + after)
               == Released(s, before) + Actions(Added(t.queue, Step(t, e).queue), if e.Reply? then e.now else 0.0)
                  + Released(Step(t, e), after)
  {
    RunSnoc(s, before, e);
    RunConcat(s, before + [e], after);
    ReleasedConcat(s, before + [e], after);
  }

  lemma RunSnoc(s: State, events: seq<Event>, e: Event)
    ensures var t := Run(s, events);
            && Run(s, events + [e]) == Step(t, e)
            && Released(s, events + [e])
               == Released(s, events) + Actions(Added(t.queue, Step(t, e).queue), if e.Reply? then e.now else 0.0)
  {
    var t := Run(s, events);
    RunConcat(s, events, [e]);
    ReleasedConcat(s, events, [e]);
    ReleasedOnce(t, e);
    assert Run(t, [e]) == Run(Step(t, e), []);
  }

  lemma AfterClose(s: State, after: seq<Event>)
    requires WellFormed(s)
    ensures var c := Step(s, Close);
            && s.sent <= Run(c, after).sent && Actions(Added(s.queue, c.queue), 0.0) == []
            && SentFrom(|s.sent|, Released(c, after), Run(c, after).sent)
  {
    var c := Step(s, Close);
    StepKeepsWellFormed(s, Close);
    EveryRunIsWellFormed(c, after);
    RunReleases(c, after);
    var positions := UsableTaken(Run(c, after).replies[|c.replies|..]);
    assert SelectedFrom(Released(c, after), Run(c, after).sent, positions);
  }

  lemma {:induction false} RunConcat(s: State, a: seq<Event>, b: seq<Event>)
    ensures Run(s, a + b) == Run(Run(s, a), b)
    decreases |a|
  {
    if a == [] { assert a + b == b; } else {
      assert (a + b)[1..] == a[1..] + b;
      RunConcat(Step(s, a[0]), a[1..], b);
    }
  }

  lemma {:induction false} ReleasedConcat(s: State, a: seq<Event>, b: seq<Event>)
    ensures Released(s, a + b) == Released(s, a) + Released(Run(s, a), b)
    decreases |a|
  {
    if a == [] { assert a + b == b; } else {
      assert (a + b)[1..] == a[1..] + b;
      ReleasedConcat(Step(s, a[0]), a[1..], b);
    }
  }

  /* ---- the message queue ---- */

  /** The oldest waiting command that is no more than 30 s old. */
  function FirstFresh(pending: seq<Command>, now: real): Option<Command>
  {
    if pending == [] then None
    else if now - pending[0].created <= 30.0 then Some(pending[0])
    else FirstFresh(pending[1..], now)
  }

  lemma {:induction false} FirstFreshIsNext(pending: seq<Command>, now: real)
    ensures var n := Expired(pending, now);
            FirstFresh(pending, now) == if n < |pending| then Some(pending[n]) else None
  {
    if pending != [] { FirstFreshIsNext(pending[1..], now); }
  }

  /** What a step is to put on the queue: a request or a command while fewer than 1000
      messages wait, and with a usable reply the oldest fresh secured command. */
  function Due(s: State, e: Event): seq<Message>
  {
    match e
    case Send(_) => if |s.queue| < 1000 then [SaltRequest] else []
    case SendPlain(text) => if |s.queue| < 1000 then [Plain(text)] else []
    case Reply(Usable, now) =>
      (match FirstFresh(s.pending, now) case Some(c) => [SecuredAction(c)] case None => [])
    case _ => []
  }

  function AllDue(s: State, events: seq<Event>): seq<Message>
    decreases |events|
  {
    if events == [] then [] else Due(s, events[0]) + AllDue(Step(s, events[0]), events[1..])
  }

  /** What the writer takes off the queue. */
  function TakenOff(s: State, events: seq<Event>): seq<Message>
    decreases |events|
  {
    if events == [] then []
    else (if events[0].Transmit? && s.queue != [] then [s.queue[0].message] else [])
         + TakenOff(Step(s, events[0]), events[1..])
  }

  lemma MessagesConcat(a: seq<Queued>, b: seq<Queued>)
    ensures Messages(a + b) == Messages(a) + Messages(b)
  {
  }

  lemma StepIsFifo(s: State, e: Event)
    requires e != StartSession
    ensures (if e.Transmit? && s.queue != [] then [s.queue[0].message] else []) + Messages(Step(s, e).queue)
         == Messages(s.queue) + Due(s, e)
  {
    match e {
      case Send(c) => MessagesConcat(s.queue, [Queued(SaltRequest, Some(|s.sent|))]);
      case SendPlain(text) => MessagesConcat(s.queue, [Queued(Plain(text), None)]);
      case Transmit(_) =>
        if s.queue != [] {
          MessagesConcat([s.queue[0]], s.queue[1..]);
          assert [s.queue[0]] + s.queue[1..] == s.queue;
        }
      case Reply(kind, now) =>
        FirstFreshIsNext(s.pending, now);
        var n := Expired(s.pending, now);
        if n < |s.pending| { MessagesConcat(s.queue, [Queued(SecuredAction(s.pending[n]), None)]); }
      case Close =>
    }
  }

  /** Within a session the queue loses, invents and swaps nothing: what was taken off,
      followed by what still waits, is what waited at first, followed by what was due. */
  lemma {:induction false} QueueIsFifo(s: State, events: seq<Event>)
    requires forall i :: 0 <= i < |events| ==> events[i] != StartSession
    ensures TakenOff(s, events) + Messages(Run(s, events).queue) == Messages(s.queue) + AllDue(s, events)
    decreases |events|
  {
    if events != [] {
      var e, t := events[0], Step(s, events[0]);
      StepIsFifo(s, e);
      forall i | 0 <= i < |events| - 1 ensures events[1..][i] != StartSession { assert events[i + 1] != StartSession; }
      QueueIsFifo(t, events[1..]);
      var first := if e.Transmit? && s.queue != [] then [s.queue[0].message] else [];
      Shifted(first, TakenOff(t, events[1..]), Messages(Run(s, events).queue), Messages(t.queue),
              AllDue(t, events[1..]), Messages(s.queue), Due(s, e));
    }
  }

  lemma Shifted<T>(a: seq<T>, b: seq<T>, c: seq<T>, m: seq<T>, d: seq<T>, p: seq<T>, q: seq<T>)
    requires b + c == m + d && a + m == p + q
    ensures (a + b) + c == p + (q + d)
  {
    Associative(a, b, c);
    Associative(a, m, d);
    Associative(p, q, d);
  }

  /* ---- pairing of replies and commands ---- */

  lemma {:induction false} OwnersConcat(a: seq<Queued>, b: seq<Queued>)
    ensures Owners(a + b) == Owners(a) + Owners(b)
  {
    if a == [] { assert a + b == b; } else {
      assert (a + b)[1..] == a[1..] + b;
      OwnersConcat(a[1..], b);
      Associative(OwnerOf(a[0]), Owners(a[1..]), Owners(b));
    }
  }

  lemma OwnersSnoc(queue: seq<Queued>, m: Queued)
    ensures Owners(queue + [m]) == Owners(queue) + OwnerOf(m)
  {
    OwnersConcat(queue, [m]);
    assert Owners([m]) == OwnerOf(m) + Owners([]);
  }

  lemma Associative<T>(a: seq<T>, b: seq<T>, c: seq<T>)
    ensures a + (b + c) == (a + b) + c
  {
  }

  function Range(lo: int, hi: int): (r: seq<int>)
    requires lo <= hi
    ensures |r| == hi - lo && forall i :: 0 <= i < |r| ==> r[i] == lo + i
  {
    seq(hi - lo, i => lo + i)
  }

  /** The requests under way, those at the Miniserver first. */
  function UnderWay(s: State): seq<int>
  {
    s.outstanding + Owners(s.queue)
  }

  /** The requests under way are those of the waiting commands, each for its own and
      in their order. */
  ghost predicate Aligned(s: State)
  {
    |s.pending| <= |s.sent| && UnderWay(s) == Range(|s.sent| - |s.pending|, |s.sent|)
  }

  /** What has to hold for a step not to shift requests against commands. */
  predicate KeepsStep(s: State, e: Event)
  {
    match e
    case Send(_) => |s.queue| < 1000
    case SendPlain(_) => true
    case Transmit(ok) => ok || s.queue == [] || s.queue[0].owner == None
    case Reply(_, now) =>
      if s.outstanding == [] then s.pending == []
      else |s.pending| == 1 || (s.pending != [] && Fresh(s.pending[0], now))
    case StartSession => s.pending == []
    case Close => Owners(s.queue) == []
  }

  /** A step keeps every waiting command aligned with its own request exactly when:
      a send finds room in the queue; no salt request is lost in transmission; no
      command waits for a request that a new session drops; a close leaves no request
      behind; and a reply finds its command fresh (or finds only it), or finds none
      when it is unsolicited. */
  lemma StepKeepsPairing(s: State, e: Event)
    requires Aligned(s)
    ensures Aligned(Step(s, e)) <==> KeepsStep(s, e)
  {
    var t := Step(s, e);
    match e {
      case Send(c) => SendKeepsPairing(s, c);
      case SendPlain(text) => OwnersSnoc(s.queue, Queued(Plain(text), None));
      case Transmit(ok) => TransmitKeepsPairing(s, ok);
      case Reply(kind, now) => ReplyKeepsPairing(s, kind, now);
      case StartSession => assert |UnderWay(t)| == 0;
      case Close => assert |UnderWay(t)| == |Owners(s.queue)|;
    }
  }

  lemma TailOfConcat<T>(a: seq<T>, b: seq<T>)
    requires a != []
    ensures a[1..] + b == (a + b)[1..]
  {
  }

  lemma RangeTail(lo: int, hi: int)
    requires lo < hi
    ensures Range(lo, hi)[1..] == Range(lo + 1, hi)
  {
  }

  lemma SameRangeIff(a: int, b: int, hi: int)
    requires a <= hi && b <= hi
    ensures Range(a, hi) == Range(b, hi) <==> a == b
  {
    assert Range(a, hi) == Range(b, hi) ==> |Range(a, hi)| == |Range(b, hi)|;
  }

  lemma SendKeepsPairing(s: State, c: Command)
    requires Aligned(s)
    ensures Aligned(Step(s, Send(c))) <==> |s.queue| < QUEUE_LIMIT
  {
    var t := Step(s, Send(c));
    OwnersSnoc(s.queue, Queued(SaltRequest, Some(|s.sent|)));
    if |s.queue| < QUEUE_LIMIT {
      Associative(s.outstanding, Owners(s.queue), [|s.sent|]);
    } else {
      assert |UnderWay(t)| == |s.pending|;
    }
  }

  lemma TransmitKeepsPairing(s: State, ok: bool)
    requires Aligned(s)
    ensures Aligned(Step(s, Transmit(ok))) <==> (ok || s.queue == [] || s.queue[0].owner == None)
  {
    if s.queue != [] {
      var t := Step(s, Transmit(ok));
      Associative(s.outstanding, OwnerOf(s.queue[0]), Owners(s.queue[1..]));
      assert |UnderWay(t)| == |s.pending| - if ok then 0 else |OwnerOf(s.queue[0])|;
    }
  }

  /** A reply takes the first request away, if there is one. */
  lemma ReplyTakesFirst(s: State, kind: ReplyKind, now: real)
    requires Aligned(s)
    ensures var lo := |s.sent| - |s.pending|;
            && (s.outstanding == [] ==> UnderWay(OnReply(s, kind, now)) == Range(lo, |s.sent|))
            && (s.outstanding != [] ==>
                  && s.outstanding[0] == lo < |s.sent|
                  && UnderWay(OnReply(s, kind, now)) == Range(lo + 1, |s.sent|))
  {
    ReplyKeepsOwners(s, kind, now);
    if s.outstanding != [] {
      TailOfConcat(s.outstanding, Owners(s.queue));
      assert UnderWay(s)[0] == s.outstanding[0];
      RangeTail(|s.sent| - |s.pending|, |s.sent|);
    }
  }

  lemma ReplyKeepsPairing(s: State, kind: ReplyKind, now: real)
    requires Aligned(s)
    ensures Aligned(OnReply(s, kind, now)) <==> KeepsStep(s, Reply(kind, now))
  {
    var lo, left := |s.sent| - |s.pending|, |OnReply(s, kind, now).pending|;
    ReplyTakesFirst(s, kind, now);
    SameRangeIff(if s.outstanding == [] then lo else lo + 1, |s.sent| - left, |s.sent|);
    if s.pending != [] { ReplyConsumesOneIff(s, kind, now); }
  }

  lemma ReplyKeepsOwners(s: State, kind: ReplyKind, now: real)
    ensures Owners(OnReply(s, kind, now).queue) == Owners(s.queue)
  {
    var n := Expired(s.pending, now);
    if n < |s.pending| { OwnersSnoc(s.queue, Queued(SecuredAction(s.pending[n]), None)); }
  }

  lemma ReplyConsumesOneIff(s: State, kind: ReplyKind, now: real)
    requires s.pending != []
    ensures |OnReply(s, kind, now).pending| < |s.pending|
    ensures |OnReply(s, kind, now).pending| == |s.pending| - 1 <==> |s.pending| == 1 || Fresh(s.pending[0], now)
  {
  }

  /** From an aligned state a reply answers the request of the oldest waiting
      command. It consumes that command exactly when it is fresh, and it releases
      it exactly when besides the salt is usable. */
  lemma ReplyReleasesItsOwn(s: State, kind: ReplyKind, now: real)
    requires Aligned(s) && WellFormed(s) && s.outstanding != []
    ensures var t, own := Step(s, Reply(kind, now)), s.outstanding[0];
            && 0 <= own < |s.sent| && s.pending != [] && s.sent[own] == s.pending[0]
            && t.replies[|s.replies|].answered == Some(own)
            && (t.replies[|s.replies|].taken == Some(own) <==> now - s.sent[own].created <= 30.0)
            && (Released(s, [Reply(kind, now)]) == [Release(s.sent[own], now)] <==>
                  kind == Usable && now - s.sent[own].created <= 30.0)
  {
    ReplyConsumesItsOwn(s, kind, now);
    StepReleases(s, Reply(kind, now));
    ReleasedOnce(s, Reply(kind, now));
    ConsumedIsFresh(s, kind, now);
  }

  lemma ReplyConsumesItsOwn(s: State, kind: ReplyKind, now: real)
    requires Aligned(s) && WellFormed(s) && s.outstanding != []
    ensures var r, own := Step(s, Reply(kind, now)).replies[|s.replies|], s.outstanding[0];
            && 0 <= own < |s.sent| && s.pending != [] && s.sent[own] == s.pending[0]
            && r.answered == Some(own) && (r.taken == Some(own) <==> Fresh(s.sent[own], now))
  {
    ReplyTakesFirst(s, kind, now);
  }

  lemma ConsumedIsFresh(s: State, kind: ReplyKind, now: real)
    requires WellFormed(s)
    ensures var r := Step(s, Reply(kind, now)).replies[|s.replies|];
            r.taken.Some? ==> 0 <= r.taken.value < |s.sent| && Fresh(s.sent[r.taken.value], now)
  {
    StepKeepsWellFormed(s, Reply(kind, now));
    var t := Step(s, Reply(kind, now));
    assert t.replies[|s.replies|].taken.Some? ==> ConsumedInTime(t, t.replies[|s.replies|]);
  }

  predicate OwnOrNone(r: Handled)
  {
    r.taken == None || r.taken == r.answered
  }

  ghost predicate OwnersSent(s: State)
  {
    && (forall i :: 0 <= i < |s.outstanding| ==> s.outstanding[i] < |s.sent|)
    && (forall i :: 0 <= i < |s.queue| && s.queue[i].owner.Some? ==> s.queue[i].owner.value < |s.sent|)
  }

  /** Nothing waits, as between a close and the next session, or all is aligned. */
  ghost predicate InOrder(s: State)
  {
    |s.pending| <= |s.sent| && OwnersSent(s) && (s.pending == [] || Aligned(s))
  }

  /** What has to hold for a step not to give a reply another request's command. A
      close is always safe, and so is everything up to the new session but a send. */
  predicate Safe(s: State, e: Event)
  {
    match e
    case Send(_) => |s.queue| < 1000 && (s.pending == [] ==> UnderWay(s) == [])
    case SendPlain(_) => true
    case Transmit(ok) => s.pending == [] || ok || s.queue == [] || s.queue[0].owner == None
    case Reply(_, now) =>
      Expired(s.pending, now) == |s.pending| || (s.outstanding != [] && Fresh(s.pending[0], now))
    case StartSession => s.pending == []
    case Close => true
  }

  /** A step is safe exactly when it leaves the state in order and, if it is a reply,
      takes its own command or none. */
  lemma StepIsSafeIff(s: State, e: Event)
    requires InOrder(s)
    ensures var t := Step(s, e);
            Safe(s, e) <==> InOrder(t) && (e.Reply? ==> OwnOrNone(t.replies[|s.replies|]))
  {
    StepKeepsOwnersSent(s, e);
    if e.Send? && s.pending == [] {
      SendToNone(s, e.command);
    } else if s.pending != [] {
      StepKeepsPairing(s, e);
      if e.Reply? { ReplyTakesFirst(s, e.kind, e.now); }
    }
  }

  lemma StepKeepsOwnersSent(s: State, e: Event)
    requires OwnersSent(s) && |s.pending| <= |s.sent|
    ensures OwnersSent(Step(s, e)) && |Step(s, e).pending| <= |Step(s, e).sent|
  {
  }

  lemma {:induction false} OwnersBelow(queue: seq<Queued>, bound: int)
    requires forall i :: 0 <= i < |queue| && queue[i].owner.Some? ==> queue[i].owner.value < bound
    ensures forall i :: 0 <= i < |Owners(queue)| ==> Owners(queue)[i] < bound
  {
    if queue != [] { OwnersBelow(queue[1..], bound); }
  }

  lemma SendToNone(s: State, c: Command)
    requires InOrder(s) && s.pending == []
    ensures Aligned(Step(s, Send(c))) <==> |s.queue| < QUEUE_LIMIT && UnderWay(s) == []
  {
    var t, n := Step(s, Send(c)), |s.sent|;
    UnderWayIsSent(s);
    OwnersSnoc(s.queue, Queued(SaltRequest, Some(n)));
    assert Range(n, n + 1) == [n];
    if |s.queue| < QUEUE_LIMIT {
      Associative(s.outstanding, Owners(s.queue), [n]);
      assert UnderWay(s) == [] ==> [] + [n] == [n];
      assert UnderWay(s) != [] ==> |UnderWay(t)| > 1;
    } else {
      assert UnderWay(t) == UnderWay(s);
      assert UnderWay(s) != [] ==> UnderWay(s)[0] != n;
    }
  }

  lemma UnderWayIsSent(s: State)
    requires OwnersSent(s)
    ensures forall i :: 0 <= i < |UnderWay(s)| ==> UnderWay(s)[i] < |s.sent|
  {
    OwnersBelow(s.queue, |s.sent|);
  }

  predicate SafeRun(s: State, events: seq<Event>)
    decreases |events|
  {
    events == [] || (Safe(s, events[0]) && SafeRun(Step(s, events[0]), events[1..]))
  }

  /** While every step is safe, over any number of closes and new sessions, no reply
      ever touches a command other than the one its request was sent for. */
  lemma {:induction false} NoReplyTakesAnother(s: State, events: seq<Event>)
    requires InOrder(s) && SafeRun(s, events)
    ensures var t := Run(s, events);
            && InOrder(t) && s.replies <= t.replies
            && forall i :: |s.replies| <= i < |t.replies| ==> OwnOrNone(t.replies[i])
    decreases |events|
  {
    if events != [] {
      var n, t := Step(s, events[0]), Run(s, events);
      StepIsSafeIff(s, events[0]);
      NoReplyTakesAnother(n, events[1..]);
      forall i | |s.replies| <= i < |t.replies| ensures OwnOrNone(t.replies[i]) {
        if i < |n.replies| { assert t.replies[i] == n.replies[i]; }
      }
    }
  }

  predicate KeepsStepRun(s: State, events: seq<Event>)
    decreases |events|
  {
    events == [] || (KeepsStep(s, events[0]) && KeepsStepRun(Step(s, events[0]), events[1..]))
  }

  /** Runs that keep the alignment at every step are among the safe ones. */
  lemma {:induction false} AlignedRunIsSafe(s: State, events: seq<Event>)
    requires Aligned(s) && OwnersSent(s) && KeepsStepRun(s, events)
    ensures SafeRun(s, events) && Aligned(Run(s, events))
    decreases |events|
  {
    if events != [] {
      StepKeepsPairing(s, events[0]);
      StepKeepsOwnersSent(s, events[0]);
      if events[0].Reply? { ReplyTakesFirst(s, events[0].kind, events[0].now); }
      AlignedRunIsSafe(Step(s, events[0]), events[1..]);
    }
  }

  /** Whatever was queued or lost before, a close and a new session with no send in
      between are aligned again. */
  lemma ReconnectRealigns(s: State, between: seq<Event>)
    requires |s.pending| <= |s.sent| && forall i :: 0 <= i < |between| ==> !between[i].Send?
    ensures Aligned(Step(Run(Step(s, Close), between), StartSession))
  {
    NothingWaits(Step(s, Close), between);
    NewSessionAligns(Run(Step(s, Close), between));
  }

  lemma NewSessionAligns(s: State)
    requires s.pending == []
    ensures Aligned(Step(s, StartSession))
  {
    assert Range(|s.sent|, |s.sent|) == [];
  }

  lemma {:induction false} NothingWaits(s: State, events: seq<Event>)
    requires s.pending == [] && forall i :: 0 <= i < |events| ==> !events[i].Send?
    ensures Run(s, events).pending == []
    decreases |events|
  {
    if events != [] { NothingWaits(Step(s, events[0]), events[1..]); }
  }

  /** As many requests as waiting commands are not enough: after a late reply and
      a lost request both numbers are one, and the reply to b's request releases c. */
  lemma EqualNumbersAreNotEnough(a: Command, b: Command, c: Command, late: real, now: real)
    requires !Fresh(a, late) && Fresh(b, late) && Fresh(c, now)
    ensures var s := Run(Run(INITIAL, [Send(a), Send(b), Transmit(true), Transmit(true)]),
                         [Reply(Usable, late), Transmit(true), Send(c), Transmit(false)]);
            && |s.pending| == 1 == |s.outstanding| && Owners(s.queue) == [] && !Aligned(s)
            && s.sent == [a, b, c] && s.outstanding == [1]
            && Step(s, Reply(Usable, now)).queue == [Queued(SecuredAction(c), None)]
  {
    RunFour(INITIAL, Send(a), Send(b), Transmit(true), Transmit(true));
    BothRequested(a, b);
    var s4 := State([a, b], [], [0, 1], [a, b], []);
    RunFour(s4, Reply(Usable, late), Transmit(true), Send(c), Transmit(false));
    LateThenLost(a, b, c, late);
    var s8 := State([c], [], [1], [a, b, c], [Handled(Usable, late, Some(0), Some(1))]);
    assert UnderWay(s8) == [1] && Range(2, 3)[0] == 2;
  }

  lemma BothRequested(a: Command, b: Command)
    ensures Step(Step(Step(Step(INITIAL, Send(a)), Send(b)), Transmit(true)), Transmit(true))
         == State([a, b], [], [0, 1], [a, b], [])
  {
    var s2 := Step(Step(INITIAL, Send(a)), Send(b));
    assert s2.queue == [Queued(SaltRequest, Some(0)), Queued(SaltRequest, Some(1))];
  }

  lemma LateThenLost(a: Command, b: Command, c: Command, late: real)
    requires !Fresh(a, late) && Fresh(b, late)
    ensures var s := State([a, b], [], [0, 1], [a, b], []);
            Step(Step(Step(Step(s, Reply(Usable, late)), Transmit(true)), Send(c)), Transmit(false))
              == State([c], [], [1], [a, b, c], [Handled(Usable, late, Some(0), Some(1))])
  {
    var s := State([a, b], [], [0, 1], [a, b], []);
    assert Expired(s.pending, late) == 1 + Expired(s.pending[1..], late);
    var s5 := Step(s, Reply(Usable, late));
    assert s5.pending == [] && s5.outstanding == [1] && s5.queue == [Queued(SecuredAction(b), None)];
  }

  lemma RunFour(s: State, e1: Event, e2: Event, e3: Event, e4: Event)
    ensures Run(s, [e1, e2, e3, e4]) == Step(Step(Step(Step(s, e1), e2), e3), e4)
  {
    var t := Step(s, e1);
    assert Run(s, [e1, e2, e3, e4]) == Run(t, [e2, e3, e4]) == Run(Step(t, e2), [e3, e4])
        == Run(Step(Step(t, e2), e3), [e4]) == Run(Step(Step(Step(t, e2), e3), e4), []);
  }

  /** Every step meets its condition and every reply is solicited and in time. */
  predicate Undisturbed(s: State, e: Event)
  {
    && KeepsStep(s, e)
    && (e.Reply? ==> s.outstanding != [] && s.pending != [] && Fresh(s.pending[0], e.now))
    && e != StartSession && e != Close
  }

  predicate UndisturbedRun(s: State, events: seq<Event>)
    decreases |events|
  {
    events == [] || (Undisturbed(s, events[0]) && UndisturbedRun(Step(s, events[0]), events[1..]))
  }

  /** The i-th reply answered the i-th request and consumed the i-th command; the
      rest still waits. */
  ghost predicate Paired(s: State)
  {
    && |s.replies| <= |s.sent| && s.pending == s.sent[|s.replies|..]
    && forall i :: 0 <= i < |s.replies| ==> s.replies[i].taken == Some(i) == s.replies[i].answered
  }

  lemma {:induction false} UndisturbedRunIsPaired(s: State, events: seq<Event>)
    requires Aligned(s) && Paired(s) && UndisturbedRun(s, events)
    ensures Aligned(Run(s, events)) && Paired(Run(s, events))
    decreases |events|
  {
    if events != [] {
      StepKeepsPairing(s, events[0]);
      assert s.outstanding != [] ==> s.outstanding[0] == UnderWay(s)[0];
      UndisturbedRunIsPaired(Step(s, events[0]), events[1..]);
    }
  }

  /** In an undisturbed session the i-th reply answers the i-th request and decides
      about the i-th command: a usable salt releases it, any other reply drops it.
      Nothing else is released, and the rest waits in order. */
  lemma SessionIsPaired(events: seq<Event>)
    requires UndisturbedRun(INITIAL, events)
    ensures var s := Run(INITIAL, events);
            && Aligned(s) && |s.replies| <= |s.sent| && s.pending == s.sent[|s.replies|..]
            && (forall i :: 0 <= i < |s.replies| ==> s.replies[i].answered == s.replies[i].taken == Some(i))
            && SelectedFrom(Released(INITIAL, events), s.sent, UsableTaken(s.replies))
            && (forall i :: 0 <= i < |s.replies| ==> (i in UsableTaken(s.replies) <==> s.replies[i].kind == Usable))
            && (forall p :: p in UsableTaken(s.replies) ==> 0 <= p < |s.replies|)
  {
    var s := Run(INITIAL, events);
    UndisturbedRunIsPaired(INITIAL, events);
    RunReleases(INITIAL, events);
    assert s.replies[0..] == s.replies;
    UsableTakenHolds(s.replies);
  }

  /** In any state, aligned or not: a handled reply with a fresh command at the head
      puts that command on the queue exactly when the salt is usable; in every other
      case the command is gone for good. */
  lemma ReleasedIffUsable(s: State, kind: ReplyKind, now: real)
    requires WellFormed(s) && s.pending != [] && Fresh(s.pending[0], now)
    ensures var t, p := Step(s, Reply(kind, now)), |s.sent| - |s.pending|;
            && t.replies[|s.replies|].taken == Some(p)
            && t.pending == s.pending[1..]
            && t.queue == (if kind == Usable then s.queue + [Queued(SecuredAction(s.sent[p]), None)] else s.queue)
            && Released(s, [Reply(kind, now)]) == if kind == Usable then [Release(s.sent[p], now)] else []
  {
    StepReleases(s, Reply(kind, now));
    ReleasedOnce(s, Reply(kind, now));
  }

  /* ---- the three ways pairing slips ---- */

  /** A command whose send raised because the queue was full is released later, by
      the reply to another command's request. */
  lemma RejectedCommandIsReleased(s: State, a: Command, b: Command, now: real)
    requires s.pending == [] && s.outstanding == [] && Owners(s.queue) == [] && |s.queue| == QUEUE_LIMIT
    requires Fresh(a, now)
    ensures var full := Step(s, Send(a));
            var drained := full.(queue := []);
            var t := Step(Step(Step(drained, Send(b)), Transmit(true)), Reply(Usable, now));
            && full.queue == s.queue && Run(full, seq(|full.queue|, _ => Transmit(true))) == drained
            && t.replies == s.replies + [Handled(Usable, now, Some(|s.sent| + 1), Some(|s.sent|))]
            && t.queue == [Queued(SecuredAction(a), None)] && t.pending == [b] && t.outstanding == []
  {
    TransmitAll(Step(s, Send(a)));
    ReplyToTheSecond(Step(s, Send(a)).(queue := []), a, b, now);
  }

  lemma ReplyToTheSecond(s: State, a: Command, b: Command, now: real)
    requires s.pending == [a] && s.outstanding == [] && s.queue == [] && s.sent != [] && Fresh(a, now)
    ensures var t := Step(Step(Step(s, Send(b)), Transmit(true)), Reply(Usable, now));
            && t.replies == s.replies + [Handled(Usable, now, Some(|s.sent|), Some(|s.sent| - 1))]
            && t.queue == [Queued(SecuredAction(a), None)] && t.pending == [b] && t.outstanding == []
  {
    var two := Step(Step(s, Send(b)), Transmit(true));
    assert two.outstanding == [|s.sent|] && two.pending == [a, b] && two.queue == [];
  }

  lemma {:induction false} TransmitAll(s: State)
    requires Owners(s.queue) == []
    ensures Run(s, seq(|s.queue|, _ => Transmit(true))) == s.(queue := [])
    decreases |s.queue|
  {
    if s.queue != [] {
      var events := seq(|s.queue|, _ => Transmit(true));
      assert events[1..] == seq(|s.queue| - 1, _ => Transmit(true));
      TransmitAll(Step(s, Transmit(true)));
    }
  }

  /** A command sent between two sessions loses its request to the stale drain and
      is released by the reply to the next command's request. */
  lemma DrainedRequestShiftsTheRelease(a: Command, b: Command, now: real)
    requires Fresh(a, now)
    ensures var t := Run(INITIAL, [Send(a), StartSession, Send(b), Transmit(true), Reply(Usable, now)]);
            && t.replies == [Handled(Usable, now, Some(1), Some(0))]
            && t.queue == [Queued(SecuredAction(a), None)] && t.pending == [b] && t.outstanding == []
  {
    var s2 := Step(Step(INITIAL, Send(a)), StartSession);
    RunFour(INITIAL, Send(a), StartSession, Send(b), Transmit(true));
    RunSnoc(INITIAL, [Send(a), StartSession, Send(b), Transmit(true)], Reply(Usable, now));
    assert [Send(a), StartSession, Send(b), Transmit(true)] + [Reply(Usable, now)]
        == [Send(a), StartSession, Send(b), Transmit(true), Reply(Usable, now)];
    ReplyToTheSecond(s2, a, b, now);
  }

  /** A reply later than the timeout releases the next command instead of its own. */
  lemma LateReplyReleasesTheNext(s: State, now: real)
    requires WellFormed(s) && |s.pending| >= 2 && !Fresh(s.pending[0], now) && Fresh(s.pending[1], now)
    ensures Step(s, Reply(Usable, now)).queue == s.queue + [Queued(SecuredAction(s.pending[1]), None)]
    ensures Step(s, Reply(Usable, now)).pending == s.pending[2..]
  {
    assert Expired(s.pending, now) == 1 + Expired(s.pending[1..], now);
  }
}
