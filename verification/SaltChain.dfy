/** The salt of encrypted commands (`_send_text_command`, `_new_salt_needed`,
    `_generate_salt` in custom_components/loxone/pyloxone_api/connection.py) against
    a Miniserver that checks every salt it is told. */
module SaltChain {
  import opened Wire

  const SALT_MAX_USE_COUNT := 100
  const SALT_MAX_AGE_SECONDS := 3600

  /** What the socket carries; the two encrypted forms are shown decrypted. */
  datatype Sent =
    | Clear(command: string)
    | WithSalt(salt: string, command: string)
    | WithNextSalt(old_: string, next: string, command: string)

  datatype Failure = NotOpen | TransportError

  /** One call of `_send_text_command`: whether the socket is open, whether the
      transport takes the frame, both clock reads and the new random salt. */
  datatype Call = Call(
    command: string, encrypted: bool, open: bool, transported: bool,
    checkedAt: int, generatedAt: int, newSalt: string)

  datatype Event = Opened(generatedAt: int, newSalt: string) | Sending(call: Call)

  datatype Client = Client(salt: string, usedCount: int, timeStamp: int)

  /** A generated salt and the clock at its generation. */
  datatype Salt = Salt(text: string, born: int)

  /** A transmitted frame, the generation of the salt it uses and the clock at the send. */
  datatype Logged = Logged(frame: Sent, generation: int, at: int)

  /** `expected` is the salt the Miniserver waits for, `None` before the first
      encrypted command of a session; `accepted` turns false with the first frame
      it refuses. `salts` lists every salt generated so far. */
  datatype State = State(
    client: Client, expected: Option<string>, accepted: bool, salts: seq<Salt>, log: seq<Logged>)

  predicate RotationDue(c: Client, checkedAt: int)
  {
    c.usedCount + 1 > SALT_MAX_USE_COUNT || checkedAt - c.timeStamp > SALT_MAX_AGE_SECONDS
  }

  predicate ServerAccepts(expected: Option<string>, f: Sent)
  {
    match f
    case Clear(_) => true
    case WithSalt(salt, _) => expected == None || expected == Some(salt)
    case WithNextSalt(old_, _, _) => expected == None || expected == Some(old_)
  }

  function ServerExpects(expected: Option<string>, f: Sent): Option<string>
  {
    match f
    case Clear(_) => expected
    case WithSalt(salt, _) => Some(salt)
    case WithNextSalt(_, next, _) => Some(next)
  }

  /** The client after the salt check of one encrypted call, and its frame. */
  function Salted(c: Client, call: Call): (Client, Sent)
  {
    if !call.encrypted then (c, Clear(call.command))
    else if RotationDue(c, call.checkedAt) then
      (Client(call.newSalt, 0, call.generatedAt), WithNextSalt(c.salt, call.newSalt, call.command))
    else (c.(usedCount := c.usedCount + 1), WithSalt(c.salt, call.command))
  }

  function Step(s: State, e: Event): State
  {
    match e
    case Opened(at, newSalt) =>
      s.(client := Client(newSalt, 0, at), expected := None, salts := s.salts + [Salt(newSalt, at)])
    case Sending(call) =>
      if !call.open then s
      else
        var (c, frame) := Salted(s.client, call);
        var salts := if frame.WithNextSalt? then s.salts + [Salt(call.newSalt, call.generatedAt)] else s.salts;
        if !call.transported then s.(client := c, salts := salts)
        else
          s.(client := c, salts := salts,
             expected := if ServerAccepts(s.expected, frame) then ServerExpects(s.expected, frame) else s.expected,
             accepted := s.accepted && ServerAccepts(s.expected, frame),
             log := s.log + [Logged(frame, |salts| - 1, call.checkedAt)])
  }

  function Run(s: State, events: seq<Event>): State
    decreases |events|
  {
    if events == [] then s else Run(Step(s, events[0]), events[1..])
  }

  /* ---- the object ---- */

  class SaltedSender {
    var salt: string
    var saltUsedCount: int
    var saltTimeStamp: int

    function Current(): Client
      reads this
    {
      Client(salt, saltUsedCount, saltTimeStamp)
    }

    constructor ()
      ensures Current() == Client("", 0, 0)
    {
      salt, saltUsedCount, saltTimeStamp := "", 0, 0;
    }

    method GenerateSalt(newSalt: string, now: int)
      modifies this
      ensures Current() == Client(newSalt, 0, now)
    {
      salt := newSalt;
      saltTimeStamp := now;
      saltUsedCount := 0;
    }

    method NewSaltNeeded(now: int) returns (needed: bool)
      modifies this`saltUsedCount
      ensures needed == RotationDue(old(Current()), now)
      ensures saltUsedCount == old(saltUsedCount) + 1
    {
      saltUsedCount := saltUsedCount + 1;
      return saltUsedCount > SALT_MAX_USE_COUNT || now - saltTimeStamp > SALT_MAX_AGE_SECONDS;
    }

    /** The frame is `None` when the socket is not open: then nothing is touched. */
    method SendTextCommand(call: Call) returns (frame: Option<Sent>, failure: Option<Failure>)
      modifies this
      ensures !call.open ==> failure == Some(NotOpen) && frame == None && Current() == old(Current())
      ensures call.open ==>
                && (Current(), frame) == (Salted(old(Current()), call).0, Some(Salted(old(Current()), call).1))
                && failure == (if call.transported then None else Some(TransportError))
    {
      if !call.open { return None, Some(NotOpen); }
      frame := Some(Clear(call.command));
      if call.encrypted {
        var needed := NewSaltNeeded(call.checkedAt);
        if needed {
          var oldSalt := salt;
          GenerateSalt(call.newSalt, call.generatedAt);
          frame := Some(WithNextSalt(oldSalt, salt, call.command));
        } else {
          frame := Some(WithSalt(salt, call.command));
        }
      }
      failure := if call.transported then None else Some(TransportError);
    }
  }

  /* ---- the chain ---- */

  predicate InStep(s: State)
  {
    s.expected == None || s.expected == Some(s.client.salt)
  }

  /** Client and Miniserver fall out of step in exactly one way: the transport
      loses a `nextSalt` frame after an earlier encrypted command got through. */
  lemma StepKeepsChain(s: State, e: Event)
    requires InStep(s)
    ensures InStep(Step(s, e)) <==>
      !(e.Sending? && e.call.open && e.call.encrypted && !e.call.transported
        && RotationDue(s.client, e.call.checkedAt) && s.expected.Some? && e.call.newSalt != s.client.salt)
    ensures Step(s, e).accepted == s.accepted
  {
  }

  predicate Transported(events: seq<Event>)
  {
    forall i :: 0 <= i < |events| && events[i].Sending? && events[i].call.open ==> events[i].call.transported
  }

  /** Over every run in which no send on an open socket fails: the Miniserver has
      accepted every frame and waits for the very salt the client will use. */
  lemma {:induction false} ChainStaysInStep(s: State, events: seq<Event>)
    requires InStep(s) && Transported(events)
    ensures InStep(Run(s, events)) && Run(s, events).accepted == s.accepted
    decreases |events|
  {
    if events != [] {
      StepKeepsChain(s, events[0]);
      assert Transported(events[1..]) by {
        forall i | 0 <= i < |events| - 1 && events[1..][i].Sending? && events[1..][i].call.open
          ensures events[1..][i].call.transported
        {
          assert events[i + 1] == events[1..][i];
        }
      }
      ChainStaysInStep(Step(s, events[0]), events[1..]);
    }
  }

  /** The Miniserver waits for a salt the client no longer has. */
  predicate Broken(s: State, awaited: string)
  {
    s.expected == Some(awaited) && s.client.salt != awaited
  }

  /** The rest of a session in which the awaited salt is not drawn once more. */
  predicate SendsWithout(awaited: string, events: seq<Event>)
  {
    forall i :: 0 <= i < |events| ==> events[i].Sending? && events[i].call.newSalt != awaited
  }

  predicate ReachesServer(e: Event)
  {
    e.Sending? && e.call.open && e.call.encrypted && e.call.transported
  }

  /** A broken chain stays broken however often the client sends and rotates: the
      first encrypted command that reaches the Miniserver is refused, and with it
      every later one. */
  lemma {:induction false} BrokenChainStaysBroken(s: State, awaited: string, events: seq<Event>)
    requires Broken(s, awaited) && SendsWithout(awaited, events)
    ensures Broken(Run(s, events), awaited)
    ensures Run(s, events).accepted <==> s.accepted && forall i :: 0 <= i < |events| ==> !ReachesServer(events[i])
    decreases |events|
  {
    if events != [] {
      var n, rest := Step(s, events[0]), events[1..];
      assert SendsWithout(awaited, rest) by {
        forall i | 0 <= i < |rest| ensures rest[i].Sending? && rest[i].call.newSalt != awaited {
          assert events[i + 1] == rest[i];
        }
      }
      assert Broken(n, awaited) && (n.accepted <==> s.accepted && !ReachesServer(events[0]));
      BrokenChainStaysBroken(n, awaited, rest);
      forall i | 0 <= i < |events| ensures ReachesServer(events[i]) == ReachesServer(([events[0]] + rest)[i]) {
        assert events == [events[0]] + rest;
      }
      assert forall i :: 0 <= i < |rest| ==> rest[i] == events[i + 1];
      if j :| 0 <= j < |events| && ReachesServer(events[j]) {
        if j > 0 { assert ReachesServer(rest[j - 1]); }
      }
    }
  }

  /** After a lost rotation nothing the session sends repairs the chain: it ends with
      the first encrypted command that gets through refused. Only a newly opened
      session is in step again. */
  lemma LostRotationBreaksTheChain(s: State, lost: Call, events: seq<Event>)
    requires s.expected == Some(s.client.salt) && s.accepted
    requires lost.open && lost.encrypted && !lost.transported
    requires RotationDue(s.client, lost.checkedAt) && lost.newSalt != s.client.salt
    requires SendsWithout(s.client.salt, events)
    ensures var t := Run(Step(s, Sending(lost)), events);
            && !InStep(t)
            && (t.accepted <==> forall i :: 0 <= i < |events| ==> !ReachesServer(events[i]))
            && forall at, newSalt :: InStep(Step(t, Opened(at, newSalt)))
  {
    BrokenChainStaysBroken(Step(s, Sending(lost)), s.client.salt, events);
  }

  /* ---- how long one salt is used ---- */

  function Uses(log: seq<Logged>, generation: nat): nat
  {
    if log == [] then 0
    else
      var last := log[|log| - 1];
      Uses(log[..|log| - 1], generation) + (if last.frame.WithSalt? && last.generation == generation then 1 else 0)
  }

  /** Each frame names the salts it was logged for, and a `salt/` command is sent no
      more than 3600 seconds after its salt was generated. */
  ghost predicate UsesItsSalt(salts: seq<Salt>, l: Logged)
  {
    && 0 <= l.generation < |salts|
    && match l.frame
       case Clear(_) => true
       case WithSalt(salt, _) =>
         salt == salts[l.generation].text && l.at - salts[l.generation].born <= 3600
       case WithNextSalt(old_, next, _) =>
         l.generation > 0 && old_ == salts[l.generation - 1].text && next == salts[l.generation].text
  }

  /** At most 100 uses of a past salt, at most as many as counted of the present
      one, none of a salt yet to come. */
  ghost predicate WithinBudget(s: State, g: nat)
  {
    Uses(s.log, g) <=
      if g < |s.salts| - 1 then SALT_MAX_USE_COUNT else if g == |s.salts| - 1 then s.client.usedCount else 0
  }

  ghost predicate Bounded(s: State)
  {
    && |s.salts| > 0 && Salt(s.client.salt, s.client.timeStamp) == s.salts[|s.salts| - 1]
    && 0 <= s.client.usedCount <= SALT_MAX_USE_COUNT
    && (forall i :: 0 <= i < |s.log| ==> UsesItsSalt(s.salts, s.log[i]))
    && (forall g: nat :: WithinBudget(s, g))
  }

  lemma StepKeepsBudget(s: State, e: Event, g: nat)
    requires Bounded(s)
    ensures WithinBudget(Step(s, e), g)
  {
    assert WithinBudget(s, g);
    StepUses(s, e, g);
  }

  /** A step logs nothing, or one frame behind the others. */
  lemma StepLogs(s: State, e: Event)
    ensures var t := Step(s, e);
            if e.Sending? && e.call.open && e.call.transported then
              t.log == s.log + [Logged(Salted(s.client, e.call).1, |t.salts| - 1, e.call.checkedAt)]
            else t.log == s.log
  {
  }

  lemma UsesSnoc(log: seq<Logged>, l: Logged, g: nat)
    ensures Uses(log + [l], g) == Uses(log, g) + if l.frame.WithSalt? && l.generation == g then 1 else 0
  {
    assert (log + [l])[..|log|] == log;
  }

  lemma StepUses(s: State, e: Event, g: nat)
    ensures var t := Step(s, e);
            var sends := e.Sending? && e.call.open && e.call.transported;
            Uses(t.log, g) == Uses(s.log, g)
              + if sends && Salted(s.client, e.call).1.WithSalt? && |t.salts| - 1 == g then 1 else 0
  {
    StepLogs(s, e);
    if e.Sending? && e.call.open && e.call.transported {
      UsesSnoc(s.log, Logged(Salted(s.client, e.call).1, |Step(s, e).salts| - 1, e.call.checkedAt), g);
    }
  }

  lemma StepKeepsBounded(s: State, e: Event)
    requires Bounded(s)
    ensures Bounded(Step(s, e))
  {
    var t := Step(s, e);
    forall i | 0 <= i < |t.log| ensures UsesItsSalt(t.salts, t.log[i]) {
      if i < |s.log| { assert UsesItsSalt(s.salts, s.log[i]); }
    }
    forall g: nat ensures WithinBudget(t, g) {
      StepKeepsBudget(s, e, g);
    }
  }

  /** Over every run, failing transports included: each generated salt serves at
      most 100 `salt/` commands, none of them later than 3600 seconds after its generation,
      and a `nextSalt/` names the previous generation and introduces the next. */
  lemma {:induction false} EveryRunIsBounded(s: State, events: seq<Event>)
    requires Bounded(s)
    ensures Bounded(Run(s, events))
    ensures forall g: nat :: Uses(Run(s, events).log, g) <= 100
    decreases |events|
  {
    if events != [] {
      StepKeepsBounded(s, events[0]);
      EveryRunIsBounded(Step(s, events[0]), events[1..]);
    }
    var t := Run(s, events);
    forall g: nat ensures Uses(t.log, g) <= 100 {
      assert WithinBudget(t, g);
    }
  }

  /** A connection from its first session on: every salt bound holds over whatever
      happens, and without a failed send every frame is accepted. */
  lemma FirstSessionOnwards(at: int, newSalt: string, events: seq<Event>)
    ensures var t := Run(Step(State(Client("", 0, 0), None, true, [], []), Opened(at, newSalt)), events);
            && Bounded(t) && (forall g: nat :: Uses(t.log, g) <= 100)
            && (Transported(events) ==> InStep(t) && t.accepted)
  {
    var s := Step(State(Client("", 0, 0), None, true, [], []), Opened(at, newSalt));
    EveryRunIsBounded(s, events);
    if Transported(events) { ChainStaysInStep(s, events); }
  }

  /* ---- when a salt is replaced ---- */

  /** The client counts exactly the transmitted uses of its salt. */
  ghost predicate CountsUses(s: State)
  {
    Bounded(s) && Uses(s.log, |s.salts| - 1) == s.client.usedCount
  }

  lemma {:induction false} TransportedRunCounts(s: State, events: seq<Event>)
    requires CountsUses(s) && Transported(events)
    ensures CountsUses(Run(s, events))
    decreases |events|
  {
    if events != [] {
      StepCounts(s, events[0]);
      assert Transported(events[1..]) by {
        forall i | 0 <= i < |events| - 1 && events[1..][i].Sending? && events[1..][i].call.open
          ensures events[1..][i].call.transported
        {
          assert events[i + 1] == events[1..][i];
        }
      }
      TransportedRunCounts(Step(s, events[0]), events[1..]);
    }
  }

  lemma StepCounts(s: State, e: Event)
    requires CountsUses(s) && (e.Sending? && e.call.open ==> e.call.transported)
    ensures CountsUses(Step(s, e))
  {
    StepKeepsBounded(s, e);
    assert WithinBudget(s, |s.salts|);
    StepUses(s, e, |Step(s, e).salts| - 1);
  }

  /** A salt is replaced exactly when it is used up or too old: after any run without
      a failed send, the next encrypted command rotates the salt if and only if that
      served 100 commands already or was generated more than 3600 seconds ago. */
  lemma RotatesExactlyWhen(s: State, events: seq<Event>, call: Call)
    requires CountsUses(s) && Transported(events) && call.encrypted
    ensures var t := Run(s, events);
            var g := |t.salts| - 1;
            && g >= 0
            && (Salted(t.client, call).1.WithNextSalt? <==>
                  Uses(t.log, g) == 100 || call.checkedAt - t.salts[g].born > 3600)
  {
    TransportedRunCounts(s, events);
  }

  /* ---- what is sent ---- */

  /** A command and whether it goes out encrypted. */
  datatype Carried = Carried(command: string, encrypted: bool)

  function Carry(f: Sent): Carried
  {
    match f
    case Clear(command) => Carried(command, false)
    case WithSalt(_, command) => Carried(command, true)
    case WithNextSalt(_, _, command) => Carried(command, true)
  }

  function CarriedBy(log: seq<Logged>): seq<Carried>
  {
    if log == [] then [] else CarriedBy(log[..|log| - 1]) + [Carry(log[|log| - 1].frame)]
  }

  /** The calls that reach the transport, as they were made. */
  function Asked(events: seq<Event>): seq<Carried>
  {
    if events == [] then [] else AskedBy(events[0]) + Asked(events[1..])
  }

  function AskedBy(e: Event): seq<Carried>
  {
    if e.Sending? && e.call.open && e.call.transported then [Carried(e.call.command, e.call.encrypted)] else []
  }

  /** Whatever the salts do, the frames of a run carry the commands of its calls, each
      once and in order, and those that were to be encrypted are. */
  lemma {:induction false} EveryCommandIsSent(s: State, events: seq<Event>)
    ensures CarriedBy(Run(s, events).log) == CarriedBy(s.log) + Asked(events)
    decreases |events|
  {
    if events != [] {
      var t := Step(s, events[0]);
      EveryCommandIsSent(t, events[1..]);
      StepSends(s, events[0]);
      Grouped(CarriedBy(s.log), AskedBy(events[0]), Asked(events[1..]));
    }
  }

  lemma StepSends(s: State, e: Event)
    ensures CarriedBy(Step(s, e).log) == CarriedBy(s.log) + AskedBy(e)
  {
    StepLogs(s, e);
    if e.Sending? && e.call.open && e.call.transported {
      CarriedSnoc(s.log, Logged(Salted(s.client, e.call).1, |Step(s, e).salts| - 1, e.call.checkedAt));
      FrameCarriesCommand(s.client, e.call);
    }
  }

  lemma FrameCarriesCommand(c: Client, call: Call)
    ensures Carry(Salted(c, call).1) == Carried(call.command, call.encrypted)
  {
  }

  lemma CarriedSnoc(log: seq<Logged>, l: Logged)
    ensures CarriedBy(log + [l]) == CarriedBy(log) + [Carry(l.frame)]
  {
    assert (log + [l])[..|log|] == log;
  }

  lemma Grouped<T>(a: seq<T>, b: seq<T>, c: seq<T>)
    ensures a + b + c == a + (b + c)
  {
  }
}
