/** The authentication replies of a session and the token they install, refresh or
    reset (`_websocket_event`, `reset_token` and `_note_refresh_failure` in
    custom_components/loxone/pyloxone_api/connection.py, `LoxoneToken` in
    custom_components/loxone/pyloxone_api/loxone_token.py). */
module TokenLifecycle {
  import opened Wire

  const TOKEN_REFRESH_MAX_FAILURES := 3

  /** The command names a reply is searched for, wherever they occur in its text. */
  datatype Word = KeyExchange | GetKey2 | GetKey | GetVisuSalt | GetToken | GetJwt | AuthWithToken | Refresh

  datatype Branch = OnKeyExchange | OnGetKey2 | OnGetKey | OnVisuSalt | OnToken | OnAuth | OnRefresh | Ignored

  /** `value_as_dict`; a missing string field reads as the empty string. */
  datatype Value = Value(
    value: string, key: string, salt: string, hashAlg: Option<string>, token: string, validUntil: Option<real>)

  datatype Text = Text(words: set<Word>, code: int, dict: Value)

  /** The first test that succeeds decides; "getkey" is tested before "getvisusalt". */
  function BranchOf(words: set<Word>): Branch
  {
    if KeyExchange in words then OnKeyExchange
    else if GetKey2 in words then OnGetKey2
    else if GetKey in words then OnGetKey
    else if GetVisuSalt in words then OnVisuSalt
    else if GetToken in words || GetJwt in words then OnToken
    else if AuthWithToken in words then OnAuth
    else if Refresh in words then OnRefresh
    else Ignored
  }

  predicate Rejected(code: int)
  {
    code == 401 || code == 4003
  }

  datatype Command = GetKey2Command | AuthCommand(token: string, key: string) | TokenRequest | EnableUpdates

  datatype Token = Token(token: string, validUntil: real)

  /** `LoxoneToken.__post_init__`: an incomplete token is no token. */
  function MakeToken(token: string, validUntil: real): Token
  {
    if token != "" && validUntil != 0.0 then Token(token, validUntil) else Token("", -1.0)
  }

  function Truncate(x: real): int
  {
    if x >= 0.0 then x.Floor else -((-x).Floor)
  }

  /** `seconds_to_expire`; `None` is the ValueError of an expiry of 0. */
  function SecondsToExpire(t: Token, now: real): Option<int>
  {
    if t.validUntil == 0.0 then None else Some(Truncate(t.validUntil - now))
  }

  datatype State = State(
    token: Token, key: string, userSalt: string, hashAlg: string,
    authenticated: bool, reconnect: bool, failures: nat, queue: seq<Command>)

  datatype Event =
    | Reply(text: Text, now: real)
    | NewPass                        // run() starts a session, _close_and_reset ended the last
    | RefreshFailed                  // _note_refresh_failure
    | RefreshSucceeded

  /** `isHex` says which keys `bytes.fromhex` accepts. */
  predicate CanHash(isHex: string -> bool, key: string, hashAlg: string)
  {
    (hashAlg == "SHA1" || hashAlg == "SHA256") && isHex(key)
  }

  function AfterGetKey2(isHex: string -> bool, s: State, d: Value, now: real): State
  {
    var t := s.(key := d.key, userSalt := d.salt,
                hashAlg := match d.hashAlg case Some(a) => a case None => "SHA1");
    if d.key == "" || d.salt == "" then t
    else match SecondsToExpire(s.token, now)
      case None => t
      case Some(seconds) =>
        if seconds > 100 then
          if s.token.token == "" || !CanHash(isHex, t.key, t.hashAlg) then t
          else t.(queue := t.queue + [AuthCommand(s.token.token, t.key)])
        else if !CanHash(isHex, t.key, t.hashAlg) then t
        else t.(queue := t.queue + [TokenRequest])
  }

  function AfterToken(s: State, d: Value): State
  {
    var t := s.(token := Token(d.token, match d.validUntil case Some(v) => v case None => 0.0));
    if d.token == "" then t
    else t.(queue := t.queue + [EnableUpdates], authenticated := true)
  }

  function AfterReset(s: State): State
  {
    s.(token := MakeToken("", 0.0), authenticated := false, reconnect := true)
  }

  function AfterRefresh(s: State, d: Value): State
  {
    if d.token == "" || d.validUntil.None? then s
    else s.(token := Token(d.token, d.validUntil.value), authenticated := true)
  }

  function Step(isHex: string -> bool, s: State, e: Event): State
  {
    match e
    case NewPass => s.(authenticated := false, reconnect := false)
    case RefreshFailed => s.(failures := s.failures + 1)
    case RefreshSucceeded => s.(failures := 0)
    case Reply(text, now) =>
      var rejected := Rejected(text.code);
      match BranchOf(text.words)
      case OnKeyExchange => s.(queue := s.queue + [GetKey2Command])
      case OnGetKey2 => if rejected then s else AfterGetKey2(isHex, s, text.dict, now)
      case OnGetKey => if rejected then s else s.(key := text.dict.value)
      case OnVisuSalt => s
      case OnToken => if rejected then s else AfterToken(s, text.dict)
      case OnAuth =>
        if rejected then AfterReset(s) else s.(authenticated := true, queue := s.queue + [EnableUpdates])
      case OnRefresh => if rejected then AfterReset(s) else AfterRefresh(s, text.dict)
      case Ignored => s
  }

  /** Whether the event raises: rejected credentials, or the third failure in a row. */
  predicate Raises(s: State, e: Event)
  {
    match e
    case Reply(text, _) => Rejected(text.code) && BranchOf(text.words) in {OnGetKey2, OnGetKey, OnVisuSalt, OnToken}
    case RefreshFailed => s.failures + 1 >= TOKEN_REFRESH_MAX_FAILURES
    case _ => false
  }

  function Run(isHex: string -> bool, s: State, events: seq<Event>): State
    decreases |events|
  {
    if events == [] then s else Run(isHex, Step(isHex, s, events[0]), events[1..])
  }

  /* ---- the object ---- */

  class TokenSession {
    const isHex: string -> bool
    var token: string
    var validUntil: real
    var key: string
    var userSalt: string
    var hashAlg: string
    var authenticated: bool
    var reconnect: bool
    var refreshFailures: nat
    var messageQueue: seq<Command>

    function Current(): State
      reads this
    {
      State(Token(token, validUntil), key, userSalt, hashAlg, authenticated, reconnect, refreshFailures, messageQueue)
    }

    constructor (isHex: string -> bool, token: string, validUntil: real)
      ensures this.isHex == isHex
      ensures Current() == State(
                if token != "" && validUntil != 0.0 then Token(token, validUntil) else Token("", -1.0),
                "", "", "", false, false, 0, [])
    {
      this.isHex := isHex;
      var t := MakeToken(token, validUntil);
      this.token, this.validUntil := t.token, t.validUntil;
      key, userSalt, hashAlg := "", "", "";
      authenticated, reconnect, refreshFailures, messageQueue := false, false, 0, [];
    }

    method ResetToken()
      modifies this
      ensures Current() == old(Current()).(token := Token("", -1.0), authenticated := false)
    {
      token, validUntil := "", -1.0;
      authenticated := false;
    }

    method HashToken() returns (hashed: bool)
      ensures hashed <==> token != "" && key != "" && CanHash(isHex, key, hashAlg)
    {
      if token == "" { return false; }
      if key == "" { return false; }
      if hashAlg != "SHA1" && hashAlg != "SHA256" { return false; }
      return isHex(key);
    }

    method OnGetKey2Reply(d: Value, now: real)
      modifies this
      ensures Current() == AfterGetKey2(isHex, old(Current()), d, now)
    {
      key := d.key;
      userSalt := d.salt;
      hashAlg := match d.hashAlg case Some(a) => a case None => "SHA1";
      if key == "" || userSalt == "" { return; }
      var seconds := SecondsToExpire(Token(token, validUntil), now);
      if seconds.None? { return; }
      if seconds.value > 100 {
        var hashed := HashToken();
        if hashed { messageQueue := messageQueue + [AuthCommand(token, key)]; }
      } else if CanHash(isHex, key, hashAlg) {
        messageQueue := messageQueue + [TokenRequest];
      }
    }

    method OnTokenReply(d: Value)
      modifies this
      ensures Current() == AfterToken(old(Current()), d)
    {
      token := d.token;
      validUntil := match d.validUntil case Some(v) => v case None => 0.0;
      if token == "" { return; }
      messageQueue := messageQueue + [EnableUpdates];
      authenticated := true;
    }

    method OnRefreshReply(d: Value)
      modifies this
      ensures Current() == AfterRefresh(old(Current()), d)
    {
      if d.token == "" { return; }
      if d.validUntil.None? { return; }
      token, validUntil := d.token, d.validUntil.value;
      authenticated := true;
    }

    /** `_websocket_event` for a text reply. */
    method OnText(text: Text, now: real) returns (raises: bool)
      modifies this
      ensures Current() == Step(isHex, old(Current()), Reply(text, now))
      ensures raises == Raises(old(Current()), Reply(text, now))
    {
      var rejected := Rejected(text.code);
      match BranchOf(text.words) {
        case OnKeyExchange =>
          messageQueue := messageQueue + [GetKey2Command];
        case OnGetKey2 =>
          if rejected { return true; }
          OnGetKey2Reply(text.dict, now);
        case OnGetKey =>
          if rejected { return true; }
          key := text.dict.value;
        case OnVisuSalt =>
          if rejected { return true; }
        case OnToken =>
          if rejected { return true; }
          OnTokenReply(text.dict);
        case OnAuth =>
          if rejected {
            ResetToken();
            reconnect := true;
          } else {
            authenticated := true;
            messageQueue := messageQueue + [EnableUpdates];
          }
        case OnRefresh =>
          if rejected {
            ResetToken();
            reconnect := true;
          } else {
            OnRefreshReply(text.dict);
          }
        case Ignored =>
      }
      return false;
    }

    method NoteRefreshFailure() returns (raises: bool)
      modifies this
      ensures Current() == Step(isHex, old(Current()), RefreshFailed)
      ensures raises == Raises(old(Current()), RefreshFailed)
    {
      refreshFailures := refreshFailures + 1;
      return refreshFailures >= TOKEN_REFRESH_MAX_FAILURES;
    }
  }

  /* ---- the key ---- */

  /** The key value a getkey or getkey2 reply carries, if `e` is an accepted one. */
  function KeyOf(e: Event): Option<string>
  {
    if !e.Reply? || Rejected(e.text.code) then None
    else match BranchOf(e.text.words)
      case OnGetKey2 => Some(e.text.dict.key)
      case OnGetKey => Some(e.text.dict.value)
      case _ => None
  }

  function LastKey(initial: string, events: seq<Event>): string
  {
    if events == [] then initial
    else match KeyOf(events[|events| - 1])
      case Some(k) => k
      case None => LastKey(initial, events[..|events| - 1])
  }

  lemma {:induction false} RunSnoc(isHex: string -> bool, s: State, events: seq<Event>, e: Event)
    ensures Run(isHex, s, events + [e]) == Step(isHex, Run(isHex, s, events), e)
    decreases |events|
  {
    if events == [] {
      assert (events + [e])[1..] == [];
    } else {
      assert (events + [e])[1..] == events[1..] + [e];
      RunSnoc(isHex, Step(isHex, s, events[0]), events[1..], e);
    }
  }

  /** After any run the key is the one of the last accepted getkey or getkey2 reply. */
  lemma {:induction false} KeyIsTheLastReplied(isHex: string -> bool, s: State, events: seq<Event>)
    ensures Run(isHex, s, events).key == LastKey(s.key, events)
    decreases |events|
  {
    if events != [] {
      var init, e := events[..|events| - 1], events[|events| - 1];
      assert events == init + [e];
      RunSnoc(isHex, s, init, e);
      KeyIsTheLastReplied(isHex, s, init);
    }
  }

  /** The token a reply puts in place of the stored one: that of an accepted token reply,
      without an expiry as 0, that of a complete refresh, and none when authwithtoken or
      a refresh is rejected. */
  function TokenOf(e: Event): Option<Token>
  {
    if !e.Reply? then None
    else
      var d, rejected := e.text.dict, e.text.code == 401 || e.text.code == 4003;
      match BranchOf(e.text.words)
      case OnToken =>
        if rejected then None else Some(Token(d.token, if d.validUntil.Some? then d.validUntil.value else 0.0))
      case OnRefresh =>
        if rejected then Some(Token("", -1.0))
        else if d.token == "" || d.validUntil == None then None
        else Some(Token(d.token, d.validUntil.value))
      case OnAuth => if rejected then Some(Token("", -1.0)) else None
      case _ => None
  }

  function LastToken(initial: Token, events: seq<Event>): Token
  {
    if events == [] then initial
    else match TokenOf(events[|events| - 1])
      case Some(t) => t
      case None => LastToken(initial, events[..|events| - 1])
  }

  /** What a step says about the session being authenticated: yes by an accepted token
      reply with a token, an accepted authwithtoken or a complete refresh; no by a new
      session or a rejected token. */
  function AuthOf(e: Event): Option<bool>
  {
    if e.NewPass? then Some(false)
    else if !e.Reply? then None
    else match TokenOf(e)
      case Some(t) =>
        if t.token != "" then Some(true) else if BranchOf(e.text.words) == OnToken then None else Some(false)
      case None => if BranchOf(e.text.words) == OnAuth then Some(true) else None
  }

  function LastAuth(initial: bool, events: seq<Event>): bool
  {
    if events == [] then initial
    else match AuthOf(events[|events| - 1])
      case Some(a) => a
      case None => LastAuth(initial, events[..|events| - 1])
  }

  /** After any run the token is the one last put in place, and the session counts as
      authenticated as the last event decided that said anything about it. */
  lemma {:induction false} TokenIsTheLastInstalled(isHex: string -> bool, s: State, events: seq<Event>)
    ensures Run(isHex, s, events).token == LastToken(s.token, events)
    ensures Run(isHex, s, events).authenticated == LastAuth(s.authenticated, events)
    decreases |events|
  {
    if events != [] {
      var init, e := events[..|events| - 1], events[|events| - 1];
      assert events == init + [e];
      RunSnoc(isHex, s, init, e);
      TokenIsTheLastInstalled(isHex, s, init);
      StepInstalls(isHex, Run(isHex, s, init), e);
    }
  }

  lemma StepInstalls(isHex: string -> bool, s: State, e: Event)
    ensures Step(isHex, s, e).token == (match TokenOf(e) case Some(t) => t case None => s.token)
    ensures Step(isHex, s, e).authenticated == (match AuthOf(e) case Some(a) => a case None => s.authenticated)
  {
  }

  /** A reply to a visual-salt request is handled as one, and leaves the session
      untouched, exactly when its text names no command that is tested earlier. */
  lemma VisualSaltKeepsTheSession(isHex: string -> bool, s: State, text: Text, now: real)
    requires GetVisuSalt in text.words
    ensures BranchOf(text.words) == OnVisuSalt <==>
              KeyExchange !in text.words && GetKey2 !in text.words && GetKey !in text.words
    ensures BranchOf(text.words) == OnVisuSalt ==> Step(isHex, s, Reply(text, now)) == s
  {
  }

  /** With a user name such as "getkey" the reply echoes that word and overwrites
      the token key. */
  lemma UserNameCanDivertTheReply(isHex: string -> bool, s: State, visualKey: string, now: real)
    ensures var reply := Text({GetVisuSalt, GetKey}, 200, Value(visualKey, "", "", None, "", None));
            Step(isHex, s, Reply(reply, now)).key == visualKey
  {
  }

  /* ---- after a rejected token ---- */

  /** The replies that put a non-empty token in place. */
  predicate Installs(e: Event)
  {
    e.Reply? && !Rejected(e.text.code) && e.text.dict.token != "" &&
    match BranchOf(e.text.words)
    case OnToken => true
    case OnRefresh => e.text.dict.validUntil.Some?
    case _ => false
  }

  predicate Drops(e: Event)
  {
    e.Reply? &&
    match BranchOf(e.text.words)
    case OnToken => !Rejected(e.text.code) && e.text.dict.token == ""
    case OnAuth => Rejected(e.text.code)
    case OnRefresh => Rejected(e.text.code)
    case _ => false
  }

  lemma TokenPresentIff(isHex: string -> bool, s: State, e: Event)
    ensures Step(isHex, s, e).token.token != "" <==> Installs(e) || (s.token.token != "" && !Drops(e))
  {
  }

  predicate AsksWithToken(queue: seq<Command>)
  {
    exists i :: 0 <= i < |queue| && queue[i].AuthCommand?
  }

  /** Whatever happens after a token is dropped: no authwithtoken is queued until a
      reply installs another token. */
  lemma {:induction false} NoTokenNoAuth(isHex: string -> bool, s: State, events: seq<Event>)
    requires s.token.token == "" && forall i :: 0 <= i < |events| ==> !Installs(events[i])
    ensures var t := Run(isHex, s, events);
            t.token.token == "" && s.queue <= t.queue && !AsksWithToken(t.queue[|s.queue|..])
    decreases |events|
  {
    if events != [] {
      var n := Step(isHex, s, events[0]);
      TokenPresentIff(isHex, s, events[0]);
      forall i | 0 <= i < |events| - 1 ensures !Installs(events[1..][i]) { assert !Installs(events[i + 1]); }
      NoTokenNoAuth(isHex, n, events[1..]);
      var t := Run(isHex, s, events);
      forall i | |s.queue| <= i < |t.queue| ensures !t.queue[i].AuthCommand? {
        if i < |n.queue| {
          assert t.queue[i] == n.queue[i];
        } else {
          assert t.queue[i] == t.queue[|n.queue|..][i - |n.queue|];
        }
      }
    }
  }

  /** A getkey2 reply that is accepted but not usable stores what it carries and queues
      nothing: without key or salt, with an unknown algorithm or a key that is not hex. */
  lemma UnusableKeyReplyQueuesNothing(isHex: string -> bool, s: State, text: Text, now: real)
    requires BranchOf(text.words) == OnGetKey2 && !ValidKeyReply(isHex, text)
    ensures Step(isHex, s, Reply(text, now)).queue == s.queue
    ensures !Rejected(text.code) ==>
              && Step(isHex, s, Reply(text, now)).key == text.dict.key
              && Step(isHex, s, Reply(text, now)).userSalt == text.dict.salt
  {
  }

  /** A 401 or 4003 on authwithtoken or on a refresh drops the token, ... */
  lemma RejectedTokenIsDropped(isHex: string -> bool, s: State, text: Text, now: real, events: seq<Event>)
    requires text.code == 401 || text.code == 4003
    requires BranchOf(text.words) == OnAuth || BranchOf(text.words) == OnRefresh
    requires forall i :: 0 <= i < |events| ==> !Installs(events[i])
    ensures var r := Step(isHex, s, Reply(text, now));
            && r.token == Token("", -1.0) && !r.authenticated && r.reconnect && r.queue == s.queue && r.key == s.key
            && s.queue <= Run(isHex, r, events).queue && !AsksWithToken(Run(isHex, r, events).queue[|s.queue|..])
  {
    NoTokenNoAuth(isHex, Step(isHex, s, Reply(text, now)), events);
  }

  predicate ValidKeyReply(isHex: string -> bool, text: Text)
  {
    && BranchOf(text.words) == OnGetKey2 && !Rejected(text.code)
    && text.dict.key != "" && isHex(text.dict.key) && text.dict.salt != ""
    && text.dict.hashAlg in {None, Some("SHA1"), Some("SHA256")}
  }

  /** What a valid getkey2 reply leads to: log in with the stored token, request a
      new one, or nothing at all when the stored expiry is 0 or an unexpired token
      is empty. */
  lemma KeyReplyDecides(isHex: string -> bool, s: State, text: Text, now: real)
    requires ValidKeyReply(isHex, text)
    ensures var t := Step(isHex, s, Reply(text, now));
            var known, left := s.token.validUntil != 0.0, s.token.validUntil - now;
            && (t.queue == s.queue + [AuthCommand(s.token.token, text.dict.key)] <==>
                  known && left >= 101.0 && s.token.token != "")
            && (t.queue == s.queue + [TokenRequest] <==> known && left < 101.0)
            && (t.queue == s.queue <==> !known || (left >= 101.0 && s.token.token == ""))
            && t.key == text.dict.key && t.userSalt == text.dict.salt
            && t.hashAlg == (if text.dict.hashAlg.Some? then text.dict.hashAlg.value else "SHA1")
  {
    var t := Step(isHex, s, Reply(text, now));
    assert Truncate(s.token.validUntil - now) > 100 <==> s.token.validUntil - now >= 101.0;
    assert |t.queue| > |s.queue| ==> t.queue[|s.queue|] == (s.queue + [t.queue[|s.queue|]])[|s.queue|];
    assert t.queue == s.queue + [TokenRequest] ==> t.queue[|s.queue|] == TokenRequest;
    assert t.queue == s.queue + [AuthCommand(s.token.token, text.dict.key)] ==> t.queue[|s.queue|].AuthCommand?;
  }

  /** The replies that overwrite the token: any accepted token reply, an empty one
      included, and a complete refresh. */
  predicate Overwrites(e: Event)
  {
    e.Reply? && !Rejected(e.text.code) &&
    match BranchOf(e.text.words)
    case OnToken => true
    case OnRefresh => e.text.dict.token != "" && e.text.dict.validUntil.Some?
    case _ => false
  }

  lemma {:induction false} DroppedStaysDropped(isHex: string -> bool, s: State, events: seq<Event>)
    requires s.token == Token("", -1.0) && forall i :: 0 <= i < |events| ==> !Overwrites(events[i])
    ensures Run(isHex, s, events).token == Token("", -1.0)
    decreases |events|
  {
    if events != [] {
      assert !Overwrites(events[0]);
      forall i | 0 <= i < |events| - 1 ensures !Overwrites(events[1..][i]) { assert !Overwrites(events[i + 1]); }
      DroppedStaysDropped(isHex, Step(isHex, s, events[0]), events[1..]);
    }
  }

  /** After a rejection and whatever happens before a reply overwrites the token, new
      sessions and other rejections included, the next valid getkey2 reply requests a
      new token, at any time after the epoch of the expiry clock. */
  lemma DroppedTokenIsReplaced(
      isHex: string -> bool, s: State, rejection: Text, at: real, between: seq<Event>, reply: Text, now: real)
    requires Rejected(rejection.code) && (BranchOf(rejection.words) == OnAuth || BranchOf(rejection.words) == OnRefresh)
    requires forall i :: 0 <= i < |between| ==> !Overwrites(between[i])
    requires ValidKeyReply(isHex, reply) && now >= 0.0
    ensures var r := Run(isHex, s, [Reply(rejection, at)] + between);
            && r.token == Token("", -1.0)
            && Run(isHex, s, [Reply(rejection, at)] + between + [Reply(reply, now)]).queue == r.queue + [TokenRequest]
  {
    RunCons(isHex, s, Reply(rejection, at), between);
    DroppedStaysDropped(isHex, Step(isHex, s, Reply(rejection, at)), between);
    RunSnoc(isHex, s, [Reply(rejection, at)] + between, Reply(reply, now));
    KeyReplyDecides(isHex, Run(isHex, s, [Reply(rejection, at)] + between), reply, now);
  }

  /* ---- logging in ---- */

  /** The replies of a login that begins in `s`: key exchange, getkey2, and the answer
      to whatever getkey2 led to. */
  predicate AnswersLogin(isHex: string -> bool, s: State, exchange: Text, reply: Text, at: real, answer: Text)
  {
    && BranchOf(exchange.words) == OnKeyExchange && ValidKeyReply(isHex, reply) && !Rejected(answer.code)
    && s.token.validUntil != 0.0
    && if s.token.validUntil - at >= 101.0 then s.token.token != "" && BranchOf(answer.words) == OnAuth
       else BranchOf(answer.words) == OnToken && answer.dict.token != ""
  }

  function Login(exchange: Text, begun: real, reply: Text, at: real, answer: Text, ended: real): seq<Event>
  {
    [NewPass, Reply(exchange, begun), Reply(reply, at), Reply(answer, ended)]
  }

  /** Visual-salt replies, texts no branch handles, and successful refresh rounds. */
  predicate Neutral(e: Event)
  {
    e == RefreshSucceeded ||
    (e.Reply? && (BranchOf(e.text.words) == Ignored
                  || (BranchOf(e.text.words) == OnVisuSalt && !Rejected(e.text.code))))
  }

  /** The run without its neutral events. */
  function Significant(events: seq<Event>): seq<Event>
  {
    if events == [] then [] else (if Neutral(events[0]) then [] else [events[0]]) + Significant(events[1..])
  }

  function SansFailures(s: State): State
  {
    s.(failures := 0)
  }

  lemma StepSansFailures(isHex: string -> bool, s: State, t: State, e: Event)
    requires SansFailures(s) == SansFailures(t)
    ensures SansFailures(Step(isHex, s, e)) == SansFailures(Step(isHex, t, e))
  {
    SameButFailures(s, t);
    FailuresDecideNothing(isHex, t, s.failures, e);
  }

  lemma FailuresDecideNothing(isHex: string -> bool, s: State, failures: nat, e: Event)
    ensures SansFailures(Step(isHex, s.(failures := failures), e)) == SansFailures(Step(isHex, s, e))
  {
    var t := s.(failures := failures);
    match e
    case Reply(text, now) =>
      match BranchOf(text.words) {
        case OnGetKey2 =>
          assert AfterGetKey2(isHex, t, text.dict, now)
              == AfterGetKey2(isHex, s, text.dict, now).(failures := failures);
        case OnToken => assert AfterToken(t, text.dict) == AfterToken(s, text.dict).(failures := failures);
        case OnRefresh => assert AfterRefresh(t, text.dict) == AfterRefresh(s, text.dict).(failures := failures);
        case _ =>
      }
    case _ =>
  }

  lemma NeutralKeeps(isHex: string -> bool, s: State, e: Event)
    requires Neutral(e)
    ensures SansFailures(Step(isHex, s, e)) == SansFailures(s)
  {
  }

  lemma SameButFailures(s: State, t: State)
    requires SansFailures(s) == SansFailures(t)
    ensures s == t.(failures := s.failures)
  {
  }

  /** Neutral events in between change nothing but the count of failed refreshes. */
  lemma {:induction false} NeutralsDoNotMatter(isHex: string -> bool, s: State, t: State, events: seq<Event>)
    requires SansFailures(s) == SansFailures(t)
    ensures SansFailures(Run(isHex, s, events)) == SansFailures(Run(isHex, t, Significant(events)))
    decreases |events|
  {
    if events != [] {
      var e, rest := events[0], events[1..];
      if Neutral(e) {
        NeutralKeeps(isHex, s, e);
        assert [] + Significant(rest) == Significant(rest);
        NeutralsDoNotMatter(isHex, Step(isHex, s, e), t, rest);
      } else {
        StepSansFailures(isHex, s, t, e);
        NeutralsDoNotMatter(isHex, Step(isHex, s, e), Step(isHex, t, e), rest);
        RunCons(isHex, t, e, Significant(rest));
      }
    }
  }

  lemma RunFour(isHex: string -> bool, s: State, a: Event, b: Event, c: Event, d: Event)
    ensures Run(isHex, s, [a, b, c, d]) == Step(isHex, Step(isHex, Step(isHex, Step(isHex, s, a), b), c), d)
  {
    var s1 := Step(isHex, s, a);
    var s2 := Step(isHex, s1, b);
    var s3 := Step(isHex, s2, c);
    assert [a] + [b, c, d] == [a, b, c, d] && [b] + [c, d] == [b, c, d] && [c] + [d] == [c, d] && [d] + [] == [d];
    RunCons(isHex, s, a, [b, c, d]);
    RunCons(isHex, s1, b, [c, d]);
    RunCons(isHex, s2, c, [d]);
    RunCons(isHex, s3, d, []);
  }

  lemma RunCons(isHex: string -> bool, s: State, e: Event, later: seq<Event>)
    ensures Run(isHex, s, [e] + later) == Run(isHex, Step(isHex, s, e), later)
  {
    assert ([e] + later)[1..] == later;
  }

  predicate LoggedIn(s: State, reply: Text, at: real, answer: Text, t: State)
  {
    var known := s.token.validUntil - at >= 101.0;
    var request := if known then AuthCommand(s.token.token, reply.dict.key) else TokenRequest;
    && t.authenticated && !t.reconnect && t.key == reply.dict.key
    && t.queue == s.queue + [GetKey2Command, request, EnableUpdates]
    && t.token == if known then s.token
                  else Token(answer.dict.token, match answer.dict.validUntil case Some(v) => v case None => 0.0)
  }

  /** A login whose requests are answered, whatever neutral events come in between,
      ends authenticated, with exactly one key request, one login or token request
      and one update request queued, in order. */
  lemma LoginSucceeds(
      isHex: string -> bool, s: State, exchange: Text, begun: real, reply: Text, at: real, answer: Text, ended: real,
      events: seq<Event>)
    requires AnswersLogin(isHex, s, exchange, reply, at, answer)
    requires Significant(events) == Login(exchange, begun, reply, at, answer, ended)
    ensures LoggedIn(s, reply, at, answer, Run(isHex, s, events))
  {
    NeutralsDoNotMatter(isHex, s, s, events);
    PlainLoginSucceeds(isHex, s, exchange, begun, reply, at, answer, ended);
    SameButFailures(Run(isHex, s, events), Run(isHex, s, Significant(events)));
  }

  lemma PlainLoginSucceeds(
      isHex: string -> bool, s: State, exchange: Text, begun: real, reply: Text, at: real, answer: Text, ended: real)
    requires AnswersLogin(isHex, s, exchange, reply, at, answer)
    ensures LoggedIn(s, reply, at, answer, Run(isHex, s, Login(exchange, begun, reply, at, answer, ended)))
  {
    RunFour(isHex, s, NewPass, Reply(exchange, begun), Reply(reply, at), Reply(answer, ended));
    var s2 := Step(isHex, Step(isHex, s, NewPass), Reply(exchange, begun));
    KeyReplyDecides(isHex, s2, reply, at);
    KeyReplyKeeps(isHex, s2, reply, at);
    var s3 := Step(isHex, s2, Reply(reply, at));
    var known := s.token.validUntil - at >= 101.0;
    var request := if known then AuthCommand(s.token.token, reply.dict.key) else TokenRequest;
    assert s3.queue == s.queue + [GetKey2Command] + [request];
    assert s3.queue + [EnableUpdates] == s.queue + [GetKey2Command, request, EnableUpdates];
  }

  lemma KeyReplyKeeps(isHex: string -> bool, s: State, text: Text, now: real)
    requires ValidKeyReply(isHex, text)
    ensures var t := Step(isHex, s, Reply(text, now));
            && t.token == s.token && t.key == text.dict.key
            && t.authenticated == s.authenticated && t.reconnect == s.reconnect
  {
  }

  /** From any state: after a rejection no authwithtoken is queued, and the next
      answered login requests a new token, keeps it and ends authenticated. */
  lemma StaleTokenRecovers(
      isHex: string -> bool, s: State, rejection: Text, rejected: real, between: seq<Event>,
      exchange: Text, begun: real, reply: Text, at: real, answer: Text, ended: real, login: seq<Event>)
    requires Rejected(rejection.code) && (BranchOf(rejection.words) == OnAuth || BranchOf(rejection.words) == OnRefresh)
    requires forall i :: 0 <= i < |between| ==> !Overwrites(between[i])
    requires BranchOf(exchange.words) == OnKeyExchange && ValidKeyReply(isHex, reply) && at >= 0.0
    requires BranchOf(answer.words) == OnToken && !Rejected(answer.code) && answer.dict.token != ""
    requires Significant(login) == Login(exchange, begun, reply, at, answer, ended)
    ensures var r := Run(isHex, s, [Reply(rejection, rejected)] + between);
            var t := Run(isHex, r, login);
            && s.queue <= r.queue && !AsksWithToken(r.queue[|s.queue|..])
            && t.authenticated && !t.reconnect && t.token.token == answer.dict.token && t.key == reply.dict.key
            && t.queue == r.queue + [GetKey2Command, TokenRequest, EnableUpdates]
  {
    var dropped := Step(isHex, s, Reply(rejection, rejected));
    RunCons(isHex, s, Reply(rejection, rejected), between);
    DroppedStaysDropped(isHex, dropped, between);
    forall i | 0 <= i < |between| ensures !Installs(between[i]) { assert !Overwrites(between[i]); }
    NoTokenNoAuth(isHex, dropped, between);
    LoginWithoutToken(isHex, Run(isHex, dropped, between), exchange, begun, reply, at, answer, ended, login);
  }

  lemma LoginWithoutToken(
      isHex: string -> bool, s: State, exchange: Text, begun: real, reply: Text, at: real, answer: Text, ended: real,
      login: seq<Event>)
    requires s.token == Token("", -1.0)
    requires BranchOf(exchange.words) == OnKeyExchange && ValidKeyReply(isHex, reply) && at >= 0.0
    requires BranchOf(answer.words) == OnToken && !Rejected(answer.code) && answer.dict.token != ""
    requires Significant(login) == Login(exchange, begun, reply, at, answer, ended)
    ensures var t := Run(isHex, s, login);
            && t.authenticated && !t.reconnect && t.token.token == answer.dict.token && t.key == reply.dict.key
            && t.queue == s.queue + [GetKey2Command, TokenRequest, EnableUpdates]
  {
    LoginSucceeds(isHex, s, exchange, begun, reply, at, answer, ended, login);
  }

  /** A token reply without `validUntil` authenticates its own session, but the
      next session's login never gets past getkey2. */
  lemma TokenWithoutExpiryBlocksTheNextLogin(
      isHex: string -> bool, s: State, d: Value, reply: Text, at: real, now: real)
    requires d.token != "" && d.validUntil == None && ValidKeyReply(isHex, reply)
    ensures var t := Step(isHex, s, Reply(Text({GetJwt}, 200, d), at));
            && t.authenticated
            && Step(isHex, Step(isHex, t, NewPass), Reply(reply, now)).queue == t.queue
  {
    KeyReplyDecides(isHex, Step(isHex, Step(isHex, s, Reply(Text({GetJwt}, 200, d), at)), NewPass), reply, now);
  }

  /** The replies that end a login: an accepted token reply that carries a token, and
      an accepted authwithtoken reply. */
  predicate EndsLogin(e: Event)
  {
    e.Reply? && !Rejected(e.text.code) &&
    match BranchOf(e.text.words)
    case OnToken => e.text.dict.token != ""
    case OnAuth => true
    case _ => false
  }

  function UpdateRequests(queue: seq<Command>): nat
  {
    if queue == [] then 0 else UpdateRequests(queue[..|queue| - 1]) + if queue[|queue| - 1].EnableUpdates? then 1 else 0
  }

  function LoginsEnded(events: seq<Event>): nat
  {
    if events == [] then 0
    else LoginsEnded(events[..|events| - 1]) + if EndsLogin(events[|events| - 1]) then 1 else 0
  }

  /** Over every run, updates are requested once for every login that ended, and for
      nothing else: not on a refresh, and not on an empty token. */
  lemma {:induction false} OneUpdateRequestPerLogin(isHex: string -> bool, s: State, events: seq<Event>)
    ensures UpdateRequests(Run(isHex, s, events).queue) == UpdateRequests(s.queue) + LoginsEnded(events)
    decreases |events|
  {
    if events != [] {
      var init, e := events[..|events| - 1], events[|events| - 1];
      assert events == init + [e];
      RunSnoc(isHex, s, init, e);
      OneUpdateRequestPerLogin(isHex, s, init);
      StepRequestsUpdates(isHex, Run(isHex, s, init), e);
    }
  }

  lemma StepRequestsUpdates(isHex: string -> bool, s: State, e: Event)
    ensures UpdateRequests(Step(isHex, s, e).queue) == UpdateRequests(s.queue) + if EndsLogin(e) then 1 else 0
  {
    var t := Step(isHex, s, e);
    if EndsLogin(e) {
      assert t.queue == s.queue + [EnableUpdates];
      UpdateRequestsSnoc(s.queue, EnableUpdates);
    } else if t.queue != s.queue {
      var c := t.queue[|t.queue| - 1];
      assert t.queue == s.queue + [c] && !c.EnableUpdates?;
      UpdateRequestsSnoc(s.queue, c);
    }
  }

  lemma UpdateRequestsSnoc(queue: seq<Command>, c: Command)
    ensures UpdateRequests(queue + [c]) == UpdateRequests(queue) + if c.EnableUpdates? then 1 else 0
  {
    assert (queue + [c])[..|queue|] == queue;
  }

  /* ---- repeated refresh failures ---- */

  function FailuresSinceSuccess(initial: nat, events: seq<Event>): nat
  {
    if events == [] then initial
    else
      var last := events[|events| - 1];
      if last.RefreshSucceeded? then 0
      else FailuresSinceSuccess(initial, events[..|events| - 1]) + (if last.RefreshFailed? then 1 else 0)
  }

  /** A failed refresh ends the session exactly when it is at least the third since
      the last success; sessions in between do not reset the count. */
  lemma {:induction false} ThirdFailureEscalates(isHex: string -> bool, s: State, events: seq<Event>)
    ensures Run(isHex, s, events).failures == FailuresSinceSuccess(s.failures, events)
    ensures Raises(Run(isHex, s, events), RefreshFailed) <==> FailuresSinceSuccess(s.failures, events) >= 2
    decreases |events|
  {
    if events != [] {
      var init, e := events[..|events| - 1], events[|events| - 1];
      assert events == init + [e];
      RunSnoc(isHex, s, init, e);
      ThirdFailureEscalates(isHex, s, init);
    }
  }
}
