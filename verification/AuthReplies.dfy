/** Which text replies are kept from the message callback (`is_auth_response`) and
    which branch of `_websocket_event` handles them, both in
    custom_components/loxone/pyloxone_api/connection.py. The first test looks at
    segments of the reply's control, the second searches the whole text. */
module AuthReplies {
  import opened Wire
  import opened TokenLifecycle
  import L = Listener
  import M = Message

  /* ---- the test on the control ---- */

  /** `_AUTH_COMMANDS`. */
  predicate IsAuthCommand(name: string)
  {
    || name == "keyexchange" || name == "getkey" || name == "getkey2" || name == "getvisusalt"
    || name == "getjwt" || name == "gettoken" || name == "refreshjwt" || name == "refreshtoken"
    || name == "authwithtoken" || name == "killtoken"
  }

  /** `split("/")`. */
  function Split(s: string): (parts: seq<string>)
    ensures |parts| >= 1
  {
    if s == "" then [""]
    else
      var rest := Split(s[1..]);
      if s[0] == '/' then [""] + rest else [[s[0]] + rest[0]] + rest[1..]
  }

  predicate IsAuthResponse(control: string)
  {
    exists i :: 0 <= i < 3 && i < |Split(control)| && IsAuthCommand(Split(control)[i])
  }

  function Slashes(s: string): nat
  {
    if s == "" then 0 else (if s[0] == '/' then 1 else 0) + Slashes(s[1..])
  }

  lemma {:induction false} SlashesConcat(a: string, b: string)
    ensures Slashes(a + b) == Slashes(a) + Slashes(b)
  {
    if a == "" { assert a + b == b; } else {
      assert (a + b)[1..] == a[1..] + b;
      SlashesConcat(a[1..], b);
    }
  }

  lemma {:induction false} SplitLength(s: string)
    ensures |Split(s)| == Slashes(s) + 1
  {
    if s != "" { SplitLength(s[1..]); }
  }

  lemma {:induction false} SplitAtSlash(a: string, b: string)
    ensures Split(a + "/" + b) == Split(a) + Split(b)
  {
    var s := a + "/" + b;
    if a == "" {
      assert s[1..] == b;
    } else {
      assert s[1..] == a[1..] + "/" + b && s[0] == a[0];
      SplitAtSlash(a[1..], b);
    }
  }

  lemma {:induction false} SplitWord(w: string)
    requires '/' !in w
    ensures Split(w) == [w]
  {
    if w != "" {
      SplitWord(w[1..]);
      assert [w[0]] + w[1..] == w;
    }
  }

  lemma AuthCommandsHaveNoSlash(name: string)
    requires IsAuthCommand(name)
    ensures '/' !in name
  {
  }

  /** Where a segment stands: behind as many slashes as it has predecessors. */
  predicate Stands(s: string, i: nat, part: string, pre: string, post: string)
  {
    && s == pre + part + post && Slashes(pre) == i
    && (pre == "" || pre[|pre| - 1] == '/') && (post == "" || post[0] == '/')
  }

  lemma {:induction false} SegmentStands(s: string, i: nat) returns (pre: string, post: string)
    requires i < |Split(s)|
    ensures Stands(s, i, Split(s)[i], pre, post)
    ensures i == 0 ==> pre == ""
  {
    if s == "" {
      pre, post := "", "";
    } else if s[0] == '/' && i == 0 {
      pre, post := "", s;
    } else {
      var j := if s[0] == '/' then i - 1 else i;
      var pre', post' := SegmentStands(s[1..], j);
      post := post';
      pre := if i == 0 then "" else [s[0]] + pre';
      assert s == [s[0]] + s[1..];
    }
  }

  lemma FirstSegment(part: string, post: string)
    requires '/' !in part && (post == "" || post[0] == '/')
    ensures Split(part + post)[0] == part
  {
    SplitWord(part);
    if post == "" {
      assert part + post == part;
    } else {
      assert part + post == part + "/" + post[1..];
      SplitAtSlash(part, post[1..]);
    }
  }

  lemma BehindSlash(pre: string, tail: string)
    requires pre != "" && pre[|pre| - 1] == '/'
    ensures Slashes(pre) < |Split(pre + tail)| && Split(pre + tail)[Slashes(pre)] == Split(tail)[0]
  {
    var a := pre[..|pre| - 1];
    assert pre == a + "/" && pre + tail == a + "/" + tail;
    SplitAtSlash(a, tail);
    SlashesConcat(a, "/");
    SplitLength(a);
  }

  lemma StandingSegment(s: string, i: nat, part: string, pre: string, post: string)
    requires Stands(s, i, part, pre, post) && '/' !in part
    ensures i < |Split(s)| && Split(s)[i] == part
  {
    FirstSegment(part, post);
    assert s == pre + (part + post);
    if pre == "" {
      assert s == part + post;
    } else {
      BehindSlash(pre, part + post);
    }
  }

  ghost predicate NamesCommand(control: string)
  {
    exists i: nat, name, pre, post :: i < 3 && IsAuthCommand(name) && Stands(control, i, name, pre, post)
  }

  /** A reply is kept from the callback exactly when its control holds the whole name
      of an authentication command, between slashes or ends, behind at most two
      slashes. */
  lemma WithheldIff(control: string)
    ensures IsAuthResponse(control) <==> NamesCommand(control)
  {
    if IsAuthResponse(control) {
      var i :| 0 <= i < 3 && i < |Split(control)| && IsAuthCommand(Split(control)[i]);
      var pre, post := SegmentStands(control, i);
      assert Stands(control, i, Split(control)[i], pre, post);
    }
    if NamesCommand(control) {
      var i: nat, name, pre, post :| i < 3 && IsAuthCommand(name) && Stands(control, i, name, pre, post);
      AuthCommandsHaveNoSlash(name);
      StandingSegment(control, i, name, pre, post);
    }
  }

  /** The controls that answer a request in clear: the Miniserver echoes the command,
      with or without its leading "j", and whatever arguments follow. */
  predicate Echoes(control: string, name: string, arguments: string)
  {
    && (arguments == "" || arguments[0] == '/')
    && (control == "jdev/sys/" + name + arguments || control == "dev/sys/" + name + arguments
        || control == name + arguments)
  }

  /** Every answer in clear to an authentication request is kept from the callback. */
  lemma EchoIsWithheld(control: string, name: string, arguments: string)
    requires IsAuthCommand(name) && Echoes(control, name, arguments)
    ensures IsAuthResponse(control)
  {
    RootSlashes();
    if control == "jdev/sys/" + name + arguments {
      RootedIsWithheld("jdev/sys/", name, arguments);
    } else if control == "dev/sys/" + name + arguments {
      RootedIsWithheld("dev/sys/", name, arguments);
    } else {
      RootedIsWithheld("", name, arguments);
      assert control == "" + name + arguments;
    }
  }

  /** The requests whose answers carry a token, a key or a salt. */
  const REQUESTS: seq<string> :=
    ["jdev/sys/keyexchange", "jdev/sys/getkey", "jdev/sys/getkey2", "jdev/sys/getvisusalt", "jdev/sys/gettoken",
     "jdev/sys/getjwt", "jdev/sys/refreshtoken", "jdev/sys/refreshjwt", "jdev/sys/killtoken", "authwithtoken"]

  const REQUESTED: seq<string> :=
    ["keyexchange", "getkey", "getkey2", "getvisusalt", "gettoken",
     "getjwt", "refreshtoken", "refreshjwt", "killtoken", "authwithtoken"]

  /** In particular every one of them is kept from the callback. */
  lemma OwnRequestIsWithheld(k: nat, arguments: string)
    requires k < 10 && (arguments == "" || arguments[0] == '/')
    ensures IsAuthResponse(REQUESTS[k] + arguments)
  {
    RequestSplits(k);
    RootSlashes();
    RootedIsWithheld(if k == 9 then "" else "jdev/sys/", REQUESTED[k], arguments);
  }

  lemma RequestSplits(k: nat)
    requires k < 10
    ensures REQUESTS[k] == (if k == 9 then "" else "jdev/sys/") + REQUESTED[k] && IsAuthCommand(REQUESTED[k])
  {
  }

  /** The answer to a command of a control is not. */
  lemma CommandAnswerIsForwarded(rest: string)
    ensures !IsAuthResponse("jdev/sps/io/" + rest)
  {
    BehindThirdSlash("jdev", "sps", "io", rest);
    assert "jdev" + "/" + "sps" + "/" + "io" + "/" == "jdev/sps/io/";
    assert "jdev/sps/io/" + rest == "jdev" + "/" + "sps" + "/" + "io" + "/" + rest;
  }

  lemma RootedIsWithheld(root: string, name: string, arguments: string)
    requires IsAuthCommand(name) && (arguments == "" || arguments[0] == '/')
    requires Slashes(root) < 3 && (root == "" || root[|root| - 1] == '/')
    ensures IsAuthResponse(root + name + arguments)
  {
    AuthCommandsHaveNoSlash(name);
    StandingSegment(root + name + arguments, Slashes(root), name, root, arguments);
  }

  lemma RootSlashes()
    ensures Slashes("jdev/sys/") == 2 && Slashes("dev/sys/") == 2
  {
    assert "jdev/sys/" == "j" + "dev/sys/" && "dev/sys/" == "dev/" + "sys/";
    SlashesConcat("j", "dev/sys/");
    SlashesConcat("dev/", "sys/");
    assert "dev/"[1..] == "ev/" && "sys/"[1..] == "ys/";
  }

  /** How a command travels: in clear, or encrypted behind its salt; a reply whose
      control arrives encrypted is decrypted to the latter forms. */
  datatype Form = InClear | Salted(salt: string) | NextSalted(old_: string, next: string)

  function Formed(f: Form, command: string): string
  {
    match f
    case InClear => command
    case Salted(salt) => "salt" + "/" + salt + "/" + command
    case NextSalted(old_, next) => "nextSalt" + "/" + old_ + "/" + next + "/" + command
  }

  predicate IsHexSalt(salt: string)
  {
    forall i :: 0 <= i < |salt| ==> '0' <= salt[i] <= '9' || 'a' <= salt[i] <= 'f'
  }

  predicate HexSalts(f: Form)
  {
    match f
    case InClear => true
    case Salted(salt) => IsHexSalt(salt)
    case NextSalted(old_, next) => IsHexSalt(old_) && IsHexSalt(next)
  }

  /** With the salts counted as segments, only a command without a path is still
      recognised behind `salt/`, and none behind `nextSalt/`. */
  lemma FormIsWithheldIff(f: Form, root: string, name: string, arguments: string)
    requires HexSalts(f) && IsAuthCommand(name) && (arguments == "" || arguments[0] == '/')
    requires root == "jdev/sys/" || root == "dev/sys/" || root == ""
    ensures IsAuthResponse(Formed(f, root + name + arguments)) <==> f.InClear? || (f.Salted? && root == "")
  {
    var command := root + name + arguments;
    match f
    case InClear => EchoIsWithheld(command, name, arguments);
    case Salted(salt) =>
      if root == "" {
        SaltedNameIsWithheld(salt, command, name, arguments);
      } else {
        Regrouped(root, name, arguments);
        SaltedPathIsNot(salt, command, root, name + arguments);
      }
    case NextSalted(old_, next) => NextSaltedIsNot(old_, next, command);
  }

  lemma Regrouped(a: string, b: string, c: string)
    ensures a + b + c == a + (b + c)
  {
  }

  lemma SaltedNameIsWithheld(salt: string, command: string, name: string, arguments: string)
    requires IsHexSalt(salt) && IsAuthCommand(name) && (arguments == "" || arguments[0] == '/')
    requires command == "" + name + arguments
    ensures IsAuthResponse(Formed(Salted(salt), command))
  {
    var start := "salt" + "/" + salt + "/";
    HexSaltIsNoCommand(salt);
    SaltSlashes(salt);
    RootedIsWithheld(start, name, arguments);
    assert start + command == start + name + arguments;
  }

  lemma SaltedPathIsNot(salt: string, command: string, root: string, rest: string)
    requires IsHexSalt(salt) && (root == "jdev/sys/" || root == "dev/sys/") && command == root + rest
    ensures !IsAuthResponse(Formed(Salted(salt), command))
  {
    var path, start := if root == "jdev/sys/" then "jdev" else "dev", "salt" + "/" + salt + "/";
    HexSaltIsNoCommand(salt);
    BehindThirdSlash("salt", salt, path, "sys/" + rest);
    assert root == path + "/" + "sys/";
    assert start + command == start + path + "/" + ("sys/" + rest);
  }

  lemma NextSaltedIsNot(old_: string, next: string, command: string)
    requires IsHexSalt(old_) && IsHexSalt(next)
    ensures !IsAuthResponse(Formed(NextSalted(old_, next), command))
  {
    HexSaltIsNoCommand(old_);
    HexSaltIsNoCommand(next);
    BehindThirdSlash("nextSalt", old_, next, command);
  }

  lemma HexSaltIsNoCommand(salt: string)
    requires IsHexSalt(salt)
    ensures '/' !in salt && !IsAuthCommand(salt)
  {
    if IsAuthCommand(salt) { CommandsAreNotHex(salt); }
  }

  lemma CommandsAreNotHex(name: string)
    requires IsAuthCommand(name)
    ensures !IsHexSalt(name)
  {
    var k := if name == "authwithtoken" then 1 else 0;
    assert k < |name| && name[k] > 'f';
  }

  lemma SaltSlashes(salt: string)
    requires '/' !in salt
    ensures Slashes("salt" + "/" + salt + "/") == 2
  {
    SlashesConcat("salt" + "/" + salt, "/");
    SlashesConcat("salt" + "/", salt);
    SlashesConcat("salt", "/");
    NoSlashes("salt");
    NoSlashes(salt);
  }

  lemma {:induction false} NoSlashes(s: string)
    requires '/' !in s
    ensures Slashes(s) == 0
  {
    if s != "" { NoSlashes(s[1..]); }
  }

  lemma BehindThirdSlash(a: string, b: string, c: string, d: string)
    requires '/' !in a && '/' !in b && '/' !in c
    requires !IsAuthCommand(a) && !IsAuthCommand(b) && !IsAuthCommand(c)
    ensures !IsAuthResponse(a + "/" + b + "/" + c + "/" + d)
  {
    SplitAtSlash(a + "/" + b + "/" + c, d);
    SplitAtSlash(a + "/" + b, c);
    SplitAtSlash(a, b);
    SplitWord(a);
    SplitWord(b);
    SplitWord(c);
  }

  /* ---- the search in the text ---- */

  predicate Contains(text: string, word: string)
  {
    exists i :: 0 <= i <= |text| && OccursAt(text, word, i)
  }

  predicate OccursAt(text: string, word: string, i: int)
  {
    0 <= i <= |text| - |word| && text[i..i + |word|] == word
  }

  lemma ContainsInner(text: string, middle: string, word: string)
    requires Contains(text, middle) && Contains(middle, word)
    ensures Contains(text, word)
  {
    var i :| 0 <= i <= |text| && OccursAt(text, middle, i);
    var j :| 0 <= j <= |middle| && OccursAt(middle, word, j);
    SliceOfSlice(text, i, i + |middle|, j, j + |word|);
    assert OccursAt(text, word, i + j);
  }

  lemma LettersOccur(text: string, word: string, k: nat)
    requires k < |word| && Contains(text, word)
    ensures word[k] in text
  {
    var i :| 0 <= i <= |text| && OccursAt(text, word, i);
    assert text[i + k] == text[i..i + |word|][k];
  }

  function Name(w: Word): string
  {
    match w
    case KeyExchange => "keyexchange"
    case GetKey2 => "getkey2"
    case GetKey => "getkey"
    case GetVisuSalt => "getvisusalt"
    case GetToken => "gettoken"
    case GetJwt => "getjwt"
    case AuthWithToken => "authwithtoken"
    case Refresh => "refresh"
  }

  function IfFound(text: string, w: Word): set<Word>
  {
    if Contains(text, Name(w)) then {w} else {}
  }

  function WordsIn(text: string): (ws: set<Word>)
    ensures forall w :: w in ws <==> Contains(text, Name(w))
  {
    IfFound(text, KeyExchange) + IfFound(text, GetKey2) + IfFound(text, GetKey) + IfFound(text, GetVisuSalt)
    + IfFound(text, GetToken) + IfFound(text, GetJwt) + IfFound(text, AuthWithToken) + IfFound(text, Refresh)
  }

  /** A text reply: its text, and the control parsed from it (decrypted if need be).
      `controlIsText` is false for a number, a list or an object that is not empty. */
  datatype TextReply = TextReply(text: string, control: string, controlIsText: bool, code: int, dict: Value)

  function AsText(r: TextReply): Text
  {
    Text(WordsIn(r.text), r.code, r.dict)
  }

  /** The word by which a command's reply is recognised; nothing looks for "killtoken". */
  function WordOf(name: string): Word
    requires IsAuthCommand(name) && name != "killtoken"
  {
    if name == "keyexchange" then KeyExchange
    else if name == "getkey2" then GetKey2
    else if name == "getkey" then GetKey
    else if name == "getvisusalt" then GetVisuSalt
    else if name == "gettoken" then GetToken
    else if name == "getjwt" then GetJwt
    else if name == "authwithtoken" then AuthWithToken
    else Refresh
  }

  lemma WordIsInName(name: string)
    requires IsAuthCommand(name) && name != "killtoken"
    ensures Contains(name, Name(WordOf(name)))
  {
    var word := Name(WordOf(name));
    assert OccursAt(name, word, 0);
  }

  /** A reply kept from the callback is handled inside: when its text quotes the
      control in clear and the command is not "killtoken", some branch takes it. */
  lemma WithheldIsHandled(r: TextReply, i: nat, name: string, pre: string, post: string)
    requires Contains(r.text, r.control)
    requires IsAuthCommand(name) && name != "killtoken" && Stands(r.control, i, name, pre, post)
    ensures BranchOf(AsText(r).words) != Ignored
    ensures WordOf(name) in AsText(r).words
  {
    assert OccursAt(r.control, name, |pre|);
    WordIsInName(name);
    ContainsInner(r.control, name, Name(WordOf(name)));
    ContainsInner(r.text, r.control, Name(WordOf(name)));
  }

  /* ---- which branch takes a text ---- */

  /** The names in the order they are looked for. */
  const NAMES: seq<string> :=
    ["keyexchange", "getkey2", "getkey", "getvisusalt", "gettoken", "getjwt", "authwithtoken", "refresh"]

  const BRANCHES: seq<Branch> :=
    [OnKeyExchange, OnGetKey2, OnGetKey, OnVisuSalt, OnToken, OnToken, OnAuth, OnRefresh]

  /** The text has the k-th name, and none of those looked for before. */
  predicate ReadsFirst(text: string, k: nat)
    requires k < 8
  {
    Contains(text, NAMES[k]) && forall j :: 0 <= j < k ==> !Contains(text, NAMES[j])
  }

  /** A text is taken by the branch of the first name it has; a text with none of them
      is ignored. */
  lemma FirstNameDecides(text: string)
    ensures forall k :: 0 <= k < 8 && ReadsFirst(text, k) ==> BranchOf(WordsIn(text)) == BRANCHES[k]
    ensures (forall j :: 0 <= j < 8 ==> !Contains(text, NAMES[j])) ==> BranchOf(WordsIn(text)) == Ignored
  {
    NamesAreLookedFor();
    var ws := WordsIn(text);
    assert KeyExchange in ws <==> Contains(text, NAMES[0]);
    assert GetKey2 in ws <==> Contains(text, NAMES[1]);
    assert GetKey in ws <==> Contains(text, NAMES[2]);
    assert GetVisuSalt in ws <==> Contains(text, NAMES[3]);
    assert GetToken in ws <==> Contains(text, NAMES[4]);
    assert GetJwt in ws <==> Contains(text, NAMES[5]);
    assert AuthWithToken in ws <==> Contains(text, NAMES[6]);
    assert Refresh in ws <==> Contains(text, NAMES[7]);
  }

  lemma NamesAreLookedFor()
    ensures Name(KeyExchange) == NAMES[0] && Name(GetKey2) == NAMES[1] && Name(GetKey) == NAMES[2]
    ensures Name(GetVisuSalt) == NAMES[3] && Name(GetToken) == NAMES[4] && Name(GetJwt) == NAMES[5]
    ensures Name(AuthWithToken) == NAMES[6] && Name(Refresh) == NAMES[7]
  {
  }

  lemma TakenAs(text: string, k: nat, b: Branch)
    requires k < 8 && ReadsFirst(text, k) && BRANCHES[k] == b
    ensures BranchOf(WordsIn(text)) == b
  {
    FirstNameDecides(text);
  }

  /** In particular every getkey2 reply also spells "getkey", and yet is not taken for
      a getkey reply. */
  lemma GetKey2IsNotGetKey(text: string)
    requires Contains(text, "getkey2") && !Contains(text, "keyexchange")
    ensures Contains(text, "getkey") && BranchOf(WordsIn(text)) == OnGetKey2
  {
    assert OccursAt("getkey2", "getkey", 0);
    ContainsInner(text, "getkey2", "getkey");
    assert ReadsFirst(text, 1);
    FirstNameDecides(text);
  }

  /** Handling a reply raises exactly when its code is 401 or 4003 and it is taken as
      the answer to getkey2, getkey, getvisusalt or a token request. */
  lemma ReplyRaisesIff(s: State, r: TextReply, now: real, k: nat)
    requires k < 8 && ReadsFirst(r.text, k)
    ensures Raises(s, Reply(AsText(r), now)) <==> (r.code == 401 || r.code == 4003) && 1 <= k <= 5
  {
    FirstNameDecides(r.text);
  }

  /** The answers of a whole login, told by their texts: to the key exchange, to getkey2
      and, as the stored token decides, to authwithtoken or to the token request. */
  predicate TextsOfLogin(
      isHex: string -> bool, s: State, exchange: TextReply, reply: TextReply, at: real, answer: TextReply)
  {
    && ReadsFirst(exchange.text, 0) && ReadsFirst(reply.text, 1) && AcceptableKey(isHex, reply)
    && answer.code != 401 && answer.code != 4003 && s.token.validUntil != 0.0
    && if s.token.validUntil - at >= 101.0 then s.token.token != "" && ReadsFirst(answer.text, 6)
       else answer.dict.token != "" && (ReadsFirst(answer.text, 4) || ReadsFirst(answer.text, 5))
  }

  /** A login whose answers read so, neutral events in between, succeeds. */
  lemma LoginByTexts(
      isHex: string -> bool, s: State, exchange: TextReply, begun: real, reply: TextReply, at: real,
      answer: TextReply, ended: real, events: seq<Event>)
    requires TextsOfLogin(isHex, s, exchange, reply, at, answer)
    requires Significant(events) == Login(AsText(exchange), begun, AsText(reply), at, AsText(answer), ended)
    ensures LoggedIn(s, AsText(reply), at, AsText(answer), Run(isHex, s, events))
  {
    TextsAnswerLogin(isHex, s, exchange, reply, at, answer);
    LoginSucceeds(isHex, s, AsText(exchange), begun, AsText(reply), at, AsText(answer), ended, events);
  }

  lemma TextsAnswerLogin(
      isHex: string -> bool, s: State, exchange: TextReply, reply: TextReply, at: real, answer: TextReply)
    requires TextsOfLogin(isHex, s, exchange, reply, at, answer)
    ensures AnswersLogin(isHex, s, AsText(exchange), AsText(reply), at, AsText(answer))
  {
    TakenAs(exchange.text, 0, OnKeyExchange);
    ReplyIsValid(isHex, reply);
    if s.token.validUntil - at >= 101.0 {
      TakenAs(answer.text, 6, OnAuth);
    } else {
      TakenAsToken(answer.text);
    }
  }

  lemma ReplyIsValid(isHex: string -> bool, r: TextReply)
    requires ReadsFirst(r.text, 1) && AcceptableKey(isHex, r)
    ensures ValidKeyReply(isHex, AsText(r))
  {
    TakenAs(r.text, 1, OnGetKey2);
    AcceptableIsValid(isHex, r);
  }

  lemma TakenAsToken(text: string)
    requires ReadsFirst(text, 4) || ReadsFirst(text, 5)
    ensures BranchOf(WordsIn(text)) == OnToken
  {
    if ReadsFirst(text, 4) { TakenAs(text, 4, OnToken); } else { TakenAs(text, 5, OnToken); }
  }

  lemma AcceptableIsValid(isHex: string -> bool, r: TextReply)
    requires BranchOf(WordsIn(r.text)) == OnGetKey2 && AcceptableKey(isHex, r)
    ensures ValidKeyReply(isHex, AsText(r))
  {
  }

  /** Neither rejected nor without key or salt, the key hex, the algorithm known. */
  predicate AcceptableKey(isHex: string -> bool, r: TextReply)
  {
    && r.code != 401 && r.code != 4003
    && r.dict.key != "" && isHex(r.dict.key) && r.dict.salt != ""
    && (r.dict.hashAlg == None || r.dict.hashAlg == Some("SHA1") || r.dict.hashAlg == Some("SHA256"))
  }

  /* ---- tokens and keys ---- */

  /** The reply changes the stored token or the key: it installs another one, or it
      resets a rejected token. */
  predicate Changes(isHex: string -> bool, s: State, r: TextReply, now: real)
  {
    var t := Step(isHex, s, Reply(AsText(r), now));
    r.controlIsText && (t.token != s.token || t.key != s.key)
  }

  /** The receive loop's handlers are those of the session: `replyOf` is the text reply
      parsed from a payload, and whether handling it raises is decided by the reply
      alone, in whatever state the session is. A control without `find` raises before
      any branch. */
  ghost predicate Serves(h: L.Handlers, replyOf: L.Bytes -> TextReply)
  {
    && (forall p :: h.isAuth(p) <==> IsAuthResponse(replyOf(p).control))
    && (forall p :: !replyOf(p).controlIsText ==> h.fatal(M.MessageType.Text, p))
    && (forall p, s, now :: replyOf(p).controlIsText ==>
          (Raises(s, Reply(AsText(replyOf(p)), now)) <==> h.fatal(M.MessageType.Text, p)))
  }

  /** A text whose control is a number, a list or an object ends the session. */
  lemma OddControlEndsTheSession(h: L.Handlers, replyOf: L.Bytes -> TextReply, payload: L.Bytes)
    requires Serves(h, replyOf) && h.parses(payload) && !replyOf(payload).controlIsText
    ensures L.Deliver(h, M.MessageType.Text, payload)
         == ([L.Handled(M.MessageType.Text, payload)], Some(L.HandlerError))
  {
  }

  /** An answer whose control arrives encrypted, in a text that spells no command, is
      taken by no branch; and with a path in front of the command, or behind
      `nextSalt/`, it is not kept from the callback either. */
  lemma EncryptedAnswerIsMissed(
      isHex: string -> bool, s: State, r: TextReply, f: Form, root: string, name: string, arguments: string, now: real)
    requires WordsIn(r.text) == {} && r.control == Formed(f, root + name + arguments)
    requires HexSalts(f) && IsAuthCommand(name) && (arguments == "" || arguments[0] == '/')
    requires root == "jdev/sys/" || root == "dev/sys/" || root == ""
    ensures Step(isHex, s, Reply(AsText(r), now)) == s
    ensures IsAuthResponse(r.control) <==> f.InClear? || (f.Salted? && root == "")
  {
    FormIsWithheldIff(f, root, name, arguments);
  }

  /** A reply that changes the token or the key is handled without an exception, and
      it is then forwarded exactly when its control names no command. */
  lemma ChangeIsForwardedIff(
      isHex: string -> bool, s: State, h: L.Handlers, replyOf: L.Bytes -> TextReply, payload: L.Bytes, now: real)
    requires Serves(h, replyOf) && h.hasCallback && h.parses(payload)
    requires Changes(isHex, s, replyOf(payload), now)
    ensures L.Deliver(h, M.MessageType.Text, payload) ==
              (if NamesCommand(replyOf(payload).control) then [L.Handled(M.MessageType.Text, payload)]
               else [L.Handled(M.MessageType.Text, payload), L.Forwarded(M.MessageType.Text, payload)], None)
  {
    WithheldIff(replyOf(payload).control);
    ChangeDoesNotRaise(isHex, s, AsText(replyOf(payload)), now);
    assert Raises(s, Reply(AsText(replyOf(payload)), now)) <==> h.fatal(M.MessageType.Text, payload);
  }

  lemma ChangeDoesNotRaise(isHex: string -> bool, s: State, text: Text, now: real)
    requires Step(isHex, s, Reply(text, now)).token != s.token || Step(isHex, s, Reply(text, now)).key != s.key
    ensures !Raises(s, Reply(text, now))
  {
  }

  const MENTION := "jdev/sps/io/refresh"

  const BEFORE := "{\"LL\": {\"control\": \""

  /** The rest of the JSON text of such an answer with a token and an expiry. */
  function Behind(token: string, expiry: string): string
  {
    "\", \"value\": {\"token\": \"" + (token + ("\", \"validUntil\": " + (expiry + "}, \"Code\": \"200\"}}")))
  }

  /** The two tests differ: a reply that mentions "refresh" behind its third slash and
      carries a token and an expiry is handled as a refresh and still forwarded. */
  lemma MentionIsEnough(isHex: string -> bool, s: State, token: string, expiry: string, validUntil: real, now: real)
    requires token != "" && s.token != Token(token, validUntil)
    requires !SpellsOther(token) && !SpellsOther(expiry)
    ensures var r := TextReply(BEFORE + MENTION + Behind(token, expiry), MENTION, true, 200,
                               Value("", "", "", None, token, Some(validUntil)));
            Changes(isHex, s, r, now) && !IsAuthResponse(r.control)
  {
    MentionIsRead(token, expiry);
    MentionIsNotWithheld();
    RefreshInstalls(isHex, s, TextReply(BEFORE + MENTION + Behind(token, expiry), MENTION, true, 200,
                                        Value("", "", "", None, token, Some(validUntil))), now);
  }

  lemma RefreshInstalls(isHex: string -> bool, s: State, r: TextReply, now: real)
    requires BranchOf(WordsIn(r.text)) == OnRefresh && r.controlIsText && !Rejected(r.code)
    requires r.dict.token != "" && r.dict.validUntil.Some? && s.token != Token(r.dict.token, r.dict.validUntil.value)
    ensures Changes(isHex, s, r, now)
  {
  }

  lemma MentionIsNotWithheld()
    ensures !IsAuthResponse(MENTION)
  {
    BehindThirdSlash("jdev", "sps", "io", "refresh");
    assert "jdev" + "/" + "sps" + "/" + "io" + "/" + "refresh" == MENTION;
  }

  lemma MentionIsRead(token: string, expiry: string)
    requires !SpellsOther(token) && !SpellsOther(expiry)
    ensures BranchOf(WordsIn(BEFORE + MENTION + Behind(token, expiry))) == OnRefresh
  {
    RefreshAround(BEFORE, Behind(token, expiry));
    BehindSpellsNoOther(token, expiry);
    assert !SpellsOther(BEFORE) && !SpellsOther(MENTION);
    SpellsConcat(BEFORE, MENTION);
    SpellsConcat(BEFORE + MENTION, Behind(token, expiry));
    OnlyRefreshIsRead(BEFORE + MENTION + Behind(token, expiry));
  }

  lemma RefreshAround(before: string, behind: string)
    ensures Contains(before + MENTION + behind, Name(Refresh))
  {
    var text := before + MENTION + behind;
    assert MENTION[12..19] == Name(Refresh);
    assert text[|before| + 12..|before| + 19] == MENTION[12..19];
    assert OccursAt(text, Name(Refresh), |before| + 12);
  }

  /** All command names but "refresh" have one of these letters. */
  predicate SpellsOther(text: string)
  {
    'g' in text || 'w' in text
  }

  lemma SpellsConcat(a: string, b: string)
    ensures SpellsOther(a + b) <==> SpellsOther(a) || SpellsOther(b)
  {
  }

  lemma BehindSpellsNoOther(token: string, expiry: string)
    requires !SpellsOther(token) && !SpellsOther(expiry)
    ensures !SpellsOther(Behind(token, expiry))
  {
    var a, b, c := "\", \"value\": {\"token\": \"", "\", \"validUntil\": ", "}, \"Code\": \"200\"}}";
    assert !SpellsOther(a) && !SpellsOther(b) && !SpellsOther(c);
    SpellsConcat(expiry, c);
    SpellsConcat(b, expiry + c);
    SpellsConcat(token, b + (expiry + c));
    SpellsConcat(a, token + (b + (expiry + c)));
  }

  lemma OnlyRefreshIsRead(text: string)
    requires Contains(text, Name(Refresh)) && !SpellsOther(text)
    ensures BranchOf(WordsIn(text)) == OnRefresh
  {
    forall w: Word | w != Refresh ensures !Contains(text, Name(w)) {
      if Contains(text, Name(w)) { LettersOccur(text, Name(w), OtherLetter(w)); }
    }
  }

  /** Where a name has its "g" or "w". */
  function OtherLetter(w: Word): (k: nat)
    requires w != Refresh
    ensures k < |Name(w)| && (Name(w)[k] == 'g' || Name(w)[k] == 'w')
  {
    if w == KeyExchange then 9 else if w == AuthWithToken then 4 else 0
  }

  /* ---- with the receive loop ---- */

  /** Over any frames, no answer in clear to an authentication request leaves the
      receive loop. */
  lemma AnswersStayInside(h: L.Handlers, replyOf: L.Bytes -> TextReply, s: L.State, frames: seq<L.Incoming>)
    requires Serves(h, replyOf)
    ensures forall i :: 0 <= i < |L.Run(h, s, frames).out| ==> StaysOutside(L.Run(h, s, frames).out[i], replyOf)
  {
    L.AuthResponsesStayInside(h, s, frames);
    var out := L.Run(h, s, frames).out;
    forall i | 0 <= i < |out| ensures StaysOutside(out[i], replyOf) {
      assert L.MayBeForwarded(h, out[i]);
      if out[i].Forwarded? && out[i].t == M.MessageType.Text {
        NothingNamed(replyOf(out[i].payload).control);
      }
    }
  }

  lemma NothingNamed(control: string)
    requires !IsAuthResponse(control)
    ensures !NamesCommand(control)
    ensures forall name, arguments :: IsAuthCommand(name) ==> !Echoes(control, name, arguments)
  {
    WithheldIff(control);
    forall name, arguments | IsAuthCommand(name) ensures !Echoes(control, name, arguments) {
      if Echoes(control, name, arguments) { EchoIsWithheld(control, name, arguments); }
    }
  }

  /** A text that is handed on names no authentication command in its first segments,
      and so answers no authentication request in clear. */
  ghost predicate StaysOutside(d: L.Delivery, replyOf: L.Bytes -> TextReply)
  {
    d.Forwarded? && d.t == M.MessageType.Text ==>
      && !NamesCommand(replyOf(d.payload).control)
      && forall name, arguments :: IsAuthCommand(name) ==> !Echoes(replyOf(d.payload).control, name, arguments)
  }
}
