/** The in-place reconnect supervisor (`run`, `close`, `_close_and_reset` and
    `reconnect_backoff_seconds` in custom_components/loxone/pyloxone_api/connection.py)
    composed with the coordinator's flip filter
    (custom_components/loxone/coordinator.py). */
module Supervisor {
  import opened Wire

  const RECONNECT_BASE_DELAY := 1.0
  const RECONNECT_MAX_DELAY := 300.0

  /* ---- backoff ---- */

  function Pow2(n: nat): (p: nat)
    ensures p >= 1
  {
    if n == 0 then 1 else 2 * Pow2(n - 1)
  }

  function RawDelay(base: real, n: nat): real
  {
    base * Pow2(n) as real
  }

  /** `None` is Python's OverflowError: 2**1024 has no float. */
  function Backoff(attempt: int, base: real, maximum: real): Option<real>
  {
    var n := if attempt > 0 then attempt else 0;
    if n >= 1024 then None
    else Some(if RawDelay(base, n) < maximum then RawDelay(base, n) else maximum)
  }

  lemma {:induction false} RawDelayGrows(base: real, m: nat, n: nat)
    requires base >= 0.0 && m <= n
    ensures 0.0 <= RawDelay(base, m) <= RawDelay(base, n)
    decreases n
  {
    if m < n {
      RawDelayGrows(base, m, n - 1);
      assert RawDelay(base, n) == RawDelay(base, n - 1) + RawDelay(base, n - 1) by {
        Doubled(base, Pow2(n - 1) as real);
      }
    } else {
      Scaled(base, 0.0, Pow2(m) as real);
    }
  }

  lemma Doubled(k: real, x: real)
    ensures k * (2.0 * x) == k * x + k * x
  {
  }

  lemma Scaled(k: real, x: real, y: real)
    requires k >= 0.0 && x <= y
    ensures k * x <= k * y
  {
  }

  /** Nominal delays never decrease. */
  lemma BackoffNeverDecreases(a: int, b: int, base: real, maximum: real)
    requires a <= b && base >= 0.0 && Backoff(b, base, maximum).Some?
    ensures Backoff(a, base, maximum).Some? && Backoff(a, base, maximum).value <= Backoff(b, base, maximum).value
  {
    RawDelayGrows(base, if a > 0 then a else 0, if b > 0 then b else 0);
  }

  function Jittered(nominal: real, jitter: real): real
  {
    nominal * jitter
  }

  lemma JitterBounds(nominal: real, jitter: real)
    requires nominal >= 0.0 && 0.5 <= jitter <= 1.0
    ensures nominal <= 2.0 * Jittered(nominal, jitter) && Jittered(nominal, jitter) <= nominal
  {
    Scaled(nominal, 0.5, jitter);
    Scaled(nominal, jitter, 1.0);
  }

  function NominalSum(k: nat): real
    requires k <= 1024
  {
    if k == 0 then 0.0 else NominalSum(k - 1) + Backoff(k - 1, RECONNECT_BASE_DELAY, RECONNECT_MAX_DELAY).value
  }

  /** With default settings the nominal delays add up to 2^k - 1 for the first nine
      reconnects and grow by the 300 second cap from then on. */
  lemma {:induction false} NominalSumClosedForm(k: nat)
    requires k <= 1024
    ensures NominalSum(k) == if k <= 9 then (Pow2(k) - 1) as real else 511.0 + 300.0 * (k - 9) as real
  {
    if k > 0 {
      NominalSumClosedForm(k - 1);
      assert Pow2(8) == 256 && Pow2(9) == 512 by {
        assert Pow2(2) == 4; assert Pow2(4) == 16; assert Pow2(6) == 64;
      }
      if k > 9 {
        RawDelayGrows(RECONNECT_BASE_DELAY, 9, k - 1);
      } else {
        RawDelayGrows(RECONNECT_BASE_DELAY, k - 1, 8);
      }
    }
  }

  /* ---- one pass, as the environment decides it ---- */

  datatype Ending = Returned | Retryable | Fatal | Unauthorised | Cancelled

  /** Where an external close() or a cancellation falls, whether the socket opened and
      the session got authenticated, how it ended, and the jitter drawn for the sleep. */
  datatype Pass = Pass(
    closedInOpen: bool, connects: bool, authenticates: bool, closedInSession: bool, ending: Ending,
    closedInRecovery: bool, cancelledInRecovery: bool,
    closedInSleep: bool, cancelledInSleep: bool, jitter: real)

  datatype Act = PassStarted | OnState(connected: bool) | Slept(nominal: real, jitter: real)

  datatype Exit = StillRunning | Finished | RaisedCancelled | RaisedUnauthorised | RaisedFatal | RaisedOverflow

  datatype Settings = Settings(base: real, maximum: real)

  const DEFAULTS := Settings(RECONNECT_BASE_DELAY, RECONNECT_MAX_DELAY)

  datatype Log = Log(acts: seq<Act>, exit: Exit)

  predicate Recoverable(e: Ending)
  {
    e.Returned? || e.Retryable?
  }

  predicate WentLive(p: Pass)
  {
    p.connects && p.authenticates
  }

  /** An external close() latched before the session was over. */
  predicate TornDown(p: Pass)
  {
    p.closedInOpen || (p.connects && p.closedInSession)
  }

  /** The pass ends in a sleep, behind which the next one is considered. */
  predicate GoesOn(p: Pass, attempt: nat)
  {
    && Recoverable(p.ending) && !TornDown(p)
    && !p.cancelledInRecovery && !p.cancelledInSleep && attempt < 1024
  }

  function Up(p: Pass): seq<Act>
  {
    if WentLive(p) then [OnState(true)] else []
  }

  function Down(p: Pass): seq<Act>
  {
    if WentLive(p) then [OnState(false)] else []
  }

  function Notices(p: Pass): seq<Act>
  {
    if p.ending.Cancelled? || p.cancelledInRecovery then Up(p)
    else if p.ending.Unauthorised? then Up(p) + [OnState(false)]
    else Up(p) + Down(p)
  }

  function Sleep(p: Pass, attempt: nat, set_: Settings): seq<Act>
  {
    if GoesOn(p, attempt) then [Slept(Backoff(attempt, set_.base, set_.maximum).value, p.jitter)] else []
  }

  function PassExit(p: Pass, attempt: nat): Exit
  {
    if p.ending.Cancelled? || p.cancelledInRecovery then RaisedCancelled
    else if p.ending.Unauthorised? then RaisedUnauthorised
    else if TornDown(p) then Finished
    else if p.ending.Fatal? then RaisedFatal
    else if attempt >= 1024 then RaisedOverflow
    else if p.cancelledInSleep then RaisedCancelled
    else if p.closedInSleep then Finished
    else StillRunning
  }

  function PassLog(p: Pass, attempt: nat, set_: Settings): Log
  {
    Log([PassStarted] + Notices(p) + Sleep(p, attempt, set_), PassExit(p, attempt))
  }

  /** The same acts, appended one by one to what happened before. */
  function Extended(before: seq<Act>, p: Pass, attempt: nat, set_: Settings): seq<Act>
  {
    var started := before + [PassStarted];
    var up := if WentLive(p) then started + [OnState(true)] else started;
    var down :=
      if p.ending.Cancelled? || p.cancelledInRecovery || (!p.ending.Unauthorised? && !WentLive(p)) then up
      else up + [OnState(false)];
    if GoesOn(p, attempt) then down + [Slept(Backoff(attempt, set_.base, set_.maximum).value, p.jitter)] else down
  }

  lemma ExtendedByPass(before: seq<Act>, p: Pass, attempt: nat, set_: Settings)
    ensures Extended(before, p, attempt, set_) == before + PassLog(p, attempt, set_).acts
  {
    assert before + ([PassStarted] + Up(p)) == (before + [PassStarted]) + Up(p);
    var notices, sleep := Notices(p), Sleep(p, attempt, set_);
    assert before + ([PassStarted] + notices + sleep) == before + [PassStarted] + notices + sleep;
    assert before + [PassStarted] + notices + sleep == Extended(before, p, attempt, set_);
  }

  function Logs(passes: seq<Pass>, set_: Settings): (logs: seq<Log>)
    ensures |logs| == |passes|
  {
    seq(|passes|, i requires 0 <= i < |passes| => PassLog(passes[i], i, set_))
  }

  function AndThen(first: Log, rest: Log): Log
  {
    if first.exit != StillRunning then first else Log(first.acts + rest.acts, rest.exit)
  }

  lemma PassAppended(start: seq<Act>, sofar: Log, passes: seq<Pass>, i: nat, set_: Settings)
    requires i < |passes| && sofar.exit == StillRunning
    ensures var next := AndThen(sofar, Logs(passes, set_)[i]);
            && Extended(start + sofar.acts, passes[i], i, set_) == start + next.acts
            && next.exit == PassExit(passes[i], i)
  {
    ExtendedByPass(start + sofar.acts, passes[i], i, set_);
    assert start + (sofar.acts + Logs(passes, set_)[i].acts) == start + sofar.acts + Logs(passes, set_)[i].acts;
  }

  /** Passes follow each other until one ends the loop. */
  function Chain(logs: seq<Log>): Log
    decreases |logs|
  {
    if logs == [] then Log([], StillRunning) else AndThen(logs[0], Chain(logs[1..]))
  }

  function RunLog(passes: seq<Pass>, set_: Settings): Log
  {
    Chain(Logs(passes, set_))
  }

  ghost predicate Leads(sofar: Log, logs: seq<Log>, all: Log)
  {
    AndThen(sofar, Chain(logs)) == all
  }

  lemma ChainStart(logs: seq<Log>)
    ensures Leads(Log([], StillRunning), logs[0..], Chain(logs))
  {
    assert logs[0..] == logs;
    assert [] + Chain(logs).acts == Chain(logs).acts;
  }

  lemma ChainNext(sofar: Log, logs: seq<Log>, i: nat, all: Log)
    requires i < |logs| && sofar.exit == StillRunning && Leads(sofar, logs[i..], all)
    ensures Leads(AndThen(sofar, logs[i]), logs[i + 1..], all)
  {
    var one, rest := logs[i], Chain(logs[i + 1..]);
    assert logs[i..][1..] == logs[i + 1..];
    assert sofar.acts + (one.acts + rest.acts) == (sofar.acts + one.acts) + rest.acts;
  }

  lemma ChainEnd(sofar: Log, logs: seq<Log>, all: Log)
    requires Leads(sofar, logs[|logs|..], all)
    ensures all == sofar
  {
    assert sofar.acts + [] == sofar.acts;
  }

  /* ---- the object ---- */

  class Connection {
    var closed: bool
    var shutdown: bool
    var authenticated: bool
    var acts: seq<Act>

    constructor ()
      ensures !closed && acts == []
    {
      closed, shutdown, authenticated, acts := false, false, false, [];
    }

    /** A second close() does nothing until the latch is cleared. */
    method Close()
      modifies this`closed, this`shutdown
      ensures closed && (old(closed) ==> shutdown == old(shutdown)) && (!old(closed) ==> shutdown)
    {
      if closed { return; }
      closed := true;
      shutdown := true;
    }

    /** The recovery close of the loop itself; an external close() that arrives
        while it runs finds the latch set and is absorbed. */
    method CloseAndReset(externalClose: bool, cancelled: bool) returns (raisesCancelled: bool)
      modifies this`closed, this`shutdown
      ensures raisesCancelled == cancelled && closed == cancelled
      ensures shutdown == (old(shutdown) || !old(closed))
    {
      Close();
      if externalClose { Close(); }
      if cancelled { return true; }
      closed := false;
      return false;
    }

    method NotifyState(connected: bool)
      modifies this`acts
      ensures acts == old(acts) + [OnState(connected)]
    {
      acts := acts + [OnState(connected)];
    }

    /** One iteration of the loop, from the cleared flags to the end of the sleep. */
    method RunPass(p: Pass, attempt: nat, set_: Settings) returns (exit: Exit)
      requires !closed
      modifies this
      ensures acts == Extended(old(acts), p, attempt, set_)
      ensures PassExit(p, attempt) == if exit == StillRunning && closed then Finished else exit
      ensures exit != StillRunning && exit != RaisedCancelled ==> !closed
      ensures authenticated == WentLive(p)
    {
      shutdown := false;
      authenticated := false;
      acts := acts + [PassStarted];
      if p.closedInOpen { Close(); }
      var available := false;
      if p.connects {
        shutdown := false;               // start_listening clears what a close() during open() set
        if p.authenticates {
          authenticated := true;
          available := true;
          NotifyState(true);
        }
        if p.closedInSession { Close(); }
      }
      if p.ending.Cancelled? { return RaisedCancelled; }
      if p.ending.Unauthorised? {
        var cancelled := CloseAndReset(p.closedInRecovery, p.cancelledInRecovery);
        if cancelled { return RaisedCancelled; }
        NotifyState(false);
        return RaisedUnauthorised;
      }
      var teardownRequested := closed || shutdown;
      var cancelled := CloseAndReset(p.closedInRecovery, p.cancelledInRecovery);
      if cancelled { return RaisedCancelled; }
      if available { NotifyState(false); }
      if teardownRequested { return Finished; }
      if p.ending.Fatal? { return RaisedFatal; }
      var delay := Backoff(attempt, set_.base, set_.maximum);
      if delay.None? { return RaisedOverflow; }
      if p.cancelledInSleep { return RaisedCancelled; }
      acts := acts + [Slept(delay.value, p.jitter)];
      if p.closedInSleep { Close(); }
      return StillRunning;
    }

    /** `run` over the passes the environment offers. */
    method Run(passes: seq<Pass>, set_: Settings) returns (exit: Exit)
      requires !closed
      modifies this
      ensures old(acts) <= acts && Log(acts[|old(acts)|..], exit) == RunLog(passes, set_)
    {
      var attempt: nat := 0;
      ghost var start, logs, all := acts, Logs(passes, set_), RunLog(passes, set_);
      ghost var sofar := Log([], StillRunning);
      ChainStart(logs);
      while true
        invariant attempt <= |passes| && acts == start + sofar.acts
        invariant sofar.exit == if closed then Finished else StillRunning
        invariant Leads(sofar, logs[attempt..], all)
        decreases |passes| - attempt
      {
        if closed { return Finished; }
        if attempt == |passes| {
          ChainEnd(sofar, logs, all);
          return StillRunning;
        }
        ChainNext(sofar, logs, attempt, all);
        PassAppended(start, sofar, passes, attempt, set_);
        exit := RunPass(passes[attempt], attempt, set_);
        sofar := AndThen(sofar, logs[attempt]);
        if exit != StillRunning { return exit; }
        attempt := attempt + 1;
      }
    }
  }

  /* ---- which pass is the last ---- */

  function PassesStarted(acts: seq<Act>): nat
  {
    if acts == [] then 0 else (if acts[0].PassStarted? then 1 else 0) + PassesStarted(acts[1..])
  }

  lemma {:induction false} StartedConcat(a: seq<Act>, b: seq<Act>)
    ensures PassesStarted(a + b) == PassesStarted(a) + PassesStarted(b)
  {
    if a == [] { assert a + b == b; } else {
      assert (a + b)[1..] == a[1..] + b;
      StartedConcat(a[1..], b);
    }
  }

  lemma PassStartsOnce(p: Pass, attempt: nat, set_: Settings)
    ensures PassesStarted(PassLog(p, attempt, set_).acts) == 1
    ensures PassExit(p, attempt) == StillRunning <==> GoesOn(p, attempt) && !p.closedInSleep
  {
    var acts := PassLog(p, attempt, set_).acts;
    assert acts[0] == PassStarted;
    NoneStarted(acts[1..]);
  }

  lemma {:induction false} NoneStarted(acts: seq<Act>)
    requires forall i :: 0 <= i < |acts| ==> !acts[i].PassStarted?
    ensures PassesStarted(acts) == 0
  {
    if acts != [] { NoneStarted(acts[1..]); }
  }

  lemma {:induction false} ChainEndsWhen(logs: seq<Log>)
    requires forall i :: 0 <= i < |logs| ==> PassesStarted(logs[i].acts) == 1
    ensures var k := PassesStarted(Chain(logs).acts);
            && k <= |logs| && (k == 0 <==> logs == [])
            && (forall i :: 0 <= i && i + 1 < k ==> logs[i].exit == StillRunning)
            && (k < |logs| ==> logs[k - 1].exit != StillRunning)
            && Chain(logs).exit == (if k == 0 then StillRunning else logs[k - 1].exit)
    decreases |logs|
  {
    if logs != [] && logs[0].exit == StillRunning {
      ChainEndsWhen(logs[1..]);
      StartedConcat(logs[0].acts, Chain(logs[1..]).acts);
      var k := PassesStarted(Chain(logs).acts);
      forall i | 0 <= i && i + 1 < k ensures logs[i].exit == StillRunning {
        if i > 0 { assert logs[i] == logs[1..][i - 1]; }
      }
    }
  }

  /** A further pass starts exactly when every pass so far was recoverable and no
      close() fell into it outside the recovery close: an external close ends the
      loop with the pass in progress, the loop's own close never does. */
  lemma RunEndsExactlyWhen(passes: seq<Pass>, set_: Settings)
    ensures var k := PassesStarted(RunLog(passes, set_).acts);
            && k <= |passes| && (k == 0 <==> passes == [])
            && (forall i :: 0 <= i && i + 1 < k ==> GoesOn(passes[i], i) && !passes[i].closedInSleep)
            && (k < |passes| ==> !GoesOn(passes[k - 1], k - 1) || passes[k - 1].closedInSleep)
            && RunLog(passes, set_).exit == (if k == 0 then StillRunning else PassExit(passes[k - 1], k - 1))
  {
    var logs := Logs(passes, set_);
    forall i | 0 <= i < |logs| ensures PassesStarted(logs[i].acts) == 1 { PassStartsOnce(passes[i], i, set_); }
    ChainEndsWhen(logs);
    assert RunLog(passes, set_) == Chain(logs);
    var k := PassesStarted(Chain(logs).acts);
    forall i | 0 <= i && i + 1 < k ensures GoesOn(passes[i], i) && !passes[i].closedInSleep {
      assert logs[i].exit == StillRunning;
      PassStartsOnce(passes[i], i, set_);
    }
    if k > 0 { PassStartsOnce(passes[k - 1], k - 1, set_); }
  }

  /** A close() that latches during open, the session or the sleep of pass `i` is
      the end: no pass after `i` is ever started. */
  lemma CloseStopsTheLoop(passes: seq<Pass>, i: nat, set_: Settings)
    requires i < |passes| && (TornDown(passes[i]) || passes[i].closedInSleep)
    ensures PassesStarted(RunLog(passes, set_).acts) <= i + 1
    ensures RunLog(passes, set_).exit != StillRunning
  {
    RunEndsExactlyWhen(passes, set_);
  }

  /** `attempt` is never reset: with recoverable passes only, the supervisor ends in
      an OverflowError when the 1025th of them is over. */
  lemma ReconnectsAreBounded(passes: seq<Pass>, set_: Settings)
    requires |passes| > 1024
    requires forall i :: 0 <= i < |passes| ==> GoesOn(passes[i], 0) && !passes[i].closedInSleep
    ensures RunLog(passes, set_).exit == RaisedOverflow && PassesStarted(RunLog(passes, set_).acts) == 1025
  {
    RunEndsExactlyWhen(passes, set_);
    var k := PassesStarted(RunLog(passes, set_).acts);
    assert GoesOn(passes[k - 1], 0) && !GoesOn(passes[1024], 1024);
  }

  /* ---- the on_state calls ---- */

  function Calls(acts: seq<Act>): seq<bool>
  {
    if acts == [] then []
    else if acts[0].OnState? then [acts[0].connected] + Calls(acts[1..])
    else Calls(acts[1..])
  }

  lemma {:induction false} CallsConcat(a: seq<Act>, b: seq<Act>)
    ensures Calls(a + b) == Calls(a) + Calls(b)
  {
    if a == [] { assert a + b == b; } else {
      assert (a + b)[0] == a[0] && (a + b)[1..] == a[1..] + b;
      CallsConcat(a[1..], b);
      var x, y := Calls(a[1..]), Calls(b);
      if a[0].OnState? { assert [a[0].connected] + (x + y) == [a[0].connected] + x + y; }
    }
  }

  ghost predicate Alternating(calls: seq<bool>)
  {
    forall i, j :: 0 <= i < |calls| && j == i + 1 && j < |calls| ==> calls[i] != calls[j]
  }

  /** True, False, True, False, ..., False. */
  ghost predicate Paired(calls: seq<bool>)
  {
    Alternating(calls) && (calls != [] ==> calls[0] && !calls[|calls| - 1])
  }

  predicate IsPair(calls: seq<bool>)
  {
    calls == [] || calls == [true, false]
  }

  /** The pass leaves an unmatched True (cancelled while up) or False (rejected
      before it was up). */
  predicate LeavesTrue(p: Pass)
  {
    WentLive(p) && (p.ending.Cancelled? || p.cancelledInRecovery)
  }

  predicate LeavesFalse(p: Pass)
  {
    !WentLive(p) && p.ending.Unauthorised? && !p.cancelledInRecovery
  }

  function PassCalls(p: Pass): seq<bool>
  {
    if LeavesTrue(p) then [true] else if LeavesFalse(p) then [false]
    else if WentLive(p) then [true, false] else []
  }

  lemma CallsOfPass(p: Pass, attempt: nat, set_: Settings)
    ensures Calls(PassLog(p, attempt, set_).acts) == PassCalls(p)
    ensures PassExit(p, attempt) == StillRunning ==> IsPair(PassCalls(p))
    ensures LeavesTrue(p) ==> PassExit(p, attempt) == RaisedCancelled
    ensures LeavesFalse(p) ==> PassExit(p, attempt) == RaisedUnauthorised
  {
    CallsConcat([PassStarted] + Notices(p), Sleep(p, attempt, set_));
    CallsConcat([PassStarted], Notices(p));
    assert Calls(Sleep(p, attempt, set_)) == [] && Calls([PassStarted]) == [];
    CallsConcat(Up(p), [OnState(false)]);
    CallsConcat(Up(p), Down(p));
  }

  lemma PairedConcat(a: seq<bool>, b: seq<bool>)
    requires Paired(a) && Paired(b)
    ensures Paired(a + b)
  {
    var c := a + b;
    forall i, j | 0 <= i < |c| && j == i + 1 && j < |c| ensures c[i] != c[j] {
      assert j < |a| ==> a[i] != a[j];
      assert i >= |a| ==> b[i - |a|] != b[j - |a|];
    }
  }

  /** The calls of the last pass that was started. */
  function LastCalls(logs: seq<Log>): seq<bool>
    decreases |logs|
  {
    if logs == [] then []
    else if logs[0].exit == StillRunning && |logs| > 1 then LastCalls(logs[1..])
    else Calls(logs[0].acts)
  }

  lemma {:induction false} LastCallsAre(logs: seq<Log>)
    requires logs != [] && forall i :: 0 <= i < |logs| ==> PassesStarted(logs[i].acts) == 1
    ensures 1 <= PassesStarted(Chain(logs).acts) <= |logs|
    ensures LastCalls(logs) == Calls(logs[PassesStarted(Chain(logs).acts) - 1].acts)
    decreases |logs|
  {
    ChainEndsWhen(logs);
    if logs[0].exit == StillRunning && |logs| > 1 {
      LastCallsAre(logs[1..]);
      StartedConcat(logs[0].acts, Chain(logs[1..]).acts);
    }
  }

  /** All passes but the last contribute matched pairs. */
  lemma {:induction false} ChainCalls(logs: seq<Log>) returns (pairs: seq<bool>)
    requires forall i :: 0 <= i < |logs| && logs[i].exit == StillRunning ==> IsPair(Calls(logs[i].acts))
    ensures Paired(pairs) && Calls(Chain(logs).acts) == pairs + LastCalls(logs)
    decreases |logs|
  {
    pairs := [];
    if logs != [] && logs[0].exit == StillRunning {
      var first, rest := Calls(logs[0].acts), Chain(logs[1..]);
      CallsConcat(logs[0].acts, rest.acts);
      if |logs| > 1 {
        var more := ChainCalls(logs[1..]);
        PairedConcat(first, more);
        pairs := first + more;
        assert first + (more + LastCalls(logs[1..])) == pairs + LastCalls(logs[1..]);
      } else {
        assert rest.acts == [] && first + [] == [] + first;
      }
    } else if logs != [] {
      assert [] + Calls(logs[0].acts) == Calls(logs[0].acts);
    }
  }

  lemma CallsOfChain(logs: seq<Log>)
    requires forall i :: 0 <= i < |logs| && logs[i].exit == StillRunning ==> IsPair(Calls(logs[i].acts))
    ensures var calls, last := Calls(Chain(logs).acts), LastCalls(logs);
            && (|last| == 1 ==> |calls| > 0 && Paired(calls[..|calls| - 1]) && calls[|calls| - 1] == last[0])
            && (IsPair(last) ==> Paired(calls))
  {
    var pairs := ChainCalls(logs);
    PairsAndLast(pairs, LastCalls(logs));
  }

  /** Every on_state(True) is followed by a False before the next True. Unmatched are
      only a final True, when the run was cancelled in a live session, and a final
      False, when the credentials were rejected before the session came up. */
  lemma CallsArePaired(passes: seq<Pass>, set_: Settings)
    ensures var calls, k := Calls(RunLog(passes, set_).acts), PassesStarted(RunLog(passes, set_).acts);
            && k <= |passes|
            && if k > 0 && (LeavesTrue(passes[k - 1]) || LeavesFalse(passes[k - 1])) then
                 && |calls| > 0 && Paired(calls[..|calls| - 1])
                 && calls[|calls| - 1] == LeavesTrue(passes[k - 1])
                 && RunLog(passes, set_).exit ==
                      (if LeavesTrue(passes[k - 1]) then RaisedCancelled else RaisedUnauthorised)
               else Paired(calls)
  {
    LogsFit(passes, set_);
    CallsOfChain(Logs(passes, set_));
    if passes != [] {
      LastPassOfRun(passes, set_);
    }
  }

  lemma LastPassOfRun(passes: seq<Pass>, set_: Settings)
    requires passes != []
    ensures var k := PassesStarted(RunLog(passes, set_).acts);
            && 1 <= k <= |passes| && LastCalls(Logs(passes, set_)) == PassCalls(passes[k - 1])
            && (LeavesTrue(passes[k - 1]) ==> RunLog(passes, set_).exit == RaisedCancelled)
            && (LeavesFalse(passes[k - 1]) ==> RunLog(passes, set_).exit == RaisedUnauthorised)
  {
    var logs := Logs(passes, set_);
    LogsFit(passes, set_);
    LastCallsAre(logs);
    ChainEndsWhen(logs);
    var k := PassesStarted(Chain(logs).acts);
    CallsOfPass(passes[k - 1], k - 1, set_);
  }

  lemma LogsFit(passes: seq<Pass>, set_: Settings)
    ensures forall i :: 0 <= i < |passes| ==> PassesStarted(Logs(passes, set_)[i].acts) == 1
    ensures forall i :: 0 <= i < |passes| && Logs(passes, set_)[i].exit == StillRunning ==>
              IsPair(Calls(Logs(passes, set_)[i].acts))
  {
    forall i | 0 <= i < |passes|
      ensures PassesStarted(Logs(passes, set_)[i].acts) == 1
      ensures Logs(passes, set_)[i].exit == StillRunning ==> IsPair(Calls(Logs(passes, set_)[i].acts))
    {
      PassStartsOnce(passes[i], i, set_);
      CallsOfPass(passes[i], i, set_);
    }
  }

  lemma PairsAndLast(pairs: seq<bool>, last: seq<bool>)
    requires Paired(pairs)
    ensures |last| == 1 ==>
              && |pairs + last| > 0 && (pairs + last)[..|pairs + last| - 1] == pairs
              && (pairs + last)[|pairs + last| - 1] == last[0]
    ensures IsPair(last) ==> Paired(pairs + last)
  {
    if |last| == 1 {
      assert (pairs + last)[..|pairs|] == pairs;
    } else if IsPair(last) {
      PairedConcat(pairs, last);
    }
  }

  /** The calls one pass makes: True when the socket is open and the session gets
      authenticated, False behind it unless the pass is cancelled before, and False
      without a True only on rejected credentials. */
  function CallsDue(p: Pass): seq<bool>
  {
    var cancelled := p.ending == Cancelled || p.cancelledInRecovery;
    if p.connects && p.authenticates then (if cancelled then [true] else [true, false])
    else if p.ending == Unauthorised && !cancelled then [false]
    else []
  }

  function AllCallsDue(passes: seq<Pass>): seq<bool>
  {
    if passes == [] then [] else CallsDue(passes[0]) + AllCallsDue(passes[1..])
  }

  function CallsOfAll(logs: seq<Log>): seq<bool>
  {
    if logs == [] then [] else Calls(logs[0].acts) + CallsOfAll(logs[1..])
  }

  lemma {:induction false} ChainCallsAll(logs: seq<Log>)
    requires forall i :: 0 <= i < |logs| ==> PassesStarted(logs[i].acts) == 1
    ensures PassesStarted(Chain(logs).acts) <= |logs|
    ensures Calls(Chain(logs).acts) == CallsOfAll(logs[..PassesStarted(Chain(logs).acts)])
    decreases |logs|
  {
    ChainEndsWhen(logs);
    var k := PassesStarted(Chain(logs).acts);
    if logs == [] {
      assert logs[..k] == [];
    } else {
      assert logs[..k][1..] == logs[1..k];
      if logs[0].exit == StillRunning {
        ChainCallsAll(logs[1..]);
        var rest := Chain(logs[1..]);
        StartedConcat(logs[0].acts, rest.acts);
        CallsConcat(logs[0].acts, rest.acts);
        assert logs[1..][..k - 1] == logs[1..k];
      } else {
        assert logs[1..k] == [];
        assert Calls(logs[0].acts) + [] == Calls(logs[0].acts);
      }
    }
  }

  lemma {:induction false} AllDue(passes: seq<Pass>, logs: seq<Log>)
    requires |logs| == |passes| && forall i :: 0 <= i < |logs| ==> Calls(logs[i].acts) == CallsDue(passes[i])
    ensures CallsOfAll(logs) == AllCallsDue(passes)
  {
    if logs != [] {
      forall i | 0 <= i < |logs| - 1 ensures Calls(logs[1..][i].acts) == CallsDue(passes[1..][i]) {
        assert logs[1..][i] == logs[i + 1] && passes[1..][i] == passes[i + 1];
      }
      AllDue(passes[1..], logs[1..]);
    }
  }

  /** The run makes exactly the calls that are due for the passes it started. */
  lemma RunMakesCallsDue(passes: seq<Pass>, set_: Settings)
    ensures var k := PassesStarted(RunLog(passes, set_).acts);
            k <= |passes| && Calls(RunLog(passes, set_).acts) == AllCallsDue(passes[..k])
  {
    var logs := Logs(passes, set_);
    LogsFit(passes, set_);
    ChainCallsAll(logs);
    var k := PassesStarted(Chain(logs).acts);
    forall i | 0 <= i < k ensures Calls(logs[..k][i].acts) == CallsDue(passes[..k][i]) {
      CallsOfPass(passes[i], i, set_);
    }
    AllDue(passes[..k], logs[..k]);
  }

  /** How a pass ends the loop, or not: cancellation before everything else, then
      rejected credentials, an external close, a fatal error, the overflow, and last
      what happens during the sleep. */
  lemma PassEndsAs(p: Pass, attempt: nat)
    ensures var cancelled, closed := p.ending == Cancelled || p.cancelledInRecovery,
                                     p.closedInOpen || (p.connects && p.closedInSession);
            var retried := !cancelled && p.ending != Unauthorised && !closed && p.ending != Fatal;
            var e := PassExit(p, attempt);
            && (e == RaisedUnauthorised <==> !cancelled && p.ending == Unauthorised)
            && (e == RaisedFatal <==> !cancelled && p.ending == Fatal && !closed)
            && (e == RaisedOverflow <==> retried && attempt > 1023)
            && (e == RaisedCancelled <==> cancelled || (retried && attempt <= 1023 && p.cancelledInSleep))
            && (e == StillRunning <==> retried && attempt <= 1023 && !p.cancelledInSleep && !p.closedInSleep)
            && (e == Finished <==>
                  || (!cancelled && p.ending != Unauthorised && closed)
                  || (retried && attempt <= 1023 && !p.cancelledInSleep && p.closedInSleep))
  {
  }

  /* ---- the coordinator's flip filter ---- */

  function Flips(connected: bool, calls: seq<bool>): seq<bool>
    decreases |calls|
  {
    if calls == [] then []
    else if calls[0] == connected then Flips(connected, calls[1..])
    else [calls[0]] + Flips(calls[0], calls[1..])
  }

  class Coordinator {
    var connected: bool
    var dispatched: seq<bool>

    constructor ()
      ensures !connected && dispatched == []
    {
      connected, dispatched := false, [];
    }

    method SetConnectedState(now: bool)
      modifies this
      ensures connected == now && dispatched == old(dispatched) + Flips(old(connected), [now])
    {
      if connected == now { return; }
      connected := now;
      dispatched := dispatched + [now];
    }

    /** The calls of a whole run, one after the other. */
    method Receive(calls: seq<bool>)
      modifies this
      ensures dispatched == old(dispatched) + Flips(old(connected), calls)
    {
      ghost var all := Flips(connected, calls);
      ghost var start := dispatched;
      for i := 0 to |calls|
        invariant start + all == dispatched + Flips(connected, calls[i..])
      {
        assert calls[i..][1..] == calls[i + 1..];
        ghost var before, was := dispatched, connected;
        SetConnectedState(calls[i]);
        assert dispatched == before + (if calls[i] == was then [] else [calls[i]]);
      }
      assert dispatched + [] == dispatched;
    }
  }

  /** Whatever is called, the dispatched signals strictly alternate, the first one
      being a change. */
  lemma {:induction false} FlipsAlternate(connected: bool, calls: seq<bool>)
    ensures var f := Flips(connected, calls);
            Alternating(f) && (f != [] ==> f[0] != connected)
    decreases |calls|
  {
    if calls != [] {
      FlipsAlternate(calls[0], calls[1..]);
      if calls[0] == connected { FlipsAlternate(connected, calls[1..]); }
    }
  }

  /** Calls that alternate pass the filter unchanged. */
  lemma {:induction false} AlternatingPasses(connected: bool, calls: seq<bool>, more: seq<bool>)
    requires Alternating(calls) && (calls != [] ==> calls[0] != connected)
    ensures Flips(connected, calls + more) == calls + Flips(if calls == [] then connected else calls[|calls| - 1], more)
    decreases |calls|
  {
    if calls == [] { assert calls + more == more; } else {
      var tail := calls[1..];
      AlternatingTail(calls);
      AlternatingPasses(calls[0], tail, more);
      assert (calls + more)[0] == calls[0] && (calls + more)[1..] == tail + more;
      var end := if tail == [] then calls[0] else tail[|tail| - 1];
      FirstAndRest(calls, Flips(end, more));
    }
  }

  lemma AlternatingTail(calls: seq<bool>)
    requires calls != [] && Alternating(calls)
    ensures Alternating(calls[1..]) && (|calls| > 1 ==> calls[1] != calls[0])
  {
    var tail := calls[1..];
    forall i, j | 0 <= i < |tail| && j == i + 1 && j < |tail| ensures tail[i] != tail[j] {
      assert calls[i + 1] != calls[j + 1];
    }
  }

  lemma FirstAndRest<T>(s: seq<T>, more: seq<T>)
    requires s != []
    ensures [s[0]] + (s[1..] + more) == s + more
  {
  }

  /** Composed with the supervisor: every call is dispatched as it is, except the
      final False of credentials rejected before the session came up. */
  lemma RunIsDispatched(passes: seq<Pass>, set_: Settings)
    ensures var log := RunLog(passes, set_);
            var calls, k := Calls(log.acts), PassesStarted(log.acts);
            && k <= |passes|
            && (k > 0 && LeavesFalse(passes[k - 1]) ==> calls != [])
            && Flips(false, calls) == if k > 0 && LeavesFalse(passes[k - 1]) then calls[..|calls| - 1] else calls
  {
    var log := RunLog(passes, set_);
    var calls, k := Calls(log.acts), PassesStarted(log.acts);
    CallsArePaired(passes, set_);
    if k > 0 && (LeavesTrue(passes[k - 1]) || LeavesFalse(passes[k - 1])) {
      LastCallDispatched(calls);
    } else {
      PairsDispatched(calls, []);
      assert calls + [] == calls;
    }
  }

  lemma PairsDispatched(pairs: seq<bool>, more: seq<bool>)
    requires Paired(pairs)
    ensures Flips(false, pairs + more) == pairs + Flips(false, more)
  {
    AlternatingPasses(false, pairs, more);
  }

  lemma LastCallDispatched(calls: seq<bool>)
    requires calls != [] && Paired(calls[..|calls| - 1])
    ensures Flips(false, calls) == if calls[|calls| - 1] then calls else calls[..|calls| - 1]
  {
    var init, last := calls[..|calls| - 1], calls[|calls| - 1];
    assert calls == init + [last];
    PairsDispatched(init, [last]);
    assert Flips(false, [last]) == if last then [true] else [];
    assert init + [] == init;
  }

  /* ---- the time slept ---- */

  function TotalSlept(acts: seq<Act>): real
  {
    if acts == [] then 0.0
    else (if acts[0].Slept? then Jittered(acts[0].nominal, acts[0].jitter) else 0.0) + TotalSlept(acts[1..])
  }

  function Sleeps(acts: seq<Act>): nat
  {
    if acts == [] then 0 else (if acts[0].Slept? then 1 else 0) + Sleeps(acts[1..])
  }

  lemma {:induction false} SleptConcat(a: seq<Act>, b: seq<Act>)
    ensures TotalSlept(a + b) == TotalSlept(a) + TotalSlept(b) && Sleeps(a + b) == Sleeps(a) + Sleeps(b)
  {
    if a == [] { assert a + b == b; } else {
      assert (a + b)[1..] == a[1..] + b;
      SleptConcat(a[1..], b);
    }
  }

  lemma SleptInPass(p: Pass, attempt: nat, set_: Settings)
    ensures var acts := PassLog(p, attempt, set_).acts;
            if GoesOn(p, attempt) then
              && Sleeps(acts) == 1
              && TotalSlept(acts) == Jittered(Backoff(attempt, set_.base, set_.maximum).value, p.jitter)
            else Sleeps(acts) == 0 && TotalSlept(acts) == 0.0
  {
    SleptConcat([PassStarted] + Notices(p), Sleep(p, attempt, set_));
    NoSleep([PassStarted] + Notices(p));
    if GoesOn(p, attempt) {
      var one := Sleep(p, attempt, set_);
      assert one[1..] == [] && TotalSlept(one) == Jittered(one[0].nominal, one[0].jitter) + 0.0;
    }
  }

  lemma {:induction false} NoSleep(acts: seq<Act>)
    requires forall i :: 0 <= i < |acts| ==> !acts[i].Slept?
    ensures Sleeps(acts) == 0 && TotalSlept(acts) == 0.0
  {
    if acts != [] { NoSleep(acts[1..]); }
  }

  /** One pass slept once, between half and all of the `n`-th delay, or ended the loop. */
  ghost predicate SleptOnce(log: Log, n: nat)
  {
    if Sleeps(log.acts) == 1 then
      && n < 1024
      && var b := Backoff(n, RECONNECT_BASE_DELAY, RECONNECT_MAX_DELAY).value;
         b <= 2.0 * TotalSlept(log.acts) && TotalSlept(log.acts) <= b
    else Sleeps(log.acts) == 0 && TotalSlept(log.acts) == 0.0 && log.exit != StillRunning
  }

  lemma {:induction false} ChainSleeps(logs: seq<Log>, n: nat)
    requires n <= 1024 && forall i :: 0 <= i < |logs| ==> SleptOnce(logs[i], n + i)
    ensures var k, slept := Sleeps(Chain(logs).acts), TotalSlept(Chain(logs).acts);
            && n + k <= 1024
            && NominalSum(n + k) - NominalSum(n) <= 2.0 * slept && slept <= NominalSum(n + k) - NominalSum(n)
    decreases |logs|
  {
    if logs != [] {
      assert SleptOnce(logs[0], n + 0);
      if logs[0].exit == StillRunning {
        forall i | 0 <= i < |logs| - 1 ensures SleptOnce(logs[1..][i], n + 1 + i) {
          assert SleptOnce(logs[i + 1], n + (i + 1));
        }
        ChainSleeps(logs[1..], n + 1);
        assert NominalSum(n + 1) == NominalSum(n) + Backoff(n, RECONNECT_BASE_DELAY, RECONNECT_MAX_DELAY).value;
        SleptConcat(logs[0].acts, Chain(logs[1..]).acts);
      }
    }
  }

  lemma PassSleepsOnce(p: Pass, n: nat)
    requires 0.5 <= p.jitter <= 1.0
    ensures SleptOnce(PassLog(p, n, DEFAULTS), n)
  {
    SleptInPass(p, n, DEFAULTS);
    PassStartsOnce(p, n, DEFAULTS);
    if GoesOn(p, n) {
      var b := Backoff(n, RECONNECT_BASE_DELAY, RECONNECT_MAX_DELAY).value;
      RawDelayGrows(RECONNECT_BASE_DELAY, n, n);
      JitterBounds(b, p.jitter);
    }
  }

  /** With default settings the supervisor has slept between half and all of the
      nominal delays of the k passes it slept after, whatever the sessions did. */
  lemma SleptWithinBounds(passes: seq<Pass>)
    requires forall i :: 0 <= i < |passes| ==> 0.5 <= passes[i].jitter <= 1.0
    ensures var k, slept := Sleeps(RunLog(passes, DEFAULTS).acts), TotalSlept(RunLog(passes, DEFAULTS).acts);
            var nominal := if k <= 9 then (Pow2(k) - 1) as real else 511.0 + 300.0 * (k - 9) as real;
            k <= 1024 && nominal <= 2.0 * slept && slept <= nominal
  {
    var logs := Logs(passes, DEFAULTS);
    forall i | 0 <= i < |logs| ensures SleptOnce(logs[i], 0 + i) {
      PassSleepsOnce(passes[i], i);
    }
    ChainSleeps(logs, 0);
    NominalSumClosedForm(Sleeps(RunLog(passes, DEFAULTS).acts));
  }
}
