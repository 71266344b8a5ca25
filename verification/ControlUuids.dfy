/** The uuids of a set of controls (`_control_uuids`, `_controls` and `_strings` in
    custom_components/loxone/pyloxone_api/__main__.py): an explicit worklist against
    the recursive definition. */
module ControlUuids {
  import opened Wire

  /** A JSON value as far as `_strings` looks into it. */
  datatype Json = Str(text: string) | List(items: seq<Json>) | Other

  /** A control; `Scalar` is any entry that is not a dict. Dicts are read in order. */
  datatype Control =
    | Scalar
    | Node(action: Json, states: seq<Json>, subControls: seq<Entry>)

  datatype Entry = Entry(uuid: string, control: Control)

  datatype Structure = Structure(autopilot: map<string, Control>, controls: map<string, Control>)

  /** A control in the `controls` section hides one of the same uuid in `autopilot`. */
  function Controls(s: Structure): map<string, Control>
  {
    s.autopilot + s.controls
  }

  /** The non-empty strings of a value that is a string or a list. */
  function Strings(v: Json): set<string>
  {
    match v
    case Str(t) => if t == "" then {} else {t}
    case List(items) => set i | 0 <= i < |items| && items[i].Str? && items[i].text != "" :: items[i].text
    case Other => {}
  }

  function StateStrings(states: seq<Json>): set<string>
  {
    if states == [] then {} else Strings(states[0]) + StateStrings(states[1..])
  }

  /* ---- the recursive definition ---- */

  /** Own uuid, action, states and everything below. */
  function Closure(e: Entry): set<string>
    decreases e, 0
  {
    match e.control
    case Scalar => {e.uuid}
    case Node(action, states, subs) => {e.uuid} + Strings(action) + StateStrings(states) + ClosureAll(subs)
  }

  function ClosureAll(es: seq<Entry>): set<string>
    decreases es, 1
  {
    if es == [] then {} else Closure(es[0]) + ClosureAll(es[1..])
  }

  /** What an entry contributes by itself. */
  function Own(e: Entry): set<string>
  {
    match e.control
    case Scalar => {e.uuid}
    case Node(action, states, _) => {e.uuid} + Strings(action) + StateStrings(states)
  }

  function Subs(e: Entry): seq<Entry>
  {
    match e.control
    case Scalar => []
    case Node(_, _, subs) => subs
  }

  /** The number of controls of a tree: what the worklist still has to pop. */
  function Size(e: Entry): nat
    decreases e, 0
  {
    match e.control
    case Scalar => 1
    case Node(_, _, subs) => 1 + SizeAll(subs)
  }

  function SizeAll(es: seq<Entry>): nat
    decreases es, 1
  {
    if es == [] then 0 else Size(es[0]) + SizeAll(es[1..])
  }

  lemma Splits(e: Entry)
    ensures Closure(e) == Own(e) + ClosureAll(Subs(e))
    ensures Size(e) == 1 + SizeAll(Subs(e))
  {
  }

  lemma {:induction false} AllConcat(a: seq<Entry>, b: seq<Entry>)
    ensures ClosureAll(a + b) == ClosureAll(a) + ClosureAll(b)
    ensures SizeAll(a + b) == SizeAll(a) + SizeAll(b)
    decreases |a|
  {
    if a == [] { assert a + b == b; } else {
      assert (a + b)[1..] == a[1..] + b;
      AllConcat(a[1..], b);
    }
  }

  /* ---- the worklist ---- */

  /** Popping any entry `i`: its own uuids are found, its sub-controls are pushed. */
  function Popped(pending: seq<Entry>, i: nat): seq<Entry>
    requires i < |pending|
  {
    pending[..i] + pending[i + 1..] + Subs(pending[i])
  }

  /** One pop keeps the sum of what is found and what is pending, and shrinks the rest. */
  lemma PopKeepsClosure(pending: seq<Entry>, found: set<string>, i: nat)
    requires i < |pending|
    ensures (found + Own(pending[i])) + ClosureAll(Popped(pending, i)) == found + ClosureAll(pending)
    ensures SizeAll(Popped(pending, i)) < SizeAll(pending)
  {
    var e, before, after := pending[i], pending[..i], pending[i + 1..];
    AllAround(pending, i);
    AllConcat(before, after);
    AllConcat(before + after, Subs(e));
    Splits(e);
    UnionOrder(found, Own(e), ClosureAll(before), ClosureAll(after), ClosureAll(Subs(e)));
  }

  lemma AllAround(es: seq<Entry>, i: nat)
    requires i < |es|
    ensures ClosureAll(es) == ClosureAll(es[..i]) + (Closure(es[i]) + ClosureAll(es[i + 1..]))
    ensures SizeAll(es) == SizeAll(es[..i]) + Size(es[i]) + SizeAll(es[i + 1..])
  {
    var e, after := es[i], es[i + 1..];
    AllConcat(es[..i], [e] + after);
    AllConcat([e], after);
    AllOfOne(e);
    Around(es, i);
  }

  lemma Around<T>(es: seq<T>, i: nat)
    requires i < |es|
    ensures es[..i] + ([es[i]] + es[i + 1..]) == es
  {
  }

  lemma AllOfOne(e: Entry)
    ensures ClosureAll([e]) == Closure(e) && SizeAll([e]) == Size(e)
  {
    assert [e][1..] == [];
  }

  lemma UnionOrder(f: set<string>, o: set<string>, b: set<string>, a: set<string>, s: set<string>)
    ensures (f + o) + (b + a + s) == f + (b + (o + s + a))
  {
  }

  /** The worklist when the entry to pop is chosen by `picks`. */
  function Work(pending: seq<Entry>, found: set<string>, picks: seq<nat>): (seq<Entry>, set<string>)
    decreases |picks|
  {
    if pending == [] || picks == [] then (pending, found)
    else
      var i := picks[0] % |pending|;
      Work(Popped(pending, i), found + Own(pending[i]), picks[1..])
  }

  /** Whatever order the entries are popped in, the worklist is empty after one pop
      per control and has then found exactly the recursive closure. */
  lemma {:induction false} AnyOrderFindsTheClosure(pending: seq<Entry>, found: set<string>, picks: seq<nat>)
    ensures var (rest, all) := Work(pending, found, picks);
            && all + ClosureAll(rest) == found + ClosureAll(pending)
            && (|picks| >= SizeAll(pending) ==> rest == [] && all == found + ClosureAll(pending))
    decreases |picks|
  {
    if pending != [] && picks != [] {
      var i := picks[0] % |pending|;
      PopKeepsClosure(pending, found, i);
      AnyOrderFindsTheClosure(Popped(pending, i), found + Own(pending[i]), picks[1..]);
    } else if pending != [] {
      Splits(pending[0]);
    }
  }

  function RootEntries(controls: map<string, Control>, roots: seq<string>): seq<Entry>
    requires forall r :: r in roots ==> r in controls
  {
    seq(|roots|, i requires 0 <= i < |roots| => Entry(roots[i], controls[roots[i]]))
  }

  /** The loop that fills the worklist; the error names the first root that is no control. */
  method CollectRoots(controls: map<string, Control>, roots: seq<string>) returns (r: Result<seq<Entry>, string>)
    ensures r.Ok? <==> forall root :: root in roots ==> root in controls
    ensures r.Ok? ==> r.value == RootEntries(controls, roots)
    ensures r.Err? ==> exists i :: 0 <= i < |roots| && roots[i] == r.error && r.error !in controls
                        && forall j :: 0 <= j < i ==> roots[j] in controls
  {
    var pending: seq<Entry> := [];
    for i := 0 to |roots|
      invariant forall j :: 0 <= j < i ==> roots[j] in controls
      invariant |pending| == i && forall j :: 0 <= j < i ==> pending[j] == Entry(roots[j], controls[roots[j]])
    {
      if roots[i] !in controls { return Err(roots[i]); }
      pending := pending + [Entry(roots[i], controls[roots[i]])];
    }
    return Ok(pending);
  }

  /** The worklist loop: `pop()` takes the last entry. */
  method DrainWorklist(roots: seq<Entry>) returns (found: set<string>)
    ensures found == ClosureAll(roots)
  {
    found := {};
    var pending := roots;
    while |pending| > 0
      invariant found + ClosureAll(pending) == ClosureAll(roots)
      decreases SizeAll(pending)
    {
      var n := |pending| - 1;
      var e := pending[n];
      PopKeepsClosure(pending, found, n);
      assert Popped(pending, n) == pending[..n] + Subs(e);
      assert pending[..n] + [] == pending[..n];
      pending := pending[..n];
      found := found + {e.uuid};
      if e.control.Node? {
        found := found + Strings(e.control.action);
        found := AddStates(found, e.control.states);
        pending := pending + e.control.subControls;
      }
    }
  }

  /** `_control_uuids`. */
  method FindControlUuids(structure: Structure, roots: seq<string>) returns (r: Result<set<string>, string>)
    ensures r.Ok? <==> forall root :: root in roots ==> root in Controls(structure)
    ensures r.Ok? ==> r.value == ClosureAll(RootEntries(Controls(structure), roots))
    ensures r.Err? ==> r.error in roots && r.error !in Controls(structure)
  {
    var pending := CollectRoots(Controls(structure), roots);
    if pending.Err? { return Err(pending.error); }
    var found := DrainWorklist(pending.value);
    return Ok(found);
  }

  /** The inner loop over the state values. */
  method AddStates(found: set<string>, states: seq<Json>) returns (r: set<string>)
    ensures r == found + StateStrings(states)
  {
    r := found;
    for i := 0 to |states|
      invariant r + StateStrings(states[i..]) == found + StateStrings(states)
    {
      assert states[i..][1..] == states[i + 1..];
      r := r + Strings(states[i]);
    }
  }

  /* ---- what is in the closure ---- */

  /** A control below another one, by the positions to descend to. */
  predicate At(e: Entry, path: seq<nat>, target: Entry)
    decreases |path|
  {
    if path == [] then e == target
    else
      && e.control.Node? && path[0] < |e.control.subControls|
      && At(e.control.subControls[path[0]], path[1..], target)
  }

  /** The value is that string, or a list that has it; the empty string is no name. */
  predicate Names(v: Json, u: string)
  {
    u != "" && (v == Str(u) || (v.List? && Str(u) in v.items))
  }

  /** The control has that uuid, or names it as its action or one of its states. */
  predicate Contributes(e: Entry, u: string)
  {
    u == e.uuid
    || (e.control.Node? && (Names(e.control.action, u)
                            || exists i :: 0 <= i < |e.control.states| && Names(e.control.states[i], u)))
  }

  lemma StringsAreNames(v: Json, u: string)
    ensures u in Strings(v) <==> Names(v, u)
  {
    if v.List? && Str(u) in v.items {
      var i :| 0 <= i < |v.items| && v.items[i] == Str(u);
      assert u != "" ==> v.items[i].Str? && v.items[i].text != "" && v.items[i].text == u;
    }
  }

  lemma {:induction false} StateStringsAreNames(states: seq<Json>, u: string)
    ensures u in StateStrings(states) <==> exists i :: 0 <= i < |states| && Names(states[i], u)
  {
    if states != [] {
      StringsAreNames(states[0], u);
      StateStringsAreNames(states[1..], u);
      if u in StateStrings(states[1..]) {
        var i :| 0 <= i < |states[1..]| && Names(states[1..][i], u);
        assert Names(states[i + 1], u);
      }
      if i :| 0 <= i < |states| && Names(states[i], u) {
        if i > 0 { assert states[i] == states[1..][i - 1]; }
      }
    }
  }

  lemma OwnIsContributed(e: Entry, u: string)
    ensures u in Own(e) <==> Contributes(e, u)
  {
    if e.control.Node? {
      StringsAreNames(e.control.action, u);
      StateStringsAreNames(e.control.states, u);
    }
  }

  lemma {:induction false} InAll(es: seq<Entry>, u: string)
    ensures u in ClosureAll(es) <==> exists i :: 0 <= i < |es| && u in Closure(es[i])
    decreases |es|
  {
    if es != [] {
      InAll(es[1..], u);
      if u in ClosureAll(es[1..]) {
        var i :| 0 <= i < |es[1..]| && u in Closure(es[1..][i]);
        assert u in Closure(es[i + 1]);
      }
      if i :| 0 <= i < |es| && u in Closure(es[i]) {
        if i > 0 { assert es[i] == es[1..][i - 1]; }
      }
    }
  }

  lemma {:induction false} BelowIsFound(e: Entry, path: seq<nat>, target: Entry, u: string)
    requires At(e, path, target) && u in Own(target)
    ensures u in Closure(e)
    decreases |path|
  {
    Splits(e);
    if path != [] {
      assert Subs(e) == e.control.subControls;
      BelowIsFound(Subs(e)[path[0]], path[1..], target, u);
      InAll(Subs(e), u);
    }
  }

  lemma {:induction false} FoundIsBelow(e: Entry, u: string) returns (path: seq<nat>, target: Entry)
    requires u in Closure(e)
    ensures At(e, path, target) && u in Own(target)
    decreases e
  {
    Splits(e);
    if u in Own(e) {
      return [], e;
    }
    InAll(Subs(e), u);
    var i: nat :| i < |Subs(e)| && u in Closure(Subs(e)[i]);
    assert e.control.subControls[i] == Subs(e)[i];
    var rest, t := FoundIsBelow(Subs(e)[i], u);
    assert ([i] + rest)[1..] == rest;
    return [i] + rest, t;
  }

  ghost predicate ContributedBelow(e: Entry, u: string)
  {
    exists path: seq<nat>, target: Entry :: At(e, path, target) && Contributes(target, u)
  }

  /** The root as it is looked up: in `controls`, and only if it is not there in
      `autopilot`. */
  function RootOf(s: Structure, root: string): Option<Entry>
  {
    if root in s.controls then Some(Entry(root, s.controls[root]))
    else if root in s.autopilot then Some(Entry(root, s.autopilot[root]))
    else None
  }

  /** What `_control_uuids` finds: a uuid exactly when some control at or below one of
      the roots contributes it, every root being known. */
  lemma FoundIff(s: Structure, roots: seq<string>, u: string)
    requires forall r :: r in roots ==> r in Controls(s)
    ensures forall r :: r in roots ==> RootOf(s, r).Some?
    ensures u in ClosureAll(RootEntries(Controls(s), roots)) <==>
              exists i :: 0 <= i < |roots| && ContributedBelow(RootOf(s, roots[i]).value, u)
  {
    var es := RootEntries(Controls(s), roots);
    InAll(es, u);
    forall i | 0 <= i < |roots| ensures RootOf(s, roots[i]) == Some(es[i]) { }
    forall i | 0 <= i < |roots| ensures u in Closure(es[i]) <==> ContributedBelow(es[i], u) {
      ClosureIsReachable(es[i], u);
    }
  }

  /** A root is known exactly when it is in one of the two sections. */
  lemma KnownIff(s: Structure, root: string)
    ensures root in Controls(s) <==> RootOf(s, root).Some?
  {
  }

  /** A uuid is found exactly when some control at or below the root contributes it. */
  lemma ClosureIsReachable(e: Entry, u: string)
    ensures u in Closure(e) <==> ContributedBelow(e, u)
  {
    if u in Closure(e) {
      var path, target := FoundIsBelow(e, u);
      OwnIsContributed(target, u);
    }
    if ContributedBelow(e, u) {
      var path: seq<nat>, target: Entry :| At(e, path, target) && Contributes(target, u);
      OwnIsContributed(target, u);
      BelowIsFound(e, path, target, u);
    }
  }
}
