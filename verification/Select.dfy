/** The option list of a Radio block (`_dedupe_label`, `build_option_maps` and
    `LoxoneSelect` in custom_components/loxone/select.py). */
module Select {
  import opened Wire

  const ALL_OFF_VALUE := 0
  const ALL_OFF_DEFAULT_LABEL := "All off"

  /* ---- numbered labels ---- */

  function Digit(d: nat): char
    requires d < 10
  {
    (48 + d) as char
  }

  function Decimal(n: nat): (s: string)
    ensures |s| > 0
  {
    if n < 10 then [Digit(n)] else Decimal(n / 10) + [Digit(n % 10)]
  }

  lemma {:induction false} DecimalInjective(m: nat, n: nat)
    requires Decimal(m) == Decimal(n)
    ensures m == n
    decreases m
  {
    var s, t := Decimal(m), Decimal(n);
    assert s[|s| - 1] == Digit(m % 10) && t[|t| - 1] == Digit(n % 10);
    assert (s[|s| - 1] as int) - 48 == m % 10 && (t[|t| - 1] as int) - 48 == n % 10;
    if m >= 10 {
      assert |s| >= 2;
      assert s[..|s| - 1] == Decimal(m / 10) && t[..|t| - 1] == Decimal(n / 10);
      DecimalInjective(m / 10, n / 10);
    } else {
      assert |t| == 1;
    }
  }

  /** The n-th candidate: the label itself, then "label (2)", "label (3)", ... */
  function Candidate(stem: string, n: nat): string
  {
    if n <= 1 then stem else stem + " (" + Decimal(n) + ")"
  }

  lemma CandidateInjective(stem: string, m: nat, n: nat)
    requires m >= 1 && n >= 1 && Candidate(stem, m) == Candidate(stem, n)
    ensures m == n
  {
    var c, d := Candidate(stem, m), Candidate(stem, n);
    if m > 1 && n > 1 {
      var k := |stem| + 2;
      assert c[k..|c| - 1] == Decimal(m) && d[k..|d| - 1] == Decimal(n);
      DecimalInjective(m, n);
    } else {
      assert |c| > |stem| <==> m > 1;
      assert |d| > |stem| <==> n > 1;
    }
  }

  /** `chosen` is the first candidate that is not in use. */
  ghost predicate FirstFree(stem: string, used: set<string>, chosen: string)
  {
    exists n: nat :: IsFirstFree(stem, used, chosen, n)
  }

  ghost predicate IsFirstFree(stem: string, used: set<string>, chosen: string, n: nat)
  {
    && n >= 1 && chosen == Candidate(stem, n) && chosen !in used
    && forall m: nat :: 1 <= m < n ==> Candidate(stem, m) in used
  }

  lemma FirstFreeUnique(stem: string, used: set<string>, a: string, b: string)
    requires FirstFree(stem, used, a) && FirstFree(stem, used, b)
    ensures a == b
  {
    var m: nat :| IsFirstFree(stem, used, a, m);
    var n: nat :| IsFirstFree(stem, used, b, n);
    assert m < n ==> Candidate(stem, m) in used;
    assert n < m ==> Candidate(stem, n) in used;
  }

  lemma SubsetSize(a: set<string>, b: set<string>)
    requires a <= b
    ensures |a| <= |b|
  {
    assert b == a + (b - a);
  }

  /* ---- the maps ---- */

  /** One entry of the list, before de-duplication: its number and its name. */
  datatype Entry = Entry(number: int, name: string)

  function AllOffName(name: string): string
  {
    if name == "" then ALL_OFF_DEFAULT_LABEL else name
  }

  /** The entries in list order: "all off" first, then the outputs sorted by number. */
  function Entries(allOff: Option<string>, outputs: seq<Entry>): seq<Entry>
  {
    AllOffFirst(allOff, SortedByNumber(outputs))
  }

  function AllOffFirst(allOff: Option<string>, sorted: seq<Entry>): seq<Entry>
  {
    (if allOff.Some? then [Entry(ALL_OFF_VALUE, AllOffName(allOff.value))] else []) + sorted
  }

  /** `sorted(..., key=int)`: by number, equal numbers in their given order. */
  function SortedByNumber(outputs: seq<Entry>): (r: seq<Entry>)
    ensures |r| == |outputs|
  {
    if outputs == [] then [] else Inserted(SortedByNumber(outputs[..|outputs| - 1]), outputs[|outputs| - 1])
  }

  function Inserted(entries: seq<Entry>, e: Entry): (r: seq<Entry>)
    ensures |r| == |entries| + 1
  {
    if entries == [] || entries[|entries| - 1].number <= e.number then entries + [e]
    else Inserted(entries[..|entries| - 1], e) + [entries[|entries| - 1]]
  }

  predicate Ascending(entries: seq<Entry>)
  {
    forall i, j :: 0 <= i < j < |entries| ==> entries[i].number <= entries[j].number
  }

  function WithNumber(entries: seq<Entry>, number: int): seq<Entry>
  {
    if entries == [] then []
    else
      var last := entries[|entries| - 1];
      WithNumber(entries[..|entries| - 1], number) + if last.number == number then [last] else []
  }

  /** The list ascends and holds the entries of every number in their given order. */
  lemma {:induction false} SortedHolds(outputs: seq<Entry>, number: int)
    ensures Ascending(SortedByNumber(outputs))
    ensures WithNumber(SortedByNumber(outputs), number) == WithNumber(outputs, number)
  {
    if outputs != [] {
      var init := outputs[..|outputs| - 1];
      SortedHolds(init, number);
      InsertedHolds(SortedByNumber(init), outputs[|outputs| - 1], number);
    }
  }

  lemma InsertedHolds(entries: seq<Entry>, e: Entry, number: int)
    requires Ascending(entries)
    ensures Ascending(Inserted(entries, e))
    ensures WithNumber(Inserted(entries, e), number)
         == WithNumber(entries, number) + if e.number == number then [e] else []
  {
    InsertedAscends(entries, e);
    InsertedIsStable(entries, e, number);
  }

  lemma {:induction false} InsertedAscends(entries: seq<Entry>, e: Entry)
    requires Ascending(entries)
    ensures Ascending(Inserted(entries, e))
    decreases |entries|
  {
    if entries == [] || entries[|entries| - 1].number <= e.number {
      AscendingSnoc(entries, e);
    } else {
      var init, last := entries[..|entries| - 1], entries[|entries| - 1];
      InsertedAscends(init, e);
      InsertedBounded(init, e, last.number);
      AscendingSnoc(Inserted(init, e), last);
    }
  }

  lemma {:induction false} InsertedIsStable(entries: seq<Entry>, e: Entry, number: int)
    requires Ascending(entries)
    ensures WithNumber(Inserted(entries, e), number)
         == WithNumber(entries, number) + if e.number == number then [e] else []
    decreases |entries|
  {
    if entries == [] || entries[|entries| - 1].number <= e.number {
      WithNumberSnoc(entries, e, number);
    } else {
      var init, last := entries[..|entries| - 1], entries[|entries| - 1];
      InsertedIsStable(init, e, number);
      WithNumberSnoc(Inserted(init, e), last, number);
      WithNumberSnoc(init, last, number);
      assert init + [last] == entries;
      Swapped(WithNumber(init, number), if e.number == number then [e] else [],
              if last.number == number then [last] else []);
    }
  }

  lemma Swapped<T>(a: seq<T>, b: seq<T>, c: seq<T>)
    requires b == [] || c == []
    ensures a + b + c == a + c + b
  {
  }

  lemma WithNumberSnoc(entries: seq<Entry>, last: Entry, number: int)
    ensures WithNumber(entries + [last], number)
         == WithNumber(entries, number) + if last.number == number then [last] else []
  {
    assert (entries + [last])[..|entries|] == entries;
  }

  predicate Bounded(entries: seq<Entry>, bound: int)
  {
    forall i :: 0 <= i < |entries| ==> entries[i].number <= bound
  }

  lemma AscendingSnoc(entries: seq<Entry>, last: Entry)
    requires Ascending(entries)
    requires Bounded(entries, last.number) || (entries != [] && entries[|entries| - 1].number <= last.number)
    ensures Ascending(entries + [last])
  {
  }

  lemma {:induction false} InsertedBounded(entries: seq<Entry>, e: Entry, bound: int)
    requires Bounded(entries, bound) && e.number <= bound
    ensures Bounded(Inserted(entries, e), bound)
    decreases |entries|
  {
    if entries != [] && entries[|entries| - 1].number > e.number {
      InsertedBounded(entries[..|entries| - 1], e, bound);
    }
  }

  datatype Maps = Maps(options: seq<string>, numToOption: map<int, string>, optionToNum: map<string, int>)

  /** Each option is the first free candidate of its entry's name. */
  ghost predicate Labelled(entries: seq<Entry>, options: seq<string>)
  {
    && |options| == |entries|
    && forall i :: 0 <= i < |entries| ==> FirstFree(entries[i].name, Labels(options[..i]), options[i])
  }

  function Labels(options: seq<string>): set<string>
  {
    set o | o in options
  }

  ghost predicate LastWithNumber(entries: seq<Entry>, i: nat)
  {
    i < |entries| && forall j :: i < j < |entries| ==> entries[j].number != entries[i].number
  }

  /** An option leads to the number of its own entry. */
  ghost predicate OptionsLeadToNumbers(optionToNum: map<string, int>, entries: seq<Entry>, options: seq<string>)
  {
    && |options| == |entries| && optionToNum.Keys == Labels(options)
    && forall i :: 0 <= i < |entries| ==> options[i] in optionToNum && optionToNum[options[i]] == entries[i].number
  }

  /** A number leads to the option of the last entry that has it. */
  ghost predicate NumbersLeadToOptions(numToOption: map<int, string>, entries: seq<Entry>, options: seq<string>)
  {
    && |options| == |entries|
    && (forall i :: 0 <= i < |entries| ==> entries[i].number in numToOption)
    && (forall k :: k in numToOption ==> exists i: nat :: HoldsLast(numToOption, entries, options, k, i))
  }

  ghost predicate HoldsLast(numToOption: map<int, string>, entries: seq<Entry>, options: seq<string>, k: int, i: nat)
    requires |options| == |entries| && k in numToOption
  {
    LastWithNumber(entries, i) && entries[i].number == k && numToOption[k] == options[i]
  }

  ghost predicate Describes(m: Maps, entries: seq<Entry>)
  {
    && Labelled(entries, m.options)
    && OptionsLeadToNumbers(m.optionToNum, entries, m.options)
    && NumbersLeadToOptions(m.numToOption, entries, m.options)
  }

  /** The entries alone decide the options. */
  lemma LabelsAreDetermined(entries: seq<Entry>, a: seq<string>, b: seq<string>, n: nat)
    requires Labelled(entries, a) && Labelled(entries, b) && n <= |entries|
    ensures a[..n] == b[..n]
  {
    forall i | 0 <= i < n && a[..i] == b[..i] ensures a[i] == b[i] {
      NextLabel(entries, a, b, i);
    }
    PrefixesAgree(a, b, n);
  }

  lemma NextLabel(entries: seq<Entry>, a: seq<string>, b: seq<string>, i: nat)
    requires Labelled(entries, a) && Labelled(entries, b) && i < |entries| && a[..i] == b[..i]
    ensures a[i] == b[i]
  {
    FirstFreeUnique(entries[i].name, Labels(a[..i]), a[i], b[i]);
  }

  lemma {:induction false} PrefixesAgree<T>(a: seq<T>, b: seq<T>, n: nat)
    requires n <= |a| && n <= |b|
    requires forall i :: 0 <= i < n && a[..i] == b[..i] ==> a[i] == b[i]
    ensures a[..n] == b[..n]
  {
    if n > 0 {
      PrefixesAgree(a, b, n - 1);
      assert a[..n] == a[..n - 1] + [a[n - 1]] && b[..n] == b[..n - 1] + [b[n - 1]];
    }
  }

  lemma AddLabel(entries: seq<Entry>, options: seq<string>, e: Entry, o: string)
    requires Labelled(entries, options) && FirstFree(e.name, Labels(options), o)
    ensures Labelled(entries + [e], options + [o])
  {
    var es, os := entries + [e], options + [o];
    forall i | 0 <= i < |es| ensures FirstFree(es[i].name, Labels(os[..i]), os[i]) {
      assert os[..i] == options[..i];
      if i == |options| { assert options[..i] == options; }
    }
  }

  lemma AddOption(optionToNum: map<string, int>, entries: seq<Entry>, options: seq<string>, e: Entry, o: string)
    requires OptionsLeadToNumbers(optionToNum, entries, options) && o !in Labels(options)
    ensures OptionsLeadToNumbers(optionToNum[o := e.number], entries + [e], options + [o])
  {
    forall i | 0 <= i < |options| ensures options[i] != o { assert options[i] in Labels(options); }
  }

  lemma AddNumber(numToOption: map<int, string>, entries: seq<Entry>, options: seq<string>, e: Entry, o: string)
    requires NumbersLeadToOptions(numToOption, entries, options)
    ensures NumbersLeadToOptions(numToOption[e.number := o], entries + [e], options + [o])
  {
    var m, es, os := numToOption[e.number := o], entries + [e], options + [o];
    forall k | k in m ensures exists i: nat :: HoldsLast(m, es, os, k, i) {
      if k == e.number {
        assert HoldsLast(m, es, os, k, |entries|);
      } else {
        var i: nat :| HoldsLast(numToOption, entries, options, k, i);
        assert HoldsLast(m, es, os, k, i);
      }
    }
  }

  class OptionBuilder {
    var used: set<string>
    var options: seq<string>
    var numToOption: map<int, string>
    var optionToNum: map<string, int>
    ghost var entries: seq<Entry>

    ghost predicate Valid()
      reads this
    {
      Describes(Maps(options, numToOption, optionToNum), entries) && used == Labels(options)
    }

    constructor ()
      ensures Valid() && entries == []
    {
      used, options, numToOption, optionToNum, entries := {}, [], map[], map[], [];
    }

    /** `_dedupe_label`. The candidates are pairwise different and all in `used`
        while the loop goes on, so there are at most |used| of them. */
    method DedupeLabel(stem: string) returns (candidate: string)
      modifies this`used
      ensures FirstFree(stem, old(used), candidate)
      ensures used == old(used) + {candidate}
    {
      candidate := stem;
      var index := 2;
      ghost var seen: set<string> := {};
      while candidate in used
        invariant index >= 2 && candidate == Candidate(stem, index - 1)
        invariant used == old(used) && seen <= used && |seen| == index - 2
        invariant forall c :: c in seen ==> exists m: nat :: 1 <= m < index - 1 && c == Candidate(stem, m)
        invariant forall m: nat :: 1 <= m < index - 1 ==> Candidate(stem, m) in used
        decreases |used| - |seen|
      {
        if candidate in seen {
          var m: nat :| 1 <= m < index - 1 && candidate == Candidate(stem, m);
          CandidateInjective(stem, m, index - 1);
        }
        SubsetSize(seen + {candidate}, used);
        seen := seen + {candidate};
        candidate := stem + " (" + Decimal(index) + ")";
        index := index + 1;
      }
      assert IsFirstFree(stem, used, candidate, index - 1);
      used := used + {candidate};
    }

    method Add(number: int, name: string)
      requires Valid()
      modifies this
      ensures Valid() && entries == old(entries) + [Entry(number, name)]
    {
      ghost var e := Entry(number, name);
      var chosen := DedupeLabel(name);
      AddLabel(entries, options, e, chosen);
      AddOption(optionToNum, entries, options, e, chosen);
      AddNumber(numToOption, entries, options, e, chosen);
      options := options + [chosen];
      numToOption := numToOption[number := chosen];
      optionToNum := optionToNum[chosen := number];
      entries := entries + [e];
    }

    /** `build_option_maps`. */
    method Build(allOff: Option<string>, outputs: seq<Entry>) returns (allOffNum: Option<int>)
      requires Valid() && entries == []
      modifies this
      ensures Valid() && entries == Entries(allOff, outputs)
      ensures allOffNum == if allOff.Some? then Some(ALL_OFF_VALUE) else None
    {
      allOffNum := None;
      if allOff.Some? {
        Add(ALL_OFF_VALUE, AllOffName(allOff.value));
        allOffNum := Some(ALL_OFF_VALUE);
      }
      var sorted := SortedByNumber(outputs);
      assert entries == AllOffFirst(allOff, sorted[..0]);
      for i := 0 to |sorted|
        invariant Valid() && entries == AllOffFirst(allOff, sorted[..i])
      {
        AllOffFirstSnoc(allOff, sorted, i);
        Add(sorted[i].number, sorted[i].name);
      }
      assert sorted[..|sorted|] == sorted;
    }
  }

  lemma AllOffFirstSnoc(allOff: Option<string>, sorted: seq<Entry>, i: nat)
    requires i < |sorted|
    ensures AllOffFirst(allOff, sorted[..i + 1])
         == AllOffFirst(allOff, sorted[..i]) + [Entry(sorted[i].number, sorted[i].name)]
  {
    assert sorted[..i + 1] == sorted[..i] + [sorted[i]];
  }

  /* ---- what the maps mean ---- */

  ghost predicate Distinct(options: seq<string>)
  {
    forall i, j :: 0 <= i < j < |options| ==> options[i] != options[j]
  }

  /** No two options are alike, whatever names the outputs have. */
  lemma LabelledIsDistinct(entries: seq<Entry>, options: seq<string>)
    requires Labelled(entries, options)
    ensures Distinct(options)
  {
    forall i, j | 0 <= i < j < |options| ensures options[i] != options[j] {
      assert options[..j][i] == options[i];
      assert options[i] in Labels(options[..j]);
      var n: nat :| IsFirstFree(entries[j].name, Labels(options[..j]), options[j], n);
    }
  }

  ghost predicate DistinctNumbers(entries: seq<Entry>)
  {
    forall i, j :: 0 <= i < j < |entries| ==> entries[i].number != entries[j].number
  }

  ghost predicate MutuallyInverse(m: Maps)
  {
    && (forall o :: o in m.optionToNum ==> m.optionToNum[o] in m.numToOption && m.numToOption[m.optionToNum[o]] == o)
    && (forall k :: k in m.numToOption ==> m.numToOption[k] in m.optionToNum && m.optionToNum[m.numToOption[k]] == k)
  }

  /** The two maps undo each other exactly when no number occurs twice; with an
      "all off" entry that includes 0. */
  lemma MapsInverseIffDistinct(m: Maps, entries: seq<Entry>)
    requires Describes(m, entries)
    ensures MutuallyInverse(m) <==> DistinctNumbers(entries)
  {
    LabelledIsDistinct(entries, m.options);
    if DistinctNumbers(entries) {
      forall o | o in m.optionToNum ensures m.optionToNum[o] in m.numToOption && m.numToOption[m.optionToNum[o]] == o {
        assert o in Labels(m.options);
        var i :| 0 <= i < |m.options| && m.options[i] == o;
        ReadsBack(m, entries, i);
      }
      forall k | k in m.numToOption ensures m.numToOption[k] in m.optionToNum && m.optionToNum[m.numToOption[k]] == k {
        var i: nat :| HoldsLast(m.numToOption, entries, m.options, k, i);
      }
    }
    if MutuallyInverse(m) {
      forall i, j | 0 <= i < j < |entries| ensures entries[i].number != entries[j].number {
        assert m.options[i] in m.optionToNum && m.options[j] in m.optionToNum && m.options[i] != m.options[j];
      }
    }
  }

  lemma ReadsBack(m: Maps, entries: seq<Entry>, i: nat)
    requires Describes(m, entries) && i < |entries|
    ensures entries[i].number in m.numToOption
    ensures m.numToOption[entries[i].number] == m.options[i] <==> LastWithNumber(entries, i)
  {
    var k := entries[i].number;
    var j: nat :| HoldsLast(m.numToOption, entries, m.options, k, j);
    LabelledIsDistinct(entries, m.options);
    assert LastWithNumber(entries, i) ==> i == j;
    assert m.options[i] == m.options[j] ==> i == j;
  }

  /* ---- the entity ---- */

  datatype Command = Reset | Output(number: int)

  datatype Selection = Locked | UnknownOption | Sends(command: Command)

  /** The output the Miniserver reports after a command. */
  function Echo(c: Command): int
  {
    match c
    case Reset => ALL_OFF_VALUE
    case Output(n) => n
  }

  class LoxoneSelect {
    const maps: Maps
    const allOffNum: Option<int>
    var currentOption: Option<string>
    var locked: bool

    constructor (maps: Maps, allOffNum: Option<int>)
      ensures this.maps == maps && this.allOffNum == allOffNum && currentOption == None && !locked
    {
      this.maps, this.allOffNum, currentOption, locked := maps, allOffNum, None, false;
    }

    /** `activeOutput` is present with its integer (or not numeric), `lock` with its truth. */
    method EventHandler(activeOutput: Option<Option<int>>, lock: Option<bool>) returns (update: bool)
      modifies this
      ensures currentOption ==
                match activeOutput
                case None => old(currentOption)
                case Some(None) => None
                case Some(Some(n)) => if n in maps.numToOption then Some(maps.numToOption[n]) else None
      ensures locked == (if lock.Some? then lock.value else old(locked))
      ensures update <==> activeOutput.Some? || lock.Some?
    {
      update := false;
      if activeOutput.Some? {
        var number := activeOutput.value;
        currentOption :=
          if number.Some? && number.value in maps.numToOption then Some(maps.numToOption[number.value]) else None;
        update := true;
      }
      if lock.Some? {
        locked := lock.value;
        update := true;
      }
    }

    method SelectOption(option: string) returns (r: Selection)
      ensures r == Selecting(maps, allOffNum, locked, option)
    {
      if locked { return Locked; }
      if option !in maps.optionToNum { return UnknownOption; }
      var number := maps.optionToNum[option];
      if Some(number) == allOffNum { return Sends(Reset); }
      return Sends(Output(number));
    }
  }

  function Selecting(maps: Maps, allOffNum: Option<int>, locked: bool, option: string): Selection
  {
    if locked then Locked
    else if option !in maps.optionToNum then UnknownOption
    else if Some(maps.optionToNum[option]) == allOffNum then Sends(Reset)
    else Sends(Output(maps.optionToNum[option]))
  }

  /** A selection of any offered option is sent by its number, or as a reset where that
      is 0 and there is an "all off", and the Miniserver's echo reads back
      as that very option exactly when no later output shares its number. */
  lemma SelectionReadsBack(m: Maps, allOff: Option<string>, outputs: seq<Entry>, i: nat)
    requires Describes(m, Entries(allOff, outputs)) && i < |m.options|
    ensures var r := Selecting(m, if allOff.Some? then Some(ALL_OFF_VALUE) else None, false, m.options[i]);
            && r.Sends? && Echo(r.command) in m.numToOption
            && (var n := Entries(allOff, outputs)[i].number;
                r.command == if allOff.Some? && n == 0 then Reset else Output(n))
            && (m.numToOption[Echo(r.command)] == m.options[i] <==> LastWithNumber(Entries(allOff, outputs), i))
  {
    ReadsBack(m, Entries(allOff, outputs), i);
  }

  /** Built from its outputs, unlocked, told to select the i-th option and echoed the
      output it sent: the entity shows that option exactly when no later output has
      the same number, and otherwise it shows another one, never none. */
  method SelectAndEcho(allOff: Option<string>, outputs: seq<Entry>, i: nat)
    returns (option: string, shown: Option<string>)
    requires i < |Entries(allOff, outputs)|
    ensures shown.Some?
    ensures shown == Some(option) <==> LastWithNumber(Entries(allOff, outputs), i)
  {
    var builder := new OptionBuilder();
    var allOffNum := builder.Build(allOff, outputs);
    var maps := Maps(builder.options, builder.numToOption, builder.optionToNum);
    var select := new LoxoneSelect(maps, allOffNum);
    option := maps.options[i];
    var selection := select.SelectOption(option);
    SelectionReadsBack(maps, allOff, outputs, i);
    var _ := select.EventHandler(Some(Some(Echo(selection.command))), None);
    shown := select.currentOption;
  }

  /** A block reported as locked refuses every selection, whatever it is; reported as
      unlocked it refuses none. */
  method LockThenSelect(select: LoxoneSelect, lock: bool, option: string) returns (r: Selection)
    modifies select
    ensures r == Locked <==> lock
    ensures select.currentOption == old(select.currentOption)
  {
    var _ := select.EventHandler(None, Some(lock));
    r := select.SelectOption(option);
  }

  /* ---- how labels read ---- */

  function DecimalDigit(c: char): int
  {
    if '0' <= c <= '9' then c as int - '0' as int else -1
  }

  function ReadDecimal(s: string): int
  {
    if s == "" then 0 else 10 * ReadDecimal(s[..|s| - 1]) + DecimalDigit(s[|s| - 1])
  }

  /** The number in a label is written in decimal digits. */
  lemma {:induction false} DecimalReads(n: nat)
    ensures ReadDecimal(Decimal(n)) == n
    ensures forall i :: 0 <= i < |Decimal(n)| ==> 0 <= DecimalDigit(Decimal(n)[i]) <= 9
  {
    if n >= 10 {
      DecimalReads(n / 10);
      assert Decimal(n)[..|Decimal(n)| - 1] == Decimal(n / 10);
    } else {
      assert Decimal(n)[..0] == "";
    }
  }

  /** The label itself is tried first, then the label with a 2, a 3 and so on in
      parentheses; an "all off" entry without a name is called so. */
  lemma LabelsTried(stem: string, name: string)
    ensures Candidate(stem, 1) == stem && Candidate(stem, 2) == stem + " (2)" && Candidate(stem, 13) == stem + " (13)"
    ensures Entries(Some(""), []) == [Entry(0, "All off")]
    ensures name != "" ==> Entries(Some(name), []) == [Entry(0, name)] && Entries(None, []) == []
  {
    assert Decimal(13) == Decimal(1) + [Digit(3)];
    assert SortedByNumber([]) == [];
  }
}
