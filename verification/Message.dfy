/** The 8-byte message header and the two packed state tables
    (custom_components/loxone/pyloxone_api/message.py), each with the encoder
    the Miniserver is assumed to use and the round trips between them. */
module Message {
  import opened Wire

  datatype MessageType =
    | Text | Binary | ValueStates | TextStates | DaytimerStates
    | OutOfService | KeepAlive | WeatherStates | Unknown

  datatype ParseError = IndexError | ValueError | StructError | LoxoneError

  /* ---- header ---- */

  datatype MessageHeader = MessageHeader(messageType: MessageType, estimated: bool, payloadLength: nat)

  /** `MessageType(id)`: there are eight identifiers, every other raises. */
  function TypeOfId(id: Byte): (t: Option<MessageType>)
    ensures t.Some? <==> id < 8
    ensures t != Some(Unknown)
  {
    match id
    case 0 => Some(Text)
    case 1 => Some(Binary)
    case 2 => Some(ValueStates)
    case 3 => Some(TextStates)
    case 4 => Some(DaytimerStates)
    case 5 => Some(OutOfService)
    case 6 => Some(KeepAlive)
    case 7 => Some(WeatherStates)
    case _ => None
  }

  function ParseHeader(h: seq<Byte>): Result<MessageHeader, ParseError>
  {
    if |h| == 0 then Err(IndexError)
    else if h[0] != 3 then Ok(MessageHeader(Unknown, false, 0))
    else if |h| != 8 then Err(LoxoneError)
    else match TypeOfId(h[1])
      case None => Err(ValueError)
      case Some(t) => Ok(MessageHeader(t, h[2] / 0x80 == 1, U32(h[4..8])))
  }

  /** The message types by their identifier on the wire, from 0. */
  const WIRE_TYPES: seq<MessageType> :=
    [Text, Binary, ValueStates, TextStates, DaytimerStates, OutOfService, KeepAlive, WeatherStates]

  /** The header the Miniserver sends; the top bit of `info` marks an estimate. */
  function EncodeHeader(id: Byte, info: Byte, reserved: Byte, length: nat): (h: seq<Byte>)
    requires length < 0x1_0000_0000
    ensures |h| == 8 && h[0] == 3 && h[1] == id && h[2] == info && h[3] == reserved && h[4..8] == U32Bytes(length)
  {
    [3, id, info, reserved] + U32Bytes(length)
  }

  /** How an 8-byte frame reads as a header, byte by byte. */
  lemma HeaderReads(h: seq<Byte>)
    requires |h| == 8
    ensures h[0] != 3 ==> ParseHeader(h) == Ok(MessageHeader(Unknown, false, 0))
    ensures h[0] == 3 && h[1] >= 8 ==> ParseHeader(h) == Err(ValueError)
    ensures h[0] == 3 && h[1] < 8 ==>
              ParseHeader(h) == Ok(MessageHeader(WIRE_TYPES[h[1]], h[2] >= 0x80, U32(h[4..8])))
  {
  }

  lemma HeaderRoundTrip(id: Byte, info: Byte, reserved: Byte, length: nat)
    requires id < 8 && length < 0x1_0000_0000
    ensures ParseHeader(EncodeHeader(id, info, reserved, length))
         == Ok(MessageHeader(WIRE_TYPES[id], info >= 0x80, length))
  {
    HeaderReads(EncodeHeader(id, info, reserved, length));
    U32RoundTrip(length);
  }

  /** Every 8-byte frame that parses to a known type is an encoded header. */
  lemma HeaderRoundTripBack(h: seq<Byte>)
    requires |h| == 8 && ParseHeader(h).Ok? && ParseHeader(h).value.messageType != Unknown
    ensures var p := ParseHeader(h).value;
            && h[1] < 8 && p.messageType == WIRE_TYPES[h[1]]
            && h == EncodeHeader(h[1], h[2], h[3], p.payloadLength)
  {
    HeaderReads(h);
    U32BytesOfU32(h[4..8]);
    assert h == [h[0], h[1], h[2], h[3]] + h[4..8];
  }

  /* ---- last value wins ---- */

  /** What filling the event dict record by record leaves behind. */
  function DictOf<K, V>(key: K -> string, entries: seq<(K, V)>): map<string, V>
  {
    if entries == [] then map[]
    else
      var last := entries[|entries| - 1];
      DictOf(key, entries[..|entries| - 1])[key(last.0) := last.1]
  }

  lemma DictSnoc<K, V>(key: K -> string, done: seq<(K, V)>, entry: (K, V))
    ensures DictOf(key, done + [entry]) == DictOf(key, done)[key(entry.0) := entry.1]
  {
    assert (done + [entry])[..|done|] == done;
  }

  ghost predicate IsLastOf<K, V>(entries: seq<(K, V)>, i: nat)
  {
    i < |entries| && forall j :: i < j < |entries| ==> entries[j].0 != entries[i].0
  }

  /** The dict holds a key per entry, and under each key the value of the last
      entry with that very `K`. */
  ghost predicate MapsToLast<K, V>(key: K -> string, d: map<string, V>, entries: seq<(K, V)>)
  {
    && (forall i :: 0 <= i < |entries| ==> key(entries[i].0) in d)
    && (forall k :: k in d ==> exists i: nat :: IsLastOf(entries, i) && k == key(entries[i].0) && d[k] == entries[i].1)
  }

  ghost predicate Injective<K(!new)>(key: K -> string)
  {
    forall a, b :: key(a) == key(b) ==> a == b
  }

  lemma LastOfSnoc<K, V>(init: seq<(K, V)>, last: (K, V), i: nat)
    requires IsLastOf(init, i) && init[i].0 != last.0
    ensures IsLastOf(init + [last], i)
  {
  }

  lemma {:induction false} DictMeaning<K, V>(key: K -> string, entries: seq<(K, V)>)
    ensures MapsToLast(key, DictOf(key, entries), entries)
  {
    if entries != [] {
      var n := |entries| - 1;
      var init, last, d := entries[..n], entries[n], DictOf(key, entries);
      DictMeaning(key, init);
      assert entries == init + [last];
      forall k | k in d
        ensures exists i: nat :: IsLastOf(entries, i) && k == key(entries[i].0) && d[k] == entries[i].1
      {
        if k == key(last.0) {
          assert IsLastOf(entries, n);
        } else {
          var i: nat :| IsLastOf(init, i) && k == key(init[i].0) && DictOf(key, init)[k] == init[i].1;
          LastOfSnoc(init, last, i);
        }
      }
    }
  }

  /** With an injective rendering, what a key holds is the last value of its entry. */
  lemma LastValueOf<K(!new), V>(key: K -> string, d: map<string, V>, entries: seq<(K, V)>, i: nat)
    requires Injective(key) && MapsToLast(key, d, entries) && IsLastOf(entries, i)
    ensures key(entries[i].0) in d && d[key(entries[i].0)] == entries[i].1
  {
    var k := key(entries[i].0);
    var j: nat :| IsLastOf(entries, j) && k == key(entries[j].0) && d[k] == entries[j].1;
  }

  type Rendering = Uuid -> string

  type Decoder = seq<Byte> -> string

  /* ---- value states ---- */

  type Double = b: seq<Byte> | |b| == 8 witness seq(8, _ => 0)

  function ValueRecord(packet: seq<Byte>): (Uuid, Double)
    requires |packet| == 24
  {
    (packet[0..16], packet[16..24])
  }

  /** The whole 24-byte records at the front of the frame. */
  function ValueRecords(m: seq<Byte>): (rs: seq<(Uuid, Double)>)
    ensures |rs| == |m| / 24
    decreases |m|
  {
    if |m| < 24 then [] else [ValueRecord(m[..24])] + ValueRecords(m[24..])
  }

  /** The dict holds `done`, and the records from the cursor on are still to come. */
  ghost predicate Filling(
      m: seq<Byte>, start: nat, events: map<string, Double>, key: Rendering, done: seq<(Uuid, Double)>)
  {
    && ValueRecords(m) == done + ValueRecords(From(m, start))
    && events == DictOf(key, done)
  }

  lemma FillStart(m: seq<Byte>, key: Rendering)
    ensures Filling(m, 0, map[], key, [])
  {
    assert From(m, 0) == m;
    assert [] + ValueRecords(m) == ValueRecords(m);
  }

  lemma FillStep(m: seq<Byte>, start: nat, events: map<string, Double>, key: Rendering, done: seq<(Uuid, Double)>)
    requires start + 24 <= |m| && Filling(m, start, events, key, done)
    ensures var r := ValueRecord(m[start..start + 24]);
            Filling(m, start + 24, events[key(r.0) := r.1], key, done + [r])
  {
    var rest, r := From(m, start), ValueRecord(m[start..start + 24]);
    SliceShift(m, start, 0, 24);
    FromFrom(m, start, 24);
    assert rest[24..] == From(rest, 24);
    Grouped(done, r, ValueRecords(From(m, start + 24)));
    DictSnoc<Uuid, Double>(key, done, r);
  }

  lemma Grouped<T>(done: seq<T>, r: T, later: seq<T>)
    ensures done + ([r] + later) == (done + [r]) + later
  {
  }

  lemma FillEnd(m: seq<Byte>, start: nat, events: map<string, Double>, key: Rendering, done: seq<(Uuid, Double)>)
    requires |m| < start + 24 && Filling(m, start, events, key, done)
    ensures events == DictOf(key, ValueRecords(m))
  {
    NoRecordLeft(m, start);
    assert done + [] == done;
  }

  lemma NoRecordLeft(m: seq<Byte>, start: nat)
    requires |m| < start + 24
    ensures ValueRecords(From(m, start)) == []
  {
    assert |From(m, start)| < 24;
  }

  /** The loop over the whole records; `key` renders a uuid. */
  method FillValues(message: seq<Byte>, key: Rendering) returns (events: map<string, Double>)
    ensures events == DictOf(key, ValueRecords(message))
  {
    events := map[];
    var num := |message| / 24;
    var start, end := 0, 24;
    ghost var done: seq<(Uuid, Double)> := [];
    FillStart(message, key);
    for i := 0 to num
      invariant start == 24 * i && end == start + 24
      invariant Filling(message, start, events, key, done)
    {
      FillStep(message, start, events, key, done);
      var packet: seq<Byte> := message[start..end];
      var record := ValueRecord(packet);
      events := events[key(record.0) := record.1];
      done := done + [record];
      start := start + 24;
      end := end + 24;
    }
    FillEnd(message, start, events, key, done);
  }

  /** `ValueStatesTable.as_dict`: a trailing partial record is not unpacked. */
  method ValueStatesDict(message: seq<Byte>) returns (events: map<string, Double>)
    ensures events == DictOf(UuidText, ValueRecords(message))
  {
    events := FillValues(message, UuidText);
  }

  function EncodeValues(rs: seq<(Uuid, Double)>): (m: seq<Byte>)
    ensures |m| == 24 * |rs|
  {
    if rs == [] then [] else rs[0].0 + rs[0].1 + EncodeValues(rs[1..])
  }

  /** Parsing undoes encoding, whatever partial record follows. */
  lemma {:induction false} ValueRoundTrip(rs: seq<(Uuid, Double)>, tail: seq<Byte>)
    requires |tail| < 24
    ensures ValueRecords(EncodeValues(rs) + tail) == rs
  {
    if rs != [] {
      var m, rest := EncodeValues(rs) + tail, EncodeValues(rs[1..]) + tail;
      var packet := rs[0].0 + rs[0].1;
      assert m[..24] == packet && m[24..] == rest;
      assert packet[0..16] == rs[0].0 && packet[16..24] == rs[0].1;
      ValueRoundTrip(rs[1..], tail);
    }
  }

  /** Encoding undoes parsing: nothing but the partial tail is lost. */
  lemma {:induction false} ValueRoundTripBack(m: seq<Byte>)
    ensures EncodeValues(ValueRecords(m)) + m[24 * (|m| / 24)..] == m
    decreases |m|
  {
    if |m| >= 24 {
      var rest := m[24..];
      ValueRoundTripBack(rest);
      assert |rest| / 24 == |m| / 24 - 1;
      assert rest[24 * (|rest| / 24)..] == m[24 * (|m| / 24)..];
      assert ValueRecords(m)[1..] == ValueRecords(rest);
      assert m[..24] == m[..24][0..16] + m[..24][16..24];
    }
  }

  /** The dict of an encoded table holds the last value of each of its uuids. */
  lemma ValueDictMeaning(rs: seq<(Uuid, Double)>, tail: seq<Byte>)
    requires |tail| < 24
    ensures MapsToLast(UuidText, DictOf(UuidText, ValueRecords(EncodeValues(rs) + tail)), rs)
  {
    ValueRoundTrip(rs, tail);
    DictMeaning(UuidText, rs);
  }

  lemma UuidKeysAreInjective()
    ensures Injective<Uuid>(UuidText)
  {
    forall a: Uuid, b: Uuid | UuidText(a) == UuidText(b) ensures a == b {
      UuidTextInjective(a, b);
    }
  }

  /** ... so each uuid's text leads to the value of its last record in the table. */
  lemma LastValueWins(rs: seq<(Uuid, Double)>, tail: seq<Byte>, i: nat)
    requires |tail| < 24 && IsLastOf(rs, i)
    ensures var d := DictOf(UuidText, ValueRecords(EncodeValues(rs) + tail));
            UuidText(rs[i].0) in d && d[UuidText(rs[i].0)] == rs[i].1
  {
    ValueDictMeaning(rs, tail);
    UuidKeysAreInjective();
    LastValueOf<Uuid, Double>(UuidText, DictOf(UuidText, ValueRecords(EncodeValues(rs) + tail)), rs, i);
  }

  /* ---- text states ---- */

  datatype TextRecord = TextRecord(uuid: Uuid, icon: Uuid, text: seq<Byte>, pad: seq<Byte>)

  /** The cursor step of `get_text` for a text of `n` bytes. */
  function Stride(n: nat): nat
  {
    ((4 + n + 16 + 16 - 1) / 4 + 1) * 4
  }

  /** 36 bytes of fields plus the text, rounded up to a multiple of four. */
  lemma StrideRoundsUp(n: nat)
    ensures Stride(n) % 4 == 0 && 36 + n <= Stride(n) < 36 + n + 4
    ensures Stride(n) == 4 * ((35 + n) / 4 + 1)
  {
  }

  function From<T>(m: seq<T>, start: nat): seq<T>
  {
    Slice(m, start, |m|)
  }

  lemma SliceShift<T>(m: seq<T>, start: nat, lo: nat, hi: nat)
    requires lo <= hi && start + hi <= |m|
    ensures From(m, start)[lo..hi] == m[start + lo..start + hi]
  {
    assert From(m, start) == m[start..];
    assert forall k :: 0 <= k < hi - lo ==> m[start..][lo..hi][k] == m[start + lo + k];
  }

  lemma FromFrom<T>(m: seq<T>, a: nat, b: nat)
    ensures From(From(m, a), b) == From(m, a + b)
  {
  }

  function FirstRecord(rest: seq<Byte>): TextRecord
    requires |rest| >= 36 && |rest| >= 36 + U32(rest[32..36])
  {
    var n := U32(rest[32..36]);
    TextRecord(rest[0..16], rest[16..32], rest[36..36 + n], Slice(rest, 36 + n, Stride(n)))
  }

  /** The records a walk over `rest` unpacks, or the exception it ends in. */
  function TextRecords(rest: seq<Byte>): (r: Result<seq<TextRecord>, ParseError>)
    decreases |rest|
  {
    if |rest| == 0 then Ok([])
    else if |rest| < 32 then Err(ValueError)
    else if |rest| < 36 then Err(StructError)
    else if |rest| < 36 + U32(rest[32..36]) then Err(StructError)
    else
      var n := U32(rest[32..36]);
      StrideRoundsUp(n);
      Prepend([FirstRecord(rest)], TextRecords(From(rest, Stride(n))))
  }

  function Prepend(rs: seq<TextRecord>, rest: Result<seq<TextRecord>, ParseError>): Result<seq<TextRecord>, ParseError>
  {
    match rest
    case Err(e) => Err(e)
    case Ok(more) => Ok(rs + more)
  }

  function TextEntries(rs: seq<TextRecord>, decode: Decoder): (es: seq<(Uuid, string)>)
    ensures |es| == |rs|
    ensures forall i :: 0 <= i < |rs| ==> es[i] == (rs[i].uuid, decode(rs[i].text))
  {
    if rs == [] then [] else TextEntries(rs[..|rs| - 1], decode) + [(rs[|rs| - 1].uuid, decode(rs[|rs| - 1].text))]
  }

  /** Where the walk from `start` ends in an exception, told by lengths alone. */
  lemma WalkAt(m: seq<Byte>, start: nat)
    requires start < |m|
    ensures |m| < start + 32 ==> TextRecords(From(m, start)) == Err(ValueError)
    ensures start + 32 <= |m| < start + 36 ==> TextRecords(From(m, start)) == Err(StructError)
    ensures start + 36 <= |m| < start + 36 + U32(Slice(m, start + 32, start + 36)) ==>
              TextRecords(From(m, start)) == Err(StructError)
  {
    if start + 36 <= |m| { SliceShift(m, start, 32, 36); }
  }

  /** The slices `get_text` takes are the fields of the first record left ... */
  lemma FirstFields(m: seq<Byte>, start: nat, n: nat)
    requires start + 36 + n <= |m| && n == U32(m[start + 32..start + 36])
    ensures |From(m, start)| >= 36 + n && U32(From(m, start)[32..36]) == n
    ensures FirstRecord(From(m, start)).uuid == m[start..start + 16]
    ensures FirstRecord(From(m, start)).text == m[start + 36..start + 36 + n]
  {
    SliceShift(m, start, 0, 16);
    SliceShift(m, start, 32, 36);
    SliceShift(m, start, 36, 36 + n);
  }

  /** ... and the walk goes on behind its stride. */
  lemma WalkUnfolds(m: seq<Byte>, start: nat, n: nat)
    requires start + 36 + n <= |m| && |From(m, start)| >= 36 + n && n == U32(From(m, start)[32..36])
    ensures TextRecords(From(m, start))
         == Prepend([FirstRecord(From(m, start))], TextRecords(From(m, start + Stride(n))))
  {
    FromFrom(m, start, Stride(n));
  }

  /** The dict holds the records in front of the cursor, the walk goes on from there. */
  ghost predicate Walking(m: seq<Byte>, start: nat, events: map<string, string>, key: Rendering, decode: Decoder)
  {
    exists done :: Walked(m, start, events, key, decode, done)
  }

  ghost predicate Walked(
      m: seq<Byte>, start: nat, events: map<string, string>, key: Rendering, decode: Decoder, done: seq<TextRecord>)
  {
    && TextRecords(m) == Prepend(done, TextRecords(From(m, start)))
    && events == DictOf(key, TextEntries(done, decode))
  }

  lemma WalkStart(m: seq<Byte>, key: Rendering, decode: Decoder)
    ensures Walking(m, 0, map[], key, decode)
  {
    assert From(m, 0) == m;
    PrependNothing(TextRecords(m));
    assert Walked(m, 0, map[], key, decode, []);
  }

  lemma WalkStep(
      m: seq<Byte>, start: nat, events: map<string, string>, key: Rendering, decode: Decoder,
      uuid: Uuid, n: nat, text: seq<Byte>)
    requires Walking(m, start, events, key, decode)
    requires start + 36 + n <= |m| && n == U32(m[start + 32..start + 36])
    requires uuid == m[start..start + 16] && text == m[start + 36..start + 36 + n]
    ensures Walking(m, start + Stride(n), events[key(uuid) := decode(text)], key, decode)
  {
    FirstFields(m, start, n);
    WalkUnfolds(m, start, n);
    WalkOn(m, start, start + Stride(n), events, key, decode, FirstRecord(From(m, start)));
  }

  lemma WalkOn(
      m: seq<Byte>, start: nat, next: nat, events: map<string, string>, key: Rendering, decode: Decoder, r: TextRecord)
    requires Walking(m, start, events, key, decode)
    requires TextRecords(From(m, start)) == Prepend([r], TextRecords(From(m, next)))
    ensures Walking(m, next, events[key(r.uuid) := decode(r.text)], key, decode)
  {
    var done :| Walked(m, start, events, key, decode, done);
    TextStep(m, done, r, next, key, decode);
    assert Walked(m, next, events[key(r.uuid) := decode(r.text)], key, decode, done + [r]);
  }

  lemma WalkEnd(m: seq<Byte>, start: nat, events: map<string, string>, key: Rendering, decode: Decoder)
    requires Walking(m, start, events, key, decode) && start >= |m|
    ensures TextRecords(m).Ok? && events == DictOf(key, TextEntries(TextRecords(m).value, decode))
  {
    var done :| Walked(m, start, events, key, decode, done);
    assert done + [] == done;
  }

  lemma WalkFails(m: seq<Byte>, start: nat, events: map<string, string>, key: Rendering, decode: Decoder)
    requires Walking(m, start, events, key, decode) && start < |m|
    ensures |m| < start + 32 ==> TextRecords(m) == Err(ValueError)
    ensures start + 32 <= |m| < start + 36 ==> TextRecords(m) == Err(StructError)
    ensures start + 36 <= |m| < start + 36 + U32(Slice(m, start + 32, start + 36)) ==>
              TextRecords(m) == Err(StructError)
  {
    WalkAt(m, start);
  }

  /** The nested `get_text`: one record goes into the dict, the cursor moves behind it. */
  method GetText(message: seq<Byte>, start: nat, events: map<string, string>, key: Rendering, decode: Decoder)
    returns (r: Result<(nat, map<string, string>), ParseError>)
    requires start < |message| && Walking(message, start, events, key, decode)
    ensures r.Err? ==> TextRecords(message) == Err(r.error)
    ensures r.Ok? ==>
              && start + 36 <= |message|
              && r.value.0 == start + Stride(U32(message[start + 32..start + 36]))
              && Walking(message, r.value.0, r.value.1, key, decode)
  {
    WalkFails(message, start, events, key, decode);
    var fields := ReadFields(message, start);
    if fields.Err? { return Err(fields.error); }
    var uuid, n, text := fields.value.uuid, fields.value.length, fields.value.text;
    WalkStep(message, start, events, key, decode, uuid, n, text);
    return Ok((start + Stride(n), events[key(uuid) := decode(text)]));
  }

  datatype Fields = Fields(uuid: Uuid, length: nat, text: seq<Byte>)

  /** The slices of `get_text`: the first one that is too short decides the exception. */
  method ReadFields(message: seq<Byte>, start: nat) returns (r: Result<Fields, ParseError>)
    requires start < |message|
    ensures r == Err(ValueError) <==> |message| < start + 32
    ensures r.Ok? <==>
              |message| >= start + 36 && |message| >= start + 36 + U32(Slice(message, start + 32, start + 36))
    ensures r.Err? ==> r.error == ValueError || r.error == StructError
    ensures r.Ok? ==>
              && r.value.length == U32(message[start + 32..start + 36])
              && r.value.uuid == message[start..start + 16]
              && r.value.text == message[start + 36..start + 36 + r.value.length]
  {
    var uuid := Slice(message, start, start + 16);
    if |uuid| != 16 { return Err(ValueError); }
    var icon := Slice(message, start + 16, start + 32);
    if |icon| != 16 { return Err(ValueError); }
    var length := Slice(message, start + 32, start + 36);
    if |length| != 4 { return Err(StructError); }
    var n := U32(length);
    var text := Slice(message, start + 36, start + 36 + n);
    if |text| != n { return Err(StructError); }
    return Ok(Fields(uuid, n, text));
  }

  /** `TextStatesTable.as_dict`; `decode` is the total utf-8-else-latin-1 decoder. */
  method TextStatesDict(message: seq<Byte>, decode: Decoder)
    returns (r: Result<map<string, string>, ParseError>)
    ensures match TextRecords(message)
            case Err(e) => r == Err(e)
            case Ok(rs) => r == Ok(DictOf(UuidText, TextEntries(rs, decode)))
  {
    var events: map<string, string> := map[];
    var start := 0;
    ghost var words := 0;                  // the cursor stays 4-aligned
    WalkStart(message, UuidText, decode);
    while start < |message|
      invariant start == 4 * words
      invariant Walking(message, start, events, UuidText, decode)
      decreases |message| - start
    {
      var one := GetText(message, start, events, UuidText, decode);
      if one.Err? { return Err(one.error); }
      ghost var n := U32(message[start + 32..start + 36]);
      StrideRoundsUp(n);
      words := words + (35 + n) / 4 + 1;
      start, events := one.value.0, one.value.1;
    }
    WalkEnd(message, start, events, UuidText, decode);
    return Ok(events);
  }

  lemma TextStep(m: seq<Byte>, done: seq<TextRecord>, r: TextRecord, next: nat, key: Rendering, decode: Decoder)
    requires TextRecords(m) == Prepend(done, Prepend([r], TextRecords(From(m, next))))
    ensures TextRecords(m) == Prepend(done + [r], TextRecords(From(m, next)))
    ensures DictOf(key, TextEntries(done + [r], decode))
         == DictOf(key, TextEntries(done, decode))[key(r.uuid) := decode(r.text)]
  {
    PrependTwice(done, [r], TextRecords(From(m, next)));
    assert (done + [r])[..|done|] == done;
    DictSnoc(key, TextEntries(done, decode), (r.uuid, decode(r.text)));
  }

  lemma PrependNothing(r: Result<seq<TextRecord>, ParseError>)
    ensures Prepend([], r) == r
  {
    if r.Ok? { assert [] + r.value == r.value; }
  }

  lemma PrependTwice(a: seq<TextRecord>, b: seq<TextRecord>, rest: Result<seq<TextRecord>, ParseError>)
    ensures Prepend(a, Prepend(b, rest)) == Prepend(a + b, rest)
  {
    if rest.Ok? { assert a + (b + rest.value) == (a + b) + rest.value; }
  }

  /** Every record is padded to its stride; the last padding may be cut short. */
  ghost predicate ValidTable(rs: seq<TextRecord>)
  {
    rs != [] ==> ValidRecord(rs[0], |rs| == 1) && ValidTable(rs[1..])
  }

  ghost predicate ValidRecord(r: TextRecord, last: bool)
  {
    && |r.text| < 0x1_0000_0000
    && 36 + |r.text| + |r.pad| <= Stride(|r.text|)
    && (!last ==> 36 + |r.text| + |r.pad| == Stride(|r.text|))
  }

  ghost function EncodeTexts(rs: seq<TextRecord>): seq<Byte>
    requires ValidTable(rs)
  {
    if rs == [] then [] else EncodeRecord(rs[0]) + EncodeTexts(rs[1..])
  }

  function EncodeRecord(r: TextRecord): (b: seq<Byte>)
    requires |r.text| < 0x1_0000_0000
    ensures |b| == 36 + |r.text| + |r.pad|
    ensures b[0..16] == r.uuid && b[16..32] == r.icon && b[32..36] == U32Bytes(|r.text|)
    ensures b[36..36 + |r.text|] == r.text && b[36 + |r.text|..] == r.pad
  {
    r.uuid + r.icon + U32Bytes(|r.text|) + r.text + r.pad
  }

  lemma AppendKeeps<T>(b: seq<T>, after: seq<T>, lo: nat, hi: nat)
    requires lo <= hi <= |b|
    ensures (b + after)[lo..hi] == b[lo..hi]
  {
  }

  lemma EncodedFields(r: TextRecord, after: seq<Byte>, last: bool)
    requires ValidRecord(r, last) && (last ==> after == [])
    ensures var m, n := EncodeRecord(r) + after, |r.text|;
            && U32(m[32..36]) == n
            && FirstRecord(m) == r
            && From(m, Stride(n)) == after
  {
    var b, n := EncodeRecord(r), |r.text|;
    U32RoundTrip(n);
    AppendKeeps(b, after, 0, 16);
    AppendKeeps(b, after, 16, 32);
    AppendKeeps(b, after, 32, 36);
    AppendKeeps(b, after, 36, 36 + n);
    if last { assert b + after == b; } else { AppendKeeps(b, after, 36 + n, Stride(n)); }
  }

  /** Walking an encoded table unpacks exactly its records. */
  lemma {:induction false} TextRoundTrip(rs: seq<TextRecord>)
    requires ValidTable(rs)
    ensures TextRecords(EncodeTexts(rs)) == Ok(rs)
    decreases |rs|
  {
    if rs != [] {
      var r, n := rs[0], |rs[0].text|;
      var b, after := EncodeRecord(r), EncodeTexts(rs[1..]);
      EncodedFields(r, after, |rs| == 1);
      TextRoundTrip(rs[1..]);
      assert FirstRecord(b + after) == r && [r] + rs[1..] == rs;
    }
  }

  lemma EncodeCut(m: seq<Byte>, r: TextRecord)
    requires |m| >= 36 && U32(m[32..36]) == |r.text| && |m| >= 36 + |r.text|
    requires r == TextRecord(m[0..16], m[16..32], m[36..36 + |r.text|], Slice(m, 36 + |r.text|, Stride(|r.text|)))
    ensures EncodeRecord(r) == Slice(m, 0, 36 + |r.text| + |r.pad|)
  {
    U32BytesOfU32(m[32..36]);
    var n := |r.text|;
    FivePieces(m, 16, 32, 36, 36 + n, 36 + n + |r.pad|);
  }

  lemma FivePieces<T>(s: seq<T>, a: nat, b: nat, c: nat, d: nat, e: nat)
    requires a <= b <= c <= d <= e <= |s|
    ensures s[0..a] + s[a..b] + s[b..c] + s[c..d] + s[d..e] == s[0..e]
  {
    assert s[0..a] + s[a..b] == s[0..b];
    assert s[0..b] + s[b..c] == s[0..c];
    assert s[0..c] + s[c..d] == s[0..d];
  }

  /** ... and whatever a walk unpacks without an exception was such a table. */
  lemma {:induction false} TextRoundTripBack(m: seq<Byte>)
    requires TextRecords(m).Ok?
    ensures ValidTable(TextRecords(m).value) && EncodeTexts(TextRecords(m).value) == m
    decreases |m|
  {
    if m != [] {
      TextUnfolds(m);
      var r := FirstRecord(m);
      var rest := From(m, Stride(|r.text|));
      TextRoundTripBack(rest);
      FirstIsCut(m, r);
      TableCons(r, TextRecords(rest).value);
    }
  }

  lemma TextUnfolds(m: seq<Byte>)
    requires m != [] && TextRecords(m).Ok?
    ensures |m| >= 36 && |m| >= 36 + U32(m[32..36])
    ensures var r := FirstRecord(m);
            var rest := From(m, Stride(|r.text|));
            && |r.text| == U32(m[32..36]) && |rest| < |m|
            && TextRecords(rest).Ok? && TextRecords(m).value == [r] + TextRecords(rest).value
            && (TextRecords(rest).value == [] ==> rest == [])
  {
    StrideRoundsUp(U32(m[32..36]));
  }

  /** The first record is encoded by what stands in front of the rest. */
  lemma FirstIsCut(m: seq<Byte>, r: TextRecord)
    requires |m| >= 36 && |m| >= 36 + U32(m[32..36]) && r == FirstRecord(m)
    ensures ValidRecord(r, From(m, Stride(|r.text|)) == [])
    ensures EncodeRecord(r) + From(m, Stride(|r.text|)) == m
  {
    StrideRoundsUp(U32(m[32..36]));
    U32BytesOfU32(m[32..36]);
    EncodeCut(m, r);
  }

  lemma TableCons(r: TextRecord, rs: seq<TextRecord>)
    requires ValidRecord(r, rs == []) && ValidTable(rs)
    ensures ValidTable([r] + rs) && EncodeTexts([r] + rs) == EncodeRecord(r) + EncodeTexts(rs)
  {
    assert ([r] + rs)[1..] == rs;
  }

  /** `as_dict` succeeds exactly on encoded tables. */
  lemma TextParsesIffEncoded(m: seq<Byte>)
    ensures TextRecords(m).Ok? <==> exists rs :: ValidTable(rs) && EncodeTexts(rs) == m
  {
    if TextRecords(m).Ok? {
      TextRoundTripBack(m);
    }
    forall rs | ValidTable(rs) && EncodeTexts(rs) == m ensures TextRecords(m).Ok? {
      TextRoundTrip(rs);
    }
  }

  /** The dict of an encoded table holds the last text of each of its uuids. */
  lemma TextDictMeaning(rs: seq<TextRecord>, decode: Decoder)
    requires ValidTable(rs)
    ensures TextRecords(EncodeTexts(rs)) == Ok(rs)
    ensures MapsToLast(UuidText, DictOf(UuidText, TextEntries(rs, decode)), TextEntries(rs, decode))
  {
    TextRoundTrip(rs);
    DictMeaning(UuidText, TextEntries(rs, decode));
  }

  /** ... so each uuid's text leads to the text of its last record in the table. */
  lemma LastTextWins(rs: seq<TextRecord>, decode: Decoder, i: nat)
    requires ValidTable(rs) && i < |rs| && forall j :: i < j < |rs| ==> rs[j].uuid != rs[i].uuid
    ensures var d := DictOf(UuidText, TextEntries(rs, decode));
            && TextRecords(EncodeTexts(rs)) == Ok(rs)
            && UuidText(rs[i].uuid) in d && d[UuidText(rs[i].uuid)] == decode(rs[i].text)
  {
    TextDictMeaning(rs, decode);
    UuidKeysAreInjective();
    var es := TextEntries(rs, decode);
    assert IsLastOf(es, i);
    LastValueOf<Uuid, string>(UuidText, DictOf(UuidText, es), es, i);
  }
}
