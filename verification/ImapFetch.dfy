/** FETCH responses: messages as dictionaries of their items, by message number or UID. */
module ImapFetch {
  import opened Common
  import opened ImapLexing
  import opened ImapLexer
  import opened ImapParsing
  import opened ImapPrinting
  import opened ImapReader

  const UID: seq<byte> := [85, 73, 68]
  const SEQ: seq<byte> := [83, 69, 81]
  const BODY: seq<byte> := [66, 79, 68, 89]
  const BODYSTRUCTURE: seq<byte> := BODY + [83, 84, 82, 85, 67, 84, 85, 82, 69]
  const INTERNALDATE: seq<byte> := [73, 78, 84, 69, 82, 78, 65, 76, 68, 65, 84, 69]
  const ENVELOPE: seq<byte> := [69, 78, 86, 69, 76, 79, 80, 69]

  /** What is stored for an item; the conversion of dates, envelopes and body structures is not modelled. */
  datatype Field = Integer(n: int) | Plain(value: Value) | Converted(word: seq<byte>, value: Value)

  type Data = map<seq<byte>, Field>

  datatype FetchError =
    | Malformed(error: ParseError)
    | InvalidMessageId
    | UnexpectedEof
    | BadResponseType
    | UnevenItems
    | NameIsNoWord
    | InvalidUid

  // ----- One message

  /** ASCII upper case. */
  function Upper(s: seq<byte>): seq<byte> {
    seq(|s|, i requires 0 <= i < |s| => if 97 <= s[i] <= 122 then s[i] - 32 else s[i])
  }

  predicate IsSpace(b: byte) {
    9 <= b <= 13 || b == 32
  }

  function StripLeft(s: seq<byte>): seq<byte> {
    if s != [] && IsSpace(s[0]) then StripLeft(s[1..]) else s
  }

  function StripRight(s: seq<byte>): seq<byte> {
    if s != [] && IsSpace(s[|s| - 1]) then StripRight(s[..|s| - 1]) else s
  }

  /** `int(value)`; None stands for TypeError and ValueError. */
  function IntOf(value: Value): Option<int> {
    match value
    case Number(n) => Some(n)
    case Bytes(b) => PyInt(StripRight(StripLeft(b)))
    case Nil => None
    case Tuple(_) => None
  }

  /** The key a message gets, and its items so far. */
  datatype Message = Message(key: int, data: Data)

  function AddItem(m: Message, name: Value, value: Value, uidIsKey: bool): Result<Message, FetchError> {
    if !name.Bytes? then Err(NameIsNoWord)
    else
      var word := Upper(name.b);
      if word == UID then
        match IntOf(value)
        case None => Err(InvalidUid)
        case Some(n) => Ok(if uidIsKey then m.(key := n) else m.(data := m.data[word := Integer(n)]))
      else if word == INTERNALDATE || word == ENVELOPE || word == BODY || word == BODYSTRUCTURE then
        Ok(m.(data := m.data[word := Converted(word, value)]))
      else Ok(m.(data := m.data[word := Plain(value)]))
  }

  function AddItems(m: Message, items: seq<Value>, uidIsKey: bool): Result<Message, FetchError>
    requires |items| % 2 == 0
    decreases |items|
  {
    if items == [] then Ok(m)
    else
      match AddItem(m, items[0], items[1], uidIsKey)
      case Err(e) => Err(e)
      case Ok(m') => AddItems(m', items[2..], uidIsKey)
  }

  function Start(n: int): Message {
    Message(n, map[SEQ := Integer(n)])
  }

  function ParseMessage(n: int, response: Value, uidIsKey: bool): Result<Message, FetchError> {
    if !response.Tuple? then Err(BadResponseType)
    else if |response.items| % 2 != 0 then Err(UnevenItems)
    else AddItems(Start(n), response.items, uidIsKey)
  }

  /** `parsed_response[msg_id].update(msg_data)`. */
  function Merge(all: map<int, Data>, m: Message): map<int, Data> {
    all[m.key := (if m.key in all then all[m.key] else map[]) + m.data]
  }

  // ----- The response, value by value

  /** One step of the generator of parsed values; None at its end. */
  function NextValue(l: Lexed): (r: Result<Option<(Value, Lexed)>, ParseError>)
    ensures r.Ok? && r.value.Some? ==> |r.value.value.1.toks| < |l.toks|
  {
    if l.toks == [] then (if l.error.Some? then Err(LexFailure(l.error.value)) else Ok(None))
    else
      match Atom(l.toks[0], Tail(l))
      case Err(e) => Err(e)
      case Ok(a) => Ok(Some(a))
  }

  /** parse_fetch_response on a token stream: values are parsed only when they are needed. */
  function FetchFrom(all: map<int, Data>, l: Lexed, uidIsKey: bool): Result<map<int, Data>, FetchError>
    decreases |l.toks|
  {
    match NextValue(l)
    case Err(e) => Err(Malformed(e))
    case Ok(None) => Ok(all)
    case Ok(Some((id, l1))) =>
      if IntOf(id).None? then Err(InvalidMessageId)
      else
        match NextValue(l1)
        case Err(e) => Err(Malformed(e))
        case Ok(None) => Err(UnexpectedEof)
        case Ok(Some((response, l2))) =>
          match ParseMessage(IntOf(id).value, response, uidIsKey)
          case Err(e) => Err(e)
          case Ok(m) => FetchFrom(Merge(all, m), l2, uidIsKey)
  }

  function ParseFetch(records: seq<Record>, uidIsKey: bool): Result<map<int, Data>, FetchError> {
    FetchFrom(map[], LexRecords(records), uidIsKey)
  }

  // ----- The loops

  method ReadValue(src: Lexer) returns (r: Result<Option<Value>, ParseError>)
    requires src.Valid()
    modifies src, src.stream
    ensures src.Valid() && (src.stream == old(src.stream) || fresh(src.stream))
    ensures match NextValue(old(src.Rest()))
            case Err(e) => r == Err(e)
            case Ok(None) => r == Ok(None)
            case Ok(Some(v)) => r == Ok(Some(v.0)) && src.Rest() == v.1
  {
    hide Atom;
    var token := src.NextToken();
    if token.Err? { return Err(LexFailure(token.error)); }
    if token.value.None? { return Ok(None); }
    var value := ReadAtom(src, token.value.value);
    if value.Err? { return Err(value.error); }
    return Ok(Some(value.value));
  }

  /** The loop over the items of a message. */
  method ReadItems(n: int, items: seq<Value>, uidIsKey: bool) returns (r: Result<Message, FetchError>)
    requires |items| % 2 == 0
    ensures r == AddItems(Start(n), items, uidIsKey)
  {
    var key, data: Data := n, map[SEQ := Integer(n)];
    var i := 0;
    assert items[0..] == items;
    while i < |items|
      invariant i % 2 == 0 && i <= |items|
      invariant AddItems(Message(key, data), items[i..], uidIsKey) == AddItems(Start(n), items, uidIsKey)
    {
      var name, value := items[i], items[i + 1];
      assert items[i..][0] == name && items[i..][1] == value && items[i..][2..] == items[i + 2..];
      if !name.Bytes? { return Err(NameIsNoWord); }
      var word := Upper(name.b);
      if word == UID {
        var uid := IntOf(value);
        if uid.None? { return Err(InvalidUid); }
        if uidIsKey { key := uid.value; } else { data := data[word := Integer(uid.value)]; }
      } else if word == INTERNALDATE || word == ENVELOPE || word == BODY || word == BODYSTRUCTURE {
        data := data[word := Converted(word, value)];
      } else {
        data := data[word := Plain(value)];
      }
      i := i + 2;
    }
    return Ok(Message(key, data));
  }

  /** parse_fetch_response. */
  method ReadFetch(records: seq<Record>, uidIsKey: bool) returns (r: Result<map<int, Data>, FetchError>)
    ensures r == ParseFetch(records, uidIsKey)
  {
    hide NextValue, IntOf, Merge, AddItems;
    var src := new Lexer(records);
    var all: map<int, Data> := map[];
    while true
      invariant src.Valid() && fresh(src) && fresh(src.stream)
      invariant FetchFrom(all, src.Rest(), uidIsKey) == ParseFetch(records, uidIsKey)
      decreases |src.Rest().toks|
    {
      var id := ReadValue(src);
      if id.Err? { return Err(Malformed(id.error)); }
      if id.value.None? { return Ok(all); }
      var n := IntOf(id.value.value);
      if n.None? { return Err(InvalidMessageId); }
      var response := ReadValue(src);
      if response.Err? { return Err(Malformed(response.error)); }
      if response.value.None? { return Err(UnexpectedEof); }
      if !response.value.value.Tuple? { return Err(BadResponseType); }
      if |response.value.value.items| % 2 != 0 { return Err(UnevenItems); }
      var m := ReadItems(n.value, response.value.value.items, uidIsKey);
      if m.Err? { return Err(m.error); }
      all := Merge(all, m.value);
    }
  }

  // ----- Parsing as needed and parsing first

  /** The same over a list of values. */
  function FetchValues(all: map<int, Data>, values: seq<Value>, uidIsKey: bool): Result<map<int, Data>, FetchError>
    decreases |values|
  {
    if values == [] then Ok(all)
    else if IntOf(values[0]).None? then Err(InvalidMessageId)
    else if |values| == 1 then Err(UnexpectedEof)
    else
      match ParseMessage(IntOf(values[0]).value, values[1], uidIsKey)
      case Err(e) => Err(e)
      case Ok(m) => FetchValues(Merge(all, m), values[2..], uidIsKey)
  }

  lemma ParseAllStep(l: Lexed)
    requires ParseAll(l).Ok?
    ensures NextValue(l).Ok?
    ensures NextValue(l).value.None? ==> ParseAll(l).value == []
    ensures NextValue(l).value.Some? ==>
              var (v, l') := NextValue(l).value.value;
              && ParseAll(l').Ok? && ParseAll(l).value != []
              && ParseAll(l).value[0] == v && ParseAll(l).value[1..] == ParseAll(l').value
  {
  }

  /** If the whole response parses, parsing values only when they are needed makes no difference. */
  lemma {:induction false} LazyIsEager(all: map<int, Data>, l: Lexed, uidIsKey: bool)
    requires ParseAll(l).Ok?
    ensures FetchFrom(all, l, uidIsKey) == FetchValues(all, ParseAll(l).value, uidIsKey)
    decreases |l.toks|
  {
    hide NextValue, ParseAll, IntOf, ParseMessage, Merge;
    var values := ParseAll(l).value;
    ParseAllStep(l);
    if NextValue(l).value.Some? {
      var (id, l1) := NextValue(l).value.value;
      ParseAllStep(l1);
      if NextValue(l1).value.Some? {
        var (response, l2) := NextValue(l1).value.value;
        assert values[1..][1..] == values[2..] && values[1] == values[1..][0];
        if IntOf(id).Some? {
          var m := ParseMessage(IntOf(id).value, response, uidIsKey);
          if m.Ok? { LazyIsEager(Merge(all, m.value), l2, uidIsKey); }
        }
      }
    }
  }

  // ----- Round trip

  /** A message as a server sends it: its number, and names with printed values. */
  datatype Fetch = Fetch(n: nat, fields: seq<(seq<byte>, Printed)>)

  function FieldsPrinted(fields: seq<(seq<byte>, Printed)>): seq<Printed> {
    if fields == [] then [] else [PWord(fields[0].0), fields[0].1] + FieldsPrinted(fields[1..])
  }

  function MessagesPrinted(ms: seq<Fetch>): seq<Printed> {
    if ms == [] then [] else [PNumber(ms[0].n), PTuple(FieldsPrinted(ms[0].fields))] + MessagesPrinted(ms[1..])
  }

  ghost predicate GoodField(f: (seq<byte>, Printed)) {
    PlainWord(f.0) && WellFormed(f.1) && (Upper(f.0) == UID ==> IntOf(ValueOf(f.1)).Some?)
  }

  ghost predicate Good(ms: seq<Fetch>) {
    forall i, j :: 0 <= i < |ms| && 0 <= j < |ms[i].fields| ==> GoodField(ms[i].fields[j])
  }

  /** What an item is stored as. */
  function FieldOf(f: (seq<byte>, Printed)): Field {
    var word := Upper(f.0);
    if word == UID && IntOf(ValueOf(f.1)).Some? then Integer(IntOf(ValueOf(f.1)).value)
    else if word == INTERNALDATE || word == ENVELOPE || word == BODY || word == BODYSTRUCTURE then
      Converted(word, ValueOf(f.1))
    else Plain(ValueOf(f.1))
  }

  ghost predicate IsKeyField(f: (seq<byte>, Printed), uidIsKey: bool) {
    uidIsKey && Upper(f.0) == UID
  }

  /** `m` is what the items say: the last UID gives the key, and for every other name the last item is stored. */
  ghost predicate Holds(m: Message, n: int, fields: seq<(seq<byte>, Printed)>, uidIsKey: bool) {
    && (forall i :: 0 <= i < |fields| && IsKeyField(fields[i], uidIsKey) && Last(fields, i) ==>
          IntOf(ValueOf(fields[i].1)) == Some(m.key))
    && ((forall i :: 0 <= i < |fields| ==> !IsKeyField(fields[i], uidIsKey)) ==> m.key == n)
    && (forall i :: 0 <= i < |fields| && !IsKeyField(fields[i], uidIsKey) && Last(fields, i) ==>
          Upper(fields[i].0) in m.data && m.data[Upper(fields[i].0)] == FieldOf(fields[i]))
    && (forall w :: w in m.data && w != SEQ ==>
          exists i :: 0 <= i < |fields| && Upper(fields[i].0) == w && !IsKeyField(fields[i], uidIsKey))
    && SEQ in m.data
    && ((forall i :: 0 <= i < |fields| ==> Upper(fields[i].0) != SEQ) ==> m.data[SEQ] == Integer(n))
  }

  /** No later item has the same name, ignoring case. */
  ghost predicate Last(fields: seq<(seq<byte>, Printed)>, i: int)
    requires 0 <= i < |fields|
  {
    forall j :: i < j < |fields| ==> Upper(fields[j].0) != Upper(fields[i].0)
  }

  function AddFields(m: Message, fields: seq<(seq<byte>, Printed)>, uidIsKey: bool): Result<Message, FetchError>
    decreases |fields|
  {
    if fields == [] then Ok(m)
    else
      match AddFields(m, fields[..|fields| - 1], uidIsKey)
      case Err(e) => Err(e)
      case Ok(m') =>
        var f := fields[|fields| - 1];
        AddItem(m', Bytes(f.0), ValueOf(f.1), uidIsKey)
  }

  lemma LastOfPrefix(fields: seq<(seq<byte>, Printed)>, i: int)
    requires 0 <= i < |fields| - 1 && Last(fields, i)
    ensures Last(fields[..|fields| - 1], i) && Upper(fields[|fields| - 1].0) != Upper(fields[i].0)
  {
  }

  /** One more item. */
  lemma HoldsStep(m: Message, n: int, fields: seq<(seq<byte>, Printed)>, uidIsKey: bool)
    requires fields != [] && GoodField(fields[|fields| - 1]) && Holds(m, n, fields[..|fields| - 1], uidIsKey)
    ensures var f := fields[|fields| - 1];
            var r := AddItem(m, Bytes(f.0), ValueOf(f.1), uidIsKey);
            r.Ok? && Holds(r.value, n, fields, uidIsKey)
  {
    hide Upper, IntOf, PlainWord, WellFormed, ValueOf, Last;
    var k := |fields| - 1;
    var before, f := fields[..k], fields[k];
    var m' := AddItem(m, Bytes(f.0), ValueOf(f.1), uidIsKey).value;
    forall i | 0 <= i < |fields| && IsKeyField(fields[i], uidIsKey) && Last(fields, i)
      ensures IntOf(ValueOf(fields[i].1)) == Some(m'.key)
    {
      if i < k { LastOfPrefix(fields, i); assert before[i] == fields[i]; }
    }
    forall i | 0 <= i < |fields| && !IsKeyField(fields[i], uidIsKey) && Last(fields, i)
      ensures Upper(fields[i].0) in m'.data && m'.data[Upper(fields[i].0)] == FieldOf(fields[i])
    {
      if i < k { LastOfPrefix(fields, i); assert before[i] == fields[i]; }
    }
    forall w | w in m'.data && w != SEQ
      ensures exists i :: 0 <= i < |fields| && Upper(fields[i].0) == w && !IsKeyField(fields[i], uidIsKey)
    {
      if w in m.data {
        var i :| 0 <= i < |before| && Upper(before[i].0) == w && !IsKeyField(before[i], uidIsKey);
        assert fields[i] == before[i];
      } else {
        assert Upper(fields[k].0) == w;
      }
    }
    if forall i :: 0 <= i < |fields| ==> !IsKeyField(fields[i], uidIsKey) {
      forall i | 0 <= i < |before| ensures !IsKeyField(before[i], uidIsKey) { assert before[i] == fields[i]; }
    }
    if forall i :: 0 <= i < |fields| ==> Upper(fields[i].0) != SEQ {
      forall i | 0 <= i < |before| ensures Upper(before[i].0) != SEQ { assert before[i] == fields[i]; }
    }
  }

  /** A message holds exactly its items; of items with the same name, ignoring case, the last one wins. */
  lemma {:induction false} FieldsHold(n: int, fields: seq<(seq<byte>, Printed)>, uidIsKey: bool)
    requires forall i :: 0 <= i < |fields| ==> GoodField(fields[i])
    ensures AddFields(Start(n), fields, uidIsKey).Ok?
    ensures Holds(AddFields(Start(n), fields, uidIsKey).value, n, fields, uidIsKey)
    decreases |fields|
  {
    hide GoodField;
    if fields == [] {
      StartHolds(n, uidIsKey);
    } else {
      hide Holds;
      var before := fields[..|fields| - 1];
      assert forall i :: 0 <= i < |before| ==> before[i] == fields[i];
      FieldsHold(n, before, uidIsKey);
      HoldsStep(AddFields(Start(n), before, uidIsKey).value, n, fields, uidIsKey);
    }
  }

  lemma StartHolds(n: int, uidIsKey: bool)
    ensures Holds(Start(n), n, [], uidIsKey)
  {
  }

  // ----- From the printed values to the items

  lemma {:induction false} ValuesConcat(a: seq<Printed>, b: seq<Printed>)
    ensures ValuesOf(a + b) == ValuesOf(a) + ValuesOf(b)
    decreases |a|
  {
    hide ValueOf;
    if a == [] {
      assert a + b == b;
    } else {
      assert (a + b)[1..] == a[1..] + b;
      ValuesConcat(a[1..], b);
    }
  }

  lemma PairValues(f: (seq<byte>, Printed))
    ensures ValuesOf([PWord(f.0), f.1]) == [Bytes(f.0), ValueOf(f.1)]
  {
    var ps := [PWord(f.0), f.1];
    assert ps[1..] == [f.1] && ps[1..][1..] == [];
    assert ValuesOf(ps[1..]) == [ValueOf(f.1)];
  }

  lemma {:induction false} FieldsSnoc(fields: seq<(seq<byte>, Printed)>, f: (seq<byte>, Printed))
    ensures FieldsPrinted(fields + [f]) == FieldsPrinted(fields) + [PWord(f.0), f.1]
    decreases |fields|
  {
    if fields == [] {
      assert [] + [f] == [f] && [f][1..] == [];
    } else {
      assert (fields + [f])[1..] == fields[1..] + [f];
      FieldsSnoc(fields[1..], f);
    }
  }

  lemma {:induction false} AddItemsConcat(m: Message, a: seq<Value>, b: seq<Value>, uidIsKey: bool)
    requires |a| % 2 == 0 && |b| % 2 == 0
    ensures (|a + b|) % 2 == 0
    ensures AddItems(m, a + b, uidIsKey)
         == match AddItems(m, a, uidIsKey)
            case Err(e) => Err(e)
            case Ok(m') => AddItems(m', b, uidIsKey)
    decreases |a|
  {
    hide AddItem;
    if a == [] {
      assert a + b == b;
    } else {
      assert (a + b)[0] == a[0] && (a + b)[1] == a[1] && (a + b)[2..] == a[2..] + b;
      var r := AddItem(m, a[0], a[1], uidIsKey);
      if r.Ok? { AddItemsConcat(r.value, a[2..], b, uidIsKey); }
    }
  }

  lemma {:induction false} EvenValues(fields: seq<(seq<byte>, Printed)>)
    ensures |FieldsPrinted(fields)| % 2 == 0
  {
    if fields != [] { EvenValues(fields[1..]); }
  }

  lemma {:induction false} ItemsAreFields(m: Message, fields: seq<(seq<byte>, Printed)>, uidIsKey: bool)
    ensures |ValuesOf(FieldsPrinted(fields))| % 2 == 0
    ensures AddItems(m, ValuesOf(FieldsPrinted(fields)), uidIsKey) == AddFields(m, fields, uidIsKey)
    decreases |fields|
  {
    EvenValues(fields);
    if fields != [] {
      var before, f := fields[..|fields| - 1], fields[|fields| - 1];
      assert fields == before + [f];
      FieldsSnoc(before, f);
      ValuesConcat(FieldsPrinted(before), [PWord(f.0), f.1]);
      PairValues(f);
      hide FieldsPrinted, ValuesOf, ValueOf, AddItem;
      ItemsAreFields(m, before, uidIsKey);
      AddItemsConcat(m, ValuesOf(FieldsPrinted(before)), [Bytes(f.0), ValueOf(f.1)], uidIsKey);
      LastPair(f, uidIsKey);
    }
  }

  lemma LastPair(f: (seq<byte>, Printed), uidIsKey: bool)
    ensures forall m ::
              AddItems(m, [Bytes(f.0), ValueOf(f.1)], uidIsKey) == AddItem(m, Bytes(f.0), ValueOf(f.1), uidIsKey)
  {
    hide AddItem;
    var pair := [Bytes(f.0), ValueOf(f.1)];
    assert pair[2..] == [];
  }

  // ----- Whole responses

  /** The message as the response describes it. */
  function MessageOf(f: Fetch, uidIsKey: bool): Message {
    var r := AddFields(Start(f.n), f.fields, uidIsKey);
    if r.Ok? then r.value else Start(f.n)
  }

  function MergeAll(all: map<int, Data>, ms: seq<Fetch>, uidIsKey: bool): map<int, Data>
    decreases |ms|
  {
    if ms == [] then all else MergeAll(Merge(all, MessageOf(ms[0], uidIsKey)), ms[1..], uidIsKey)
  }

  lemma MessageValues(f: Fetch, rest: seq<Printed>)
    ensures ValuesOf([PNumber(f.n), PTuple(FieldsPrinted(f.fields))] + rest)
         == [Number(f.n), Tuple(ValuesOf(FieldsPrinted(f.fields)))] + ValuesOf(rest)
  {
    var t := PTuple(FieldsPrinted(f.fields));
    var ps := [PNumber(f.n), t];
    ValuesConcat(ps, rest);
    assert ps[1..] == [t] && ps[1..][1..] == [];
    assert ValueOf(t) == Tuple(ValuesOf(FieldsPrinted(f.fields)));
    assert ValuesOf(ps[1..]) == [ValueOf(t)];
  }

  lemma {:induction false} MessagesFetched(all: map<int, Data>, ms: seq<Fetch>, uidIsKey: bool)
    requires Good(ms)
    ensures FetchValues(all, ValuesOf(MessagesPrinted(ms)), uidIsKey) == Ok(MergeAll(all, ms, uidIsKey))
    decreases |ms|
  {
    if ms != [] {
      hide ValuesOf, FieldsPrinted, AddItems, AddFields, Good, Holds, Merge, GoodField;
      var f, rest := ms[0], MessagesPrinted(ms[1..]);
      MessageValues(f, rest);
      GoodParts(ms);
      ItemsAreFields(Start(f.n), f.fields, uidIsKey);
      FieldsHold(f.n, f.fields, uidIsKey);
      var values := ValuesOf(MessagesPrinted(ms));
      var items := ValuesOf(FieldsPrinted(f.fields));
      assert values == [Number(f.n), Tuple(items)] + ValuesOf(rest);
      assert values[0] == Number(f.n) && values[1] == Tuple(items) && values[2..] == ValuesOf(rest);
      MessagesFetched(Merge(all, MessageOf(f, uidIsKey)), ms[1..], uidIsKey);
    }
  }

  lemma GoodParts(ms: seq<Fetch>)
    requires Good(ms) && ms != []
    ensures Good(ms[1..]) && forall j :: 0 <= j < |ms[0].fields| ==> GoodField(ms[0].fields[j])
  {
    hide GoodField;
    forall i, j | 0 <= i < |ms[1..]| && 0 <= j < |ms[1..][i].fields| ensures GoodField(ms[1..][i].fields[j]) {
      assert GoodField(ms[i + 1].fields[j]);
    }
    forall j | 0 <= j < |ms[0].fields| ensures GoodField(ms[0].fields[j]) { }
  }

  lemma {:induction false} MessagesWellFormed(ms: seq<Fetch>)
    requires Good(ms)
    ensures forall i :: 0 <= i < |MessagesPrinted(ms)| ==> WellFormed(MessagesPrinted(ms)[i])
    decreases |ms|
  {
    if ms != [] {
      hide Good, GoodField;
      GoodParts(ms);
      FieldsWellFormed(ms[0].fields);
      MessagesWellFormed(ms[1..]);
    }
  }

  lemma {:induction false} FieldsWellFormed(fields: seq<(seq<byte>, Printed)>)
    requires forall i :: 0 <= i < |fields| ==> GoodField(fields[i])
    ensures forall i :: 0 <= i < |FieldsPrinted(fields)| ==> WellFormed(FieldsPrinted(fields)[i])
  {
    hide PlainWord, IntOf, Upper;
    if fields != [] {
      assert GoodField(fields[0]);
      FieldsWellFormed(fields[1..]);
    }
  }

  /** Messages printed as IMAP records and parsed again: the result merges, message by message, what each of them
      holds, under its number or its UID. */
  lemma FetchRoundTrip(ms: seq<Fetch>, uidIsKey: bool)
    requires Good(ms)
    ensures ParseFetch(PrintAll(MessagesPrinted(ms), [Line([])]), uidIsKey) == Ok(MergeAll(map[], ms, uidIsKey))
  {
    MessagesWellFormed(ms);
    hide Good, WellFormed, MessagesPrinted;
    var ps := MessagesPrinted(ms);
    var records := PrintAll(ps, [Line([])]);
    ParsePrintRoundTrip(ps);
    LazyIsEager(map[], LexRecords(records), uidIsKey);
    MessagesFetched(map[], ms, uidIsKey);
  }

  /** With different keys no message touches another one. */
  lemma {:induction false} DistinctMessages(all: map<int, Data>, ms: seq<Fetch>, uidIsKey: bool)
    requires forall i, j :: 0 <= i < j < |ms| ==> MessageOf(ms[i], uidIsKey).key != MessageOf(ms[j], uidIsKey).key
    requires forall i :: 0 <= i < |ms| ==> MessageOf(ms[i], uidIsKey).key !in all
    ensures forall k :: k in all ==> k in MergeAll(all, ms, uidIsKey) && MergeAll(all, ms, uidIsKey)[k] == all[k]
    ensures forall i :: 0 <= i < |ms| ==>
              var m := MessageOf(ms[i], uidIsKey);
              m.key in MergeAll(all, ms, uidIsKey) && MergeAll(all, ms, uidIsKey)[m.key] == m.data
    ensures forall k :: k in MergeAll(all, ms, uidIsKey) ==>
              k in all || exists i :: 0 <= i < |ms| && MessageOf(ms[i], uidIsKey).key == k
    decreases |ms|
  {
    hide MessageOf;
    if ms != [] {
      var m, rest := MessageOf(ms[0], uidIsKey), ms[1..];
      var all' := Merge(all, m);
      assert all' == all[m.key := m.data] by { assert map[] + m.data == m.data; }
      assert forall i :: 0 <= i < |rest| ==> rest[i] == ms[i + 1];
      DistinctMessages(all', rest, uidIsKey);
      forall i | 0 <= i < |ms|
        ensures var m := MessageOf(ms[i], uidIsKey);
                m.key in MergeAll(all, ms, uidIsKey) && MergeAll(all, ms, uidIsKey)[m.key] == m.data
      {
        if i > 0 { assert ms[i] == rest[i - 1]; }
      }
    }
  }
}
