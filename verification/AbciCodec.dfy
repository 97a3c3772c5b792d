/** Attribute, StringEvent, ABCIMessageLog and GasInfo: sizes, encodings and decoding. */
module AbciCodec {
  import opened Words
  import opened Wire

  /** Strings are byte strings. */
  datatype Attribute = Attribute(key: Bytes, value: Bytes)
  datatype StringEvent = StringEvent(typ: Bytes, attributes: seq<Attribute>)
  datatype MessageLog = MessageLog(msgIndex: Uint32, log: Bytes, events: seq<StringEvent>)
  datatype GasInfo = GasInfo(gasWanted: Uint64, gasUsed: Uint64)

  const NO_ATTRIBUTE := Attribute([], [])
  const NO_EVENT := StringEvent([], [])
  const NO_LOG := MessageLog(0, [], [])
  const NO_GAS := GasInfo(0, 0)

  // ---- The encoding, front to back ----

  /** A length-delimited field with a one-byte tag. */
  function Delimited(tag: Byte, data: Bytes): Bytes {
    [tag] + (EncodeVarint(|data|) + data)
  }

  /** A string field; the empty string is left out. */
  function Str(tag: Byte, data: Bytes): Bytes {
    if data == [] then [] else Delimited(tag, data)
  }

  /** A varint field; zero is left out. */
  function Num(tag: Byte, v: Uint64): Bytes {
    if v == 0 then [] else [tag] + EncodeVarint(v)
  }

  function EncodeAttribute(a: Attribute): Bytes {
    Str(0x0a, a.key) + Str(0x12, a.value)
  }

  /** A repeated message field: one delimited field per element, empty ones included. */
  function Repeated<T>(tag: Byte, encode: T -> Bytes, xs: seq<T>): Bytes {
    if xs == [] then [] else Delimited(tag, encode(xs[0])) + Repeated(tag, encode, xs[1..])
  }

  function EncodeEvent(e: StringEvent): Bytes {
    Str(0x0a, e.typ) + Repeated(0x12, EncodeAttribute, e.attributes)
  }

  function EncodeLog(l: MessageLog): Bytes {
    Num(0x08, l.msgIndex) + (Str(0x12, l.log) + Repeated(0x1a, EncodeEvent, l.events))
  }

  function EncodeGas(g: GasInfo): Bytes {
    Num(0x08, g.gasWanted) + Num(0x10, g.gasUsed)
  }

  // ---- The encodings as fields of the message definitions ----

  /** A singular field is left out when it has its default value. */
  function Singular(f: WireField): seq<WireField> {
    if (f.AVarint? && f.v == 0) || (f.ALen? && f.data == []) then [] else [f]
  }

  function Elements<T>(num: nat, encode: T -> Bytes, xs: seq<T>): seq<WireField> {
    seq(|xs|, i requires 0 <= i < |xs| => ALen(num, encode(xs[i])))
  }

  lemma {:induction false} EmitConcat(a: seq<WireField>, b: seq<WireField>)
    ensures EmitAll(a + b) == EmitAll(a) + EmitAll(b)
    decreases |a|
  {
    if a == [] {
      assert a + b == b;
    } else {
      assert (a + b)[1..] == a[1..] + b;
      EmitConcat(a[1..], b);
    }
  }

  lemma {:induction false} SmallTag(num: nat, wireType: nat)
    requires 1 <= num < 16 && wireType < 8
    ensures Tag(num, wireType) == [8 * num + wireType]
  {
  }

  lemma {:induction false} OneField(f: WireField)
    ensures EmitAll([f]) == Emit(f)
  {
    assert [f][1..] == [];
    assert Emit(f) + [] == Emit(f);
  }

  lemma {:induction false} StrIsField(num: nat, data: Bytes)
    requires 1 <= num < 16
    ensures EmitAll(Singular(ALen(num, data))) == Str(8 * num + 2, data)
  {
    SmallTag(num, 2);
    OneField(ALen(num, data));
  }

  lemma {:induction false} NumIsField(num: nat, v: Uint64)
    requires 1 <= num < 16
    ensures EmitAll(Singular(AVarint(num, v))) == Num(8 * num, v)
  {
    SmallTag(num, 0);
    OneField(AVarint(num, v));
  }

  lemma {:induction false} RepeatedIsFields<T>(num: nat, encode: T -> Bytes, xs: seq<T>)
    requires 1 <= num < 16
    ensures EmitAll(Elements(num, encode, xs)) == Repeated(8 * num + 2, encode, xs)
    decreases |xs|
  {
    if xs != [] {
      SmallTag(num, 2);
      RepeatedIsFields(num, encode, xs[1..]);
      assert Elements(num, encode, xs)[1..] == Elements(num, encode, xs[1..]);
    }
  }

  /** Field 1 is the key and field 2 the value. */
  lemma {:induction false} AttributeFields(a: Attribute)
    ensures EncodeAttribute(a) == EmitAll(Singular(ALen(1, a.key)) + Singular(ALen(2, a.value)))
  {
    EmitConcat(Singular(ALen(1, a.key)), Singular(ALen(2, a.value)));
    StrIsField(1, a.key);
    StrIsField(2, a.value);
  }

  /** Field 1 is the type and the repeated field 2 the attributes. */
  lemma {:induction false} EventFields(e: StringEvent)
    ensures EncodeEvent(e) == EmitAll(Singular(ALen(1, e.typ)) + Elements(2, EncodeAttribute, e.attributes))
  {
    EmitConcat(Singular(ALen(1, e.typ)), Elements(2, EncodeAttribute, e.attributes));
    StrIsField(1, e.typ);
    RepeatedIsFields(2, EncodeAttribute, e.attributes);
  }

  /** Field 1 is the message index, field 2 the log and the repeated field 3 the events. */
  lemma {:induction false} LogFields(l: MessageLog)
    ensures EncodeLog(l) == EmitAll(Singular(AVarint(1, l.msgIndex))
                                    + (Singular(ALen(2, l.log)) + Elements(3, EncodeEvent, l.events)))
  {
    var text, events := Singular(ALen(2, l.log)), Elements(3, EncodeEvent, l.events);
    EmitConcat(Singular(AVarint(1, l.msgIndex)), text + events);
    EmitConcat(text, events);
    NumIsField(1, l.msgIndex);
    StrIsField(2, l.log);
    RepeatedIsFields(3, EncodeEvent, l.events);
  }

  /** Field 1 is the gas wanted and field 2 the gas used. */
  lemma {:induction false} GasFields(g: GasInfo)
    ensures EncodeGas(g) == EmitAll(Singular(AVarint(1, g.gasWanted)) + Singular(AVarint(2, g.gasUsed)))
  {
    EmitConcat(Singular(AVarint(1, g.gasWanted)), Singular(AVarint(2, g.gasUsed)));
    NumIsField(1, g.gasWanted);
    NumIsField(2, g.gasUsed);
  }

  // ---- Decoding: the field assignments of each message ----

  function AttributeSchema(): Schema {
    map[1 := LenKind, 2 := LenKind]
  }

  function ApplyAttribute(a: Attribute, item: Item): Result<Attribute, WireError> {
    match item
    case Payload(1, data) => Ok(a.(key := data))
    case Payload(2, data) => Ok(a.(value := data))
    case _ => Ok(a)
  }

  function DecodeAttribute(a: Attribute, s: Bytes): Result<Attribute, WireError> {
    Unmarshal(AttributeSchema(), ApplyAttribute, a, s)
  }

  function EventSchema(): Schema {
    map[1 := LenKind, 2 := LenKind]
  }

  function ApplyEvent(e: StringEvent, item: Item): Result<StringEvent, WireError> {
    match item
    case Payload(1, data) => Ok(e.(typ := data))
    case Payload(2, data) =>
      (match DecodeAttribute(NO_ATTRIBUTE, data)
       case Err(x) => Err(x)
       case Ok(a) => Ok(e.(attributes := e.attributes + [a])))
    case _ => Ok(e)
  }

  function DecodeEvent(e: StringEvent, s: Bytes): Result<StringEvent, WireError> {
    Unmarshal(EventSchema(), ApplyEvent, e, s)
  }

  function LogSchema(): Schema {
    map[1 := VarintKind, 2 := LenKind, 3 := LenKind]
  }

  /** The message index keeps the low 32 bits of its varint. */
  function ApplyLog(l: MessageLog, item: Item): Result<MessageLog, WireError> {
    match item
    case Number(1, w) => Ok(l.(msgIndex := w % TWO32))
    case Payload(2, data) => Ok(l.(log := data))
    case Payload(3, data) =>
      (match DecodeEvent(NO_EVENT, data)
       case Err(x) => Err(x)
       case Ok(e) => Ok(l.(events := l.events + [e])))
    case _ => Ok(l)
  }

  function DecodeLog(l: MessageLog, s: Bytes): Result<MessageLog, WireError> {
    Unmarshal(LogSchema(), ApplyLog, l, s)
  }

  function GasSchema(): Schema {
    map[1 := VarintKind, 2 := VarintKind]
  }

  function ApplyGas(g: GasInfo, item: Item): Result<GasInfo, WireError> {
    match item
    case Number(1, w) => Ok(g.(gasWanted := w))
    case Number(2, w) => Ok(g.(gasUsed := w))
    case _ => Ok(g)
  }

  function DecodeGas(g: GasInfo, s: Bytes): Result<GasInfo, WireError> {
    Unmarshal(GasSchema(), ApplyGas, g, s)
  }

  // ---- Single fields decode ----

  lemma {:induction false} ReadTagged(schema: Schema, num: nat, wireType: nat, rest: Bytes)
    requires 1 <= num < 16 && wireType < 8 && 8 * num + wireType < 128
    ensures var s := [8 * num + wireType as Byte] + rest;
            s[1..] == rest && ReadField(schema, s) == ReadValue(schema, s, 1, num, wireType)
  {
    var tag: Byte := 8 * num + wireType;
    assert ReadVarint([tag] + rest, 0) == Ok((tag, 1));
    TagNumber(num, wireType);
  }

  lemma {:induction false} PayloadAfter(s: Bytes, n: nat, k: nat, data: Bytes)
    requires n + k + |data| == |s| && |data| < TWO63 && s[n + k..] == data
    requires ReadVarint(s[n..], 0) == Ok((|data|, k))
    ensures ReadPayload(s, n) == Ok((data, |s|))
  {
    assert s[n + k..n + k + |data|] == s[n + k..];
  }

  lemma NumberAfter(schema: Schema, s: Bytes, num: nat, v: Uint64)
    requires 1 <= |s| && num >= 1 && num in schema && schema[num].VarintKind?
    requires ReadVarint(s[1..], 0) == Ok((v, |s| - 1))
    ensures ReadValue(schema, s, 1, num, 0) == Ok((Number(num, v), |s|))
  {
  }

  lemma {:induction false} ReadDelimited(schema: Schema, num: nat, data: Bytes)
    requires 1 <= num < 16 && num in schema && schema[num].LenKind? && |data| < TWO63
    ensures var s := Delimited(8 * num + 2, data);
            ReadField(schema, s) == Ok((Payload(num, data), |s|))
  {
    ReadTagged(schema, num, 2, EncodeVarint(|data|) + data);
    VarintRoundTrip(|data|, data);
    var s, k := Delimited(8 * num + 2, data), |EncodeVarint(|data|)|;
    assert s[1 + k..] == data;
    PayloadAfter(s, 1, k, data);
  }

  lemma {:induction false} ReadNumber(schema: Schema, num: nat, v: Uint64)
    requires 1 <= num < 16 && num in schema && schema[num].VarintKind?
    ensures var s := [8 * num as Byte] + EncodeVarint(v);
            ReadField(schema, s) == Ok((Number(num, v), |s|))
  {
    ReadTagged(schema, num, 0, EncodeVarint(v));
    VarintRoundTrip(v, []);
    assert EncodeVarint(v) + [] == EncodeVarint(v);
    NumberAfter(schema, [8 * num as Byte] + EncodeVarint(v), num, v);
  }

  /** A message consisting of one delimited field decodes to that field's assignment. */
  lemma {:induction false} DelimitedDecodes<M>(
      schema: Schema, apply: (M, Item) -> Result<M, WireError>, m: M, num: nat, data: Bytes)
    requires 1 <= num < 16 && num in schema && schema[num].LenKind? && |data| < TWO63
    ensures Unmarshal(schema, apply, m, Delimited(8 * num + 2, data)) == apply(m, Payload(num, data))
  {
    var s := Delimited(8 * num + 2, data);
    ReadDelimited(schema, num, data);
    assert s != [] && s[|s|..] == [];
  }

  lemma {:induction false} NumberDecodes<M>(
      schema: Schema, apply: (M, Item) -> Result<M, WireError>, m: M, num: nat, v: Uint64)
    requires 1 <= num < 16 && num in schema && schema[num].VarintKind?
    ensures Unmarshal(schema, apply, m, [8 * num as Byte] + EncodeVarint(v)) == apply(m, Number(num, v))
  {
    var s := [8 * num as Byte] + EncodeVarint(v);
    ReadNumber(schema, num, v);
    assert s != [] && s[|s|..] == [];
  }

  // ---- Round trips ----

  /** Decoding continues after a delimited field with its assignment made. */
  lemma {:induction false} DelimitedThen<M>(
      schema: Schema, apply: (M, Item) -> Result<M, WireError>, m: M, num: nat, data: Bytes, m': M, rest: Bytes)
    requires 1 <= num < 16 && num in schema && schema[num].LenKind? && |data| < TWO63
    requires apply(m, Payload(num, data)) == Ok(m')
    ensures Unmarshal(schema, apply, m, Delimited(8 * num + 2, data) + rest) == Unmarshal(schema, apply, m', rest)
  {
    DelimitedDecodes(schema, apply, m, num, data);
    UnmarshalConcat(schema, apply, m, Delimited(8 * num + 2, data), rest);
  }

  lemma {:induction false} StrThen<M>(
      schema: Schema, apply: (M, Item) -> Result<M, WireError>, m: M, num: nat, data: Bytes, m': M, rest: Bytes)
    requires 1 <= num < 16 && num in schema && schema[num].LenKind? && |data| < TWO63
    requires if data == [] then m == m' else apply(m, Payload(num, data)) == Ok(m')
    ensures Unmarshal(schema, apply, m, Str(8 * num + 2, data) + rest) == Unmarshal(schema, apply, m', rest)
  {
    if data == [] {
      assert Str(8 * num + 2, data) + rest == rest;
    } else {
      DelimitedThen(schema, apply, m, num, data, m', rest);
    }
  }

  lemma {:induction false} NumThen<M>(
      schema: Schema, apply: (M, Item) -> Result<M, WireError>, m: M, num: nat, v: Uint64, m': M, rest: Bytes)
    requires 1 <= num < 16 && num in schema && schema[num].VarintKind?
    requires if v == 0 then m == m' else apply(m, Number(num, v)) == Ok(m')
    ensures Unmarshal(schema, apply, m, Num(8 * num, v) + rest) == Unmarshal(schema, apply, m', rest)
  {
    if v == 0 {
      assert Num(8 * num, v) + rest == rest;
    } else {
      NumberDecodes(schema, apply, m, num, v);
      UnmarshalConcat(schema, apply, m, Num(8 * num, v), rest);
    }
  }

  lemma {:induction false} TwoStrs<M>(
      schema: Schema, apply: (M, Item) -> Result<M, WireError>, m: M, i: nat, x: Bytes, m': M, j: nat, y: Bytes,
      m'': M)
    requires 1 <= i < 16 && i in schema && schema[i].LenKind? && |x| < TWO63
    requires 1 <= j < 16 && j in schema && schema[j].LenKind? && |y| < TWO63
    requires if x == [] then m == m' else apply(m, Payload(i, x)) == Ok(m')
    requires if y == [] then m' == m'' else apply(m', Payload(j, y)) == Ok(m'')
    ensures Unmarshal(schema, apply, m, Str(8 * i + 2, x) + Str(8 * j + 2, y)) == Ok(m'')
  {
    var tail := Str(8 * j + 2, y);
    StrThen(schema, apply, m, i, x, m', tail);
    StrThen(schema, apply, m', j, y, m'', []);
    assert tail + [] == tail;
  }

  lemma {:induction false} TwoNums<M>(
      schema: Schema, apply: (M, Item) -> Result<M, WireError>, m: M, i: nat, x: Uint64, m': M, j: nat, y: Uint64,
      m'': M)
    requires 1 <= i < 16 && i in schema && schema[i].VarintKind?
    requires 1 <= j < 16 && j in schema && schema[j].VarintKind?
    requires if x == 0 then m == m' else apply(m, Number(i, x)) == Ok(m')
    requires if y == 0 then m' == m'' else apply(m', Number(j, y)) == Ok(m'')
    ensures Unmarshal(schema, apply, m, Num(8 * i, x) + Num(8 * j, y)) == Ok(m'')
  {
    var tail := Num(8 * j, y);
    NumThen(schema, apply, m, i, x, m', tail);
    NumThen(schema, apply, m', j, y, m'', []);
    assert tail + [] == tail;
  }

  lemma {:induction false} AttributeRoundTrip(a: Attribute)
    requires |EncodeAttribute(a)| < TWO63
    ensures DecodeAttribute(NO_ATTRIBUTE, EncodeAttribute(a)) == Ok(a)
  {
    TwoStrs(AttributeSchema(), ApplyAttribute, NO_ATTRIBUTE, 1, a.key, Attribute(a.key, []), 2, a.value, a);
  }

  function AddAll<M, T>(add: (M, T) -> M, m: M, xs: seq<T>): M {
    if xs == [] then m else AddAll(add, add(m, xs[0]), xs[1..])
  }

  /** `apply` appends each element it can decode from its encoding. */
  ghost predicate Appends<M(!new), T>(apply: (M, Item) -> Result<M, WireError>, num: nat, encode: T -> Bytes,
                                      add: (M, T) -> M, xs: seq<T>) {
    forall i, m :: 0 <= i < |xs| ==> apply(m, Payload(num, encode(xs[i]))) == Ok(add(m, xs[i]))
  }

  lemma {:induction false} RepeatedDecodes<M(!new), T>(
      schema: Schema, apply: (M, Item) -> Result<M, WireError>, num: nat, encode: T -> Bytes, add: (M, T) -> M, m: M,
      xs: seq<T>)
    requires 1 <= num < 16 && num in schema && schema[num].LenKind?
    requires |Repeated(8 * num + 2, encode, xs)| < TWO63
    requires Appends(apply, num, encode, add, xs)
    ensures Unmarshal(schema, apply, m, Repeated(8 * num + 2, encode, xs)) == Ok(AddAll(add, m, xs))
    decreases |xs|
  {
    if xs != [] {
      var rest := xs[1..];
      assert apply(m, Payload(num, encode(xs[0]))) == Ok(add(m, xs[0]));
      DelimitedThen(schema, apply, m, num, encode(xs[0]), add(m, xs[0]), Repeated(8 * num + 2, encode, rest));
      assert Appends(apply, num, encode, add, rest) by {
        assert forall i :: 0 <= i < |rest| ==> rest[i] == xs[i + 1];
      }
      RepeatedDecodes(schema, apply, num, encode, add, add(m, xs[0]), rest);
    }
  }

  lemma {:induction false} ElementFits<T>(tag: Byte, encode: T -> Bytes, xs: seq<T>, i: nat)
    requires i < |xs|
    ensures |encode(xs[i])| < |Repeated(tag, encode, xs)|
  {
    if i > 0 {
      ElementFits(tag, encode, xs[1..], i - 1);
    }
  }

  function AddAttribute(e: StringEvent, x: Attribute): StringEvent {
    e.(attributes := e.attributes + [x])
  }

  lemma {:induction false} AddAllAttributes(e: StringEvent, xs: seq<Attribute>)
    ensures AddAll(AddAttribute, e, xs) == e.(attributes := e.attributes + xs)
    decreases |xs|
  {
    if xs == [] {
      assert e.attributes + xs == e.attributes;
    } else {
      AddAllAttributes(AddAttribute(e, xs[0]), xs[1..]);
      assert e.attributes + xs == e.attributes + [xs[0]] + xs[1..];
    }
  }

  lemma {:induction false} AttributesDecode(e: StringEvent, xs: seq<Attribute>)
    requires |Repeated(0x12, EncodeAttribute, xs)| < TWO63
    ensures DecodeEvent(e, Repeated(0x12, EncodeAttribute, xs)) == Ok(e.(attributes := e.attributes + xs))
  {
    forall i, m | 0 <= i < |xs|
      ensures ApplyEvent(m, Payload(2, EncodeAttribute(xs[i]))) == Ok(AddAttribute(m, xs[i]))
    {
      ElementFits(0x12, EncodeAttribute, xs, i);
      AttributeRoundTrip(xs[i]);
    }
    RepeatedDecodes(EventSchema(), ApplyEvent, 2, EncodeAttribute, AddAttribute, e, xs);
    AddAllAttributes(e, xs);
  }

  lemma {:induction false} EventRoundTrip(e: StringEvent)
    requires |EncodeEvent(e)| < TWO63
    ensures DecodeEvent(NO_EVENT, EncodeEvent(e)) == Ok(e)
  {
    var t := StringEvent(e.typ, []);
    StrThen(EventSchema(), ApplyEvent, NO_EVENT, 1, e.typ, t, Repeated(0x12, EncodeAttribute, e.attributes));
    AttributesDecode(t, e.attributes);
    assert [] + e.attributes == e.attributes;
  }

  function AddEvent(l: MessageLog, x: StringEvent): MessageLog {
    l.(events := l.events + [x])
  }

  lemma {:induction false} AddAllEvents(l: MessageLog, xs: seq<StringEvent>)
    ensures AddAll(AddEvent, l, xs) == l.(events := l.events + xs)
    decreases |xs|
  {
    if xs == [] {
      assert l.events + xs == l.events;
    } else {
      AddAllEvents(AddEvent(l, xs[0]), xs[1..]);
      assert l.events + xs == l.events + [xs[0]] + xs[1..];
    }
  }

  lemma {:induction false} EventsDecode(l: MessageLog, xs: seq<StringEvent>)
    requires |Repeated(0x1a, EncodeEvent, xs)| < TWO63
    ensures DecodeLog(l, Repeated(0x1a, EncodeEvent, xs)) == Ok(l.(events := l.events + xs))
  {
    forall i, m | 0 <= i < |xs|
      ensures ApplyLog(m, Payload(3, EncodeEvent(xs[i]))) == Ok(AddEvent(m, xs[i]))
    {
      ElementFits(0x1a, EncodeEvent, xs, i);
      EventRoundTrip(xs[i]);
    }
    RepeatedDecodes(LogSchema(), ApplyLog, 3, EncodeEvent, AddEvent, l, xs);
    AddAllEvents(l, xs);
  }

  /** Every log, with any events and attributes, decodes from its own encoding. */
  lemma {:induction false} LogRoundTrip(l: MessageLog)
    requires |EncodeLog(l)| < TWO63
    ensures DecodeLog(NO_LOG, EncodeLog(l)) == Ok(l)
  {
    var l1, l2 := MessageLog(l.msgIndex, [], []), MessageLog(l.msgIndex, l.log, []);
    var c := Repeated(0x1a, EncodeEvent, l.events);
    NumThen(LogSchema(), ApplyLog, NO_LOG, 1, l.msgIndex, l1, Str(0x12, l.log) + c);
    StrThen(LogSchema(), ApplyLog, l1, 2, l.log, l2, c);
    EventsDecode(l2, l.events);
    assert [] + l.events == l.events;
  }

  lemma {:induction false} GasRoundTrip(g: GasInfo)
    ensures DecodeGas(NO_GAS, EncodeGas(g)) == Ok(g)
  {
    TwoNums(GasSchema(), ApplyGas, NO_GAS, 1, g.gasWanted, GasInfo(g.gasWanted, 0), 2, g.gasUsed, g);
  }

  /**
    * A newer writer's log: with a field unknown to this version inserted after any prefix of whole fields,
    * the log still decodes to the same value.
    */
  lemma {:induction false} LogIgnoresUnknownField(l: MessageLog, f: WireField, s: Bytes, t: Bytes)
    requires |EncodeLog(l)| < TWO63 && EncodeLog(l) == s + t
    requires DecodeLog(NO_LOG, s).Ok?
    requires WellFormed(f) && f.num > 3
    ensures DecodeLog(NO_LOG, s + Emit(f) + t) == Ok(l)
  {
    LogRoundTrip(l);
    UnknownFieldTransparent(LogSchema(), ApplyLog, NO_LOG, s, f, t);
  }
}
