/** Messages of a newer writer: unknown fields between all fields, at every level of nesting. */
module AbciNoise {
  import opened Words
  import opened Wire
  import opened AbciCodec

  type Noise = seq<WireField>

  /** Well-formed fields with numbers the message does not know. */
  predicate Foreign(schema: Schema, noise: Noise) {
    forall i :: 0 <= i < |noise| ==> WellFormed(noise[i]) && noise[i].num !in schema
  }

  lemma EmitAllCons(noise: Noise, rest: Bytes)
    requires noise != []
    ensures EmitAll(noise) + rest == Emit(noise[0]) + (EmitAll(noise[1..]) + rest)
  {
  }

  /** Decoding passes over any number of them. */
  lemma {:induction false} NoiseThen<M>(
      schema: Schema, apply: (M, Item) -> Result<M, WireError>, m: M, noise: Noise, rest: Bytes)
    requires Foreign(schema, noise)
    ensures Unmarshal(schema, apply, m, EmitAll(noise) + rest) == Unmarshal(schema, apply, m, rest)
    decreases |noise|
  {
    if noise == [] {
      assert EmitAll(noise) + rest == rest;
    } else {
      EmitAllCons(noise, rest);
      UnknownThen(schema, apply, m, noise[0], EmitAll(noise[1..]) + rest);
      NoiseThen(schema, apply, m, noise[1..], rest);
    }
  }

  /** Noise and then a string field. */
  lemma {:induction false} NoisyStrThen<M>(
      schema: Schema, apply: (M, Item) -> Result<M, WireError>, m: M, noise: Noise, num: nat, data: Bytes, m': M,
      rest: Bytes)
    requires Foreign(schema, noise)
    requires 1 <= num < 16 && num in schema && schema[num].LenKind? && |data| < TWO63
    requires if data == [] then m == m' else apply(m, Payload(num, data)) == Ok(m')
    ensures Unmarshal(schema, apply, m, EmitAll(noise) + (Str(8 * num + 2, data) + rest))
         == Unmarshal(schema, apply, m', rest)
  {
    NoiseThen(schema, apply, m, noise, Str(8 * num + 2, data) + rest);
    StrThen(schema, apply, m, num, data, m', rest);
  }

  // ---- Messages with noise ----

  /** An attribute with noise before, between and after its fields; `gap` follows it in its event. */
  datatype NoisyAttribute = NoisyAttribute(plain: Attribute, before: Noise, between: Noise, after: Noise, gap: Noise)

  datatype NoisyEvent =
    NoisyEvent(typ: Bytes, attributes: seq<NoisyAttribute>, before: Noise, between: Noise, gap: Noise)

  datatype NoisyLog =
    NoisyLog(msgIndex: Uint32, log: Bytes, events: seq<NoisyEvent>, before: Noise, between: Noise, after: Noise)

  function PlainAttributes(xs: seq<NoisyAttribute>): seq<Attribute> {
    seq(|xs|, i requires 0 <= i < |xs| => xs[i].plain)
  }

  function PlainEvent(e: NoisyEvent): StringEvent {
    StringEvent(e.typ, PlainAttributes(e.attributes))
  }

  function PlainEvents(xs: seq<NoisyEvent>): seq<StringEvent> {
    seq(|xs|, i requires 0 <= i < |xs| => PlainEvent(xs[i]))
  }

  function PlainLog(l: NoisyLog): MessageLog {
    MessageLog(l.msgIndex, l.log, PlainEvents(l.events))
  }

  // ---- Their encodings ----

  function EncodeNoisyAttribute(a: NoisyAttribute): Bytes {
    EmitAll(a.before) + (Str(0x0a, a.plain.key)
      + (EmitAll(a.between) + (Str(0x12, a.plain.value) + (EmitAll(a.after) + []))))
  }

  /** A repeated message field with a gap of noise after each element. */
  function Spaced<T>(tag: Byte, encode: T -> Bytes, gap: T -> Noise, xs: seq<T>): Bytes {
    if xs == [] then [] else Delimited(tag, encode(xs[0])) + (EmitAll(gap(xs[0])) + Spaced(tag, encode, gap, xs[1..]))
  }

  function AttributeGap(a: NoisyAttribute): Noise {
    a.gap
  }

  function EncodeNoisyEvent(e: NoisyEvent): Bytes {
    EmitAll(e.before) + (Str(0x0a, e.typ)
      + (EmitAll(e.between) + Spaced(0x12, EncodeNoisyAttribute, AttributeGap, e.attributes)))
  }

  function EventGap(e: NoisyEvent): Noise {
    e.gap
  }

  /** The log from its text on. */
  function TextOn(l: NoisyLog): Bytes {
    EmitAll(l.between) + (Str(0x12, l.log) + (EmitAll(l.after) + Spaced(0x1a, EncodeNoisyEvent, EventGap, l.events)))
  }

  function EncodeNoisyLog(l: NoisyLog): Bytes {
    EmitAll(l.before) + (Num(0x08, l.msgIndex) + TextOn(l))
  }

  // ---- All noise is foreign to its message ----

  predicate ForeignAttribute(a: NoisyAttribute) {
    && Foreign(AttributeSchema(), a.before) && Foreign(AttributeSchema(), a.between)
    && Foreign(AttributeSchema(), a.after)
    && Foreign(EventSchema(), a.gap)
  }

  predicate ForeignEvent(e: NoisyEvent) {
    && Foreign(EventSchema(), e.before) && Foreign(EventSchema(), e.between) && Foreign(LogSchema(), e.gap)
    && forall i :: 0 <= i < |e.attributes| ==> ForeignAttribute(e.attributes[i])
  }

  predicate ForeignLog(l: NoisyLog) {
    && Foreign(LogSchema(), l.before) && Foreign(LogSchema(), l.between) && Foreign(LogSchema(), l.after)
    && forall i :: 0 <= i < |l.events| ==> ForeignEvent(l.events[i])
  }

  // ---- Decoding drops the noise ----

  lemma {:induction false} NoisyAttributeDecodes(a: NoisyAttribute)
    requires ForeignAttribute(a) && |EncodeNoisyAttribute(a)| < TWO63
    ensures DecodeAttribute(NO_ATTRIBUTE, EncodeNoisyAttribute(a)) == Ok(a.plain)
  {
    var schema, keyed := AttributeSchema(), Attribute(a.plain.key, []);
    var tail := EmitAll(a.after) + [];
    var value := EmitAll(a.between) + (Str(0x12, a.plain.value) + tail);
    NoisyStrThen(schema, ApplyAttribute, NO_ATTRIBUTE, a.before, 1, a.plain.key, keyed, value);
    NoisyStrThen(schema, ApplyAttribute, keyed, a.between, 2, a.plain.value, a.plain, tail);
    NoiseThen(schema, ApplyAttribute, a.plain, a.after, []);
  }

  lemma {:induction false} SpacedFits<T>(tag: Byte, encode: T -> Bytes, gap: T -> Noise, xs: seq<T>, i: nat)
    requires i < |xs|
    ensures |encode(xs[i])| < |Spaced(tag, encode, gap, xs)|
  {
    if i > 0 {
      SpacedFits(tag, encode, gap, xs[1..], i - 1);
    }
  }

  /** The gaps are foreign to the message. */
  predicate Gapped<T>(schema: Schema, gap: T -> Noise, xs: seq<T>) {
    forall i :: 0 <= i < |xs| ==> Foreign(schema, gap(xs[i]))
  }

  /** A repeated field decodes to its elements, whatever the gaps. */
  lemma {:induction false} SpacedDecodes<M(!new), T>(
      schema: Schema, apply: (M, Item) -> Result<M, WireError>, num: nat, encode: T -> Bytes, gap: T -> Noise,
      add: (M, T) -> M, m: M, xs: seq<T>)
    requires 1 <= num < 16 && num in schema && schema[num].LenKind?
    requires |Spaced(8 * num + 2, encode, gap, xs)| < TWO63
    requires Appends(apply, num, encode, add, xs) && Gapped(schema, gap, xs)
    ensures Unmarshal(schema, apply, m, Spaced(8 * num + 2, encode, gap, xs)) == Ok(AddAll(add, m, xs))
    decreases |xs|
  {
    if xs != [] {
      var rest := xs[1..];
      var tail := Spaced(8 * num + 2, encode, gap, rest);
      assert forall i :: 0 <= i < |rest| ==> rest[i] == xs[i + 1];
      assert apply(m, Payload(num, encode(xs[0]))) == Ok(add(m, xs[0]));
      DelimitedThen(schema, apply, m, num, encode(xs[0]), add(m, xs[0]), EmitAll(gap(xs[0])) + tail);
      NoiseThen(schema, apply, add(m, xs[0]), gap(xs[0]), tail);
      SpacedDecodes(schema, apply, num, encode, gap, add, add(m, xs[0]), rest);
    }
  }

  function AddNoisyAttribute(e: StringEvent, x: NoisyAttribute): StringEvent {
    e.(attributes := e.attributes + [x.plain])
  }

  lemma {:induction false} AddAllNoisyAttributes(e: StringEvent, xs: seq<NoisyAttribute>)
    ensures AddAll(AddNoisyAttribute, e, xs) == e.(attributes := e.attributes + PlainAttributes(xs))
    decreases |xs|
  {
    if xs == [] {
      assert e.attributes + PlainAttributes(xs) == e.attributes;
    } else {
      AddAllNoisyAttributes(AddNoisyAttribute(e, xs[0]), xs[1..]);
      assert PlainAttributes(xs) == [xs[0].plain] + PlainAttributes(xs[1..]);
      assert e.attributes + PlainAttributes(xs) == e.attributes + [xs[0].plain] + PlainAttributes(xs[1..]);
    }
  }

  lemma {:induction false} NoisyAttributeApplies(e: StringEvent, a: NoisyAttribute)
    requires ForeignAttribute(a) && |EncodeNoisyAttribute(a)| < TWO63
    ensures ApplyEvent(e, Payload(2, EncodeNoisyAttribute(a))) == Ok(AddNoisyAttribute(e, a))
  {
    NoisyAttributeDecodes(a);
  }

  lemma {:induction false} NoisyAttributesAppend(xs: seq<NoisyAttribute>)
    requires forall i :: 0 <= i < |xs| ==> ForeignAttribute(xs[i])
    requires |Spaced(0x12, EncodeNoisyAttribute, AttributeGap, xs)| < TWO63
    ensures Appends(ApplyEvent, 2, EncodeNoisyAttribute, AddNoisyAttribute, xs)
    ensures Gapped(EventSchema(), AttributeGap, xs)
  {
    forall i, m | 0 <= i < |xs|
      ensures ApplyEvent(m, Payload(2, EncodeNoisyAttribute(xs[i]))) == Ok(AddNoisyAttribute(m, xs[i]))
    {
      SpacedFits(0x12, EncodeNoisyAttribute, AttributeGap, xs, i);
      NoisyAttributeApplies(m, xs[i]);
    }
  }

  lemma {:induction false} NoisyAttributesDecode(e: StringEvent, xs: seq<NoisyAttribute>)
    requires forall i :: 0 <= i < |xs| ==> ForeignAttribute(xs[i])
    requires |Spaced(0x12, EncodeNoisyAttribute, AttributeGap, xs)| < TWO63
    ensures DecodeEvent(e, Spaced(0x12, EncodeNoisyAttribute, AttributeGap, xs))
         == Ok(e.(attributes := e.attributes + PlainAttributes(xs)))
  {
    NoisyAttributesAppend(xs);
    SpacedDecodes(EventSchema(), ApplyEvent, 2, EncodeNoisyAttribute, AttributeGap, AddNoisyAttribute, e, xs);
    AddAllNoisyAttributes(e, xs);
  }

  /** A string field with noise around it, and then a body. */
  lemma {:induction false} StrThenBody<M>(
      schema: Schema, apply: (M, Item) -> Result<M, WireError>, m: M, before: Noise, num: nat, data: Bytes, m': M,
      between: Noise, body: Bytes)
    requires Foreign(schema, before) && Foreign(schema, between)
    requires 1 <= num < 16 && num in schema && schema[num].LenKind? && |data| < TWO63
    requires if data == [] then m == m' else apply(m, Payload(num, data)) == Ok(m')
    ensures Unmarshal(schema, apply, m, EmitAll(before) + (Str(8 * num + 2, data) + (EmitAll(between) + body)))
         == Unmarshal(schema, apply, m', body)
  {
    NoisyStrThen(schema, apply, m, before, num, data, m', EmitAll(between) + body);
    NoiseThen(schema, apply, m', between, body);
  }

  /** The parts of such a message are no longer than the whole. */
  lemma PartsFit(before: Bytes, tag: Byte, data: Bytes, between: Bytes, body: Bytes)
    ensures |data| <= |before + (Str(tag, data) + (between + body))|
    ensures |body| <= |before + (Str(tag, data) + (between + body))|
  {
  }

  lemma {:induction false} TypeThenAttributes(e: NoisyEvent)
    requires Foreign(EventSchema(), e.before) && Foreign(EventSchema(), e.between) && |EncodeNoisyEvent(e)| < TWO63
    ensures var body := Spaced(0x12, EncodeNoisyAttribute, AttributeGap, e.attributes);
            && |body| < TWO63
            && DecodeEvent(NO_EVENT, EncodeNoisyEvent(e)) == DecodeEvent(StringEvent(e.typ, []), body)
  {
    var body := Spaced(0x12, EncodeNoisyAttribute, AttributeGap, e.attributes);
    PartsFit(EmitAll(e.before), 0x0a, e.typ, EmitAll(e.between), body);
    StrThenBody(EventSchema(), ApplyEvent, NO_EVENT, e.before, 1, e.typ, StringEvent(e.typ, []), e.between, body);
  }

  lemma {:induction false} NoisyEventDecodes(e: NoisyEvent)
    requires ForeignEvent(e) && |EncodeNoisyEvent(e)| < TWO63
    ensures DecodeEvent(NO_EVENT, EncodeNoisyEvent(e)) == Ok(PlainEvent(e))
  {
    TypeThenAttributes(e);
    NoisyAttributesDecode(StringEvent(e.typ, []), e.attributes);
    assert [] + PlainAttributes(e.attributes) == PlainAttributes(e.attributes);
  }

  function AddNoisyEvent(l: MessageLog, x: NoisyEvent): MessageLog {
    l.(events := l.events + [PlainEvent(x)])
  }

  lemma {:induction false} NoisyEventApplies(l: MessageLog, e: NoisyEvent)
    requires ForeignEvent(e) && |EncodeNoisyEvent(e)| < TWO63
    ensures ApplyLog(l, Payload(3, EncodeNoisyEvent(e))) == Ok(AddNoisyEvent(l, e))
  {
    NoisyEventDecodes(e);
  }

  lemma {:induction false} AddAllNoisyEvents(l: MessageLog, xs: seq<NoisyEvent>)
    ensures AddAll(AddNoisyEvent, l, xs) == l.(events := l.events + PlainEvents(xs))
    decreases |xs|
  {
    if xs == [] {
      assert l.events + PlainEvents(xs) == l.events;
    } else {
      AddAllNoisyEvents(AddNoisyEvent(l, xs[0]), xs[1..]);
      assert PlainEvents(xs) == [PlainEvent(xs[0])] + PlainEvents(xs[1..]);
      assert l.events + PlainEvents(xs) == l.events + [PlainEvent(xs[0])] + PlainEvents(xs[1..]);
    }
  }

  lemma {:induction false} NoisyEventsAppend(xs: seq<NoisyEvent>)
    requires forall i :: 0 <= i < |xs| ==> ForeignEvent(xs[i])
    requires |Spaced(0x1a, EncodeNoisyEvent, EventGap, xs)| < TWO63
    ensures Appends(ApplyLog, 3, EncodeNoisyEvent, AddNoisyEvent, xs)
    ensures Gapped(LogSchema(), EventGap, xs)
  {
    forall i, m | 0 <= i < |xs|
      ensures ApplyLog(m, Payload(3, EncodeNoisyEvent(xs[i]))) == Ok(AddNoisyEvent(m, xs[i]))
    {
      SpacedFits(0x1a, EncodeNoisyEvent, EventGap, xs, i);
      NoisyEventApplies(m, xs[i]);
    }
  }

  lemma {:induction false} NoisyEventsDecode(l: MessageLog, xs: seq<NoisyEvent>)
    requires forall i :: 0 <= i < |xs| ==> ForeignEvent(xs[i])
    requires |Spaced(0x1a, EncodeNoisyEvent, EventGap, xs)| < TWO63
    ensures DecodeLog(l, Spaced(0x1a, EncodeNoisyEvent, EventGap, xs)) == Ok(l.(events := l.events + PlainEvents(xs)))
  {
    NoisyEventsAppend(xs);
    SpacedDecodes(LogSchema(), ApplyLog, 3, EncodeNoisyEvent, EventGap, AddNoisyEvent, l, xs);
    AddAllNoisyEvents(l, xs);
  }

  /** A varint field with noise before it, and then a body. */
  lemma {:induction false} NumThenBody<M>(
      schema: Schema, apply: (M, Item) -> Result<M, WireError>, m: M, before: Noise, num: nat, v: Uint64, m': M,
      body: Bytes)
    requires Foreign(schema, before)
    requires 1 <= num < 16 && num in schema && schema[num].VarintKind?
    requires if v == 0 then m == m' else apply(m, Number(num, v)) == Ok(m')
    ensures Unmarshal(schema, apply, m, EmitAll(before) + (Num(8 * num, v) + body))
         == Unmarshal(schema, apply, m', body)
  {
    NoiseThen(schema, apply, m, before, Num(8 * num, v) + body);
    NumThen(schema, apply, m, num, v, m', body);
  }

  lemma {:induction false} TextFits(l: NoisyLog)
    requires |TextOn(l)| < TWO63
    ensures |Spaced(0x1a, EncodeNoisyEvent, EventGap, l.events)| < TWO63 && |l.log| < TWO63
  {
    PartsFit(EmitAll(l.between), 0x12, l.log, EmitAll(l.after), Spaced(0x1a, EncodeNoisyEvent, EventGap, l.events));
  }

  lemma {:induction false} TextThenEvents(l: NoisyLog, body: Bytes)
    requires Foreign(LogSchema(), l.between) && Foreign(LogSchema(), l.after) && |TextOn(l)| < TWO63
    requires body == Spaced(0x1a, EncodeNoisyEvent, EventGap, l.events)
    ensures DecodeLog(MessageLog(l.msgIndex, [], []), TextOn(l)) == DecodeLog(MessageLog(l.msgIndex, l.log, []), body)
  {
    var l1, l2 := MessageLog(l.msgIndex, [], []), MessageLog(l.msgIndex, l.log, []);
    TextFits(l);
    StrThenBody(LogSchema(), ApplyLog, l1, l.between, 2, l.log, l2, l.after, body);
  }

  lemma {:induction false} TextDecodes(l: NoisyLog)
    requires ForeignLog(l) && |TextOn(l)| < TWO63
    ensures DecodeLog(MessageLog(l.msgIndex, [], []), TextOn(l)) == Ok(PlainLog(l))
  {
    TextFits(l);
    TextThenEvents(l, Spaced(0x1a, EncodeNoisyEvent, EventGap, l.events));
    NoisyEventsDecode(MessageLog(l.msgIndex, l.log, []), l.events);
    assert [] + PlainEvents(l.events) == PlainEvents(l.events);
  }

  /**
    * A newer writer's log decodes to the log this version knows: any unknown fields, between any fields of the log,
    * of its events and of their attributes, are dropped, although they change every enclosing length.
    */
  lemma {:induction false} NoisyLogDecodes(l: NoisyLog)
    requires ForeignLog(l) && |EncodeNoisyLog(l)| < TWO63
    ensures DecodeLog(NO_LOG, EncodeNoisyLog(l)) == Ok(PlainLog(l))
  {
    NumThenBody(LogSchema(), ApplyLog, NO_LOG, l.before, 1, l.msgIndex, MessageLog(l.msgIndex, [], []), TextOn(l));
    TextDecodes(l);
  }
}
