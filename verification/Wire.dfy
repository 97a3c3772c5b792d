/** The Protocol Buffers wire format as the generated code reads and writes it. */
module Wire {
  import opened Words

  /**
    * Error classes. `Truncated` is a length or a fixed-size value that runs past the input, whether the
    * generated code reports it as an unexpected end of input or as an overflowed index.
    */
  datatype WireError =
    VarintOverflow | Truncated | NegativeLength | EndGroup | IllegalTag | WrongWireType | IllegalWireType

  // ---- Varints ----

  function EncodeVarint(v: nat): Bytes {
    if v < 128 then [v] else [v % 128 + 128] + EncodeVarint(v / 128)
  }

  /**
    * Reads a varint after `k` bytes of it: its value, not yet truncated to a machine word, and its length.
    * The loop gives up once the shift 7k reaches 64.
    */
  function ReadVarint(s: Bytes, k: nat): (r: Result<(nat, nat), WireError>)
    ensures r.Ok? ==> 1 <= r.value.1 <= |s| && k + r.value.1 <= 10
    decreases |s|
  {
    if 7 * k >= 64 then Err(VarintOverflow)
    else if s == [] then Err(Truncated)
    else if s[0] < 128 then Ok((s[0], 1))
    else
      match ReadVarint(s[1..], k + 1)
      case Err(e) => Err(e)
      case Ok((v, n)) => Ok((s[0] % 128 + 128 * v, n + 1))
  }

  function Pow128(n: nat): nat {
    if n == 0 then 1 else 128 * Pow128(n - 1)
  }

  lemma {:induction false} ReadEncoded(v: nat, k: nat, rest: Bytes)
    requires k < 10 && v < Pow128(10 - k)
    ensures ReadVarint(EncodeVarint(v) + rest, k) == Ok((v, |EncodeVarint(v)|))
    decreases 10 - k
  {
    if v >= 128 {
      assert Pow128(1) == 128 * Pow128(0);
      ReadEncoded(v / 128, k + 1, rest);
      assert (EncodeVarint(v) + rest)[1..] == EncodeVarint(v / 128) + rest;
    }
  }

  lemma {:induction false} Pow128Ten()
    ensures Pow128(10) > TWO64
  {
    assert Pow128(2) == 16384;
    assert Pow128(4) == 128 * (128 * Pow128(2));
    assert Pow128(6) == 128 * (128 * Pow128(4));
    assert Pow128(8) == 128 * (128 * Pow128(6));
    assert Pow128(10) == 128 * (128 * Pow128(8));
  }

  /** Every uint64 survives encoding, whatever follows it. */
  lemma {:induction false} VarintRoundTrip(v: Uint64, rest: Bytes)
    ensures ReadVarint(EncodeVarint(v) + rest, 0) == Ok((v, |EncodeVarint(v)|))
  {
    Pow128Ten();
    ReadEncoded(v, 0, rest);
  }

  lemma {:induction false} ReadVarintLocal(s: Bytes, t: Bytes, k: nat)
    requires ReadVarint(s, k).Ok?
    ensures ReadVarint(s + t, k) == ReadVarint(s, k)
    decreases |s|
  {
    if s[0] >= 128 {
      ReadVarintLocal(s[1..], t, k + 1);
      assert (s + t)[1..] == s[1..] + t;
    }
  }

  /** `bits.Len64`. */
  function BitLen(v: nat): nat {
    if v == 0 then 0 else 1 + BitLen(v / 2)
  }

  /** `sovAbci`: the size of a varint, computed from the bit length of `x | 1`. */
  function Sov(x: Uint64): nat {
    var odd := x - x % 2 + 1;
    (BitLen(odd) + 6) / 7
  }

  lemma {:induction false} BitLenSeven(v: nat)
    requires v >= 128
    ensures BitLen(v) == 7 + BitLen(v / 128)
  {
    var a, b, c, d, e, f := v / 2, v / 4, v / 8, v / 16, v / 32, v / 64;
    assert a / 2 == b && b / 2 == c && c / 2 == d && d / 2 == e && e / 2 == f && f / 2 == v / 128;
    assert BitLen(v) == 1 + BitLen(a) && BitLen(a) == 1 + BitLen(b) && BitLen(b) == 1 + BitLen(c);
    assert BitLen(c) == 1 + BitLen(d) && BitLen(d) == 1 + BitLen(e) && BitLen(e) == 1 + BitLen(f);
  }

  lemma {:induction false} BitLenSmall(v: nat)
    requires 1 <= v < 128
    ensures 1 <= BitLen(v) <= 7
  {
    var a, b, c, d, e, f := v / 2, v / 4, v / 8, v / 16, v / 32, v / 64;
    assert a / 2 == b && b / 2 == c && c / 2 == d && d / 2 == e && e / 2 == f && f / 2 == 0;
    assert BitLen(f) <= 1 && BitLen(e) <= 2 && BitLen(d) <= 3 && BitLen(c) <= 4 && BitLen(b) <= 5 && BitLen(a) <= 6;
  }

  lemma {:induction false} EncodedLength(v: nat)
    requires v >= 1
    ensures |EncodeVarint(v)| == (BitLen(v) + 6) / 7
  {
    if v < 128 {
      BitLenSmall(v);
    } else {
      EncodedLength(v / 128);
      BitLenSeven(v);
    }
  }

  lemma {:induction false} BitLenOdd(x: nat)
    requires x > 0 && x % 2 == 0
    ensures BitLen(x + 1) == BitLen(x)
  {
    assert (x + 1) / 2 == x / 2;
  }

  /** The predicted size is the size of the encoding. */
  lemma {:induction false} SovIsLength(x: Uint64)
    ensures Sov(x) == |EncodeVarint(x)|
  {
    if x == 0 {
      assert BitLen(1) == 1;
    } else {
      EncodedLength(x);
      if x % 2 == 0 {
        BitLenOdd(x);
      }
    }
  }

  // ---- Fields ----

  datatype Kind = VarintKind | LenKind

  /** The known fields of a message and the wire type each must have. */
  type Schema = map<int, Kind>

  /** A field as read: a 64-bit word, a payload, or something to ignore. */
  datatype Item = Number(field: int, word: Uint64) | Payload(field: int, data: Bytes) | Unknown

  /** `int32(wire >> 3)`: only 32 bits of the field number survive, as a signed number. */
  function FieldNum(wire: Uint64): int {
    var n := (wire / 8) % TWO32;
    if n >= 0x8000_0000 then n - TWO32 else n
  }

  /** A length-delimited payload at position `at`; lengths are read as int64. */
  function ReadPayload(s: Bytes, at: nat): (r: Result<(Bytes, nat), WireError>)
    requires at <= |s|
    ensures r.Ok? ==> at < r.value.1 <= |s| && |r.value.0| <= r.value.1 - at
    ensures r.Ok? ==> r.value.0 == s[r.value.1 - |r.value.0|..r.value.1]
  {
    match ReadVarint(s[at..], 0)
    case Err(e) => Err(e)
    case Ok((raw, k)) =>
      var len := raw % TWO64;
      if len >= TWO63 then Err(NegativeLength)
      else if at + k + len > |s| then Err(Truncated)
      else Ok((s[at + k..at + k + len], at + k + len))
  }

  /** One field: the item and the number of bytes it takes. */
  function ReadField(schema: Schema, s: Bytes): (r: Result<(Item, nat), WireError>)
    ensures r.Ok? ==> 1 <= r.value.1 <= |s|
  {
    match ReadVarint(s, 0)
    case Err(e) => Err(e)
    case Ok((raw, n)) => ReadValue(schema, s, n, FieldNum(raw % TWO64), raw % TWO64 % 8)
  }

  /** The checks on a tag of `n` bytes, and the value after it. */
  function ReadValue(schema: Schema, s: Bytes, n: nat, num: int, wireType: nat): (r: Result<(Item, nat), WireError>)
    requires 1 <= n <= |s|
    ensures r.Ok? ==> 1 <= r.value.1 <= |s|
  {
    if wireType == 4 then Err(EndGroup)
    else if num <= 0 then Err(IllegalTag)
    else if num !in schema then
      match Skip(s, 0)
      case Err(e) => Err(e)
      case Ok(k) => if k > |s| then Err(Truncated) else Ok((Unknown, k))
    else if schema[num].VarintKind? then
      if wireType != 0 then Err(WrongWireType)
      else
        match ReadVarint(s[n..], 0)
        case Err(e) => Err(e)
        case Ok((v, k)) => Ok((Number(num, v % TWO64), n + k))
    else
      if wireType != 2 then Err(WrongWireType)
      else
        match ReadPayload(s, n)
        case Err(e) => Err(e)
        case Ok((data, k)) => Ok((Payload(num, data), k))
  }

  /**
    * `skipAbci` inside `depth` open groups: how many bytes it takes to get back to depth zero.
    * The result may exceed the input; the caller checks.
    */
  function Skip(s: Bytes, depth: nat): (r: Result<nat, WireError>)
    ensures r.Ok? ==> r.value >= 1
    decreases |s|, 2
  {
    match ReadVarint(s, 0)
    case Err(e) => Err(e)
    case Ok((raw, n)) => SkipTyped(s, n, raw % 8, depth)
  }

  /** Skipping once the tag, `n` bytes long, has been read. */
  function SkipTyped(s: Bytes, n: nat, wireType: nat, depth: nat): (r: Result<nat, WireError>)
    requires 1 <= n <= |s|
    ensures r.Ok? ==> r.value >= 1
    decreases |s|, 1
  {
    match wireType
    case 0 =>
      (match ReadVarint(s[n..], 0)
       case Err(e) => Err(e)
       case Ok((_, k)) => SkipOn(s, n + k, depth))
    case 1 => SkipOn(s, n + 8, depth)
    case 2 =>
      (match ReadVarint(s[n..], 0)
       case Err(e) => Err(e)
       case Ok((len, k)) =>
         if len % TWO64 >= TWO63 then Err(NegativeLength) else SkipOn(s, n + k + len % TWO64, depth))
    case 3 => SkipOn(s, n, depth + 1)
    case 4 => if depth == 0 then Err(EndGroup) else SkipOn(s, n, depth - 1)
    case 5 => SkipOn(s, n + 4, depth)
    case _ => Err(IllegalWireType)
  }

  function SkipOn(s: Bytes, at: nat, depth: nat): (r: Result<nat, WireError>)
    requires at >= 1
    ensures r.Ok? ==> r.value >= at
    decreases |s|, 0
  {
    if depth == 0 then Ok(at)
    else if at >= |s| then Err(Truncated)
    else Plus(at, Skip(s[at..], depth))
  }

  function Plus(n: nat, r: Result<nat, WireError>): Result<nat, WireError> {
    if r.Ok? then Ok(n + r.value) else r
  }

  /** Decoding a message: fields in order, known ones applied, unknown ones dropped. */
  function Unmarshal<M>(schema: Schema, apply: (M, Item) -> Result<M, WireError>, m: M, s: Bytes): Result<M, WireError>
    decreases |s|
  {
    if s == [] then Ok(m)
    else
      match ReadField(schema, s)
      case Err(e) => Err(e)
      case Ok((item, n)) =>
        if item.Unknown? then Unmarshal(schema, apply, m, s[n..])
        else
          match apply(m, item)
          case Err(e) => Err(e)
          case Ok(m') => Unmarshal(schema, apply, m', s[n..])
  }

  /** One turn of the decoding loop. */
  lemma {:induction false} UnmarshalTurn<M>(schema: Schema, apply: (M, Item) -> Result<M, WireError>, m: M, s: Bytes)
    requires s != []
    ensures var f := ReadField(schema, s);
            Unmarshal(schema, apply, m, s) ==
              if f.Err? then Err(f.error)
              else if f.value.0.Unknown? then Unmarshal(schema, apply, m, s[f.value.1..])
              else if apply(m, f.value.0).Err? then Err(apply(m, f.value.0).error)
              else Unmarshal(schema, apply, apply(m, f.value.0).value, s[f.value.1..])
  {
  }

  // ---- What has been read does not depend on what follows ----

  lemma {:induction false} ReadPayloadLocal(s: Bytes, t: Bytes, at: nat)
    requires at <= |s| && ReadPayload(s, at).Ok?
    ensures ReadPayload(s + t, at) == ReadPayload(s, at)
  {
    ReadVarintLocal(s[at..], t, 0);
    assert (s + t)[at..] == s[at..] + t;
    var k := ReadVarint(s[at..], 0).value;
    var len := k.0 % TWO64;
    assert (s + t)[at + k.1..at + k.1 + len] == s[at + k.1..at + k.1 + len];
  }

  lemma {:induction false} SkipLocal(s: Bytes, t: Bytes, depth: nat)
    requires Skip(s, depth).Ok? && Skip(s, depth).value <= |s|
    ensures Skip(s + t, depth) == Skip(s, depth)
    decreases |s|, 1
  {
    ReadVarintLocal(s, t, 0);
    var (raw, n) := ReadVarint(s, 0).value;
    assert (s + t)[n..] == s[n..] + t;
    var wireType := raw % 8;
    if wireType == 0 {
      ReadVarintLocal(s[n..], t, 0);
      SkipOnLocal(s, t, n + ReadVarint(s[n..], 0).value.1, depth);
    } else if wireType == 1 {
      SkipOnLocal(s, t, n + 8, depth);
    } else if wireType == 2 {
      ReadVarintLocal(s[n..], t, 0);
      var (len, k) := ReadVarint(s[n..], 0).value;
      SkipOnLocal(s, t, n + k + len % TWO64, depth);
    } else if wireType == 3 {
      SkipOnLocal(s, t, n, depth + 1);
    } else if wireType == 4 {
      SkipOnLocal(s, t, n, depth - 1);
    } else {
      SkipOnLocal(s, t, n + 4, depth);
    }
  }

  lemma {:induction false} SkipOnLocal(s: Bytes, t: Bytes, at: nat, depth: nat)
    requires at >= 1 && SkipOn(s, at, depth).Ok? && SkipOn(s, at, depth).value <= |s|
    ensures SkipOn(s + t, at, depth) == SkipOn(s, at, depth)
    decreases |s|, 0
  {
    if depth != 0 {
      SkipLocal(s[at..], t, depth);
      assert (s + t)[at..] == s[at..] + t;
    }
  }

  lemma {:induction false} ReadFieldLocal(schema: Schema, s: Bytes, t: Bytes)
    requires ReadField(schema, s).Ok?
    ensures ReadField(schema, s + t) == ReadField(schema, s)
  {
    ReadVarintLocal(s, t, 0);
    var (raw, n) := ReadVarint(s, 0).value;
    var num := FieldNum(raw % TWO64);
    if num !in schema {
      SkipLocal(s, t, 0);
    } else if schema[num].VarintKind? {
      ReadVarintLocal(s[n..], t, 0);
      assert (s + t)[n..] == s[n..] + t;
    } else {
      ReadPayloadLocal(s, t, n);
    }
  }

  /** Decoding a concatenation is decoding the second part into the message the first part gave. */
  lemma {:induction false} UnmarshalConcat<M>(
      schema: Schema, apply: (M, Item) -> Result<M, WireError>, m: M, s: Bytes, t: Bytes)
    requires Unmarshal(schema, apply, m, s).Ok?
    ensures Unmarshal(schema, apply, m, s + t) == Unmarshal(schema, apply, Unmarshal(schema, apply, m, s).value, t)
    decreases |s|
  {
    if s == [] {
      assert s + t == t;
    } else {
      ReadFieldLocal(schema, s, t);
      var (item, n) := ReadField(schema, s).value;
      assert (s + t)[n..] == s[n..] + t;
      if item.Unknown? {
        UnmarshalConcat(schema, apply, m, s[n..], t);
      } else {
        UnmarshalConcat(schema, apply, apply(m, item).value, s[n..], t);
      }
    }
  }

  // ---- Unknown fields ----

  /** Wire fields of any kind, groups nested to any depth. */
  datatype WireField =
    | AVarint(num: nat, v: Uint64)
    | AFixed64(num: nat, data: Bytes)
    | ALen(num: nat, data: Bytes)
    | AGroup(num: nat, fields: seq<WireField>)
    | AFixed32(num: nat, data: Bytes)

  predicate WellFormed(f: WireField) {
    && 1 <= f.num < 0x2000_0000
    && (f.AFixed64? ==> |f.data| == 8)
    && (f.AFixed32? ==> |f.data| == 4)
    && (f.ALen? ==> |f.data| < TWO63)
    && (f.AGroup? ==> forall i :: 0 <= i < |f.fields| ==> WellFormed(f.fields[i]))
  }

  function Tag(num: nat, wireType: nat): Bytes {
    EncodeVarint(8 * num + wireType)
  }

  function Emit(f: WireField): Bytes {
    match f
    case AVarint(num, v) => Tag(num, 0) + EncodeVarint(v)
    case AFixed64(num, data) => Tag(num, 1) + data
    case ALen(num, data) => Tag(num, 2) + (EncodeVarint(|data|) + data)
    case AGroup(num, fields) => Tag(num, 3) + (EmitAll(fields) + Tag(num, 4))
    case AFixed32(num, data) => Tag(num, 5) + data
  }

  function EmitAll(fs: seq<WireField>): Bytes {
    if fs == [] then [] else Emit(fs[0]) + EmitAll(fs[1..])
  }

  /** Where skipping stands after `n` bytes at `depth` open groups. */
  function After(n: nat, depth: nat, rest: Bytes): Result<nat, WireError> {
    if depth == 0 then Ok(n) else if rest == [] then Err(Truncated) else Plus(n, Skip(rest, depth))
  }

  lemma SkipOnAfter(s: Bytes, at: nat, depth: nat)
    requires 1 <= at <= |s|
    ensures SkipOn(s, at, depth) == After(at, depth, s[at..])
  {
  }

  lemma {:induction false} TagReads(num: nat, wireType: nat, rest: Bytes)
    requires num < 0x2000_0000 && wireType < 8
    ensures ReadVarint(Tag(num, wireType) + rest, 0) == Ok((8 * num + wireType, |Tag(num, wireType)|))
    ensures (Tag(num, wireType) + rest)[|Tag(num, wireType)|..] == rest
    ensures |Tag(num, wireType)| >= 1
  {
    VarintRoundTrip(8 * num + wireType, rest);
  }

  lemma {:induction false} SkipTagged(num: nat, wireType: nat, rest: Bytes, depth: nat)
    requires num < 0x2000_0000 && wireType < 8
    ensures |Tag(num, wireType)| >= 1
    ensures Skip(Tag(num, wireType) + rest, depth)
         == SkipTyped(Tag(num, wireType) + rest, |Tag(num, wireType)|, wireType, depth)
  {
    TagReads(num, wireType, rest);
  }

  lemma {:induction false} SkipVarint(num: nat, v: Uint64, depth: nat, rest: Bytes)
    requires 1 <= num < 0x2000_0000
    ensures var f := AVarint(num, v); Skip(Emit(f) + rest, depth) == After(|Emit(f)|, depth, rest)
  {
    var tag, value := Tag(num, 0), EncodeVarint(v);
    var whole := tag + (value + rest);
    assert whole == Emit(AVarint(num, v)) + rest;
    SkipTagged(num, 0, value + rest, depth);
    assert whole[|tag|..] == value + rest;
    VarintRoundTrip(v, rest);
    assert whole[|tag| + |value|..] == rest;
    SkipOnAfter(whole, |tag| + |value|, depth);
  }

  lemma SkipTypedLen(s: Bytes, n: nat, len: nat, k: nat, depth: nat)
    requires 1 <= n <= |s| && len < TWO63 && k >= 1
    requires ReadVarint(s[n..], 0) == Ok((len, k))
    ensures SkipTyped(s, n, 2, depth) == SkipOn(s, n + k + len, depth)
  {
  }

  lemma {:induction false} SkipLenAt(s: Bytes, n: nat, data: Bytes, rest: Bytes, depth: nat)
    requires 1 <= n <= |s| && |data| < TWO63
    requires s[n..] == EncodeVarint(|data|) + (data + rest)
    ensures SkipTyped(s, n, 2, depth) == After(n + |EncodeVarint(|data|)| + |data|, depth, rest)
  {
    var k := |EncodeVarint(|data|)|;
    VarintRoundTrip(|data|, data + rest);
    SkipTypedLen(s, n, |data|, k, depth);
    var total := n + k + |data|;
    assert s[total..] == s[n..][k + |data|..] == rest;
    SkipOnAfter(s, total, depth);
  }

  lemma EmittedLen(num: nat, data: Bytes, rest: Bytes)
    ensures Emit(ALen(num, data)) + rest == Tag(num, 2) + (EncodeVarint(|data|) + (data + rest))
  {
  }

  lemma {:induction false} SkipLen(num: nat, data: Bytes, depth: nat, rest: Bytes)
    requires 1 <= num < 0x2000_0000 && |data| < TWO63
    ensures var f := ALen(num, data); Skip(Emit(f) + rest, depth) == After(|Emit(f)|, depth, rest)
  {
    var tag, tail := Tag(num, 2), EncodeVarint(|data|) + (data + rest);
    EmittedLen(num, data, rest);
    SkipTagged(num, 2, tail, depth);
    assert (tag + tail)[|tag|..] == tail;
    SkipLenAt(tag + tail, |tag|, data, rest, depth);
  }

  lemma {:induction false} SkipFixed(f: WireField, depth: nat, rest: Bytes)
    requires WellFormed(f) && (f.AFixed64? || f.AFixed32?)
    ensures Skip(Emit(f) + rest, depth) == After(|Emit(f)|, depth, rest)
  {
    var wireType := if f.AFixed64? then 1 else 5;
    var whole := Tag(f.num, wireType) + (f.data + rest);
    assert whole == Emit(f) + rest;
    SkipTagged(f.num, wireType, f.data + rest, depth);
    assert whole[|Emit(f)|..] == rest;
    SkipOnAfter(whole, |Emit(f)|, depth);
  }

  /** Skipping any well-formed field consumes exactly that field, at any group depth. */
  lemma {:induction false} SkipEmitted(f: WireField, depth: nat, rest: Bytes)
    requires WellFormed(f)
    ensures Skip(Emit(f) + rest, depth) == After(|Emit(f)|, depth, rest)
    decreases f, 1
  {
    match f
    case AVarint(num, v) => SkipVarint(num, v, depth, rest);
    case ALen(num, data) => SkipLen(num, data, depth, rest);
    case AFixed64(_, _) => SkipFixed(f, depth, rest);
    case AFixed32(_, _) => SkipFixed(f, depth, rest);
    case AGroup(num, fields) => SkipGroup(num, fields, depth, rest);
  }

  lemma {:induction false} SkipGroupEnd(num: nat, depth: nat, rest: Bytes)
    requires num < 0x2000_0000
    ensures Skip(Tag(num, 4) + rest, depth + 1) == After(|Tag(num, 4)|, depth, rest)
  {
    SkipTagged(num, 4, rest, depth + 1);
    assert (Tag(num, 4) + rest)[|Tag(num, 4)|..] == rest;
    SkipOnAfter(Tag(num, 4) + rest, |Tag(num, 4)|, depth);
  }

  lemma EmittedGroup(num: nat, fields: seq<WireField>, rest: Bytes)
    ensures Emit(AGroup(num, fields)) + rest == Tag(num, 3) + (EmitAll(fields) + (Tag(num, 4) + rest))
    ensures |Emit(AGroup(num, fields))| == |Tag(num, 3)| + |EmitAll(fields)| + |Tag(num, 4)|
  {
  }

  lemma {:induction false} SkipGroupOpen(num: nat, inner: Bytes, depth: nat)
    requires num < 0x2000_0000 && inner != []
    ensures Skip(Tag(num, 3) + inner, depth) == Plus(|Tag(num, 3)|, Skip(inner, depth + 1))
  {
    var open := Tag(num, 3);
    SkipTagged(num, 3, inner, depth);
    assert (open + inner)[|open|..] == inner;
    SkipOnAfter(open + inner, |open|, depth + 1);
  }

  lemma PlusAfter(a: nat, b: nat, c: nat, depth: nat, rest: Bytes)
    ensures Plus(a, Plus(b, After(c, depth, rest))) == After(a + b + c, depth, rest)
  {
  }

  lemma {:induction false} SkipGroup(num: nat, fields: seq<WireField>, depth: nat, rest: Bytes)
    requires WellFormed(AGroup(num, fields))
    ensures var f := AGroup(num, fields);
            Skip(Emit(f) + rest, depth) == After(|Emit(f)|, depth, rest)
    decreases fields, 2
  {
    var body, end := EmitAll(fields), Tag(num, 4);
    EmittedGroup(num, fields, rest);
    SkipTagged(num, 4, rest, depth + 1);
    assert end + rest != [] && body + (end + rest) != [];
    SkipGroupOpen(num, body + (end + rest), depth);
    SkipEmittedAll(fields, depth + 1, end + rest);
    SkipGroupEnd(num, depth, rest);
    PlusAfter(|Tag(num, 3)|, |body|, |end|, depth, rest);
  }

  lemma {:induction false} SkipEmittedAll(fs: seq<WireField>, depth: nat, rest: Bytes)
    requires forall i :: 0 <= i < |fs| ==> WellFormed(fs[i])
    requires depth >= 1 && rest != []
    ensures Skip(EmitAll(fs) + rest, depth) == Plus(|EmitAll(fs)|, Skip(rest, depth))
    decreases fs, 0
  {
    if fs == [] {
      assert EmitAll(fs) + rest == rest;
    } else {
      var more := EmitAll(fs[1..]) + rest;
      assert EmitAll(fs) + rest == Emit(fs[0]) + more;
      assert fs[0] in fs;
      SkipEmitted(fs[0], depth, more);
      SkipEmittedAll(fs[1..], depth, rest);
    }
  }

  lemma TagNumber(num: nat, wireType: nat)
    requires 1 <= num < 0x2000_0000 && wireType < 8
    ensures FieldNum((8 * num + wireType) % TWO64) == num
    ensures (8 * num + wireType) % TWO64 % 8 == wireType
  {
  }

  lemma {:induction false} ReadUnknown(schema: Schema, num: nat, wireType: nat, rest: Bytes)
    requires 1 <= num < 0x2000_0000 && wireType < 8 && wireType != 4 && num !in schema
    requires var s := Tag(num, wireType) + rest; Skip(s, 0) == Ok(|s|)
    ensures var s := Tag(num, wireType) + rest; ReadField(schema, s) == Ok((Unknown, |s|)) && s != []
  {
    TagReads(num, wireType, rest);
    TagNumber(num, wireType);
  }

  /** A well-formed field with a number the message does not know is read as `Unknown`, whole. */
  lemma {:induction false} UnknownIsSkipped(schema: Schema, f: WireField)
    requires WellFormed(f) && f.num !in schema
    ensures ReadField(schema, Emit(f)) == Ok((Unknown, |Emit(f)|))
    ensures Emit(f) != []
  {
    SkipEmitted(f, 0, []);
    assert Emit(f) + [] == Emit(f);
    match f
    case AVarint(num, v) => ReadUnknown(schema, num, 0, EncodeVarint(v));
    case AFixed64(num, data) => ReadUnknown(schema, num, 1, data);
    case ALen(num, data) => ReadUnknown(schema, num, 2, EncodeVarint(|data|) + data);
    case AGroup(num, fields) => ReadUnknown(schema, num, 3, EmitAll(fields) + Tag(num, 4));
    case AFixed32(num, data) => ReadUnknown(schema, num, 5, data);
  }

  /** Decoding passes over a well-formed unknown field. */
  lemma {:induction false} UnknownThen<M>(
      schema: Schema, apply: (M, Item) -> Result<M, WireError>, m: M, f: WireField, t: Bytes)
    requires WellFormed(f) && f.num !in schema
    ensures Unmarshal(schema, apply, m, Emit(f) + t) == Unmarshal(schema, apply, m, t)
  {
    var u := Emit(f);
    UnknownIsSkipped(schema, f);
    ReadFieldLocal(schema, u, t);
    assert (u + t)[|u|..] == t;
  }

  /**
    * Unknown fields are transparent: between any bytes that decode and any bytes at all, inserting a
    * well-formed unknown field changes neither the decoded message nor the error.
    */
  lemma {:induction false} UnknownFieldTransparent<M>(
      schema: Schema, apply: (M, Item) -> Result<M, WireError>, m: M, s: Bytes, f: WireField, t: Bytes)
    requires WellFormed(f) && f.num !in schema
    requires Unmarshal(schema, apply, m, s).Ok?
    ensures Unmarshal(schema, apply, m, s + Emit(f) + t) == Unmarshal(schema, apply, m, s + t)
  {
    var u := Emit(f);
    UnknownThen(schema, apply, Unmarshal(schema, apply, m, s).value, f, t);
    UnmarshalConcat(schema, apply, m, s, u + t);
    UnmarshalConcat(schema, apply, m, s, t);
    assert s + u + t == s + (u + t);
  }
}
