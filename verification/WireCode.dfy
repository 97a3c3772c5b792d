/** The decoding loops of the generated code, over an index into the input. */
module WireCode {
  import opened Words
  import opened Wire

  lemma ModAdd(a: nat, b: nat)
    ensures (a % TWO64 + b) % TWO64 == (a + b) % TWO64
  {
  }

  /** A varint read so far, continued by the rest of it. */
  function Continued(raw: nat, unit: nat, k: nat, rest: Result<(nat, nat), WireError>): Result<(nat, nat), WireError> {
    match rest
    case Err(e) => Err(e)
    case Ok((v, n)) => Ok((raw + unit * v, k + n))
  }

  lemma {:induction false} ContinueGroup(raw: nat, unit: nat, k: nat, s: Bytes)
    requires s != [] && 7 * k < 64
    ensures s[0] < 128 ==> Continued(raw, unit, k, ReadVarint(s, k)) == Ok((raw + s[0] % 128 * unit, k + 1))
    ensures s[0] >= 128 ==>
              Continued(raw, unit, k, ReadVarint(s, k))
              == Continued(raw + s[0] % 128 * unit, 128 * unit, k + 1, ReadVarint(s[1..], k + 1))
  {
    if s[0] >= 128 && ReadVarint(s[1..], k + 1).Ok? {
      Distribute(unit, s[0] % 128, ReadVarint(s[1..], k + 1).value.0);
    } else {
      assert unit * s[0] == s[0] * unit;
    }
  }

  lemma Distribute(unit: nat, b: nat, v: nat)
    ensures unit * (b + 128 * v) == b * unit + 128 * unit * v
  {
  }

  /**
    * The varint loop. Each 7-bit group is or-ed in above the bits read so far, which is an addition;
    * bits beyond the word are lost. The result is the word and the index after it.
    */
  method DecodeVarint(d: Bytes, start: nat) returns (r: Result<(Uint64, nat), WireError>)
    requires start <= |d|
    ensures r == match ReadVarint(d[start..], 0)
                 case Err(e) => Err(e)
                 case Ok((v, n)) => Ok((v % TWO64, start + n))
  {
    var value: Uint64, index, shift := 0, start, 0;
    var unit: nat := 1;  // 1 << shift
    ghost var raw: nat, k: nat := 0, 0;
    while true
      invariant start <= index <= |d| && k == index - start && shift == 7 * k
      invariant value == raw % TWO64
      invariant ReadVarint(d[start..], 0) == Continued(raw, unit, k, ReadVarint(d[index..], k))
      decreases |d| - index
    {
      if shift >= 64 {
        return Err(VarintOverflow);
      }
      if index >= |d| {
        return Err(Truncated);
      }
      var b := d[index];
      ContinueGroup(raw, unit, k, d[index..]);
      assert d[index..][1..] == d[index + 1..];
      var group: nat := b % 128 * unit;
      ModAdd(raw, group);
      value := ToU64(value + group);
      index := index + 1;
      if b < 128 {
        return Ok((value, index));
      }
      raw, k := raw + group, k + 1;
      shift, unit := shift + 7, 128 * unit;
    }
  }

  lemma ModEight(raw: nat)
    ensures raw % TWO64 % 8 == raw % 8
  {
  }

  lemma SkipTypedVarint(s: Bytes, n: nat, depth: nat)
    requires 1 <= n <= |s|
    ensures SkipTyped(s, n, 0, depth) == match ReadVarint(s[n..], 0)
                                         case Err(e) => Err(e)
                                         case Ok((_, k)) => SkipOn(s, n + k, depth)
  {
  }

  lemma SkipTypedOther(s: Bytes, n: nat, wireType: nat, depth: nat)
    requires 1 <= n <= |s| && wireType != 0 && wireType != 2
    ensures SkipTyped(s, n, wireType, depth) ==
      if wireType == 1 then SkipOn(s, n + 8, depth)
      else if wireType == 3 then SkipOn(s, n, depth + 1)
      else if wireType == 4 then (if depth == 0 then Err(EndGroup) else SkipOn(s, n, depth - 1))
      else if wireType == 5 then SkipOn(s, n + 4, depth)
      else Err(IllegalWireType)
  {
  }

  lemma SkipTypedLenOr(s: Bytes, n: nat, depth: nat)
    requires 1 <= n <= |s|
    ensures SkipTyped(s, n, 2, depth) == match ReadVarint(s[n..], 0)
                                         case Err(e) => Err(e)
                                         case Ok((len, k)) =>
                                           if len % TWO64 >= TWO63 then Err(NegativeLength)
                                           else SkipOn(s, n + k + len % TWO64, depth)
  {
  }

  /** A varint, or a length and as many bytes. */
  method SkipCounted(d: Bytes, pre: nat, index: nat, sized: bool, depth: nat) returns (r: Result<(nat, nat), WireError>)
    requires pre < index <= |d|
    ensures var skipped := SkipTyped(d[pre..], index - pre, if sized then 2 else 0, depth);
            && (r.Err? ==> skipped == Err(r.error))
            && (r.Ok? ==> r.value.0 > pre && skipped == SkipOn(d[pre..], r.value.0 - pre, r.value.1))
  {
    var v := DecodeVarint(d, index);
    SkipTypedAt(d, pre, index, sized, depth);
    if v.Err? {
      return Err(v.error);
    }
    if !sized {
      return Ok((v.value.1, depth));
    }
    r := if v.value.0 >= TWO63 then Err(NegativeLength) else Ok((v.value.1 + v.value.0, depth));
  }

  lemma {:induction false} SkipTypedAt(d: Bytes, pre: nat, index: nat, sized: bool, depth: nat)
    requires pre < index <= |d|
    ensures var v := ReadVarint(d[index..], 0);
            SkipTyped(d[pre..], index - pre, if sized then 2 else 0, depth) ==
              if v.Err? then Err(v.error)
              else if !sized then SkipOn(d[pre..], index - pre + v.value.1, depth)
              else if v.value.0 % TWO64 >= TWO63 then Err(NegativeLength)
              else SkipOn(d[pre..], index - pre + v.value.1 + v.value.0 % TWO64, depth)
  {
    var s, n := d[pre..], index - pre;
    assert s[n..] == d[index..];
    if sized {
      SkipTypedLenOr(s, n, depth);
    } else {
      SkipTypedVarint(s, n, depth);
    }
  }

  /** The value behind a tag: the index after it, and the group depth. */
  method SkipValue(d: Bytes, pre: nat, index: nat, wireType: nat, depth: nat) returns (r: Result<(nat, nat), WireError>)
    requires pre < index <= |d|
    ensures var skipped := SkipTyped(d[pre..], index - pre, wireType, depth);
            && (r.Err? ==> skipped == Err(r.error))
            && (r.Ok? ==> r.value.0 > pre && skipped == SkipOn(d[pre..], r.value.0 - pre, r.value.1))
  {
    if wireType == 0 || wireType == 2 {
      r := SkipCounted(d, pre, index, wireType == 2, depth);
    } else {
      SkipTypedOther(d[pre..], index - pre, wireType, depth);
      match wireType {
        case 1 => r := Ok((index + 8, depth));
        case 3 => r := Ok((index, depth + 1));
        case 4 => r := if depth == 0 then Err(EndGroup) else Ok((index, depth - 1));
        case 5 => r := Ok((index + 4, depth));
        case _ => r := Err(IllegalWireType);
      }
    }
  }

  /** One turn of `skipAbci`: the index after the tag and its value, and the group depth. */
  method SkipElement(d: Bytes, pre: nat, depth: nat) returns (r: Result<(nat, nat), WireError>)
    requires pre < |d|
    ensures r.Err? ==> Skip(d[pre..], depth) == Err(r.error)
    ensures r.Ok? ==> r.value.0 > pre && Skip(d[pre..], depth) == SkipOn(d[pre..], r.value.0 - pre, r.value.1)
  {
    var tag := DecodeVarint(d, pre);
    if tag.Err? {
      return Err(tag.error);
    }
    ModEight(ReadVarint(d[pre..], 0).value.0);
    r := SkipValue(d, pre, tag.value.1, tag.value.0 % 8, depth);
  }

  /** `skipAbci`: the length of the field at the start of the input, counting open groups. */
  method SkipAbci(d: Bytes) returns (r: Result<nat, WireError>)
    ensures r == Skip(d, 0)
  {
    var index, depth := 0, 0;
    while index < |d|
      invariant 0 <= index
      invariant index <= |d| && (index == 0 ==> depth == 0)
      invariant Skip(d, 0) == if index == |d| then Err(Truncated) else Plus(index, Skip(d[index..], depth))
      decreases |d| - index
    {
      var pre := index;
      var e := SkipElement(d, pre, depth);
      if e.Err? {
        return Err(e.error);
      }
      index, depth := e.value.0, e.value.1;
      if depth == 0 {
        return Ok(index);
      }
      if index >= |d| {
        return Err(Truncated);
      }
      assert d[pre..][index - pre..] == d[index..];
    }
    r := Err(Truncated);
  }

  /** A result relative to `at`, as an absolute one. */
  function Moved(at: nat, r: Result<(Item, nat), WireError>): Result<(Item, nat), WireError> {
    match r
    case Err(e) => Err(e)
    case Ok((item, n)) => Ok((item, at + n))
  }

  /** The value behind a tag: field-number and wire-type checks, then the value or a skip of the whole field. */
  method DecodeValue(schema: Schema, d: Bytes, preIndex: nat, index: nat, fieldNum: int, wireType: nat)
    returns (r: Result<(Item, nat), WireError>)
    requires preIndex < index <= |d|
    ensures r == Moved(preIndex, ReadValue(schema, d[preIndex..], index - preIndex, fieldNum, wireType))
  {
    var s := d[preIndex..];
    assert s[index - preIndex..] == d[index..];
    if wireType == 4 {
      return Err(EndGroup);
    }
    if fieldNum <= 0 {
      return Err(IllegalTag);
    }
    if fieldNum !in schema {
      var skippy := SkipAbci(s);
      if skippy.Err? {
        return Err(skippy.error);
      }
      if preIndex + skippy.value > |d| {
        return Err(Truncated);
      }
      return Ok((Unknown, preIndex + skippy.value));
    }
    if schema[fieldNum].VarintKind? {
      if wireType != 0 {
        return Err(WrongWireType);
      }
      var v := DecodeVarint(d, index);
      if v.Err? {
        return Err(v.error);
      }
      return Ok((Number(fieldNum, v.value.0), v.value.1));
    }
    if wireType != 2 {
      return Err(WrongWireType);
    }
    var p := DecodePayload(d, preIndex, index);
    r := if p.Err? then Err(p.error) else Ok((Payload(fieldNum, p.value.0), p.value.1));
  }

  /** One turn of an `Unmarshal` loop: the tag, and then its value. */
  method DecodeField(schema: Schema, d: Bytes, preIndex: nat) returns (r: Result<(Item, nat), WireError>)
    requires preIndex < |d|
    ensures r == Moved(preIndex, ReadField(schema, d[preIndex..]))
  {
    var tag := DecodeVarint(d, preIndex);
    if tag.Err? {
      return Err(tag.error);
    }
    var wire, index := tag.value.0, tag.value.1;
    r := DecodeValue(schema, d, preIndex, index, FieldNum(wire), wire % 8);
  }

  /** A length-delimited value at `index`, inside a field that starts at `pre`. */
  method DecodePayload(d: Bytes, pre: nat, index: nat) returns (r: Result<(Bytes, nat), WireError>)
    requires pre <= index <= |d|
    ensures r == match ReadPayload(d[pre..], index - pre)
                 case Err(e) => Err(e)
                 case Ok((data, k)) => Ok((data, pre + k))
  {
    ghost var s := d[pre..];
    assert s[index - pre..] == d[index..];
    var len := DecodeVarint(d, index);
    if len.Err? {
      return Err(len.error);
    }
    if len.value.0 >= TWO63 {
      return Err(NegativeLength);
    }
    var postIndex := len.value.1 + len.value.0;
    if postIndex > |d| {
      return Err(Truncated);
    }
    assert s[len.value.1 - pre..postIndex - pre] == d[len.value.1..postIndex];
    r := Ok((d[len.value.1..postIndex], postIndex));
  }

  /** One field of the message at `index`: the message with it applied, and the index after it. */
  method UnmarshalField<M>(schema: Schema, apply: (M, Item) -> Result<M, WireError>, m: M, d: Bytes, index: nat)
    returns (r: Result<(M, nat), WireError>)
    requires index < |d|
    ensures r.Err? ==> Unmarshal(schema, apply, m, d[index..]) == Err(r.error)
    ensures r.Ok? ==> index < r.value.1 <= |d|
    ensures r.Ok? ==> Unmarshal(schema, apply, m, d[index..]) == Unmarshal(schema, apply, r.value.0, d[r.value.1..])
  {
    var f := DecodeField(schema, d, index);
    UnmarshalTurn(schema, apply, m, d[index..]);
    if f.Err? {
      return Err(f.error);
    }
    var (item, next) := f.value;
    assert d[index..][next - index..] == d[next..];
    if item.Unknown? {
      return Ok((m, next));
    }
    var m' := apply(m, item);
    r := if m'.Err? then Err(m'.error) else Ok((m'.value, next));
  }

  /** The `Unmarshal` loop shared by the generated messages, each with its own schema and field assignments. */
  method UnmarshalMessage<M>(schema: Schema, apply: (M, Item) -> Result<M, WireError>, empty: M, d: Bytes)
    returns (r: Result<M, WireError>)
    ensures r == Unmarshal(schema, apply, empty, d)
  {
    var m, index := empty, 0;
    while index < |d|
      invariant 0 <= index <= |d|
      invariant Unmarshal(schema, apply, empty, d) == Unmarshal(schema, apply, m, d[index..])
      decreases |d| - index
    {
      var f := UnmarshalField(schema, apply, m, d, index);
      if f.Err? {
        return Err(f.error);
      }
      m, index := f.value.0, f.value.1;
    }
    r := Ok(m);
  }
}
