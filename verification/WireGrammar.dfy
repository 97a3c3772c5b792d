/** The wire format as a grammar on positions of the input; the decoder accepts exactly what it generates. */
module WireGrammar {
  import opened Words
  import opened Wire

  // ---- Varints ----

  /** Seven bits a byte, least significant first. */
  function Value(b: Bytes): nat {
    if b == [] then 0 else b[0] % 128 + 128 * Value(b[1..])
  }

  /** A varint occupies `s[a..b]`: at most ten bytes, all but the last with the continuation bit. */
  predicate VarintAt(s: Bytes, a: int, b: int) {
    && 0 <= a < b <= |s| && b - a <= 10
    && (forall i :: a <= i < b - 1 ==> s[i] >= 128)
    && s[b - 1] < 128
  }

  /** The first `limit` bytes at `a`, or all there are, have the continuation bit. */
  predicate Unending(s: Bytes, a: int, limit: int) {
    0 <= a <= |s| && forall i :: a <= i < |s| && i < a + limit ==> s[i] >= 128
  }

  /** How a varint is read after `k` of its bytes, from position `a` on. */
  ghost predicate ReadFrom(s: Bytes, a: int, k: nat, r: Result<(nat, nat), WireError>)
    requires 0 <= a <= |s|
  {
    match r
    case Ok((v, n)) => k + n <= 10 && VarintAt(s, a, a + n) && v == Value(s[a..a + n])
    case Err(VarintOverflow) => a + (10 - k) <= |s| && Unending(s, a, 10 - k)
    case Err(Truncated) => |s| < a + (10 - k) && Unending(s, a, 10 - k)
    case Err(_) => false
  }

  lemma {:induction false} VarintReadsOn(s: Bytes, a: int, k: nat)
    requires 0 <= a < |s| && k < 10 && s[a] >= 128
    requires ReadFrom(s, a + 1, k + 1, ReadVarint(s[a + 1..], k + 1))
    ensures ReadFrom(s, a, k, ReadVarint(s[a..], k))
  {
    assert s[a..][1..] == s[a + 1..];
    match ReadVarint(s[a + 1..], k + 1)
    case Ok((v, n)) =>
      assert s[a..a + 1 + n][1..] == s[a + 1..a + 1 + n];
    case Err(_) =>
  }

  lemma {:induction false} VarintReads(s: Bytes, a: int, k: nat)
    requires 0 <= a <= |s| && k <= 10
    ensures ReadFrom(s, a, k, ReadVarint(s[a..], k))
    decreases 10 - k
  {
    if k < 10 && a < |s| {
      if s[a] >= 128 {
        VarintReads(s, a + 1, k + 1);
        VarintReadsOn(s, a, k);
      } else {
        assert s[a..a + 1][1..] == [];
      }
    }
  }

  lemma VarintEnds(s: Bytes, a: int, b: int, c: int)
    requires VarintAt(s, a, b) && VarintAt(s, a, c)
    ensures b == c
  {
  }

  /** A varint is read if and only if one is there, and each error has its own cause. */
  lemma {:induction false} VarintExactly(s: Bytes, a: int, v: nat, n: nat)
    requires 0 <= a <= |s|
    ensures ReadVarint(s[a..], 0) == Ok((v, n)) <==> VarintAt(s, a, a + n) && v == Value(s[a..a + n])
    ensures ReadVarint(s[a..], 0) == Err(VarintOverflow) <==> a + 10 <= |s| && Unending(s, a, 10)
    ensures ReadVarint(s[a..], 0) == Err(Truncated) <==> |s| < a + 10 && Unending(s, a, 10)
  {
    VarintReads(s, a, 0);
    var r := ReadVarint(s[a..], 0);
    if VarintAt(s, a, a + n) {
      assert !Unending(s, a, 10) by {
        assert s[a + n - 1] < 128;
      }
      if r.Ok? {
        VarintEnds(s, a, a + n, a + r.value.1);
      }
    }
    if r.Ok? {
      assert s[a + r.value.1 - 1] < 128;
    }
  }

  // ---- Skipped elements ----

  /** A length and as many bytes: the length at `s[a..e]`, below 2^63 as an int64, and the bytes up to `b`. */
  predicate SizedAt(s: Bytes, a: int, e: int, b: int) {
    && VarintAt(s, a, e)
    && Value(s[a..e]) % TWO64 < TWO63
    && b == e + Value(s[a..e]) % TWO64 <= |s|
  }

  /** What follows a tag of each wire type; groups are delimited by elements of their own. */
  ghost predicate BodyAt(s: Bytes, c: int, b: int, wireType: int) {
    && 0 <= c <= b <= |s|
    && (match wireType
        case 0 => VarintAt(s, c, b)
        case 1 => b == c + 8
        case 2 => exists e :: SizedAt(s, c, e, b)
        case 3 => b == c
        case 4 => b == c
        case 5 => b == c + 4
        case _ => false)
  }

  /** An element: a tag at `s[a..c]` and its body up to `b`. */
  ghost predicate ElementAt(s: Bytes, a: int, c: int, b: int) {
    VarintAt(s, a, c) && BodyAt(s, c, b, Value(s[a..c]) % 8)
  }

  /** Open groups after an element of this wire type. */
  function Depth(depth: nat, wireType: int): int {
    if wireType == 3 then depth + 1 else if wireType == 4 then depth - 1 else depth
  }

  /** Elements from `a` that close all `depth` open groups, and whatever they open, exactly at `b`. */
  ghost predicate Balanced(s: Bytes, a: int, b: int, depth: nat)
    decreases b - a, 0
  {
    exists c, m :: 0 <= a < m <= b && ElementAt(s, a, c, m) && Closing(s, m, b, Depth(depth, Value(s[a..c]) % 8))
  }

  ghost predicate Closing(s: Bytes, m: int, b: int, depth: int)
    requires m <= b
    decreases b - m, 1
  {
    depth >= 0 && if depth == 0 then m == b else m < b && Balanced(s, m, b, depth)
  }

  /** How far skipping gets at position `m` with `depth` groups open. */
  function Onward(s: Bytes, a: int, m: int, depth: int): Result<nat, WireError>
    requires 0 <= a < m <= |s|
  {
    if depth < 0 then Err(EndGroup)
    else if depth == 0 then Ok(m - a)
    else if m == |s| then Err(Truncated)
    else Plus(m - a, Skip(s[m..], depth))
  }

  lemma {:induction false} SkipOnward(s: Bytes, a: int, m: int, depth: nat)
    requires 0 <= a < m <= |s|
    ensures SkipOn(s[a..], m - a, depth) == Onward(s, a, m, depth)
  {
    assert s[a..][m - a..] == s[m..];
  }

  /** Skipping a well-formed element goes on behind it. */
  lemma {:induction false} ElementSkips(s: Bytes, a: int, c: int, m: int, depth: nat)
    requires 0 <= a <= |s| && ElementAt(s, a, c, m)
    ensures Skip(s[a..], depth) == Onward(s, a, m, Depth(depth, Value(s[a..c]) % 8))
  {
    var wireType := Value(s[a..c]) % 8;
    VarintExactly(s, a, Value(s[a..c]), c - a);
    BodySkips(s, a, c, m, wireType, depth);
  }

  lemma {:induction false} VarintSkips(s: Bytes, a: int, c: int, m: int, depth: nat)
    requires 0 <= a < c <= |s| && VarintAt(s, c, m)
    ensures SkipTyped(s[a..], c - a, 0, depth) == Onward(s, a, m, depth)
  {
    assert s[a..][c - a..] == s[c..];
    VarintExactly(s, c, Value(s[c..m]), m - c);
    SkipOnward(s, a, m, depth);
  }

  lemma {:induction false} SizedSkips(s: Bytes, a: int, c: int, e: int, m: int, depth: nat)
    requires 0 <= a < c <= |s| && SizedAt(s, c, e, m)
    ensures SkipTyped(s[a..], c - a, 2, depth) == Onward(s, a, m, depth)
  {
    assert s[a..][c - a..] == s[c..];
    VarintExactly(s, c, Value(s[c..e]), e - c);
    SkipOnward(s, a, m, depth);
  }

  lemma {:induction false} BodySkips(s: Bytes, a: int, c: int, m: int, wireType: int, depth: nat)
    requires 0 <= a < c <= |s| && BodyAt(s, c, m, wireType)
    ensures SkipTyped(s[a..], c - a, wireType, depth) == Onward(s, a, m, Depth(depth, wireType))
  {
    if wireType == 0 {
      VarintSkips(s, a, c, m, depth);
    } else if wireType == 2 {
      var e :| SizedAt(s, c, e, m);
      SizedSkips(s, a, c, e, m, depth);
    } else if Depth(depth, wireType) >= 0 {
      SkipOnward(s, a, m, Depth(depth, wireType));
    }
  }

  /** Where a body that can be skipped ends, if it does so within the input. */
  lemma {:induction false} SkippedBody(s: Bytes, a: int, c: int, b: int, wireType: int, depth: nat) returns (m: int)
    requires 0 <= a < c <= |s| && a < b <= |s| && 0 <= wireType < 8
    requires SkipTyped(s[a..], c - a, wireType, depth) == Ok(b - a)
    ensures BodyAt(s, c, m, wireType)
  {
    assert s[a..][c - a..] == s[c..];
    if wireType == 0 {
      var n := ReadVarint(s[c..], 0).value.1;
      VarintExactly(s, c, ReadVarint(s[c..], 0).value.0, n);
      m := c + n;
    } else if wireType == 2 {
      var (v, n) := ReadVarint(s[c..], 0).value;
      VarintExactly(s, c, v, n);
      m := c + n + v % TWO64;
      SkipWithin(s, a, m, b, depth);
      assert SizedAt(s, c, c + n, m);
    } else if wireType == 1 {
      m := c + 8;
      SkipWithin(s, a, m, b, depth);
    } else if wireType == 5 {
      m := c + 4;
      SkipWithin(s, a, m, b, depth);
    } else {
      m := c;
    }
  }

  lemma {:induction false} SkipWithin(s: Bytes, a: int, m: int, b: int, depth: nat)
    requires 0 <= a < m && a < b <= |s| && SkipOn(s[a..], m - a, depth) == Ok(b - a)
    ensures m <= b
  {
  }

  /** Skipping succeeds within the input exactly on balanced elements. */
  lemma {:induction false} SkipExactly(s: Bytes, a: int, b: int, depth: nat)
    requires 0 <= a < b <= |s|
    ensures Skip(s[a..], depth) == Ok(b - a) <==> Balanced(s, a, b, depth)
    decreases b - a
  {
    if Skip(s[a..], depth) == Ok(b - a) {
      var (raw, n) := ReadVarint(s[a..], 0).value;
      VarintExactly(s, a, raw, n);
      var c := a + n;
      var m := SkippedBody(s, a, c, b, raw % 8, depth);
      assert ElementAt(s, a, c, m);
      ElementCloses(s, a, c, m, b, depth);
    }
    if Balanced(s, a, b, depth) {
      var c, m :| 0 <= a < m <= b && ElementAt(s, a, c, m)
                  && Closing(s, m, b, Depth(depth, Value(s[a..c]) % 8));
      ElementCloses(s, a, c, m, b, depth);
    }
  }

  lemma {:induction false} ElementCloses(s: Bytes, a: int, c: int, m: int, b: int, depth: nat)
    requires 0 <= a < b <= |s| && ElementAt(s, a, c, m)
    ensures Skip(s[a..], depth) == Ok(b - a) <==> m <= b && Closing(s, m, b, Depth(depth, Value(s[a..c]) % 8))
    decreases b - a, 0
  {
    ElementSkips(s, a, c, m, depth);
    var d := Depth(depth, Value(s[a..c]) % 8);
    if d > 0 && m < b {
      SkipExactly(s, m, b, d);
    }
  }

  // ---- Fields and messages ----

  /** The field number of a tag: bits 3 to 34, as an int32. */
  function NumberOf(tag: nat): int {
    var n := tag % TWO64 / 8 % TWO32;
    if n < 0x8000_0000 then n else n - TWO32
  }

  /** The value behind a tag at `s[c..b]`: as the schema wants it, or anything skippable for an unknown number. */
  ghost predicate ValueAt(schema: Schema, s: Bytes, a: int, c: int, b: int, num: int, wireType: int, item: Item) {
    match item
    case Unknown => num !in schema && 0 <= a < b <= |s| && Balanced(s, a, b, 0)
    case Number(f, word) =>
      && f == num && num in schema && schema[num].VarintKind? && wireType == 0
      && VarintAt(s, c, b) && word == Value(s[c..b]) % TWO64
    case Payload(f, data) =>
      && f == num && num in schema && schema[num].LenKind? && wireType == 2
      && exists e :: SizedAt(s, c, e, b) && data == s[e..b]
  }

  /** A field occupies `s[a..b]`: a tag with a positive number that does not end a group, and its value. */
  ghost predicate FieldAt(schema: Schema, s: Bytes, a: int, b: int, item: Item) {
    exists c :: VarintAt(s, a, c) && FieldWith(schema, s, a, c, b, item)
  }

  ghost predicate FieldWith(schema: Schema, s: Bytes, a: int, c: int, b: int, item: Item)
    requires VarintAt(s, a, c)
  {
    var tag := Value(s[a..c]);
    NumberOf(tag) > 0 && tag % 8 != 4 && ValueAt(schema, s, a, c, b, NumberOf(tag), tag % 8, item)
  }

  lemma {:induction false} PayloadReads(s: Bytes, a: int, c: int, e: int, b: int)
    requires 0 <= a < c <= |s| && SizedAt(s, c, e, b)
    ensures ReadPayload(s[a..], c - a) == Ok((s[e..b], b - a))
  {
    var t := s[a..];
    assert t[c - a..] == s[c..];
    VarintExactly(s, c, Value(s[c..e]), e - c);
    assert t[e - a..b - a] == s[e..b];
  }

  lemma {:induction false} PayloadIsThere(s: Bytes, a: int, c: int) returns (e: int)
    requires 0 <= a < c <= |s| && ReadPayload(s[a..], c - a).Ok?
    ensures SizedAt(s, c, e, a + ReadPayload(s[a..], c - a).value.1)
  {
    assert s[a..][c - a..] == s[c..];
    var (v, n) := ReadVarint(s[c..], 0).value;
    VarintExactly(s, c, v, n);
    e := c + n;
  }

  lemma {:induction false} PayloadExactly(s: Bytes, a: int, c: int, b: int, data: Bytes)
    requires 0 <= a < c <= |s| && a < b <= |s|
    ensures ReadPayload(s[a..], c - a) == Ok((data, b - a)) <==> exists e :: SizedAt(s, c, e, b) && data == s[e..b]
  {
    if ReadPayload(s[a..], c - a) == Ok((data, b - a)) {
      var e := PayloadIsThere(s, a, c);
      PayloadReads(s, a, c, e, b);
    }
    if exists e :: SizedAt(s, c, e, b) && data == s[e..b] {
      var e :| SizedAt(s, c, e, b) && data == s[e..b];
      PayloadReads(s, a, c, e, b);
    }
  }

  lemma {:induction false} TagWord(tag: nat)
    ensures tag % TWO64 % 8 == tag % 8 && FieldNum(tag % TWO64) == NumberOf(tag)
  {
    assert TWO64 == 8 * (TWO64 / 8);
    assert tag == (tag / TWO64) * TWO64 + tag % TWO64;
    assert tag == 8 * ((tag / TWO64) * (TWO64 / 8)) + tag % TWO64;
  }

  lemma {:induction false} WordExactly(s: Bytes, c: int, b: int, word: Uint64)
    requires 0 <= c <= |s|
    ensures (ReadVarint(s[c..], 0).Ok? && ReadVarint(s[c..], 0).value.1 == b - c
             && ReadVarint(s[c..], 0).value.0 % TWO64 == word) <==>
      VarintAt(s, c, b) && word == Value(s[c..b]) % TWO64
  {
    var r := ReadVarint(s[c..], 0);
    if r.Ok? {
      VarintExactly(s, c, r.value.0, r.value.1);
    }
    if VarintAt(s, c, b) {
      VarintExactly(s, c, Value(s[c..b]), b - c);
    }
  }

  lemma {:induction false} NumberExactly(
      schema: Schema, s: Bytes, a: int, c: int, b: int, num: int, wireType: nat, f: int, word: Uint64)
    requires 0 <= a < c <= |s| && a < b <= |s|
    ensures ReadValue(schema, s[a..], c - a, num, wireType) == Ok((Number(f, word), b - a)) <==>
      num > 0 && wireType != 4 && ValueAt(schema, s, a, c, b, num, wireType, Number(f, word))
  {
    assert s[a..][c - a..] == s[c..];
    WordExactly(s, c, b, word);
  }

  lemma {:induction false} ValueExactly(
      schema: Schema, s: Bytes, a: int, c: int, b: int, num: int, wireType: nat, item: Item)
    requires 0 <= a < c <= |s| && a < b <= |s|
    ensures ReadValue(schema, s[a..], c - a, num, wireType) == Ok((item, b - a)) <==>
      num > 0 && wireType != 4 && ValueAt(schema, s, a, c, b, num, wireType, item)
  {
    match item
    case Unknown => SkipExactly(s, a, b, 0);
    case Number(f, word) => NumberExactly(schema, s, a, c, b, num, wireType, f, word);
    case Payload(_, data) => PayloadExactly(s, a, c, b, data);
  }

  /** Behind a tag that is there, a field is read exactly when its value is there. */
  lemma {:induction false} TaggedExactly(schema: Schema, s: Bytes, a: int, c: int, b: int, item: Item)
    requires 0 <= a < b <= |s| && VarintAt(s, a, c)
    ensures ReadField(schema, s[a..]) == Ok((item, b - a)) <==> FieldWith(schema, s, a, c, b, item)
  {
    var tag := Value(s[a..c]);
    VarintExactly(s, a, tag, c - a);
    TagWord(tag);
    ValueExactly(schema, s, a, c, b, NumberOf(tag), tag % 8, item);
  }

  /** A field is read if and only if one is there, with the same item. */
  lemma {:induction false} FieldExactly(schema: Schema, s: Bytes, a: int, b: int, item: Item)
    requires 0 <= a < b <= |s|
    ensures ReadField(schema, s[a..]) == Ok((item, b - a)) <==> FieldAt(schema, s, a, b, item)
  {
    var r := ReadVarint(s[a..], 0);
    if r.Ok? {
      VarintExactly(s, a, r.value.0, r.value.1);
      TaggedExactly(schema, s, a, a + r.value.1, b, item);
    }
    if FieldAt(schema, s, a, b, item) {
      var c :| VarintAt(s, a, c) && FieldWith(schema, s, a, c, b, item);
      TaggedExactly(schema, s, a, c, b, item);
    }
  }

  /** From `a` to its end the input is a sequence of fields that turn `m` into `m'`. */
  ghost predicate MessageAt<M(!new)>(
      schema: Schema, apply: (M, Item) -> Result<M, WireError>, s: Bytes, a: int, m: M, m': M)
    requires 0 <= a <= |s|
    decreases |s| - a, 0
  {
    if a == |s| then m == m'
    else
      exists b, item :: a < b <= |s| && FieldAt(schema, s, a, b, item)
                        && Applied(schema, apply, s, b, m, item, m')
  }

  ghost predicate Applied<M(!new)>(
      schema: Schema, apply: (M, Item) -> Result<M, WireError>, s: Bytes, b: int, m: M, item: Item, m': M)
    requires 0 <= b <= |s|
    decreases |s| - b, 1
  {
    if item.Unknown? then MessageAt(schema, apply, s, b, m, m')
    else apply(m, item).Ok? && MessageAt(schema, apply, s, b, apply(m, item).value, m')
  }

  lemma {:induction false} FieldIsApplied<M>(
      schema: Schema, apply: (M, Item) -> Result<M, WireError>, s: Bytes, a: int, b: int, m: M, item: Item)
    requires 0 <= a < b <= |s| && ReadField(schema, s[a..]) == Ok((item, b - a))
    ensures Unmarshal(schema, apply, m, s[a..]) ==
      if item.Unknown? then Unmarshal(schema, apply, m, s[b..])
      else if apply(m, item).Err? then Err(apply(m, item).error)
      else Unmarshal(schema, apply, apply(m, item).value, s[b..])
  {
    var t := s[a..];
    UnmarshalTurn(schema, apply, m, t);
    assert t[b - a..] == s[b..];
  }

  /** Whatever decodes is a sequence of fields. */
  lemma {:induction false} DecodedIsThere<M(!new)>(
      schema: Schema, apply: (M, Item) -> Result<M, WireError>, s: Bytes, a: int, m: M, m': M)
    requires 0 <= a <= |s| && Unmarshal(schema, apply, m, s[a..]) == Ok(m')
    ensures MessageAt(schema, apply, s, a, m, m')
    decreases |s| - a
  {
    if a < |s| {
      var (item, n) := ReadField(schema, s[a..]).value;
      var b := a + n;
      FieldExactly(schema, s, a, b, item);
      FieldIsApplied(schema, apply, s, a, b, m, item);
      DecodedIsThere(schema, apply, s, b, if item.Unknown? then m else apply(m, item).value, m');
      assert Applied(schema, apply, s, b, m, item, m');
    }
  }

  /** Every sequence of fields decodes. */
  lemma {:induction false} ThereIsDecoded<M(!new)>(
      schema: Schema, apply: (M, Item) -> Result<M, WireError>, s: Bytes, a: int, m: M, m': M)
    requires 0 <= a <= |s| && MessageAt(schema, apply, s, a, m, m')
    ensures Unmarshal(schema, apply, m, s[a..]) == Ok(m')
    decreases |s| - a
  {
    if a < |s| {
      var b, item :| a < b <= |s| && FieldAt(schema, s, a, b, item) && Applied(schema, apply, s, b, m, item, m');
      FieldExactly(schema, s, a, b, item);
      ThereIsDecoded(schema, apply, s, b, if item.Unknown? then m else apply(m, item).value, m');
      FieldIsApplied(schema, apply, s, a, b, m, item);
    }
  }

  /** Decoding succeeds, with this result, exactly on a sequence of fields that gives it: nothing else is accepted. */
  lemma {:induction false} MessageExactly<M(!new)>(
      schema: Schema, apply: (M, Item) -> Result<M, WireError>, s: Bytes, m: M, m': M)
    ensures Unmarshal(schema, apply, m, s) == Ok(m') <==> MessageAt(schema, apply, s, 0, m, m')
  {
    assert s[0..] == s;
    if Unmarshal(schema, apply, m, s) == Ok(m') {
      DecodedIsThere(schema, apply, s, 0, m, m');
    }
    if MessageAt(schema, apply, s, 0, m, m') {
      ThereIsDecoded(schema, apply, s, 0, m, m');
    }
  }
}
