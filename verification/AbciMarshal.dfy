/** Size prediction and the back-to-front marshalling of the generated code. */
module AbciMarshal {
  import opened Words
  import opened Wire
  import opened AbciCodec

  // ---- Sizes ----

  function SizeDelimited(l: nat): nat {
    1 + l + Sov(ToU64(l))
  }

  function SizeStr(l: nat): nat {
    if l > 0 then SizeDelimited(l) else 0
  }

  function SizeNum(v: Uint64): nat {
    if v != 0 then 1 + Sov(v) else 0
  }

  function SizeAttribute(a: Attribute): nat {
    SizeStr(|a.key|) + SizeStr(|a.value|)
  }

  function SizeRepeated<T>(size: T -> nat, xs: seq<T>): nat {
    if xs == [] then 0 else SizeDelimited(size(xs[0])) + SizeRepeated(size, xs[1..])
  }

  function SizeEvent(e: StringEvent): nat {
    SizeStr(|e.typ|) + SizeRepeated(SizeAttribute, e.attributes)
  }

  function SizeLog(l: MessageLog): nat {
    SizeNum(l.msgIndex) + SizeStr(|l.log|) + SizeRepeated(SizeEvent, l.events)
  }

  function SizeGas(g: GasInfo): nat {
    SizeNum(g.gasWanted) + SizeNum(g.gasUsed)
  }

  lemma {:induction false} SizeOfStr(tag: Byte, data: Bytes)
    requires |data| < TWO63
    ensures SizeStr(|data|) == |Str(tag, data)|
    ensures SizeDelimited(|data|) == |Delimited(tag, data)|
  {
    assert ToU64(|data|) == |data|;
    SovIsLength(|data|);
    assert |Delimited(tag, data)| == 1 + |EncodeVarint(|data|)| + |data|;
  }

  lemma {:induction false} SizeOfNum(tag: Byte, v: Uint64)
    ensures SizeNum(v) == |Num(tag, v)|
  {
    SovIsLength(v);
  }

  lemma {:induction false} AttributeSize(a: Attribute)
    requires |EncodeAttribute(a)| < TWO63
    ensures SizeAttribute(a) == |EncodeAttribute(a)|
  {
    SizeOfStr(0x0a, a.key);
    SizeOfStr(0x12, a.value);
  }

  lemma {:induction false} RepeatedSize<T>(tag: Byte, encode: T -> Bytes, size: T -> nat, xs: seq<T>)
    requires |Repeated(tag, encode, xs)| < TWO63
    requires forall i :: 0 <= i < |xs| && |encode(xs[i])| < TWO63 ==> size(xs[i]) == |encode(xs[i])|
    ensures SizeRepeated(size, xs) == |Repeated(tag, encode, xs)|
    decreases |xs|
  {
    if xs != [] {
      assert |encode(xs[0])| < TWO63;
      SizeOfStr(tag, encode(xs[0]));
      assert forall i :: 0 <= i < |xs[1..]| ==> xs[1..][i] == xs[i + 1];
      RepeatedSize(tag, encode, size, xs[1..]);
    }
  }

  lemma {:induction false} EventSize(e: StringEvent)
    requires |EncodeEvent(e)| < TWO63
    ensures SizeEvent(e) == |EncodeEvent(e)|
  {
    SizeOfStr(0x0a, e.typ);
    forall i | 0 <= i < |e.attributes| && |EncodeAttribute(e.attributes[i])| < TWO63 {
      AttributeSize(e.attributes[i]);
    }
    RepeatedSize(0x12, EncodeAttribute, SizeAttribute, e.attributes);
  }

  /** `Size()` is the length of the encoding. */
  lemma {:induction false} LogSize(l: MessageLog)
    requires |EncodeLog(l)| < TWO63
    ensures SizeLog(l) == |EncodeLog(l)|
  {
    SizeOfNum(0x08, l.msgIndex);
    SizeOfStr(0x12, l.log);
    forall i | 0 <= i < |l.events| && |EncodeEvent(l.events[i])| < TWO63 {
      EventSize(l.events[i]);
    }
    RepeatedSize(0x1a, EncodeEvent, SizeEvent, l.events);
  }

  lemma {:induction false} GasSize(g: GasInfo)
    ensures SizeGas(g) == |EncodeGas(g)|
  {
    SizeOfNum(0x08, g.gasWanted);
    SizeOfNum(0x10, g.gasUsed);
  }

  // ---- Writing into the tail of a buffer ----

  /** `was` with the bytes before `hi` overwritten by `x`. */
  function Ending(was: Bytes, x: Bytes, hi: nat): (r: Bytes)
    requires |x| <= hi <= |was|
    ensures |r| == |was|
  {
    seq(|was|, i requires 0 <= i < |was| => if hi - |x| <= i < hi then x[i - (hi - |x|)] else was[i])
  }

  /** Writing `y` just before `x` is writing `y + x`. */
  lemma EndingPrepend(was: Bytes, x: Bytes, y: Bytes, hi: nat)
    requires |y| + |x| <= hi <= |was|
    ensures Ending(Ending(was, x, hi), y, hi - |x|) == Ending(was, y + x, hi)
  {
  }

  /** Storing one byte right after what has been written. */
  lemma EndingAppend(was: Bytes, done: Bytes, at: nat, b: Byte)
    requires |done| <= at < |was|
    ensures Ending(was, done, at)[at := b] == Ending(was, done + [b], at + 1)
  {
  }

  lemma EndingNothing(was: Bytes, hi: nat)
    requires hi <= |was|
    ensures Ending(was, [], hi) == was
  {
  }

  method EncodeVarintAbci(buf: array<Byte>, offset: nat, v: Uint64) returns (base: nat)
    requires |EncodeVarint(v)| <= offset <= buf.Length
    modifies buf
    ensures base == offset - |EncodeVarint(v)|
    ensures buf[..] == Ending(old(buf[..]), EncodeVarint(v), offset)
  {
    SovIsLength(v);
    base := offset - Sov(v);
    WriteVarint(buf, base, v);
  }

  /** The buffer while a varint is being written: the bytes `done` are in place, and `rest` is still to come. */
  ghost predicate Writing(was: Bytes, now: Bytes, base: nat, v: nat, done: Bytes, rest: nat) {
    && base + |EncodeVarint(v)| <= |was|
    && done + EncodeVarint(rest) == EncodeVarint(v)
    && base + |done| < |was| && now == Ending(was, done, base + |done|)
  }

  lemma {:induction false} WritingNext(was: Bytes, now: Bytes, base: nat, v: nat, done: Bytes, rest: nat)
    requires Writing(was, now, base, v, done, rest) && rest >= 128
    ensures var b: Byte := rest % 128 + 128;
            Writing(was, now[base + |done| := b], base, v, done + [b], rest / 128)
  {
    var b: Byte := rest % 128 + 128;
    VarintHead(rest);
    EndingAppend(was, done, base + |done|, b);
    assert (done + [b]) + EncodeVarint(rest / 128) == done + ([b] + EncodeVarint(rest / 128));
    assert |EncodeVarint(rest / 128)| >= 1;
  }

  method WriteVarint(buf: array<Byte>, base: nat, v: Uint64)
    requires base + |EncodeVarint(v)| <= buf.Length
    modifies buf
    ensures buf[..] == Ending(old(buf[..]), EncodeVarint(v), base + |EncodeVarint(v)|)
  {
    ghost var was := buf[..];
    ghost var done: Bytes := [];
    EndingNothing(was, base);
    assert [] + EncodeVarint(v) == EncodeVarint(v);
    var rest, at := v, base;
    while rest >= 128
      invariant at == base + |done| && Writing(was, buf[..], base, v, done, rest)
      decreases rest
    {
      WritingNext(was, buf[..], base, v, done, rest);
      var b: Byte := rest % 128 + 128;
      ghost var next := buf[..][at := b];
      buf[at] := b;
      assert buf[..] == next;
      done := done + [b];
      rest := rest / 128;
      at := at + 1;
    }
    EndingAppend(was, done, at, rest);
    buf[at] := rest;
  }

  lemma VarintHead(v: nat)
    requires v >= 128
    ensures EncodeVarint(v) == [v % 128 + 128] + EncodeVarint(v / 128)
    ensures |EncodeVarint(v / 128)| >= 1
  {
  }

  /** `i -= len; copy(dAtA[i:], data)`. */
  method CopyBefore(buf: array<Byte>, hi: nat, data: Bytes) returns (lo: nat)
    requires |data| <= hi <= buf.Length
    modifies buf
    ensures lo == hi - |data|
    ensures buf[..] == Ending(old(buf[..]), data, hi)
  {
    lo := hi - |data|;
    ghost var was := buf[..];
    EndingNothing(was, lo);
    for k := 0 to |data|
      invariant buf[..] == Ending(was, data[..k], lo + k)
    {
      EndingAppend(was, data[..k], lo + k, data[k]);
      assert data[..k] + [data[k]] == data[..k + 1];
      buf[lo + k] := data[k];
    }
    assert data[..|data|] == data;
  }

  /** The tag byte before what already ends at `hi`. */
  method TagBefore(buf: array<Byte>, at: nat, tag: Byte) returns (lo: nat)
    requires 1 <= at <= buf.Length
    modifies buf
    ensures lo == at - 1
    ensures buf[..] == Ending(old(buf[..]), [tag], at)
  {
    lo := at - 1;
    buf[lo] := tag;
  }

  /** Length and tag in front of `data`, which was written so that it ends at `hi`. */
  method DelimitBefore(buf: array<Byte>, hi: nat, size: nat, tag: Byte, ghost was: Bytes, ghost data: Bytes)
    returns (lo: nat)
    requires size == |data| < TWO63
    requires |Delimited(tag, data)| <= hi <= buf.Length == |was|
    requires buf[..] == Ending(was, data, hi)
    modifies buf
    ensures lo == hi - |Delimited(tag, data)|
    ensures buf[..] == Ending(was, Delimited(tag, data), hi)
  {
    ghost var len := EncodeVarint(size);
    var i := EncodeVarintAbci(buf, hi - size, size);
    EndingPrepend(was, data, len, hi);
    lo := TagBefore(buf, i, tag);
    EndingPrepend(was, len + data, [tag], hi);
  }

  /** A string field, written only when the string is not empty. */
  method StrBefore(buf: array<Byte>, hi: nat, tag: Byte, data: Bytes) returns (lo: nat)
    requires |data| < TWO63 && |Str(tag, data)| <= hi <= buf.Length
    modifies buf
    ensures lo == hi - |Str(tag, data)|
    ensures buf[..] == Ending(old(buf[..]), Str(tag, data), hi)
  {
    ghost var was := buf[..];
    lo := hi;
    if |data| > 0 {
      lo := CopyBefore(buf, hi, data);
      lo := DelimitBefore(buf, hi, |data|, tag, was, data);
    }
  }

  /** A varint field, written only when it is not zero. */
  method NumBefore(buf: array<Byte>, hi: nat, tag: Byte, v: Uint64) returns (lo: nat)
    requires |Num(tag, v)| <= hi <= buf.Length
    modifies buf
    ensures lo == hi - |Num(tag, v)|
    ensures buf[..] == Ending(old(buf[..]), Num(tag, v), hi)
  {
    ghost var was := buf[..];
    lo := hi;
    if v != 0 {
      lo := EncodeVarintAbci(buf, hi, v);
      lo := TagBefore(buf, lo, tag);
      EndingPrepend(was, EncodeVarint(v), [tag], hi);
    }
  }

  // ---- MarshalToSizedBuffer of each message, into `buf[..hi]`; the result is the number of bytes written ----

  method MarshalAttribute(a: Attribute, buf: array<Byte>, hi: nat) returns (n: nat)
    requires |EncodeAttribute(a)| < TWO63 && |EncodeAttribute(a)| <= hi <= buf.Length
    modifies buf
    ensures n == |EncodeAttribute(a)|
    ensures buf[..] == Ending(old(buf[..]), EncodeAttribute(a), hi)
  {
    ghost var was := buf[..];
    var i := StrBefore(buf, hi, 0x12, a.value);
    i := StrBefore(buf, i, 0x0a, a.key);
    EndingPrepend(was, Str(0x12, a.value), Str(0x0a, a.key), hi);
    n := hi - i;
  }

  /** The last elements of a repeated field, one shorter. */
  lemma {:induction false} RepeatedFrom<T>(tag: Byte, encode: T -> Bytes, xs: seq<T>, k: nat)
    requires k < |xs|
    ensures Repeated(tag, encode, xs[k..]) == Delimited(tag, encode(xs[k])) + Repeated(tag, encode, xs[k + 1..])
  {
    assert xs[k..][1..] == xs[k + 1..];
  }

  lemma {:induction false} RepeatedShrinks<T>(tag: Byte, encode: T -> Bytes, xs: seq<T>, k: nat)
    requires k <= |xs|
    ensures |Repeated(tag, encode, xs[k..])| <= |Repeated(tag, encode, xs)|
    decreases k
  {
    if k == 0 {
      assert xs[0..] == xs;
    } else {
      RepeatedShrinks(tag, encode, xs, k - 1);
      RepeatedFrom(tag, encode, xs, k - 1);
    }
  }

  method MarshalAttributes(xs: seq<Attribute>, buf: array<Byte>, hi: nat) returns (i: nat)
    requires |Repeated(0x12, EncodeAttribute, xs)| < TWO63 && |Repeated(0x12, EncodeAttribute, xs)| <= hi <= buf.Length
    modifies buf
    ensures i == hi - |Repeated(0x12, EncodeAttribute, xs)|
    ensures buf[..] == Ending(old(buf[..]), Repeated(0x12, EncodeAttribute, xs), hi)
  {
    ghost var was, tail: Bytes := buf[..], [];
    EndingNothing(was, hi);
    i := hi;
    var k := |xs|;
    while k > 0
      invariant 0 <= k <= |xs| && tail == Repeated(0x12, EncodeAttribute, xs[k..])
      invariant |tail| <= |Repeated(0x12, EncodeAttribute, xs)|
      invariant i == hi - |tail|
      invariant buf[..] == Ending(was, tail, hi)
    {
      k := k - 1;
      ghost var mid, data := buf[..], EncodeAttribute(xs[k]);
      RepeatedFrom(0x12, EncodeAttribute, xs, k);
      RepeatedShrinks(0x12, EncodeAttribute, xs, k);
      var size := MarshalAttribute(xs[k], buf, i);
      i := DelimitBefore(buf, i, size, 0x12, mid, data);
      EndingPrepend(was, tail, Delimited(0x12, data), hi);
      tail := Delimited(0x12, data) + tail;
    }
    assert xs[0..] == xs;
  }

  method MarshalEvent(e: StringEvent, buf: array<Byte>, hi: nat) returns (n: nat)
    requires |EncodeEvent(e)| < TWO63 && |EncodeEvent(e)| <= hi <= buf.Length
    modifies buf
    ensures n == |EncodeEvent(e)|
    ensures buf[..] == Ending(old(buf[..]), EncodeEvent(e), hi)
  {
    ghost var was := buf[..];
    var i := MarshalAttributes(e.attributes, buf, hi);
    i := StrBefore(buf, i, 0x0a, e.typ);
    EndingPrepend(was, Repeated(0x12, EncodeAttribute, e.attributes), Str(0x0a, e.typ), hi);
    n := hi - i;
  }

  method MarshalEvents(xs: seq<StringEvent>, buf: array<Byte>, hi: nat) returns (i: nat)
    requires |Repeated(0x1a, EncodeEvent, xs)| < TWO63 && |Repeated(0x1a, EncodeEvent, xs)| <= hi <= buf.Length
    modifies buf
    ensures i == hi - |Repeated(0x1a, EncodeEvent, xs)|
    ensures buf[..] == Ending(old(buf[..]), Repeated(0x1a, EncodeEvent, xs), hi)
  {
    ghost var was, tail: Bytes := buf[..], [];
    EndingNothing(was, hi);
    i := hi;
    var k := |xs|;
    while k > 0
      invariant 0 <= k <= |xs| && tail == Repeated(0x1a, EncodeEvent, xs[k..])
      invariant |tail| <= |Repeated(0x1a, EncodeEvent, xs)|
      invariant i == hi - |tail|
      invariant buf[..] == Ending(was, tail, hi)
    {
      k := k - 1;
      ghost var mid, data := buf[..], EncodeEvent(xs[k]);
      RepeatedFrom(0x1a, EncodeEvent, xs, k);
      RepeatedShrinks(0x1a, EncodeEvent, xs, k);
      var size := MarshalEvent(xs[k], buf, i);
      i := DelimitBefore(buf, i, size, 0x1a, mid, data);
      EndingPrepend(was, tail, Delimited(0x1a, data), hi);
      tail := Delimited(0x1a, data) + tail;
    }
    assert xs[0..] == xs;
  }

  method MarshalLog(l: MessageLog, buf: array<Byte>, hi: nat) returns (n: nat)
    requires |EncodeLog(l)| < TWO63 && |EncodeLog(l)| <= hi <= buf.Length
    modifies buf
    ensures n == |EncodeLog(l)|
    ensures buf[..] == Ending(old(buf[..]), EncodeLog(l), hi)
  {
    ghost var was, events, log := buf[..], Repeated(0x1a, EncodeEvent, l.events), Str(0x12, l.log);
    ghost var index := Num(0x08, l.msgIndex);
    assert EncodeLog(l) == index + (log + events);
    var i := MarshalEvents(l.events, buf, hi);
    i := StrBefore(buf, i, 0x12, l.log);
    EndingPrepend(was, events, log, hi);
    assert buf[..] == Ending(was, log + events, hi);
    i := NumBefore(buf, i, 0x08, l.msgIndex);
    EndingPrepend(was, log + events, index, hi);
    n := hi - i;
  }

  method MarshalGas(g: GasInfo, buf: array<Byte>, hi: nat) returns (n: nat)
    requires |EncodeGas(g)| <= hi <= buf.Length
    modifies buf
    ensures n == |EncodeGas(g)|
    ensures buf[..] == Ending(old(buf[..]), EncodeGas(g), hi)
  {
    ghost var was, used, wanted := buf[..], Num(0x10, g.gasUsed), Num(0x08, g.gasWanted);
    EndingPrepend(was, used, wanted, hi);
    assert EncodeGas(g) == wanted + used;
    var i := NumBefore(buf, hi, 0x10, g.gasUsed);
    assert buf[..] == Ending(was, used, hi) && i == hi - |used|;
    i := NumBefore(buf, i, 0x08, g.gasWanted);
    n := hi - i;
  }

  /** `Marshal()`: the buffer of `Size()` bytes is filled completely, with the encoding, and decodes to the log. */
  method Marshal(l: MessageLog) returns (data: Bytes)
    requires |EncodeLog(l)| < TWO63
    ensures data == EncodeLog(l) && |data| == SizeLog(l)
    ensures DecodeLog(NO_LOG, data) == Ok(l)
  {
    LogSize(l);
    var size := SizeLog(l);
    var buf := new Byte[size](i => 0);
    var n := MarshalLog(l, buf, size);
    data := buf[..n];
    LogRoundTrip(l);
  }
}
