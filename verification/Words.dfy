/** Go's fixed-width integers, byte slices and the few wrappers the other modules share. */
module Words {
  const TWO32 := 0x1_0000_0000
  const TWO63 := 0x8000_0000_0000_0000
  const TWO64 := 0x1_0000_0000_0000_0000

  type Byte = b: int | 0 <= b < 256
  type Bytes = seq<Byte>
  type Uint32 = n: int | 0 <= n < TWO32
  type Uint64 = n: int | 0 <= n < TWO64
  type Int64 = n: int | -TWO63 <= n < TWO63

  datatype Option<+T> = None | Some(value: T)
  datatype Result<+T, +E> = Ok(value: T) | Err(error: E)

  /** `uint64(x)` of an int64, and every uint64 operation that may wrap. */
  function ToU64(x: int): Uint64 {
    x % TWO64
  }

  function Sum(s: seq<nat>): nat {
    if s == [] then 0 else s[0] + Sum(s[1..])
  }

  lemma {:induction false} SumSnoc(s: seq<nat>, x: nat)
    ensures Sum(s + [x]) == Sum(s) + x
  {
    if s != [] {
      SumSnoc(s[1..], x);
      assert (s + [x])[1..] == s[1..] + [x];
    }
  }

  function Flatten<T>(ss: seq<seq<T>>): seq<T> {
    if ss == [] then [] else ss[0] + Flatten(ss[1..])
  }

  lemma {:induction false} FlattenSnoc<T>(ss: seq<seq<T>>, x: seq<T>)
    ensures Flatten(ss + [x]) == Flatten(ss) + x
  {
    if ss != [] {
      FlattenSnoc(ss[1..], x);
      assert (ss + [x])[1..] == ss[1..] + [x];
    }
  }
}
