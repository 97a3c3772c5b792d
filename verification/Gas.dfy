/** Gas meters. */
module Gas {
  import opened Words

  const MAX_GAS: Uint64 := TWO64 - 1

  datatype Meter = Limited(limit: Uint64, consumed: Uint64) | Infinite(consumed: Uint64)

  predicate OutOfGas(m: Meter) {
    m.Limited? && m.consumed >= m.limit
  }

  function Limit(m: Meter): Uint64 {
    if m.Limited? then m.limit else MAX_GAS
  }

  function ConsumedToLimit(m: Meter): Uint64 {
    if m.Limited? && m.consumed > m.limit then m.limit else m.consumed
  }

  /**
    * `ConsumeGas`: the meter afterwards and whether it panicked. An overflow leaves a limited
    * meter at its maximum and resets an infinite one to zero.
    */
  function Consume(m: Meter, amount: Uint64): (Meter, bool) {
    if m.consumed + amount > MAX_GAS then
      (if m.Limited? then Limited(m.limit, MAX_GAS) else Infinite(0), true)
    else
      var c: Uint64 := m.consumed + amount;
      (m.(consumed := c), m.Limited? && c > m.limit)
  }
}
