/**
 The bounded pool that limits how many bootstrap units run at once. The
 agent holds a buffered channel of capacity `BootstrapMaxConcurrent`; a
 send takes a token (and blocks while the buffer is full), a receive gives
 one back. Only the number of buffered tokens matters, so the pool is a
 counter.
 */
module TokenPool {

  datatype Pool = Pool(capacity: nat, inFlight: nat) {

    /** The channel never holds more tokens than its buffer. */
    predicate Valid()
    {
      0 < capacity && inFlight <= capacity
    }

    /** A send does not block. */
    predicate CanAcquire()
    {
      inFlight < capacity
    }
  }

  /** A freshly made channel: empty buffer of the configured size. */
  function New(capacity: nat): (p: Pool)
    requires 0 < capacity
    ensures p.Valid() && p.CanAcquire()
    ensures p.capacity == capacity && p.inFlight == 0
  {
    Pool(capacity, 0)
  }

  /** A send on the channel; only allowed when it would not block. */
  function Acquire(p: Pool): (q: Pool)
    requires p.Valid() && p.CanAcquire()
    ensures q.Valid()
    ensures q.capacity == p.capacity && q.inFlight == p.inFlight + 1
  {
    Pool(p.capacity, p.inFlight + 1)
  }

  /** A receive on the channel; only a holder of a token performs one. */
  function Release(p: Pool): (q: Pool)
    requires p.Valid() && 0 < p.inFlight
    ensures q.Valid() && q.CanAcquire()
    ensures q.capacity == p.capacity && q.inFlight + 1 == p.inFlight
  {
    Pool(p.capacity, p.inFlight - 1)
  }

  /** Giving back the token just taken restores the pool exactly. */
  lemma ReleaseUndoesAcquire(p: Pool)
    requires p.Valid() && p.CanAcquire()
    ensures Release(Acquire(p)) == p
  {
  }

  /** A full pool always has a holder that can give a token back, so a
      blocked send is never blocked by an empty pool. */
  lemma FullPoolHasHolder(p: Pool)
    requires p.Valid() && !p.CanAcquire()
    ensures 0 < p.inFlight
  {
  }
}
