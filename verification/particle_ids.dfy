/** The per-species particle id counter (`the_next_id`) and its three operations. */
module ParticleIds {
  import opened Wrappers

  /** The counter: the id the next call hands out. */
  datatype IdCounter = IdCounter(next: int)

  /** The counter at start-up: the first id handed out is 1. */
  const FirstCounter: IdCounter := IdCounter(1)

  const TooManyParticles: string := "Particle<NReal, NInt>::NextID() -- too many particles"

  /** `NextID()` (and `UnprotectedNextID()`, the same steps without the atomic capture):
      take the counter value and advance the counter; an id beyond `lastId` aborts. */
  function NextId(c: IdCounter, lastId: int): (r: Result<(int, IdCounter)>)
    ensures r.Success? <==> c.next <= lastId
    ensures r.Success? ==> r.value.0 == c.next && r.value.1.next == c.next + 1
    ensures r.Failure? ==> r.error == Abort(TooManyParticles)
  {
    var id := c.next;
    var c' := IdCounter(c.next + 1);
    if id > lastId then Failure(Abort(TooManyParticles)) else Success((id, c'))
  }

  /** `NextID(int)`: sets the counter. */
  function SetNextId(c: IdCounter, nextid: int): (r: IdCounter)
    ensures NextId(r, nextid).Success? && NextId(r, nextid).value.0 == nextid
  {
    IdCounter(nextid)
  }

  /** After `NextID(v)`, the next `NextID()` hands out `v` (if `v` is allowed at all). */
  lemma SetThenNext(c: IdCounter, v: int, lastId: int)
    ensures NextId(SetNextId(c, v), lastId).Success? <==> v <= lastId
    ensures NextId(SetNextId(c, v), lastId).Success? ==> NextId(SetNextId(c, v), lastId).value.0 == v
  {
  }

  /** A counter that started at `FirstCounter` and has only been advanced hands out
      positive ids, and stays above its start value afterwards. */
  lemma IdsPositive(c: IdCounter, lastId: int)
    requires c.next >= FirstCounter.next
    ensures NextId(c, lastId).Success? ==>
      NextId(c, lastId).value.0 >= 1 && NextId(c, lastId).value.1.next > FirstCounter.next
  {
  }

  /** Two calls in a row hand out strictly increasing ids. */
  lemma SuccessiveIdsIncrease(c: IdCounter, lastId: int)
    requires NextId(c, lastId).Success?
    requires NextId(NextId(c, lastId).value.1, lastId).Success?
    ensures NextId(c, lastId).value.0 < NextId(NextId(c, lastId).value.1, lastId).value.0
  {
  }

  /** `k` calls in a row: the ids handed out, or the abort of the first call that fails. */
  method TakeIds(c: IdCounter, lastId: int, k: nat) returns (r: Result<(seq<int>, IdCounter)>)
    ensures r.Success? <==> k == 0 || c.next + k - 1 <= lastId
    ensures r.Success? ==> |r.value.0| == k && r.value.1.next == c.next + k
    ensures r.Success? ==> forall a, b :: 0 <= a < b < k ==> r.value.0[a] < r.value.0[b]
    ensures r.Success? ==> forall a :: 0 <= a < k ==> r.value.0[a] == c.next + a && r.value.0[a] <= lastId
  {
    var ids := [];
    var cur := c;
    for i := 0 to k
      invariant cur.next == c.next + i && |ids| == i
      invariant forall a :: 0 <= a < i ==> ids[a] == c.next + a
      invariant i > 0 ==> c.next + i - 1 <= lastId
    {
      var step := NextId(cur, lastId);
      if step.Failure? {
        return Failure(step.error);
      }
      ids := ids + [step.value.0];
      cur := step.value.1;
    }
    return Success((ids, cur));
  }
}

/** The two reader settings read once from the `particles` parameters and then kept. */
module ReadLimits {
  import opened Wrappers

  const DefaultMaxReaders: int := 64
  const DefaultMaxParticlesPerRead: int := 100000

  /** The function-local static: not yet computed, or the value of the first call. */
  datatype Cached = Unset | Set(value: int)

  function Min(a: int, b: int): int { if a < b then a else b }

  /** `MaxReaders()`: on the first call the configured `nreaders` (default 64) capped by
      the number of processes, aborting unless positive; later calls return that value. */
  function MaxReaders(cache: Cached, nprocs: int, nreaders: Option<int>): (r: Result<(int, Cached)>)
    ensures cache.Set? ==> r == Success((cache.value, cache))
    ensures cache.Unset? ==>
      (r.Success? <==> 0 < nprocs && 0 < nreaders.GetOr(DefaultMaxReaders))
    ensures cache.Unset? && r.Success? ==>
      && 1 <= r.value.0 <= nprocs
      && r.value.0 <= nreaders.GetOr(DefaultMaxReaders)
      && (r.value.0 == nprocs || r.value.0 == nreaders.GetOr(DefaultMaxReaders))
      && r.value.1 == Set(r.value.0)
  {
    match cache
    case Set(v) => Success((v, cache))
    case Unset =>
      var v := Min(nprocs, nreaders.GetOr(DefaultMaxReaders));
      if v <= 0 then Failure(Abort("particles.nreaders must be positive"))
      else Success((v, Set(v)))
  }

  /** `MaxParticlesPerRead()`: on the first call the configured `nparts_per_read`
      (default 100000), aborting unless positive; later calls return that value. */
  function MaxParticlesPerRead(cache: Cached, nparts: Option<int>): (r: Result<(int, Cached)>)
    ensures cache.Set? ==> r == Success((cache.value, cache))
    ensures cache.Unset? ==> (r.Success? <==> 0 < nparts.GetOr(DefaultMaxParticlesPerRead))
    ensures cache.Unset? && r.Success? ==>
      r.value.0 == nparts.GetOr(DefaultMaxParticlesPerRead) && r.value.1 == Set(r.value.0)
  {
    match cache
    case Set(v) => Success((v, cache))
    case Unset =>
      var v := nparts.GetOr(DefaultMaxParticlesPerRead);
      if v <= 0 then Failure(Abort("particles.nparts_per_read must be positive"))
      else Success((v, Set(v)))
  }

  /** A second call returns what the first returned, whatever the parameters say by then. */
  lemma MaxReadersSticks(nprocs: int, q1: Option<int>, nprocs2: int, q2: Option<int>)
    requires MaxReaders(Unset, nprocs, q1).Success?
    ensures var (v, c) := MaxReaders(Unset, nprocs, q1).value;
      MaxReaders(c, nprocs2, q2) == Success((v, c))
  {
  }

  /** With the default and at least one process the result is the smaller of 64 and the
      process count. */
  lemma MaxReadersDefault(nprocs: int)
    requires nprocs >= 1
    ensures MaxReaders(Unset, nprocs, None).Success?
    ensures MaxReaders(Unset, nprocs, None).value.0 == Min(nprocs, 64)
  {
  }
}
