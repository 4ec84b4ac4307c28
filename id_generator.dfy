/** IDGenerator: a counter that hands out increasing IDs. Seed raises the
    current ID, never lowers it; Generate increments it and returns the new
    value, wrapping like Interlocked.Increment at the end of the Int32
    range. */
module Identifiers {
  import opened Outcomes
  import opened Text

  /** The ID after Seed(seed) on a generator whose ID is `current`:
      ArgumentOutOfRangeException for a seed below 1, otherwise the larger
      of the two. */
  function SeedEffect(current: int, seed: int): (r: Result<int, Error>)
    ensures r.Failure? <==> seed < 1
    ensures r.Failure? ==> r.error == ArgumentOutOfRange
    ensures r.Success? ==> r.value >= current && r.value >= seed && (r.value == current || r.value == seed)
  {
    if seed < 1 then Failure(ArgumentOutOfRange)
    else if current < seed then Success(seed)
    else Success(current)
  }

  /** Interlocked.Increment on an Int32: one more, except that
      int.MaxValue wraps to int.MinValue. */
  function Increment(current: int): (r: int)
    requires IsInt32(current)
    ensures IsInt32(r)
    ensures current < MaxInt32 ==> r == current + 1
    ensures current == MaxInt32 ==> r == MinInt32
  {
    WrapInt32(current + 1)
  }

  class IDGenerator {
    var id: int

    /** The ID property. */
    function ID(): int
      reads this
    {
      id
    }

    /** The generator's invariant: the ID is an Int32. */
    predicate Valid()
      reads this
    {
      IsInt32(id)
    }

    /** new IDGenerator(): the seed defaults to 1, so the ID starts at 1. */
    constructor ()
      ensures Valid() && ID() == 1
    {
      id := 1;
    }

    /** Seed(seed): ArgumentOutOfRangeException for a seed below 1, which
        leaves the ID alone; otherwise the ID becomes the seed when the
        seed is larger. */
    method Seed(seed: int) returns (err: Option<Error>)
      requires Valid() && IsInt32(seed)
      modifies this
      ensures Valid()
      ensures match SeedEffect(old(id), seed)
              case Failure(e) => err == Some(e) && id == old(id)
              case Success(next) => err == None && id == next
    {
      if seed < 1 {
        return Some(ArgumentOutOfRange);
      }
      if id < seed {
        id := seed;
      }
      return None;
    }

    /** Generate(): increment the ID and return its new value. */
    method Generate() returns (r: int)
      requires Valid()
      modifies this
      ensures Valid()
      ensures id == Increment(old(id)) && r == id
    {
      id := WrapInt32(id + 1);
      r := id;
    }
  }

  /** new IDGenerator(seed): the constructor seeds a generator whose ID is
      1, and so throws for a seed below 1. */
  method New(seed: int) returns (r: Result<IDGenerator, Error>)
    requires IsInt32(seed)
    ensures r.Failure? <==> seed < 1
    ensures r.Failure? ==> r.error == ArgumentOutOfRange
    ensures r.Success? ==> fresh(r.value) && r.value.Valid() && r.value.ID() == seed
  {
    var g := new IDGenerator();
    var err := g.Seed(seed);
    if err.Some? {
      return Failure(err.value);
    }
    return Success(g);
  }

  // ---------------------------------------------------------------------
  // Runs of calls

  /** A call on a generator. */
  datatype Call = SeedCall(seed: int) | GenerateCall

  /** Calls whose seeds are Int32 values, as the parameter type demands. */
  predicate SeedsInt32(calls: seq<Call>) {
    forall i :: 0 <= i < |calls| ==> calls[i].SeedCall? ==> IsInt32(calls[i].seed)
  }

  /** The ID after one call; a throwing Seed changes nothing. Only a
      Generate at int.MaxValue lowers it. */
  function Apply(id: int, call: Call): (r: int)
    requires IsInt32(id) && (call.SeedCall? ==> IsInt32(call.seed))
    ensures IsInt32(r)
    ensures !(call.GenerateCall? && id == MaxInt32) ==> id <= r
    ensures call.GenerateCall? ==> r != id
  {
    match call
    case SeedCall(seed) =>
      (match SeedEffect(id, seed)
       case Failure(_) => id
       case Success(next) => next)
    case GenerateCall => Increment(id)
  }

  /** What a run of calls leaves behind: the final ID, the IDs Generate
      returned in order, and whether some Generate wrapped. */
  datatype Trace = Trace(id: int, generated: seq<int>, wrapped: bool)

  function Replay(id: int, calls: seq<Call>): (t: Trace)
    requires IsInt32(id) && SeedsInt32(calls)
    ensures IsInt32(t.id)
    decreases |calls|
  {
    if calls == [] then Trace(id, [], false)
    else
      var next := Apply(id, calls[0]);
      var t := Replay(next, calls[1..]);
      if calls[0].GenerateCall? then Trace(t.id, [next] + t.generated, t.wrapped || id == MaxInt32)
      else t
  }

  /** As long as no Generate wraps, the ID never goes down, and the IDs
      handed out are strictly increasing, so no ID is handed out twice; each
      lies above the ID before the run and at most at the ID after it. */
  lemma {:induction false} ReplayWithoutWrap(id: int, calls: seq<Call>)
    requires IsInt32(id) && SeedsInt32(calls)
    requires !Replay(id, calls).wrapped
    ensures id <= Replay(id, calls).id
    ensures forall k :: 0 <= k < |Replay(id, calls).generated| ==>
              id < Replay(id, calls).generated[k] <= Replay(id, calls).id
    ensures forall j, k :: 0 <= j < k < |Replay(id, calls).generated| ==>
              Replay(id, calls).generated[j] < Replay(id, calls).generated[k]
    decreases |calls|
  {
    if calls != [] {
      var rest := calls[1..];
      assert SeedsInt32(rest) by {
        forall i | 0 <= i < |rest| ensures rest[i].SeedCall? ==> IsInt32(rest[i].seed) {
          assert rest[i] == calls[i + 1];
        }
      }
      var next := Apply(id, calls[0]);
      ReplayWithoutWrap(next, rest);
    }
  }

  /** A Generate at int.MaxValue hands out int.MinValue, and the run counts
      as wrapped. */
  lemma {:induction false} WrapHandsOutMinimum(calls: seq<Call>)
    requires SeedsInt32(calls)
    ensures Replay(MaxInt32, [GenerateCall] + calls).generated[0] == MinInt32
    ensures Replay(MaxInt32, [GenerateCall] + calls).wrapped
  {
    assert ([GenerateCall] + calls)[1..] == calls;
  }

  // ---------------------------------------------------------------------
  // Seeding

  /** Seeding twice with the same seed is seeding once. */
  lemma {:induction false} SeedIdempotent(current: int, seed: int)
    requires SeedEffect(current, seed).Success?
    ensures SeedEffect(SeedEffect(current, seed).value, seed) == SeedEffect(current, seed)
  {
  }

  /** The order of two seeds does not matter. */
  lemma {:induction false} SeedsCommute(current: int, s: int, t: int)
    requires s >= 1 && t >= 1
    ensures SeedEffect(SeedEffect(current, s).value, t) == SeedEffect(SeedEffect(current, t).value, s)
  {
  }

  // ---------------------------------------------------------------------
  // Examples

  /** new IDGenerator(), Seed(101), Generate() twice: the first call
      returns 102 and the ID ends at 103. */
  method GenerateAfterSeedExample() returns (first: int, last: int)
    ensures first == 102 && last == 103
  {
    var g := new IDGenerator();
    var err := g.Seed(101);
    first := g.Generate();
    var second := g.Generate();
    last := g.ID();
  }

  /** new IDGenerator(101), then Seed(100): the lower seed is ignored. */
  method SeedLowerExample() returns (err: Option<Error>, id: int)
    ensures err == None && id == 101
  {
    var r := New(101);
    var g := r.value;
    err := g.Seed(100);
    id := g.ID();
  }

  /** new IDGenerator(0) and Seed(-1) both throw
      ArgumentOutOfRangeException. */
  method SeedBelowOneExample() returns (created: Result<IDGenerator, Error>, err: Option<Error>, id: int)
    ensures created == Failure(ArgumentOutOfRange)
    ensures err == Some(ArgumentOutOfRange) && id == 1
  {
    created := New(0);
    var g := new IDGenerator();
    err := g.Seed(-1);
    id := g.ID();
  }
}
