/**
 * The identifier space and key form that the unique-ID allocator of the
 * state package uses, and what its probe-and-retry loop computes, stated as
 * functions of the set of objects a probe can read and of the sequence of
 * random draws.
 */
module Unique {
  import opened Digits

  /** The smallest 18-digit number. */
  const IdSpaceLow := 100000000000000000

  const IdSpaceHigh := 999999999999999999

  /** A value of `rand.Intn(idSpaceHigh - idSpaceLow)`. */
  type Draw = d: int | 0 <= d < IdSpaceHigh - IdSpaceLow

  /** An object of the store: its bucket and its key inside the bucket. */
  datatype ObjectPath = ObjectPath(bucket: string, key: string)

  /** An allocated identifier and the key the allocator settled on. */
  datatype Allocation = Allocation(id: string, key: string)

  /** The candidate identifier a draw gives: 18 decimal digits. */
  function Candidate(d: Draw): (id: nat)
    ensures IdSpaceLow <= id < IdSpaceHigh
    ensures |Decimal(id)| == 18
  {
    Pow10Eighteen();
    DecimalLength(IdSpaceLow + d, 18);
    IdSpaceLow + d
  }

  /** The key under which a state with identifier `id` is stored. */
  function StateKey(id: string): (key: string)
    ensures |key| == 7 + |id| && key[..7] == "states/" && key[7..] == id
  {
    "states/" + id
  }

  function CandidatePath(bucket: string, d: Draw): ObjectPath {
    ObjectPath(bucket, StateKey(Decimal(Candidate(d))))
  }

  /** Distinct draws probe distinct objects of a bucket. */
  lemma CandidatePathInjective(bucket: string, d1: Draw, d2: Draw)
    ensures CandidatePath(bucket, d1) == CandidatePath(bucket, d2) <==> d1 == d2
  {
    if CandidatePath(bucket, d1) == CandidatePath(bucket, d2) {
      assert StateKey(Decimal(Candidate(d1)))[7..] == StateKey(Decimal(Candidate(d2)))[7..];
      DecimalInjective(Candidate(d1), Candidate(d2));
    }
  }

  /** Some draw names an object that cannot be read, so the retry loop stops. */
  ghost predicate HasFree(readable: set<ObjectPath>, bucket: string, draws: seq<Draw>) {
    exists i :: 0 <= i < |draws| && CandidatePath(bucket, draws[i]) !in readable
  }

  /** The index of the first draw whose object cannot be read. */
  function FirstFree(readable: set<ObjectPath>, bucket: string, draws: seq<Draw>): (j: nat)
    requires HasFree(readable, bucket, draws)
    ensures j < |draws|
    ensures CandidatePath(bucket, draws[j]) !in readable
    ensures forall k :: 0 <= k < j ==> CandidatePath(bucket, draws[k]) in readable
    decreases |draws|
  {
    if CandidatePath(bucket, draws[0]) !in readable then 0
    else
      assert HasFree(readable, bucket, draws[1..]) by {
        var i :| 0 <= i < |draws| && CandidatePath(bucket, draws[i]) !in readable;
        assert draws[1..][i - 1] == draws[i];
      }
      1 + FirstFree(readable, bucket, draws[1..])
  }

  /**
   * What the allocator returns as written: the identifier of the FIRST
   * candidate (the retry loop declares a fresh `id` that shadows the outer
   * one) and the key of the LAST probed candidate.
   */
  function AsWrittenAllocation(readable: set<ObjectPath>, bucket: string, draws: seq<Draw>): (a: Allocation)
    requires HasFree(readable, bucket, draws)
    ensures a.id == Decimal(Candidate(draws[0]))
    ensures |a.id| == 18 && forall i :: 0 <= i < 18 ==> IsDigit(a.id[i])
    ensures ObjectPath(bucket, a.key) !in readable
    ensures FirstFree(readable, bucket, draws) == 0 <==> a.key == StateKey(a.id)
    ensures FirstFree(readable, bucket, draws) > 0 ==> ObjectPath(bucket, StateKey(a.id)) in readable
  {
    var j := FirstFree(readable, bucket, draws);
    Allocation(Decimal(Candidate(draws[0])), StateKey(Decimal(Candidate(draws[j]))))
  }

  /** The allocation with the shadowing removed: identifier and key of the same, free candidate. */
  function CorrectedAllocation(readable: set<ObjectPath>, bucket: string, draws: seq<Draw>): (a: Allocation)
    requires HasFree(readable, bucket, draws)
    ensures |a.id| == 18 && forall i :: 0 <= i < 18 ==> IsDigit(a.id[i])
    ensures a.key == StateKey(a.id)
    ensures ObjectPath(bucket, a.key) !in readable
  {
    var j := FirstFree(readable, bucket, draws);
    Allocation(Decimal(Candidate(draws[j])), StateKey(Decimal(Candidate(draws[j]))))
  }

  /** Both allocations settle on the same key; they differ only in the identifier. */
  lemma AllocationsShareKey(readable: set<ObjectPath>, bucket: string, draws: seq<Draw>)
    requires HasFree(readable, bucket, draws)
    ensures AsWrittenAllocation(readable, bucket, draws).key == CorrectedAllocation(readable, bucket, draws).key
    ensures AsWrittenAllocation(readable, bucket, draws) == CorrectedAllocation(readable, bucket, draws)
            <==> FirstFree(readable, bucket, draws) == 0
  {
  }
}
