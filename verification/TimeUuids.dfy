/** Message ids (version 1 UUIDs, section 5.1 of RFC 9562) and the ten-day buckets they fall in. */
module TimeUuids {

  const TICKS_PER_MILLI: int := 10_000
  /** 100 ns ticks between 1582-10-15 and 1970-01-01. */
  const UNIX_EPOCH_TICKS: int := 0x01B2_1DD2_1381_4000
  const BUCKET_SIZE_MILLIS: int := 864_000_000

  /** A timeuuid: its 60-bit tick count, then the remaining bytes as a tiebreak. */
  datatype Id = Id(ticks: nat, tie: nat)

  /** The clustering order of a timeuuid column: by time, then by the remaining bytes. */
  predicate Less(a: Id, b: Id) {
    a.ticks < b.ticks || (a.ticks == b.ticks && a.tie < b.tie)
  }

  /** Unix milliseconds of an id; a tick count before 1970 rounds down. */
  function Millis(id: Id): int {
    (id.ticks - UNIX_EPOCH_TICKS) / TICKS_PER_MILLI
  }

  /** Go's integer division truncates toward zero. */
  function BucketFromMillis(ms: int): int {
    if ms >= 0 then ms / BUCKET_SIZE_MILLIS else -((-ms) / BUCKET_SIZE_MILLIS)
  }

  function BucketOf(id: Id): int {
    BucketFromMillis(Millis(id))
  }

  /** A strict total order on ids: the earlier time first, and the smaller remainder at the same time. */
  lemma OrderIsStrictAndTotal(a: Id, b: Id, c: Id)
    ensures a == b || Less(a, b) || Less(b, a)
    ensures !(Less(a, b) && Less(b, a)) && !Less(a, a)
    ensures Less(a, b) && Less(b, c) ==> Less(a, c)
    ensures a.ticks < b.ticks ==> Less(a, b)
    ensures a.ticks == b.ticks ==> (Less(a, b) <==> a.tie < b.tie)
  {
  }

  lemma MillisMonotone(a: Id, b: Id)
    requires a.ticks <= b.ticks
    ensures Millis(a) <= Millis(b)
  {
  }

  lemma BucketFromMillisMonotone(x: int, y: int)
    requires x <= y
    ensures BucketFromMillis(x) <= BucketFromMillis(y)
  {
  }

  /** Truncating buckets never run against the id order, on either side of 1970. */
  lemma BucketMonotone(a: Id, b: Id)
    requires Less(a, b) || a == b
    ensures BucketOf(a) <= BucketOf(b)
  {
    MillisMonotone(a, b);
    BucketFromMillisMonotone(Millis(a), Millis(b));
  }

  /** The design document defines the bucket with a floor. The code truncates; the two agree exactly on
      non-negative times and on exact bucket boundaries. */
  lemma BucketIsFloorIff(ms: int)
    ensures BucketFromMillis(ms) == ms / BUCKET_SIZE_MILLIS <==> ms >= 0 || ms % BUCKET_SIZE_MILLIS == 0
  {
  }

  /** One millisecond before 1970 is in bucket 0 by the code and in bucket -1 by the document. */
  lemma BucketIsNotFloorBeforeEpoch()
    ensures BucketFromMillis(-1) == 0 && (-1) / BUCKET_SIZE_MILLIS == -1
  {
  }

  /** A bucket is ten days of Unix time, counted from 1970, which is 141427 days after the epoch of the ids. */
  lemma BucketIsTenDays(ms: nat, within: nat, tie: nat, b: int)
    requires within < 10_000
    ensures var id := Id(141_427 * 86_400 * 10_000_000 + 10_000 * ms + within, tie);
      BucketOf(id) == b <==> 10 * 86_400_000 * b <= ms < 10 * 86_400_000 * (b + 1)
  {
    var id := Id(141_427 * 86_400 * 10_000_000 + 10_000 * ms + within, tie);
    assert Millis(id) == ms;
  }

  /** Every 60-bit tick count lands in a bucket the table's 32-bit column holds. */
  lemma BucketFitsColumn(id: Id)
    requires id.ticks < 0x1000_0000_0000_0000
    ensures -0x8000_0000 <= BucketOf(id) < 0x8000_0000
  {
  }
}
