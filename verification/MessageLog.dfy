/** The bucketed message table and its newest-first listing (backend/internal/store/messages.go). */
module MessageLog {
  import opened Wrappers
  import opened TimeUuids
  import opened IdOrder

  type ChannelId = nat
  type UserId = nat

  /** Primary key ((channel, bucket), id). */
  datatype Key = Key(channel: ChannelId, bucket: int, id: Id)

  /** The other columns. A row made by an UPDATE alone has no author. */
  datatype Columns = Columns(author: Option<UserId>, content: string, attachments: seq<string>, editedAt: Option<int>)

  datatype Record = Record(key: Key, columns: Columns)

  type Table = map<Key, Columns>

  /** Where a message of this id belongs. */
  function HomeKey(channel: ChannelId, id: Id): Key {
    Key(channel, BucketOf(id), id)
  }

  /** Every row sits in the bucket of its id. */
  ghost predicate WellBucketed(rows: Table) {
    forall k <- rows :: k.bucket == BucketOf(k.id)
  }

  predicate IsBelow(id: Id, before: Option<Id>) {
    before.None? || Less(id, before.value)
  }

  /** Ids of a channel below `before` that sit in buckets lo..hi. */
  function IdsWithin(rows: Table, channel: ChannelId, before: Option<Id>, lo: int, hi: int): set<Id> {
    set k <- rows | k.channel == channel && lo <= k.bucket <= hi && IsBelow(k.id, before) :: k.id
  }

  /** The one flat log the buckets stand for: a channel's ids below `before`, newest first. */
  function FlatLog(rows: Table, channel: ChannelId, before: Option<Id>): seq<Id> {
    Descending(set k <- rows | k.channel == channel && IsBelow(k.id, before) :: k.id)
  }

  /** The newest `limit` ids below `before` in buckets lo..hi. */
  function Walked(rows: Table, channel: ChannelId, before: Option<Id>, lo: int, hi: int, limit: nat): seq<Id> {
    FirstN(Descending(IdsWithin(rows, channel, before, lo, hi)), limit)
  }

  function MinBucket(createdAt: int): int { BucketFromMillis(createdAt) }

  function CeilingBucket(now: int): int { BucketFromMillis(now) + 1 }

  /** The newest `limit` ids below `before` among the buckets the walk may visit. */
  function Page(rows: Table, channel: ChannelId, createdAt: int, now: int, before: Option<Id>, limit: nat): seq<Id> {
    Walked(rows, channel, before, MinBucket(createdAt), CeilingBucket(now), limit)
  }

  const NO_COLUMNS := Columns(None, "", [], None)

  function RecordAt(rows: Table, key: Key): Record {
    Record(key, if key in rows then rows[key] else NO_COLUMNS)
  }

  function RecordsOf(rows: Table, channel: ChannelId, ids: seq<Id>): (r: seq<Record>)
    ensures |r| == |ids|
  {
    seq(|ids|, i requires 0 <= i < |ids| => RecordAt(rows, HomeKey(channel, ids[i])))
  }

  lemma RecordsOfConcat(rows: Table, channel: ChannelId, a: seq<Id>, b: seq<Id>)
    ensures RecordsOf(rows, channel, a + b) == RecordsOf(rows, channel, a) + RecordsOf(rows, channel, b)
  {
  }

  /** Every listed id is a stored row of the channel. */
  lemma PageIdsAreStored(rows: Table, channel: ChannelId, createdAt: int, now: int, before: Option<Id>, limit: nat)
    requires WellBucketed(rows)
    ensures forall id <- Page(rows, channel, createdAt, now, before, limit) ::
      HomeKey(channel, id) in rows && IsBelow(id, before)
  {
    var all := IdsWithin(rows, channel, before, MinBucket(createdAt), CeilingBucket(now));
    forall id | id in Page(rows, channel, createdAt, now, before, limit)
      ensures HomeKey(channel, id) in rows && IsBelow(id, before)
    {
      DescendingMembers(all);
      assert id in Descending(all);
    }
  }

  /** Going one bucket further down appends that bucket's ids after everything above it. */
  lemma BucketBelow(rows: Table, channel: ChannelId, before: Option<Id>, bucket: int, top: int)
    requires WellBucketed(rows) && bucket <= top
    ensures Descending(IdsWithin(rows, channel, before, bucket, top))
         == Descending(IdsWithin(rows, channel, before, bucket + 1, top))
          + Descending(IdsWithin(rows, channel, before, bucket, bucket))
  {
    var above := IdsWithin(rows, channel, before, bucket + 1, top);
    var here := IdsWithin(rows, channel, before, bucket, bucket);
    assert IdsWithin(rows, channel, before, bucket, top) == above + here;
    forall x, y | x in above && y in here ensures Less(y, x) {
      if !Less(y, x) { BucketMonotone(x, y); }
    }
    DescendingUnion(above, here);
  }

  /** The highest bucket the walk may visit. */
  function StartBucket(now: int, before: Option<Id>): int {
    if before.Some? && BucketOf(before.value) < CeilingBucket(now) then BucketOf(before.value) else CeilingBucket(now)
  }

  /** No id below `before` sits above the walk's first bucket (other than above the ceiling). */
  lemma NothingBelowBeforeIsSkipped(rows: Table, channel: ChannelId, now: int, before: Option<Id>, lo: int)
    requires WellBucketed(rows)
    ensures IdsWithin(rows, channel, before, lo, CeilingBucket(now))
         == IdsWithin(rows, channel, before, lo, StartBucket(now, before))
  {
    if before.Some? {
      forall k | k in rows && Less(k.id, before.value) ensures k.bucket <= BucketOf(before.value) {
        BucketMonotone(k.id, before.value);
      }
    }
  }

  /** Below the first bucket the filter on `before` may be dropped. */
  lemma FilterOnlyMattersInFirstBucket(rows: Table, channel: ChannelId, now: int, before: Option<Id>, bucket: int,
      limit: nat)
    requires WellBucketed(rows)
    ensures bucket < StartBucket(now, before) ==>
      Walked(rows, channel, None, bucket, bucket, limit) == Walked(rows, channel, before, bucket, bucket, limit)
  {
    if before.Some? && bucket < StartBucket(now, before) {
      forall k | k in rows && k.bucket == bucket ensures Less(k.id, before.value) {
        if !Less(k.id, before.value) { BucketMonotone(before.value, k.id); }
      }
      assert IdsWithin(rows, channel, None, bucket, bucket) == IdsWithin(rows, channel, before, bucket, bucket);
    }
  }

  /** The walk answers from the flat log exactly when no row below `before` sits outside the buckets from
      the channel's creation to one past now. */
  lemma PageIsFlatLogIff(rows: Table, channel: ChannelId, createdAt: int, now: int, before: Option<Id>)
    ensures (forall limit: nat ::
      Page(rows, channel, createdAt, now, before, limit) == FirstN(FlatLog(rows, channel, before), limit))
       <==> (forall k <- rows :: k.channel == channel && IsBelow(k.id, before) ==>
               k.id in IdsWithin(rows, channel, before, MinBucket(createdAt), CeilingBucket(now)))
  {
    var all := set k <- rows | k.channel == channel && IsBelow(k.id, before) :: k.id;
    var seen := IdsWithin(rows, channel, before, MinBucket(createdAt), CeilingBucket(now));
    DescendingMembers(all);
    DescendingMembers(seen);
    if forall k <- rows :: k.channel == channel && IsBelow(k.id, before) ==> k.id in seen {
      assert seen == all;
    } else {
      var k :| k in rows && k.channel == channel && IsBelow(k.id, before) && k.id !in seen;
      assert k.id in all;
      assert Page(rows, channel, createdAt, now, before, |all| + |seen|) == Descending(seen);
      assert FirstN(FlatLog(rows, channel, before), |all| + |seen|) == Descending(all);
      assert k.id in Descending(all) && k.id !in Descending(seen);
    }
  }

  /** Every row of the channel was written after the channel's creation, and by a clock at most ten days ahead. */
  ghost predicate WrittenInTime(rows: Table, channel: ChannelId, createdAt: int, now: int) {
    forall k <- rows :: k.channel == channel ==> createdAt <= Millis(k.id) <= now + 864_000_000
  }

  lemma TimelyIsVisited(id: Id, createdAt: int, now: int)
    requires createdAt <= Millis(id) <= now + 864_000_000
    ensures MinBucket(createdAt) <= BucketOf(id) <= CeilingBucket(now)
  {
    BucketFromMillisMonotone(createdAt, Millis(id));
    BucketFromMillisMonotone(Millis(id), now + 864_000_000);
  }

  /** On such a table the walk answers from the flat log, for every limit and every anchor. */
  lemma TimelyPageIsFlatLog(
      rows: Table, channel: ChannelId, createdAt: int, now: int, before: Option<Id>, limit: nat)
    requires WellBucketed(rows) && WrittenInTime(rows, channel, createdAt, now)
    ensures Page(rows, channel, createdAt, now, before, limit) == FirstN(FlatLog(rows, channel, before), limit)
  {
    forall k | k in rows && k.channel == channel ensures MinBucket(createdAt) <= k.bucket <= CeilingBucket(now) {
      TimelyIsVisited(k.id, createdAt, now);
    }
    hide MinBucket, CeilingBucket, BucketOf, Millis;
    assert IdsWithin(rows, channel, before, MinBucket(createdAt), CeilingBucket(now))
        == set k <- rows | k.channel == channel && IsBelow(k.id, before) :: k.id;
  }

  lemma FlatLogHolds(rows: Table, channel: ChannelId, before: Option<Id>, key: Key)
    requires key in rows && key.channel == channel && IsBelow(key.id, before)
    ensures key.id in FlatLog(rows, channel, before)
  {
    DescendingMembers(set k <- rows | k.channel == channel && IsBelow(k.id, before) :: k.id);
  }

  /** What is not on a timely page is older than all of it, and then the page is full. */
  lemma OffThePageIsOlder(
      rows: Table, channel: ChannelId, createdAt: int, now: int, before: Option<Id>, limit: nat, key: Key)
    requires WellBucketed(rows) && WrittenInTime(rows, channel, createdAt, now)
    requires key in rows && key.channel == channel && (before.Some? ==> Less(key.id, before.value))
    ensures var page := Page(rows, channel, createdAt, now, before, limit);
      key.id in page || (|page| == limit && forall i :: 0 <= i < |page| ==> Less(key.id, page[i]))
  {
    var page, log := Page(rows, channel, createdAt, now, before, limit), FlatLog(rows, channel, before);
    TimelyPageIsFlatLog(rows, channel, createdAt, now, before, limit);
    FlatLogHolds(rows, channel, before, key);
    var n :| 0 <= n < |log| && log[n] == key.id;
    if n < limit {
      assert page[n] == key.id;
    } else {
      forall i | 0 <= i < |page| ensures Less(key.id, page[i]) {
        DescendingSorted(set k <- rows | k.channel == channel && IsBelow(k.id, before) :: k.id, i, n);
      }
    }
  }

  lemma PageDescends(rows: Table, channel: ChannelId, createdAt: int, now: int, before: Option<Id>, limit: nat)
    ensures var page := Page(rows, channel, createdAt, now, before, limit);
      |page| <= limit && forall i, j :: 0 <= i < j < |page| ==> Less(page[j], page[i])
  {
    var page := Page(rows, channel, createdAt, now, before, limit);
    forall i, j | 0 <= i < j < |page| ensures Less(page[j], page[i]) {
      DescendingSorted(IdsWithin(rows, channel, before, MinBucket(createdAt), CeilingBucket(now)), i, j);
    }
  }

  /** The walk queries bucket `b`: it is in range and the buckets above it did not fill the limit. */
  predicate Visits(rows: Table, channel: ChannelId, createdAt: int, now: int, before: Option<Id>, limit: nat, b: int) {
    && MinBucket(createdAt) <= b <= StartBucket(now, before)
    && |Walked(rows, channel, before, b + 1, StartBucket(now, before), limit)| < limit
  }

  /** Said of the rows themselves: the bucket lies between the channel's creation and the anchor (or one past now), and
      fewer than `limit` rows below the anchor are in the buckets above it. */
  lemma VisitsIff(rows: Table, channel: ChannelId, createdAt: int, now: int, before: Option<Id>, limit: nat, b: int)
    requires WellBucketed(rows)
    ensures Visits(rows, channel, createdAt, now, before, limit, b) <==>
      && BucketFromMillis(createdAt) <= b <= BucketFromMillis(now) + 1
      && (before.Some? ==> b <= BucketOf(before.value))
      && |RowsAbove(rows, channel, now, before, b)| < limit
  {
    var top := StartBucket(now, before);
    var above := IdsWithin(rows, channel, before, b + 1, top);
    NothingBelowBeforeIsSkipped(rows, channel, now, before, b + 1);
    DescendingMembers(above);
    assert above == RowsAbove(rows, channel, now, before, b);
  }

  /** The ids of the rows below the anchor in buckets above `b` and not past the one after now. */
  ghost function RowsAbove(rows: Table, channel: ChannelId, now: int, before: Option<Id>, b: int): set<Id> {
    set k <- rows | k.channel == channel && b < k.bucket <= BucketFromMillis(now) + 1
                    && (before.Some? ==> Less(k.id, before.value)) :: k.id
  }

  /** What the query of one bucket filters on. */
  function QueryFilter(now: int, before: Option<Id>, bucket: int): Option<Id> {
    if bucket == StartBucket(now, before) then before else None
  }

  /** One partition query extends the listing by one bucket. */
  lemma WalkStep(rows: Table, channel: ChannelId, now: int, before: Option<Id>, bucket: int, limit: nat,
      ids: seq<Id>, found: seq<Id>)
    requires WellBucketed(rows) && bucket <= StartBucket(now, before) && |ids| < limit
    requires ids == Walked(rows, channel, before, bucket + 1, StartBucket(now, before), limit)
    requires found == Walked(rows, channel, QueryFilter(now, before, bucket), bucket, bucket, limit - |ids|)
    ensures ids + found == Walked(rows, channel, before, bucket, StartBucket(now, before), limit)
    ensures forall id <- found :: HomeKey(channel, id) in rows && BucketOf(id) == bucket
    ensures RecordsOf(rows, channel, ids + found) == RecordsOf(rows, channel, ids) + RecordsOf(rows, channel, found)
  {
    hide IdsWithin, Descending, RecordsOf, StartBucket;
    var top := StartBucket(now, before);
    FilterOnlyMattersInFirstBucket(rows, channel, now, before, bucket, limit - |ids|);
    BucketBelow(rows, channel, before, bucket, top);
    FirstNConcat(Descending(IdsWithin(rows, channel, before, bucket + 1, top)),
                 Descending(IdsWithin(rows, channel, before, bucket, bucket)), limit);
    RecordsOfConcat(rows, channel, ids, found);
    FoundIsStored(rows, channel, before, bucket, limit - |ids|);
  }

  lemma FoundIsStored(rows: Table, channel: ChannelId, before: Option<Id>, bucket: int, limit: nat)
    requires WellBucketed(rows)
    ensures forall id <- Walked(rows, channel, before, bucket, bucket, limit) ::
      HomeKey(channel, id) in rows && BucketOf(id) == bucket
  {
    var here := IdsWithin(rows, channel, before, bucket, bucket);
    DescendingMembers(here);
    forall id | id in Walked(rows, channel, before, bucket, bucket, limit)
      ensures HomeKey(channel, id) in rows && BucketOf(id) == bucket
    {
      assert id in Descending(here);
    }
  }

  lemma WalkStarts(rows: Table, channel: ChannelId, before: Option<Id>, top: int, limit: nat)
    ensures Walked(rows, channel, before, top + 1, top, limit) == []
    ensures RecordsOf(rows, channel, []) == []
  {
    assert IdsWithin(rows, channel, before, top + 1, top) == {};
  }

  /** Once the limit is filled, lower buckets add nothing. */
  lemma {:induction false} WalkMayStop(rows: Table, channel: ChannelId, before: Option<Id>, lo: int, bucket: int,
      top: int, limit: nat)
    requires WellBucketed(rows) && lo <= bucket + 1 && bucket <= top
    requires |Walked(rows, channel, before, bucket + 1, top, limit)| >= limit
    ensures Walked(rows, channel, before, lo, top, limit)
         == Walked(rows, channel, before, bucket + 1, top, limit)
    decreases bucket + 1 - lo
  {
    if lo <= bucket {
      BucketBelow(rows, channel, before, bucket, top);
      WalkMayStop(rows, channel, before, lo, bucket - 1, top, limit);
    }
  }

  /** The loop ends with the whole page: the limit is filled, or every bucket was visited. */
  lemma WalkEnds(rows: Table, channel: ChannelId, createdAt: int, now: int, before: Option<Id>, limit: nat, bucket: int)
    requires WellBucketed(rows) && bucket <= StartBucket(now, before)
    requires MinBucket(createdAt) - 1 <= bucket || bucket == StartBucket(now, before)
    requires bucket < MinBucket(createdAt) ||
      |Walked(rows, channel, before, bucket + 1, StartBucket(now, before), limit)| >= limit
    ensures Walked(rows, channel, before, bucket + 1, StartBucket(now, before), limit)
         == Page(rows, channel, createdAt, now, before, limit)
    ensures forall b :: b <= bucket ==> !Visits(rows, channel, createdAt, now, before, limit, b)
  {
    var lo, top := MinBucket(createdAt), StartBucket(now, before);
    NothingBelowBeforeIsSkipped(rows, channel, now, before, lo);
    if bucket >= lo {
      WalkMayStop(rows, channel, before, lo, bucket, top, limit);
      forall b | lo <= b <= bucket ensures !Visits(rows, channel, createdAt, now, before, limit, b) {
        WalkMayStop(rows, channel, before, b + 1, bucket, top, limit);
      }
    } else if bucket == top {
      assert IdsWithin(rows, channel, before, lo, top) == {} == IdsWithin(rows, channel, before, bucket + 1, top);
    }
  }

  lemma NewestFirst(s: set<Id>, m: Id)
    requires m !in s && forall x <- s :: Less(x, m)
    ensures Descending(s + {m}) == [m] + Descending(s)
  {
    assert {m} + s == s + {m};
    assert Newest({m}) == m && {m} - {m} == {};
    DescendingUnion({m}, s);
  }

  lemma NewestInRangeIsListedFirst(
      rows: Table, channel: ChannelId, createdAt: int, now: int, id: Id, columns: Columns, limit: nat)
    requires MinBucket(createdAt) <= BucketOf(id) <= CeilingBucket(now)
    requires forall k <- rows :: k.channel == channel ==> Less(k.id, id)
    ensures Page(rows[HomeKey(channel, id) := columns], channel, createdAt, now, None, limit + 1)
         == [id] + Page(rows, channel, createdAt, now, None, limit)
  {
    var more := rows[HomeKey(channel, id) := columns];
    var lo, hi := MinBucket(createdAt), CeilingBucket(now);
    assert IdsWithin(more, channel, None, lo, hi) == IdsWithin(rows, channel, None, lo, hi) + {id} by {
      hide BucketOf;
    }
    NewestFirst(IdsWithin(rows, channel, None, lo, hi), id);
  }

  /** Read your write: a message written between the channel's creation and ten days from now, under an id newer than
      the channel's others, heads the next listing, and the rest of it is what was listed before. */
  lemma NewestIsListedFirst(
      rows: Table, channel: ChannelId, createdAt: int, now: int, id: Id, columns: Columns, limit: nat)
    requires createdAt <= Millis(id) <= now + 864_000_000
    requires forall k <- rows :: k.channel == channel ==> Less(k.id, id)
    ensures Page(rows[Key(channel, BucketOf(id), id) := columns], channel, createdAt, now, None, limit + 1)
         == [id] + Page(rows, channel, createdAt, now, None, limit)
  {
    TimelyIsVisited(id, createdAt, now);
    NewestInRangeIsListedFirst(rows, channel, createdAt, now, id, columns, limit);
  }

  /** What the records of a page are, row by row. */
  lemma PageRecords(rows: Table, channel: ChannelId, createdAt: int, now: int, before: Option<Id>, limit: nat)
    requires WellBucketed(rows)
    ensures var page := Page(rows, channel, createdAt, now, before, limit); var v := RecordsOf(rows, channel, page);
      && |v| == |page| <= limit
      && (forall i :: 0 <= i < |v| ==> v[i].key in rows && v[i].columns == rows[v[i].key])
      && (forall i :: 0 <= i < |v| ==> v[i].key == Key(channel, BucketOf(page[i]), page[i]))
      && (forall i :: 0 <= i < |v| && before.Some? ==> Less(page[i], before.value))
      && (forall i, j :: 0 <= i < j < |v| ==> Less(page[j], page[i]))
  {
    hide BucketOf;
    var page := Page(rows, channel, createdAt, now, before, limit);
    PageIdsAreStored(rows, channel, createdAt, now, before, limit);
    PageDescends(rows, channel, createdAt, now, before, limit);
    forall i | 0 <= i < |page| ensures HomeKey(channel, page[i]) in rows && IsBelow(page[i], before) {
      assert page[i] in page;
    }
  }

  /** Nothing is left out: a row that a timely listing lacks is older than all it holds, and then the limit is
      filled. */
  lemma NothingIsLeftOut(
      rows: Table, channel: ChannelId, createdAt: int, now: int, before: Option<Id>, limit: nat, key: Key)
    requires WellBucketed(rows) && WrittenInTime(rows, channel, createdAt, now)
    requires key in rows && key.channel == channel && (before.Some? ==> Less(key.id, before.value))
    ensures var v := RecordsOf(rows, channel, Page(rows, channel, createdAt, now, before, limit));
      || (exists i :: 0 <= i < |v| && v[i].key == key)
      || (|v| == limit && forall i :: 0 <= i < |v| ==> Less(key.id, v[i].key.id))
  {
    hide BucketOf;
    var page := Page(rows, channel, createdAt, now, before, limit);
    var v := RecordsOf(rows, channel, page);
    OffThePageIsOlder(rows, channel, createdAt, now, before, limit, key);
    if i :| 0 <= i < |page| && page[i] == key.id {
      assert v[i].key == key;
    }
  }

  class Messages {
    var rows: Table

    constructor ()
      ensures rows == map[]
    {
      rows := map[];
    }

    /** INSERT; the caller has computed the bucket. */
    method Insert(m: Record)
      modifies this
      ensures rows == old(rows)[m.key := m.columns]
    {
      rows := rows[m.key := m.columns];
    }

    /** Posting a message: the bucket comes from the new id. */
    method Post(channel: ChannelId, id: Id, author: UserId, content: string, attachments: seq<string>)
      returns (m: Record)
      modifies this
      ensures m == Record(HomeKey(channel, id), Columns(Some(author), content, attachments, None))
      ensures rows == old(rows)[m.key := m.columns]
      ensures old(WellBucketed(rows)) ==> WellBucketed(rows)
    {
      m := Record(Key(channel, BucketOf(id), id), Columns(Some(author), content, attachments, None));
      Insert(m);
    }

    method Get(channel: ChannelId, id: Id) returns (r: Result<Record, StoreError>)
      ensures HomeKey(channel, id) in rows ==> r == Success(Record(HomeKey(channel, id), rows[HomeKey(channel, id)]))
      ensures HomeKey(channel, id) !in rows ==> r == Failure(NotFound)
    {
      var key := Key(channel, BucketOf(id), id);
      if key in rows {
        r := Success(Record(key, rows[key]));
      } else {
        r := Failure(NotFound);
      }
    }

    /** UPDATE; in this store an UPDATE of a missing row creates it with only the updated columns. */
    method UpdateContent(key: Key, content: string, editedAt: int)
      modifies this
      ensures rows.Keys == old(rows).Keys + {key}
      ensures rows[key].content == content && rows[key].editedAt == Some(editedAt)
      ensures key in old(rows) ==>
        rows[key].author == old(rows)[key].author && rows[key].attachments == old(rows)[key].attachments
      ensures key !in old(rows) ==> rows[key].author == None && rows[key].attachments == []
      ensures forall k <- old(rows) :: k != key ==> rows[k] == old(rows)[k]
      ensures old(WellBucketed(rows)) && key.bucket == BucketOf(key.id) ==> WellBucketed(rows)
    {
      var was := if key in rows then rows[key] else NO_COLUMNS;
      rows := rows[key := was.(content := content, editedAt := Some(editedAt))];
    }

    method Delete(key: Key)
      modifies this
      ensures rows == old(rows) - {key}
      ensures old(WellBucketed(rows)) ==> WellBucketed(rows)
    {
      rows := rows - {key};
    }

    /** The scan loop over one partition's rows. */
    method AppendRows(out: seq<Record>, channel: ChannelId, bucket: int, found: seq<Id>) returns (grown: seq<Record>)
      requires forall id <- found :: HomeKey(channel, id) in rows && BucketOf(id) == bucket
      ensures grown == out + RecordsOf(rows, channel, found)
    {
      grown := out;
      for i := 0 to |found|
        invariant grown == out + RecordsOf(rows, channel, found)[..i]
      {
        assert found[i] in found;
        var key := Key(channel, bucket, found[i]);
        grown := grown + [Record(key, rows[key])];
      }
    }

    /** The downward bucket walk. `unavailable` says which partition queries fail. */
    method List(channel: ChannelId, createdAt: int, now: int, before: Option<Id>, limit: nat, unavailable: set<int>)
      returns (r: Result<seq<Record>, StoreError>)
      requires WellBucketed(rows)
      // What is listed: stored rows of the channel below the anchor, newest first, at most `limit` of them.
      ensures r.Success? ==> |r.value| <= limit
      ensures r.Success? ==> forall i :: 0 <= i < |r.value| ==>
        r.value[i].key in rows && r.value[i].columns == rows[r.value[i].key] && r.value[i].key.channel == channel
      ensures r.Success? && before.Some? ==>
        forall i :: 0 <= i < |r.value| ==> Less(r.value[i].key.id, before.value)
      ensures r.Success? ==> forall i, j :: 0 <= i < j < |r.value| ==> Less(r.value[j].key.id, r.value[i].key.id)
      // And nothing else could be: any other such row is older than all of them, and then the limit is filled.
      ensures r.Success? && WrittenInTime(rows, channel, createdAt, now) ==>
        forall k <- rows :: k.channel == channel && (before.Some? ==> Less(k.id, before.value)) ==>
          || (exists i :: 0 <= i < |r.value| && r.value[i].key == k)
          || (|r.value| == limit && forall i :: 0 <= i < |r.value| ==> Less(k.id, r.value[i].key.id))
      ensures r.Success? ==> r.value == RecordsOf(rows, channel, Page(rows, channel, createdAt, now, before, limit))
      ensures r.Failure? <==> exists b <- unavailable :: Visits(rows, channel, createdAt, now, before, limit, b)
    {
      hide Walked, RecordsOf;
      var minBucket := BucketFromMillis(createdAt);
      var ceiling := BucketFromMillis(now) + 1;
      var startBucket := ceiling;
      if before.Some? {
        var b := BucketOf(before.value);
        if b < startBucket {
          startBucket := b;
        }
      }
      assert startBucket == StartBucket(now, before);

      var out: seq<Record> := [];
      ghost var ids: seq<Id> := [];
      var bucket := startBucket;
      WalkStarts(rows, channel, before, startBucket, limit);
      while bucket >= minBucket && |out| < limit
        invariant bucket <= startBucket
        invariant minBucket - 1 <= bucket || bucket == startBucket
        invariant ids == Walked(rows, channel, before, bucket + 1, startBucket, limit)
        invariant out == RecordsOf(rows, channel, ids)
        invariant forall b <- unavailable :: !(bucket < b <= startBucket)
      {
        if bucket in unavailable {
          assert Visits(rows, channel, createdAt, now, before, limit, bucket);
          return Failure(Unavailable);
        }
        var remaining := limit - |out|;
        var filter := if before.Some? && bucket == startBucket then before else None;
        var found := Walked(rows, channel, filter, bucket, bucket, remaining);
        WalkStep(rows, channel, now, before, bucket, limit, ids, found);
        out := AppendRows(out, channel, bucket, found);
        ids := ids + found;
        bucket := bucket - 1;
      }
      WalkEnds(rows, channel, createdAt, now, before, limit, bucket);
      PageRecords(rows, channel, createdAt, now, before, limit);
      if WrittenInTime(rows, channel, createdAt, now) {
        forall k | k in rows && k.channel == channel && (before.Some? ==> Less(k.id, before.value))
          ensures (exists i :: 0 <= i < |out| && out[i].key == k)
               || (|out| == limit && forall i :: 0 <= i < |out| ==> Less(k.id, out[i].key.id))
        {
          NothingIsLeftOut(rows, channel, createdAt, now, before, limit, k);
        }
      }
      r := Success(out);
    }
  }
}
