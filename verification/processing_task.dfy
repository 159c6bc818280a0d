/**
 * `DataProcessingTask`: read the identity list, fetch every account's uploads from the API in
 * batches with a pause between batches, and classify the payloads.
 *
 * The HTTP request is an oracle: `outcomes[p]` is what the request for the `p`-th id returned,
 * `Some(payload)` for a response body and `None` for a failed request or an empty response.
 */
module ProcessingTask {
  import opened Wrappers
  import opened JavaText
  import opened Users
  import opened Classification
  import opened Seqs

  /** The batch size the four-argument constructor passes on. */
  const DefaultBatchSize: int := 2

  /** The ids in identity-list order. */
  function IdsOf(records: seq<IdentityRecord>): (ids: seq<Int64>)
    ensures |ids| == |records|
    ensures forall i :: 0 <= i < |records| ==> ids[i] == records[i].mid
  {
    seq(|records|, i requires 0 <= i < |records| => records[i].mid)
  }

  /** Consecutive slices of `ids`, each of `size` ids except possibly the last. */
  function Batches(ids: seq<Int64>, size: nat): (bs: seq<seq<Int64>>)
    requires size >= 1
    ensures |bs| <= |ids|
    ensures forall i :: 0 <= i < |bs| ==> 1 <= |bs[i]| <= size
    decreases |ids|
  {
    if ids == [] then []
    else if |ids| <= size then [ids]
    else [ids[..size]] + Batches(ids[size..], size)
  }

  /** The entries of `userVidList`: one per request that returned a body, in request order. */
  function Fetched(ids: seq<Int64>, outcomes: seq<Option<Payload>>): (r: seq<VidEntry>)
    requires |outcomes| == |ids|
    ensures |r| <= |ids|
  {
    if ids == [] then []
    else
      var n := |ids| - 1;
      Fetched(ids[..n], outcomes[..n]) + (if outcomes[n].Some? then [VidEntry(ids[n], outcomes[n].value)] else [])
  }

  /** The number of requests that returned a body. */
  function Successes(outcomes: seq<Option<Payload>>): nat {
    if outcomes == [] then 0
    else Successes(outcomes[..|outcomes| - 1]) + (if outcomes[|outcomes| - 1].Some? then 1 else 0)
  }

  // ---------------------------------------------------------------------------------------------
  // Properties of the batching

  /** The batches put back together are the id list. */
  lemma {:induction false} BatchesConcat(ids: seq<Int64>, size: nat)
    requires size >= 1
    ensures Concat(Batches(ids, size)) == ids
    decreases |ids|
  {
    if |ids| > size {
      BatchesConcat(ids[size..], size);
      assert ids[..size] + ids[size..] == ids;
    }
  }

  /** Every batch but the last holds exactly `size` ids and the last between 1 and `size`. */
  lemma {:induction false} BatchesShape(ids: seq<Int64>, size: nat)
    requires size >= 1
    ensures var bs := Batches(ids, size);
      && (bs == [] <==> ids == [])
      && (forall i :: 0 <= i < |bs| - 1 ==> |bs[i]| == size)
      && (bs != [] ==> 1 <= |bs[|bs| - 1]| <= size)
    decreases |ids|
  {
    if |ids| > size {
      BatchesShape(ids[size..], size);
      var bs, rest := Batches(ids, size), Batches(ids[size..], size);
      assert bs == [ids[..size]] + rest;
      forall i | 0 <= i < |bs| - 1
        ensures |bs[i]| == size
      {
        if i > 0 { assert bs[i] == rest[i - 1]; }
      }
    }
  }

  /** There are ceil(n / size) batches: the smallest count whose full batches would hold every id. */
  lemma {:induction false} BatchCount(ids: seq<Int64>, size: nat)
    requires size >= 1
    ensures var b := |Batches(ids, size)|;
      (b - 1) * size < |ids| <= b * size
    decreases |ids|
  {
    if ids == [] {
    } else if |ids| <= size {
      assert |Batches(ids, size)| == 1;
    } else {
      BatchCount(ids[size..], size);
      var b := |Batches(ids[size..], size)|;
      assert |Batches(ids, size)| == b + 1;
      assert (b + 1 - 1) * size == (b - 1) * size + size;
      assert (b + 1) * size == b * size + size;
    }
  }

  /** Batching `k` full batches' worth of ids, then more ids, batches the two parts separately. */
  lemma {:induction false} BatchesAppend(s: seq<Int64>, t: seq<Int64>, size: nat, k: nat)
    requires size >= 1 && |s| == k * size
    ensures Batches(s + t, size) == Batches(s, size) + Batches(t, size)
    decreases k
  {
    if k == 0 {
      assert s + t == t;
    } else if t == [] {
      assert s + t == s;
    } else {
      var rest := s[size..];
      assert |rest| == (k - 1) * size;
      assert Batches(s + t, size) == [s[..size]] + Batches(rest + t, size) by {
        assert (s + t)[..size] == s[..size];
        assert (s + t)[size..] == rest + t;
      }
      BatchesAppend(rest, t, size, k - 1);
      assert Batches(s, size) == [s[..size]] + Batches(rest, size) by {
        if k == 1 {
          assert rest == [] && s[..size] == s;
        }
      }
    }
  }

  /** The entries fetched for a list grow by one entry per successful request. */
  lemma FetchedAppend(ids: seq<Int64>, outcomes: seq<Option<Payload>>, p: nat)
    requires |outcomes| == |ids| && p < |ids|
    ensures Fetched(ids[..p + 1], outcomes[..p + 1]) ==
      Fetched(ids[..p], outcomes[..p]) + (if outcomes[p].Some? then [VidEntry(ids[p], outcomes[p].value)] else [])
  {
    assert ids[..p + 1][..p] == ids[..p];
    assert outcomes[..p + 1][..p] == outcomes[..p];
  }

  lemma MidsAppend(entries: seq<VidEntry>, e: VidEntry)
    ensures Mids(entries + [e]) == Mids(entries) + [e.mid]
  {
    assert (entries + [e])[..|entries|] == entries;
  }

  /** A failed request drops only its own entry: one entry per successful request. */
  lemma {:induction false} FetchedLength(ids: seq<Int64>, outcomes: seq<Option<Payload>>)
    requires |outcomes| == |ids|
    ensures |Fetched(ids, outcomes)| == Successes(outcomes) <= |ids|
  {
    if ids != [] {
      var n := |ids| - 1;
      FetchedLength(ids[..n], outcomes[..n]);
    }
  }

  /** The fetched ids are among the requested ids, counted with multiplicity. */
  lemma {:induction false} FetchedIdsAmongRequested(ids: seq<Int64>, outcomes: seq<Option<Payload>>)
    requires |outcomes| == |ids|
    ensures multiset(Mids(Fetched(ids, outcomes))) <= multiset(ids)
  {
    if ids != [] {
      var n := |ids| - 1;
      FetchedIdsAmongRequested(ids[..n], outcomes[..n]);
      assert ids[..n] + [ids[n]] == ids;
      assert multiset(ids) == multiset(ids[..n]) + multiset{ids[n]};
      var f0 := Fetched(ids[..n], outcomes[..n]);
      if outcomes[n].Some? {
        MidsAppend(f0, VidEntry(ids[n], outcomes[n].value));
        assert multiset(Mids(Fetched(ids, outcomes))) == multiset(Mids(f0)) + multiset{ids[n]};
      } else {
        assert Fetched(ids, outcomes) == f0;
      }
    }
  }

  /** Closing the batch `ids[start..end]` after `k` full batches adds it as one more batch. */
  lemma CloseBatch(ids: seq<Int64>, size: nat, start: nat, k: nat, end: nat)
    requires size >= 1 && start == k * size
    requires start < end <= |ids| && end - start <= size
    ensures Batches(ids[..end], size) == Batches(ids[..start], size) + [ids[start..end]]
    ensures end - start == size ==> end == (k + 1) * size
  {
    assert ids[..end] == ids[..start] + ids[start..end];
    BatchesAppend(ids[..start], ids[start..end], size, k);
    assert Batches(ids[start..end], size) == [ids[start..end]];
    assert (k + 1) * size == k * size + size;
  }

  /** When every request succeeds, `userVidList` has exactly the requested ids, in order. */
  lemma {:induction false} FetchedAllSucceed(ids: seq<Int64>, outcomes: seq<Option<Payload>>)
    requires |outcomes| == |ids|
    requires forall p :: 0 <= p < |outcomes| ==> outcomes[p].Some?
    ensures Mids(Fetched(ids, outcomes)) == ids
  {
    if ids != [] {
      var n := |ids| - 1;
      FetchedAllSucceed(ids[..n], outcomes[..n]);
      assert ids[..n] + [ids[n]] == ids;
      MidsAppend(Fetched(ids[..n], outcomes[..n]), VidEntry(ids[n], outcomes[n].value));
    }
  }

  /** The session with the pieces of `DataProcessingTask` that are fixed at construction. */
  class DataProcessingTask {
    /** The threshold handed over by the caller; the task keeps it but filtering happens later. */
    const inactiveDays: int
    const batchSize: nat

    /** The six-argument constructor: the batch size is raised to at least 1. */
    constructor (inactiveDays: Int32, batchSize: Int32)
      ensures this.inactiveDays == inactiveDays
      ensures this.batchSize >= 1
      ensures batchSize >= 1 ==> this.batchSize == batchSize
      ensures batchSize < 1 ==> this.batchSize == 1
    {
      this.inactiveDays := inactiveDays;
      this.batchSize := if batchSize < 1 then 1 else batchSize;
    }

    /** The four-argument constructor: batches of `DefaultBatchSize`. */
    constructor WithDefaults(inactiveDays: Int32)
      ensures this.inactiveDays == inactiveDays && this.batchSize == DefaultBatchSize
    {
      this.inactiveDays := inactiveDays;
      this.batchSize := DefaultBatchSize;
    }

    /**
     * Reading the identity list: every record's id is kept, duplicates included, in order; the
     * name and tag maps are filled with `put`, so the last record for an id wins.
     */
    static method ParseIdentities(records: seq<IdentityRecord>)
      returns (mids: seq<Int64>, midToName: NameMap, midToTags: TagMap)
      ensures |mids| == |records| && forall i :: 0 <= i < |records| ==> mids[i] == records[i].mid
      ensures midToName == NameMapOf(records) && midToTags == TagMapOf(records)
    {
      mids, midToName, midToTags := [], map[], map[];
      for i := 0 to |records|
        invariant mids == IdsOf(records[..i])
        invariant midToName == NameMapOf(records[..i]) && midToTags == TagMapOf(records[..i])
      {
        var user := records[i];
        assert records[..i + 1][..i] == records[..i];
        mids := mids + [user.mid];
        midToName := midToName[user.mid := user.name];
        midToTags := midToTags[user.mid := user.tag];
      }
      assert records[..|records|] == records;
    }

    /**
     * The fetch loop. Ids are gathered into `currentBatch`; a batch is processed when it reaches
     * `batchSize` ids or the last id is reached; each id of the batch is requested in turn and
     * `count` goes up once per id, whatever the request returned; a pause follows every batch but
     * the last. `batches` records the batches as they were formed.
     */
    method FetchAll(mids: seq<Int64>, outcomes: seq<Option<Payload>>)
      returns (userVidList: seq<VidEntry>, count: nat, batchCount: nat, pauses: nat, ghost batches: seq<seq<Int64>>)
      requires |outcomes| == |mids|
      requires batchSize >= 1
      ensures userVidList == Fetched(mids, outcomes)
      ensures count == |mids|
      ensures batches == Batches(mids, batchSize) && batchCount == |batches|
      ensures pauses == if mids == [] then 0 else batchCount - 1
    {
      userVidList, count, batchCount, pauses, batches := [], 0, 0, 0, [];
      var currentBatch: seq<Int64> := [];
      ghost var start := 0;  // index of the first id of `currentBatch`
      for i := 0 to |mids|
        invariant start <= i && currentBatch == mids[start..i]
        invariant start == batchCount * batchSize || start == |mids|
        invariant |currentBatch| < batchSize || start == |mids|
        invariant batches == Batches(mids[..start], batchSize) && batchCount == |batches|
        invariant count == start
        invariant userVidList == Fetched(mids[..start], outcomes[..start])
        invariant pauses == if start == |mids| && start > 0 then batchCount - 1 else batchCount
        invariant start == |mids| <==> i == |mids|
      {
        currentBatch := currentBatch + [mids[i]];
        if |currentBatch| >= batchSize || i == |mids| - 1 {
          userVidList, count, batchCount, pauses, batches :=
            ProcessBatch(mids, outcomes, batchSize, start, i + 1, currentBatch, userVidList, count, batchCount, pauses, batches);
          start := i + 1;
          currentBatch := [];
        }
      }
      assert mids[..start] == mids && outcomes[..start] == outcomes;
    }

    /**
     * Processing a batch that is full or holds the last id: its ids are requested, the batch count
     * goes up, and a pause follows unless the batch ends the list.
     */
    static method ProcessBatch(mids: seq<Int64>, outcomes: seq<Option<Payload>>, size: nat, ghost start: nat, end: nat,
                               currentBatch: seq<Int64>, userVidList0: seq<VidEntry>, count0: nat, batchCount0: nat,
                               pauses0: nat, ghost batches0: seq<seq<Int64>>)
      returns (userVidList: seq<VidEntry>, count: nat, batchCount: nat, pauses: nat, ghost batches: seq<seq<Int64>>)
      requires |outcomes| == |mids| && size >= 1
      requires start == batchCount0 * size && start < end <= |mids| && end - start <= size
      requires currentBatch == mids[start..end]
      requires batches0 == Batches(mids[..start], size) && batchCount0 == |batches0|
      requires userVidList0 == Fetched(mids[..start], outcomes[..start]) && count0 == start && pauses0 == batchCount0
      ensures batches == Batches(mids[..end], size) && batchCount == |batches| && batchCount == batchCount0 + 1
      ensures end - start == size ==> end == batchCount * size
      ensures userVidList == Fetched(mids[..end], outcomes[..end]) && count == end
      ensures pauses == if end < |mids| then batchCount else batchCount - 1
    {
      CloseBatch(mids, size, start, batchCount0, end);
      batchCount := batchCount0 + 1;
      userVidList, count := RequestBatch(mids, outcomes, end - |currentBatch|, currentBatch, userVidList0, count0);
      batches := batches0 + [currentBatch];
      pauses := pauses0;
      if end < |mids| {
        pauses := pauses + 1;
      }
    }

    /**
     * The inner loop over one batch: each id is requested in turn; a response body adds an entry,
     * a failure adds nothing, and either way the progress count goes up by one.
     */
    static method RequestBatch(mids: seq<Int64>, outcomes: seq<Option<Payload>>, start: nat, currentBatch: seq<Int64>,
                               userVidList0: seq<VidEntry>, count0: nat)
      returns (userVidList: seq<VidEntry>, count: nat)
      requires |outcomes| == |mids| && start + |currentBatch| <= |mids|
      requires currentBatch == mids[start..start + |currentBatch|]
      requires userVidList0 == Fetched(mids[..start], outcomes[..start])
      ensures userVidList == Fetched(mids[..start + |currentBatch|], outcomes[..start + |currentBatch|])
      ensures count == count0 + |currentBatch|
    {
      userVidList, count := userVidList0, count0;
      for j := 0 to |currentBatch|
        invariant count == count0 + j
        invariant userVidList == Fetched(mids[..start + j], outcomes[..start + j])
      {
        var mid := currentBatch[j];
        var response := outcomes[start + j];  // the request for `mid`
        FetchedAppend(mids, outcomes, start + j);
        if response.Some? {
          userVidList := userVidList + [VidEntry(mid, response.value)];
        }
        count := count + 1;
      }
    }

    /** `processUserData`: two lists filled in one pass, then joined. */
    static method ProcessUserData(userVidList: seq<VidEntry>, midToName: NameMap, midToTags: TagMap, clock: Clock)
      returns (users: seq<UserData>)
      ensures users == Classify(userVidList, midToName, midToTags, clock)
    {
      var allUsers: seq<UserData> := [];
      var usersWithNoVideos: seq<UserData> := [];
      for i := 0 to |userVidList|
        invariant allUsers == WithVideosOf(ClassifyAll(userVidList[..i], midToName, midToTags, clock))
        invariant usersWithNoVideos == NoVideosOf(ClassifyAll(userVidList[..i], midToName, midToTags, clock))
      {
        var entry := userVidList[i];
        ghost var done := ClassifyAll(userVidList[..i], midToName, midToTags, clock);
        assert userVidList[..i + 1] == userVidList[..i] + [entry];
        ClassifyAllAppend(userVidList[..i], midToName, midToTags, clock, entry);
        SplitAppend(done, ClassifyEntry(entry, midToName, midToTags, clock));
        allUsers, usersWithNoVideos := AddEntry(entry, midToName, midToTags, clock, allUsers, usersWithNoVideos);
      }
      assert userVidList[..|userVidList|] == userVidList;
      users := allUsers + usersWithNoVideos;
    }

    /** `doInBackground`, minus the file reading and writing: identities, fetch loop, classification. */
    method DoInBackground(records: seq<IdentityRecord>, outcomes: seq<Option<Payload>>, clock: Clock)
      returns (users: seq<UserData>)
      requires |outcomes| == |records|
      requires batchSize >= 1
      ensures users == Classify(Fetched(IdsOf(records), outcomes), NameMapOf(records), TagMapOf(records), clock)
      ensures |users| == Successes(outcomes) <= |records|
      ensures multiset(Uids(users)) <= multiset(IdsOf(records))
    {
      var mids, midToName, midToTags := ParseIdentities(records);
      assert mids == IdsOf(records);
      var userVidList, count, batchCount, pauses, batches := FetchAll(mids, outcomes);
      users := ProcessUserData(userVidList, midToName, midToTags, clock);
      FetchedLength(mids, outcomes);
      FetchedIdsAmongRequested(mids, outcomes);
      ClassifyProperties(userVidList, midToName, midToTags, clock);
    }
  }
}
