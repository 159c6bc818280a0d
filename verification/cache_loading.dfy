/**
 * `CacheLoadingTask`: replay a saved `userVidList` instead of calling the API. The identity list that
 * supplies names and tags is looked for beside the cache file, then in the working directory, then
 * picked by the user.
 */
module CacheLoading {
  import opened Wrappers
  import opened JavaText
  import opened Users
  import opened Classification
  import opened Seqs

  /** Where `export_uids.json` was found. */
  datatype IdentitySource = BesideCache | WorkingDirectory | Picked(path: string)

  datatype LoadError =
    | NoIdentityFile          // the user cancelled the file chooser
    | BadCacheEntry(index: nat) // the entry's `mid` is missing or not a number

  /** One entry of the cache file: `mid` may be missing; a missing `user_vid` reads as `Missing`. */
  datatype CacheEntry = CacheEntry(mid: Option<Int64>, userVid: Payload)

  /**
   * The companion-file rule: the file beside the cache wins, then the one in the working directory,
   * then the user's pick; with neither file and no pick, loading fails.
   */
  function ChooseIdentityFile(besideCacheExists: bool, inWorkingDirExists: bool, pick: Option<string>)
    : (r: Result<IdentitySource, LoadError>)
    ensures r.Failure? <==> !besideCacheExists && !inWorkingDirExists && pick.None?
    ensures r.Failure? ==> r.error == NoIdentityFile
    ensures r == Success(BesideCache) <==> besideCacheExists
    ensures r == Success(WorkingDirectory) <==> !besideCacheExists && inWorkingDirExists
    ensures r.Success? && r.value.Picked? <==> !besideCacheExists && !inWorkingDirExists && pick.Some?
    ensures r.Success? && r.value.Picked? ==> r.value.path == pick.value
  {
    if besideCacheExists then Success(BesideCache)
    else if inWorkingDirExists then Success(WorkingDirectory)
    else match pick
      case Some(path) => Success(Picked(path))
      case None => Failure(NoIdentityFile)
  }

  /**
   * Reading the ids in order: the entries with their ids, or the position of the first entry whose
   * `mid` cannot be read.
   */
  function ReadIds(cache: seq<CacheEntry>): (r: Result<seq<VidEntry>, nat>)
    ensures r.Success? ==> |r.value| == |cache|
    ensures r.Failure? ==> r.error < |cache| && cache[r.error].mid.None?
  {
    if cache == [] then Success([])
    else
      var n := |cache| - 1;
      match ReadIds(cache[..n])
      case Failure(k) => Failure(k)
      case Success(entries) =>
        if cache[n].mid.None? then Failure(n) else Success(entries + [VidEntry(cache[n].mid.value, cache[n].userVid)])
  }

  /** Reading fails exactly at the first unreadable id. */
  lemma {:induction false} ReadIdsFailure(cache: seq<CacheEntry>)
    ensures ReadIds(cache).Failure? <==> exists i :: 0 <= i < |cache| && cache[i].mid.None?
    ensures ReadIds(cache).Failure? ==>
      var k := ReadIds(cache).error;
      k < |cache| && cache[k].mid.None? && forall i :: 0 <= i < k ==> cache[i].mid.Some?
  {
    if cache != [] {
      var n := |cache| - 1;
      ReadIdsFailure(cache[..n]);
      assert forall i :: 0 <= i < n ==> cache[..n][i] == cache[i];
    }
  }

  /** A successful read keeps every entry, in order, with its id and payload. */
  lemma {:induction false} ReadIdsSuccess(cache: seq<CacheEntry>)
    requires ReadIds(cache).Success?
    ensures var entries := ReadIds(cache).value;
      && |entries| == |cache|
      && forall i :: 0 <= i < |cache| ==> cache[i].mid.Some? && entries[i] == VidEntry(cache[i].mid.value, cache[i].userVid)
  {
    if cache != [] {
      var n := |cache| - 1;
      ReadIdsSuccess(cache[..n]);
      assert forall i :: 0 <= i < n ==> cache[..n][i] == cache[i];
    }
  }

  /** Once reading has failed on a prefix, reading the whole cache fails at the same place. */
  lemma {:induction false} ReadIdsFailureSticks(cache: seq<CacheEntry>, m: nat)
    requires m <= |cache| && ReadIds(cache[..m]).Failure?
    ensures ReadIds(cache) == ReadIds(cache[..m])
    decreases |cache| - m
  {
    if m < |cache| {
      assert cache[..m + 1][..m] == cache[..m];
      ReadIdsFailureSticks(cache, m + 1);
    } else {
      assert cache[..m] == cache;
    }
  }

  /** What `processUserData` returns for a cache: an error for an unreadable id, else the classification. */
  function LoadResult(cache: seq<CacheEntry>, names: NameMap, tags: TagMap, clock: Clock): (r: Result<seq<UserData>, LoadError>)
    ensures r.Success? ==> |r.value| == |cache|
    ensures r.Failure? ==> r.error.BadCacheEntry? && r.error.index < |cache| && cache[r.error.index].mid.None?
  {
    match ReadIds(cache)
    case Failure(k) => Failure(BadCacheEntry(k))
    case Success(entries) => Success(Classify(entries, names, tags, clock))
  }

  /** The cache path builds the same records, in the same order, as the fresh-fetch path. */
  lemma {:induction false} CacheAgreesWithFreshFetch(entries: seq<VidEntry>, names: NameMap, tags: TagMap, clock: Clock)
    ensures var cache := seq(|entries|, i requires 0 <= i < |entries| => CacheEntry(Some(entries[i].mid), entries[i].userVid));
      LoadResult(cache, names, tags, clock) == Success(Classify(entries, names, tags, clock))
  {
    var cache := seq(|entries|, i requires 0 <= i < |entries| => CacheEntry(Some(entries[i].mid), entries[i].userVid));
    ReadIdsFailure(cache);
    ReadIdsSuccess(cache);
    assert ReadIds(cache).value == entries;
  }

  /**
   * A successful load has one record per cache entry, records with uploads first, each group in
   * cache order.
   */
  lemma LoadResultProperties(cache: seq<CacheEntry>, names: NameMap, tags: TagMap, clock: Clock)
    requires LoadResult(cache, names, tags, clock).Success?
    ensures var r := LoadResult(cache, names, tags, clock).value;
      && |r| == |cache|
      && (forall i, j :: 0 <= i < j < |r| && !r[i].hasVideos ==> !r[j].hasVideos)
      && multiset(Uids(r)) == multiset(Mids(ReadIds(cache).value))
    ensures var records := Records(ClassifyAll(ReadIds(cache).value, names, tags, clock));
      && |records| == |cache|
      && (forall i :: 0 <= i < |cache| ==>
            && cache[i].mid == Some(records[i].uid)
            && records[i] == ClassifyEntry(VidEntry(records[i].uid, cache[i].userVid), names, tags, clock).user)
      && LoadResult(cache, names, tags, clock).value == Filter(records, Uploaded) + Filter(records, NotUploaded)
  {
    ReadIdsSuccess(cache);
    ClassifyProperties(ReadIds(cache).value, names, tags, clock);
  }

  /** Filling `midToName` and `midToTags` with `put`: the last record for an id wins. */
  method BuildMaps(userData: seq<IdentityRecord>) returns (midToName: NameMap, midToTags: TagMap)
    ensures midToName == NameMapOf(userData) && midToTags == TagMapOf(userData)
  {
    midToName, midToTags := map[], map[];
    for i := 0 to |userData|
      invariant midToName == NameMapOf(userData[..i]) && midToTags == TagMapOf(userData[..i])
    {
      var user := userData[i];
      assert userData[..i + 1][..i] == userData[..i];
      midToName := midToName[user.mid := user.name];
      midToTags := midToTags[user.mid := user.tag];
    }
    assert userData[..|userData|] == userData;
  }

  /** Reading one more entry: an unreadable id fails the whole read there, a readable one extends it. */
  lemma ReadIdsStep(cache: seq<CacheEntry>, i: nat)
    requires i < |cache| && ReadIds(cache[..i]).Success?
    ensures cache[i].mid.None? ==> ReadIds(cache) == Failure(i)
    ensures cache[i].mid.Some? ==>
      ReadIds(cache[..i + 1]) == Success(ReadIds(cache[..i]).value + [VidEntry(cache[i].mid.value, cache[i].userVid)])
  {
    assert cache[..i + 1][..i] == cache[..i];
    if cache[i].mid.None? {
      ReadIdsFailureSticks(cache, i + 1);
    }
  }

  /**
   * `processUserData` of the cache path. Reading `mid` happens outside the `try` block, so an
   * unreadable id aborts the whole load; everything else about an entry only degrades its record.
   */
  method ProcessUserData(userVidList: seq<CacheEntry>, midToName: NameMap, midToTags: TagMap, clock: Clock)
    returns (r: Result<seq<UserData>, LoadError>)
    ensures r == LoadResult(userVidList, midToName, midToTags, clock)
  {
    var allUsers: seq<UserData> := [];
    var usersWithNoVideos: seq<UserData> := [];
    ghost var entries: seq<VidEntry> := [];
    for i := 0 to |userVidList|
      invariant ReadIds(userVidList[..i]) == Success(entries)
      invariant allUsers == WithVideosOf(ClassifyAll(entries, midToName, midToTags, clock))
      invariant usersWithNoVideos == NoVideosOf(ClassifyAll(entries, midToName, midToTags, clock))
    {
      ReadIdsStep(userVidList, i);
      if userVidList[i].mid.None? {
        return Failure(BadCacheEntry(i));
      }
      var entry := VidEntry(userVidList[i].mid.value, userVidList[i].userVid);
      ClassifyAllAppend(entries, midToName, midToTags, clock, entry);
      SplitAppend(ClassifyAll(entries, midToName, midToTags, clock), ClassifyEntry(entry, midToName, midToTags, clock));
      entries := entries + [entry];
      allUsers, usersWithNoVideos := AddEntry(entry, midToName, midToTags, clock, allUsers, usersWithNoVideos);
    }
    assert userVidList[..|userVidList|] == userVidList;
    r := Success(allUsers + usersWithNoVideos);
  }

  /**
   * `doInBackground`, minus the file reading: choose the identity file, build the maps from the
   * records it holds, and classify the cache entries.
   */
  method DoInBackground(userVidList: seq<CacheEntry>, besideCacheExists: bool, inWorkingDirExists: bool,
                        pick: Option<string>, userData: seq<IdentityRecord>, clock: Clock)
    returns (r: Result<seq<UserData>, LoadError>)
    ensures ChooseIdentityFile(besideCacheExists, inWorkingDirExists, pick).Failure? ==> r == Failure(NoIdentityFile)
    ensures ChooseIdentityFile(besideCacheExists, inWorkingDirExists, pick).Success? ==>
      r == LoadResult(userVidList, NameMapOf(userData), TagMapOf(userData), clock)
  {
    var source := ChooseIdentityFile(besideCacheExists, inWorkingDirExists, pick);
    if source.Failure? {
      return Failure(source.error);
    }
    var midToName, midToTags := BuildMaps(userData);
    r := ProcessUserData(userVidList, midToName, midToTags, clock);
  }
}
