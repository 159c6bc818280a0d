/**
 * The shared vocabulary of the two loading paths (fresh fetch and cache replay): the API payload of
 * one account, the identity list that names accounts, and the rule `processUserData` follows to turn
 * payloads into account records.
 */
module Classification {
  import opened Wrappers
  import opened JavaText
  import opened Users
  import opened Seqs

  /**
   * One element of `data.archives`. A field is None when the payload lacks it; Jackson's `asText()`
   * then reads "" and `asLong()` reads 0.
   */
  datatype Archive = Archive(title: Option<string>, pubdate: Option<Int64>, bvid: Option<string>)

  /**
   * The `user_vid` JSON tree of one account:
   * `Missing` — no tree at all (null), so reading it throws;
   * `Malformed` — `data.archives` is absent or not an array;
   * `Archives` — `data.archives` is an array of uploads, newest first.
   */
  datatype Payload = Missing | Malformed | Archives(items: seq<Archive>)

  /** One `{mid, user_vid}` entry of `userVidList`, as kept in the cache file. */
  datatype VidEntry = VidEntry(mid: Int64, userVid: Payload)

  /** One `{mid, name, tag}` record of the identity list; `name` and `tag` may be null. */
  datatype IdentityRecord = IdentityRecord(mid: Int64, name: Option<string>, tag: Option<seq<string>>)

  /** The `HashMap`s from id to name and to tag list; a present key may map to null. */
  type NameMap = map<Int64, Option<string>>
  type TagMap = map<Int64, Option<seq<string>>>

  /** `HashMap.get`: null for an absent key. */
  function Get<V>(m: map<Int64, Option<V>>, k: Int64): Option<V> {
    if k in m then m[k] else None
  }

  /** The name map after `put`-ting every record in order: the last record for an id wins. */
  function NameMapOf(records: seq<IdentityRecord>): NameMap {
    if records == [] then map[]
    else
      var last := records[|records| - 1];
      NameMapOf(records[..|records| - 1])[last.mid := last.name]
  }

  /** The tag map after `put`-ting every record in order: the last record for an id wins. */
  function TagMapOf(records: seq<IdentityRecord>): TagMap {
    if records == [] then map[]
    else
      var last := records[|records| - 1];
      TagMapOf(records[..|records| - 1])[last.mid := last.tag]
  }

  /** `i` is the position of the last record for its id. */
  predicate IsLastFor(records: seq<IdentityRecord>, i: int) {
    0 <= i < |records| && forall j :: i < j < |records| ==> records[j].mid != records[i].mid
  }

  /** The maps hold exactly the ids of the list. */
  lemma {:induction false} MapKeysAreIds(records: seq<IdentityRecord>)
    ensures NameMapOf(records).Keys == TagMapOf(records).Keys
    ensures forall k :: k in NameMapOf(records) <==> exists i :: 0 <= i < |records| && records[i].mid == k
  {
    if records != [] {
      var init, last := records[..|records| - 1], records[|records| - 1];
      MapKeysAreIds(init);
      forall k | k in NameMapOf(records)
        ensures exists i :: 0 <= i < |records| && records[i].mid == k
      {
        if k != last.mid {
          var i :| 0 <= i < |init| && init[i].mid == k;
          assert records[i].mid == k;
        }
      }
      forall k | exists i :: 0 <= i < |records| && records[i].mid == k
        ensures k in NameMapOf(records)
      {
        var i :| 0 <= i < |records| && records[i].mid == k;
        if i < |init| {
          assert init[i].mid == k;
        }
      }
    }
  }

  /** Each id maps to the name and tags of its last record: the last write wins. */
  lemma {:induction false} MapsAreLastWriteWins(records: seq<IdentityRecord>, i: int)
    requires IsLastFor(records, i)
    ensures records[i].mid in NameMapOf(records) && records[i].mid in TagMapOf(records)
    ensures NameMapOf(records)[records[i].mid] == records[i].name
    ensures TagMapOf(records)[records[i].mid] == records[i].tag
  {
    var init := records[..|records| - 1];
    if i < |init| {
      assert IsLastFor(init, i);
      MapsAreLastWriteWins(init, i);
    }
  }

  /** The outcome of the `try` block for one entry: which list the new record joins. */
  datatype Classified = WithVideos(user: UserData) | NoVideos(user: UserData)

  function TitleOf(a: Archive): string { a.title.GetOr("") }
  function PubdateOf(a: Archive): Int64 { a.pubdate.GetOr(0) }
  function BvidOf(a: Archive): string { a.bvid.GetOr("") }

  /**
   * One iteration of `processUserData`: a payload with at least one upload yields a record built
   * from the first upload; an empty, absent or malformed list, or an upload time that Java cannot
   * convert, yields a record without uploads. Name and tags come from the identity maps.
   */
  function ClassifyEntry(e: VidEntry, names: NameMap, tags: TagMap, clock: Clock): (c: Classified)
    ensures c.user.uid == e.mid && c.user.username == Get(names, e.mid)
    ensures c.user.tags == Get(tags, e.mid).GetOr([])
    ensures Valid(c.user)
    ensures c.WithVideos? <==>
      e.userVid.Archives? && |e.userVid.items| > 0 &&
      CalculateInactiveDays(PubdateOf(e.userVid.items[0]), clock).Some?
    ensures c.WithVideos? ==>
      var first := e.userVid.items[0];
      && c.user.hasVideos
      && c.user.lastVideoTitle == TitleOf(first) && c.user.bvid == BvidOf(first)
      && c.user.lastUpdateTimestamp == PubdateOf(first)
      && c.user.inactiveDays == CalculateInactiveDays(PubdateOf(first), clock).value
    ensures c.NoVideos? ==> !c.user.hasVideos
  {
    var name, tagList := Get(names, e.mid), Get(tags, e.mid);
    match e.userVid
    case Archives(items) =>
      if |items| > 0 then
        match NewWithVideos(e.mid, name, tagList, TitleOf(items[0]), PubdateOf(items[0]), BvidOf(items[0]), clock)
        case Success(u) => WithVideos(u)
        case Failure(_) => NoVideos(NewNoVideos(e.mid, name, tagList))
      else NoVideos(NewNoVideos(e.mid, name, tagList))
    case _ => NoVideos(NewNoVideos(e.mid, name, tagList))
  }

  /** An entry whose id is in neither identity map gets a record without a name and without tags. */
  lemma UnknownIdHasNoNameOrTags(e: VidEntry, names: NameMap, tags: TagMap, clock: Clock)
    requires e.mid !in names && e.mid !in tags
    ensures ClassifyEntry(e, names, tags, clock).user.username.None?
    ensures ClassifyEntry(e, names, tags, clock).user.tags == []
  {
  }

  /** The outcome of every entry, in entry order. */
  function ClassifyAll(entries: seq<VidEntry>, names: NameMap, tags: TagMap, clock: Clock): (cs: seq<Classified>)
    ensures |cs| == |entries|
    ensures forall i :: 0 <= i < |entries| ==> cs[i] == ClassifyEntry(entries[i], names, tags, clock)
  {
    if entries == [] then []
    else ClassifyAll(entries[..|entries| - 1], names, tags, clock) + [ClassifyEntry(entries[|entries| - 1], names, tags, clock)]
  }

  /** `allUsers`: the records with uploads, in entry order. */
  function WithVideosOf(cs: seq<Classified>): seq<UserData> {
    if cs == [] then []
    else WithVideosOf(cs[..|cs| - 1]) + (if cs[|cs| - 1].WithVideos? then [cs[|cs| - 1].user] else [])
  }

  /** `usersWithNoVideos`: the other records, in entry order. */
  function NoVideosOf(cs: seq<Classified>): seq<UserData> {
    if cs == [] then []
    else NoVideosOf(cs[..|cs| - 1]) + (if cs[|cs| - 1].NoVideos? then [cs[|cs| - 1].user] else [])
  }

  /** The result of `processUserData`: records with uploads first, then the rest. */
  function Classify(entries: seq<VidEntry>, names: NameMap, tags: TagMap, clock: Clock): (r: seq<UserData>)
    ensures |r| == |entries|
  {
    var cs := ClassifyAll(entries, names, tags, clock);
    SplitLengths(cs);
    WithVideosOf(cs) + NoVideosOf(cs)
  }

  function Mids(entries: seq<VidEntry>): seq<Int64>
  {
    if entries == [] then [] else Mids(entries[..|entries| - 1]) + [entries[|entries| - 1].mid]
  }

  function Uids(users: seq<UserData>): seq<Int64>
  {
    if users == [] then [] else Uids(users[..|users| - 1]) + [users[|users| - 1].uid]
  }

  function UidsOf(cs: seq<Classified>): seq<Int64>
  {
    if cs == [] then [] else UidsOf(cs[..|cs| - 1]) + [cs[|cs| - 1].user.uid]
  }

  /** The records of a classification, in entry order, whichever list each joins. */
  function Records(cs: seq<Classified>): (us: seq<UserData>)
    ensures |us| == |cs|
    ensures forall i :: 0 <= i < |cs| ==> us[i] == cs[i].user
  {
    if cs == [] then [] else Records(cs[..|cs| - 1]) + [cs[|cs| - 1].user]
  }

  predicate Uploaded(u: UserData) {
    u.hasVideos
  }

  predicate NotUploaded(u: UserData) {
    !u.hasVideos
  }

  /**
   * Each list keeps the entry order: `allUsers` is the records with uploads and
   * `usersWithNoVideos` the records without, each in the order their entries came.
   */
  lemma {:induction false} SplitIsFilter(cs: seq<Classified>)
    requires forall i :: 0 <= i < |cs| ==> WellClassified(cs[i])
    ensures WithVideosOf(cs) == Filter(Records(cs), Uploaded)
    ensures NoVideosOf(cs) == Filter(Records(cs), NotUploaded)
  {
    if cs != [] {
      var init, c := cs[..|cs| - 1], cs[|cs| - 1];
      SplitIsFilter(init);
      assert Records(cs) == Records(init) + [c.user];
      FilterAppend(Records(init), c.user, Uploaded);
      FilterAppend(Records(init), c.user, NotUploaded);
    }
  }

  /** Which list a record joins agrees with whether it has uploads, and it keeps the constructors' guarantees. */
  predicate WellClassified(c: Classified) {
    Valid(c.user) && (c.WithVideos? <==> c.user.hasVideos)
  }

  lemma UidsAppend(users: seq<UserData>, u: UserData)
    ensures Uids(users + [u]) == Uids(users) + [u.uid]
  {
    assert (users + [u])[..|users|] == users;
  }

  lemma {:induction false} SplitLengths(cs: seq<Classified>)
    ensures |WithVideosOf(cs)| + |NoVideosOf(cs)| == |cs|
  {
    if cs != [] {
      SplitLengths(cs[..|cs| - 1]);
    }
  }

  lemma {:induction false} SplitUids(cs: seq<Classified>)
    ensures multiset(Uids(WithVideosOf(cs))) + multiset(Uids(NoVideosOf(cs))) == multiset(UidsOf(cs))
  {
    if cs != [] {
      var init, c := cs[..|cs| - 1], cs[|cs| - 1];
      SplitUids(init);
      UidsOfAppend(init, c);
      if c.WithVideos? {
        assert WithVideosOf(cs) == WithVideosOf(init) + [c.user] && NoVideosOf(cs) == NoVideosOf(init);
        UidsMultisetAppend(WithVideosOf(init), c.user);
      } else {
        assert WithVideosOf(cs) == WithVideosOf(init) && NoVideosOf(cs) == NoVideosOf(init) + [c.user];
        UidsMultisetAppend(NoVideosOf(init), c.user);
      }
    }
  }

  lemma UidsMultisetAppend(users: seq<UserData>, u: UserData)
    ensures multiset(Uids(users + [u])) == multiset(Uids(users)) + multiset{u.uid}
  {
    UidsAppend(users, u);
  }

  lemma UidsOfAppend(cs: seq<Classified>, c: Classified)
    ensures multiset(UidsOf(cs + [c])) == multiset(UidsOf(cs)) + multiset{c.user.uid}
  {
    assert (cs + [c])[..|cs|] == cs;
  }

  lemma {:induction false} SplitKinds(cs: seq<Classified>)
    requires forall i :: 0 <= i < |cs| ==> WellClassified(cs[i])
    ensures forall i :: 0 <= i < |WithVideosOf(cs)| ==> WithVideosOf(cs)[i].hasVideos && Valid(WithVideosOf(cs)[i])
    ensures forall i :: 0 <= i < |NoVideosOf(cs)| ==> !NoVideosOf(cs)[i].hasVideos && Valid(NoVideosOf(cs)[i])
  {
    if cs != [] {
      var init := cs[..|cs| - 1];
      SplitKinds(init);
    }
  }

  /**
   * `processUserData` returns one record per entry, nothing deduplicated: its uids are the entry
   * ids counted with multiplicity; the records with uploads come before all others; every record
   * keeps the constructors' guarantees; within each group the records keep the entry order.
   */
  lemma ClassifyProperties(entries: seq<VidEntry>, names: NameMap, tags: TagMap, clock: Clock)
    ensures var r := Classify(entries, names, tags, clock);
      && |r| == |entries|
      && multiset(Uids(r)) == multiset(Mids(entries))
      && (forall i, j :: 0 <= i < j < |r| && !r[i].hasVideos ==> !r[j].hasVideos)
      && (forall i :: 0 <= i < |r| ==> Valid(r[i]))
    ensures var records := Records(ClassifyAll(entries, names, tags, clock));
      Classify(entries, names, tags, clock) == Filter(records, Uploaded) + Filter(records, NotUploaded)
  {
    var cs := ClassifyAll(entries, names, tags, clock);
    ClassifyCounts(entries, names, tags, clock);
    ClassifyAllWellClassified(entries, names, tags, clock);
    SplitKinds(cs);
    KindsInOrder(WithVideosOf(cs), NoVideosOf(cs));
    SplitIsFilter(cs);
  }

  lemma ClassifyCounts(entries: seq<VidEntry>, names: NameMap, tags: TagMap, clock: Clock)
    ensures var r := Classify(entries, names, tags, clock);
      |r| == |entries| && multiset(Uids(r)) == multiset(Mids(entries))
  {
    var cs := ClassifyAll(entries, names, tags, clock);
    SplitLengths(cs);
    SplitUids(cs);
    UidsOfClassifyAll(entries, names, tags, clock);
    UidsConcat(WithVideosOf(cs), NoVideosOf(cs));
  }

  lemma ClassifyAllWellClassified(entries: seq<VidEntry>, names: NameMap, tags: TagMap, clock: Clock)
    ensures forall i :: 0 <= i < |entries| ==> WellClassified(ClassifyAll(entries, names, tags, clock)[i])
  {
  }

  /** Records with uploads followed by records without: no record without uploads precedes one with. */
  lemma KindsInOrder(w: seq<UserData>, n: seq<UserData>)
    requires forall i :: 0 <= i < |w| ==> w[i].hasVideos && Valid(w[i])
    requires forall i :: 0 <= i < |n| ==> !n[i].hasVideos && Valid(n[i])
    ensures forall i, j :: 0 <= i < j < |w + n| && !(w + n)[i].hasVideos ==> !(w + n)[j].hasVideos
    ensures forall i :: 0 <= i < |w + n| ==> Valid((w + n)[i])
  {
    var r := w + n;
    forall i | 0 <= i < |r|
      ensures (i < |w| ==> r[i] == w[i]) && (i >= |w| ==> r[i] == n[i - |w|])
    {
    }
  }

  lemma {:induction false} UidsOfClassifyAll(entries: seq<VidEntry>, names: NameMap, tags: TagMap, clock: Clock)
    ensures UidsOf(ClassifyAll(entries, names, tags, clock)) == Mids(entries)
  {
    if entries != [] {
      var init := entries[..|entries| - 1];
      UidsOfClassifyAll(init, names, tags, clock);
      var cs := ClassifyAll(entries, names, tags, clock);
      assert cs[..|cs| - 1] == ClassifyAll(init, names, tags, clock);
    }
  }

  lemma UidsConcat(a: seq<UserData>, b: seq<UserData>)
    ensures Uids(a + b) == Uids(a) + Uids(b)
    decreases |b|
  {
    if b == [] {
      assert a + b == a;
    } else {
      var b0 := b[..|b| - 1];
      assert (a + b)[..|a + b| - 1] == a + b0;
      UidsConcat(a, b0);
    }
  }

  /** The two branches of the `try` block and the `catch` block, one by one. */
  lemma ClassifyEntryCases(e: VidEntry, names: NameMap, tags: TagMap, clock: Clock)
    ensures var name, tagList := Get(names, e.mid), Get(tags, e.mid);
      ClassifyEntry(e, names, tags, clock) ==
        if e.userVid.Archives? && |e.userVid.items| > 0 then
          var first := e.userVid.items[0];
          var made := NewWithVideos(e.mid, name, tagList, TitleOf(first), PubdateOf(first), BvidOf(first), clock);
          if made.Success? then WithVideos(made.value) else NoVideos(NewNoVideos(e.mid, name, tagList))
        else NoVideos(NewNoVideos(e.mid, name, tagList))
  {
  }

  lemma SplitAppend(cs: seq<Classified>, c: Classified)
    ensures WithVideosOf(cs + [c]) == WithVideosOf(cs) + (if c.WithVideos? then [c.user] else [])
    ensures NoVideosOf(cs + [c]) == NoVideosOf(cs) + (if c.NoVideos? then [c.user] else [])
  {
    assert (cs + [c])[..|cs|] == cs;
  }

  /** Appending an entry appends its record to exactly one of the two lists. */
  lemma ClassifyAllAppend(entries: seq<VidEntry>, names: NameMap, tags: TagMap, clock: Clock, extra: VidEntry)
    ensures ClassifyAll(entries + [extra], names, tags, clock) ==
      ClassifyAll(entries, names, tags, clock) + [ClassifyEntry(extra, names, tags, clock)]
  {
  }

  /**
   * The body of `processUserData`'s loop, shared by both tasks: an entry whose first upload builds a
   * record goes to `allUsers`; one with no uploads, a malformed payload or a rejected date goes to
   * `usersWithNoVideos`.
   */
  method AddEntry(entry: VidEntry, midToName: NameMap, midToTags: TagMap, clock: Clock,
                  allUsers0: seq<UserData>, usersWithNoVideos0: seq<UserData>)
    returns (allUsers: seq<UserData>, usersWithNoVideos: seq<UserData>)
    ensures var c := ClassifyEntry(entry, midToName, midToTags, clock);
      && allUsers == allUsers0 + (if c.WithVideos? then [c.user] else [])
      && usersWithNoVideos == usersWithNoVideos0 + (if c.NoVideos? then [c.user] else [])
  {
    allUsers, usersWithNoVideos := allUsers0, usersWithNoVideos0;
    var mid, userVid := entry.mid, entry.userVid;
    var name, tags := Get(midToName, mid), Get(midToTags, mid);
    ClassifyEntryCases(entry, midToName, midToTags, clock);
    if userVid.Archives? && |userVid.items| > 0 {
      var firstVideo := userVid.items[0];
      var made := NewWithVideos(mid, name, tags, TitleOf(firstVideo), PubdateOf(firstVideo), BvidOf(firstVideo), clock);
      if made.Success? {
        allUsers := allUsers + [made.value];
      } else {
        // the constructor threw; the catch block records the account without uploads
        usersWithNoVideos := usersWithNoVideos + [NewNoVideos(mid, name, tags)];
      }
    } else {
      usersWithNoVideos := usersWithNoVideos + [NewNoVideos(mid, name, tags)];
    }
  }
}
