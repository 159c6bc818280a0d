/**
 * The account record of the follow-list cleaner (`UserData`): one followed uploader, the newest
 * upload found for it, and the derived count of whole days since that upload.
 *
 * The Java object is written only by its two constructors, so it is modelled as a value. The wall
 * clock and the system time zone are the `Clock` parameter.
 */
module Users {
  import opened Wrappers
  import opened JavaText

  /** `Integer.MAX_VALUE`: the "never active" marker. */
  const MaxValue: Int32 := MaxInt32
  /** Title given to an account without uploads ("no video"). */
  const NoVideoTitle: string := "无视频"
  const VideoUrlPrefix: string := "https://www.bilibili.com/video/"
  const SpaceUrlPrefix: string := "https://space.bilibili.com/"

  const SecondsPerDay: int := 86_400
  const NanosPerSecond: int := 1_000_000_000
  const NanosPerDay: int := 86_400_000_000_000
  /** Range of `Instant.ofEpochSecond`. */
  const MinInstantSecond: int := -31_557_014_167_219_200
  const MaxInstantSecond: int := 31_556_889_864_403_199
  /** Epoch days of `LocalDate.MIN` and `LocalDate.MAX`, the range of `LocalDateTime`. */
  const MinEpochDay: int := -365_243_219_162
  const MaxEpochDay: int := 365_241_780_471

  /**
   * The evaluation instant and the zone: `nowLocalNanos` is `LocalDateTime.now()` as nanoseconds on
   * the local time line (local date-time minus 1970-01-01T00:00), `offsetSeconds` the zone's offset
   * from UTC.
   */
  datatype Clock = Clock(nowLocalNanos: int, offsetSeconds: int)

  datatype UserData = UserData(
    uid: Int64,
    username: Option<string>,   // None: no name known for this id (Java null)
    tags: seq<string>,
    lastVideoTitle: string,
    lastUpdateTimestamp: Int64, // epoch seconds of the newest upload, 0 when unknown
    bvid: string,
    inactiveDays: Int32,
    hasVideos: bool)

  /** The `DateTimeException` thrown when an upload time has no local date-time. */
  datatype TimeError = DateTimeOutOfRange(timestamp: Int64)

  /** What both constructors guarantee about every record. */
  predicate Valid(u: UserData) {
    && (!u.hasVideos ==>
          u.inactiveDays == MaxValue && u.lastUpdateTimestamp == 0 &&
          u.bvid == "" && u.lastVideoTitle == NoVideoTitle)
    && (u.lastUpdateTimestamp == 0 ==> u.inactiveDays == MaxValue)
  }

  /**
   * `LocalDateTime.ofInstant(Instant.ofEpochSecond(ts), zone)` as seconds on the local time line,
   * or None where Java throws.
   */
  function LocalSecondsOf(ts: Int64, offsetSeconds: int): Option<int>
  {
    if MinInstantSecond <= ts <= MaxInstantSecond
       && MinEpochDay <= (ts + offsetSeconds) / SecondsPerDay <= MaxEpochDay
    then Some(ts + offsetSeconds)
    else None
  }

  /** Nanoseconds on the local time line from the upload to "now" (negative for a future upload). */
  function Elapsed(localSeconds: int, clock: Clock): int {
    clock.nowLocalNanos - localSeconds * NanosPerSecond
  }

  /**
   * `calculateInactiveDays`: `Integer.MAX_VALUE` for timestamp 0; otherwise
   * `(int) ChronoUnit.DAYS.between(lastUpdate, now)`, the number of complete 24-hour periods on the
   * local time line, truncated toward zero and not clamped. None where the conversion throws.
   */
  function CalculateInactiveDays(ts: Int64, clock: Clock): (r: Option<Int32>)
    ensures ts == 0 ==> r == Some(MaxValue)
    ensures ts != 0 ==> (r.Some? <==> LocalSecondsOf(ts, clock.offsetSeconds).Some?)
    ensures ts != 0 && r.Some? ==>
      r.value == NarrowToInt32(TruncDiv(Elapsed(LocalSecondsOf(ts, clock.offsetSeconds).value, clock), NanosPerDay))
  {
    if ts == 0 then Some(MaxValue)
    else match LocalSecondsOf(ts, clock.offsetSeconds)
      case None => None
      case Some(local) => Some(NarrowToInt32(TruncDiv(Elapsed(local, clock), NanosPerDay)))
  }

  /** The constructor for an account with uploads; it throws when the upload time is out of range. */
  function NewWithVideos(uid: Int64, username: Option<string>, tags: Option<seq<string>>,
                         lastVideoTitle: string, lastUpdateTimestamp: Int64, bvid: string,
                         clock: Clock): (r: Result<UserData, TimeError>)
    ensures r.Success? <==> CalculateInactiveDays(lastUpdateTimestamp, clock).Some?
    ensures r.Failure? ==> r.error == DateTimeOutOfRange(lastUpdateTimestamp)
    ensures r.Success? ==>
      && r.value.uid == uid && r.value.username == username
      && r.value.tags == (if tags.None? then [] else tags.value)
      && r.value.lastVideoTitle == lastVideoTitle && r.value.bvid == bvid
      && r.value.lastUpdateTimestamp == lastUpdateTimestamp
      && r.value.hasVideos
      && r.value.inactiveDays == CalculateInactiveDays(lastUpdateTimestamp, clock).value
      && Valid(r.value)
  {
    match CalculateInactiveDays(lastUpdateTimestamp, clock)
    case None => Failure(DateTimeOutOfRange(lastUpdateTimestamp))
    case Some(days) =>
      Success(UserData(uid, username, tags.GetOr([]), lastVideoTitle, lastUpdateTimestamp, bvid, days, true))
  }

  /** The constructor for an account without uploads. */
  function NewNoVideos(uid: Int64, username: Option<string>, tags: Option<seq<string>>): (u: UserData)
    ensures u.uid == uid && u.username == username
    ensures u.tags == (if tags.None? then [] else tags.value)
    ensures !u.hasVideos && u.lastVideoTitle == NoVideoTitle && u.bvid == ""
    ensures u.lastUpdateTimestamp == 0 && u.inactiveDays == MaxValue
    ensures Valid(u)
  {
    UserData(uid, username, tags.GetOr([]), NoVideoTitle, 0, "", MaxValue, false)
  }

  /** `isInactive(thresholdDays)`. */
  predicate IsInactive(u: UserData, thresholdDays: int) {
    u.inactiveDays >= thresholdDays
  }

  /** `hasTags()`: the account belongs to at least one follow group. */
  predicate HasTags(u: UserData) {
    |u.tags| > 0
  }

  /** `getVideoUrl()`: the page of the newest upload, or "" when its id is empty. */
  function VideoUrl(u: UserData): (url: string)
    ensures url == "" <==> u.bvid == ""
    ensures u.bvid != "" ==>
      && |url| == |VideoUrlPrefix| + |u.bvid| + 1
      && url[..|VideoUrlPrefix|] == VideoUrlPrefix
      && url[|VideoUrlPrefix|..|url| - 1] == u.bvid
      && url[|url| - 1] == '/'
  {
    if u.bvid != "" then VideoUrlPrefix + u.bvid + "/" else ""
  }

  /** `getSpaceUrl()`: the profile page, the prefix followed by the decimal uid. */
  function SpaceUrl(u: UserData): (url: string)
    ensures |url| > |SpaceUrlPrefix| && url[..|SpaceUrlPrefix|] == SpaceUrlPrefix
    ensures url[|SpaceUrlPrefix|..] == DecimalString(u.uid as int)
    ensures ParseDecimal(url[|SpaceUrlPrefix|..]) == Some(u.uid as int)
  {
    ParseDecimalOfDecimalString(u.uid);
    var url := SpaceUrlPrefix + DecimalString(u.uid);
    assert url[|SpaceUrlPrefix|..] == DecimalString(u.uid);
    url
  }

  // ---------------------------------------------------------------------------------------------
  // Properties

  /** Different accounts have different profile pages. */
  lemma SpaceUrlIdentifiesAccount(u: UserData, v: UserData)
    requires SpaceUrl(u) == SpaceUrl(v)
    ensures u.uid == v.uid
  {
    var n := |SpaceUrlPrefix|;
    assert SpaceUrl(u)[n..] == SpaceUrl(v)[n..];
  }

  /** A record without uploads counts as inactive for every threshold. */
  lemma NoVideosInactiveForEveryThreshold(u: UserData, thresholdDays: Int32)
    requires Valid(u) && !u.hasVideos
    ensures IsInactive(u, thresholdDays)
  {
  }

  /** A record inactive for a threshold is inactive for every smaller one. */
  lemma IsInactiveMonotone(u: UserData, smaller: int, larger: int)
    requires smaller <= larger && IsInactive(u, larger)
    ensures IsInactive(u, smaller)
  {
  }

  /** A missing tag list (Java null) becomes the empty list, so the record has no tags. */
  lemma NullTagsMeanNoTags(uid: Int64, username: Option<string>)
    ensures !HasTags(NewNoVideos(uid, username, None))
  {
  }

  /** Timestamp 0 marks the account as never active even though it has uploads. */
  lemma ZeroTimestampIsNeverActive(uid: Int64, username: Option<string>, tags: Option<seq<string>>,
                                    title: string, bvid: string, clock: Clock)
    ensures var r := NewWithVideos(uid, username, tags, title, 0, bvid, clock);
            r.Success? && r.value.hasVideos && r.value.inactiveDays == MaxValue
  {
  }

  /**
   * Without wrap-around, the day count is the number of complete days elapsed: `d` days when
   * between `d` and `d + 1` days have passed, and a negative count, not 0, for an upload in the future.
   */
  lemma InactiveDaysAreCompleteDays(ts: Int64, clock: Clock)
    requires ts != 0 && LocalSecondsOf(ts, clock.offsetSeconds).Some?
    requires var e := Elapsed(LocalSecondsOf(ts, clock.offsetSeconds).value, clock);
             MinInt32 * NanosPerDay <= e <= MaxInt32 * NanosPerDay
    ensures var e := Elapsed(LocalSecondsOf(ts, clock.offsetSeconds).value, clock);
            var d := CalculateInactiveDays(ts, clock).value as int;
            && (e >= 0 ==> d >= 0 && d * NanosPerDay <= e < (d + 1) * NanosPerDay)
            && (e < 0 ==> d <= 0 && (d - 1) * NanosPerDay < e <= d * NanosPerDay)
            && (e <= -NanosPerDay ==> d < 0)
  {
    var e := Elapsed(LocalSecondsOf(ts, clock.offsetSeconds).value, clock);
    var q := TruncDiv(e, NanosPerDay);
    if e >= 0 {
      assert q * NanosPerDay <= e <= MaxInt32 * NanosPerDay;
      assert q <= MaxInt32;
    } else {
      assert MinInt32 * NanosPerDay <= e <= q * NanosPerDay;
      assert MinInt32 <= q;
    }
  }

  /**
   * Days are complete 24-hour periods, not calendar-date changes: an upload at 23:59 evaluated two
   * minutes later, just after midnight, has 0 inactive days.
   */
  lemma JustAfterMidnightIsZeroDays()
    ensures var uploadLocal := 20_000 * SecondsPerDay - 60;  // 23:59 of the day before day 20000
            var clock := Clock((20_000 * SecondsPerDay + 60) * NanosPerSecond, 0);  // 00:01
            CalculateInactiveDays(uploadLocal, clock) == Some(0)
  {
  }
}
