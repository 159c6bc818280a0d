/**
 * `MainApp`: the part of the window that the cleaner's logic reads and writes — the full result
 * list, the rows of the result table, the count label and the threshold and batch-size fields —
 * and the handlers that act on it. Dialogs, buttons, fonts and the file choosers are not modelled:
 * a chooser's answer, a file's existence and the table's view-to-model row mapping are parameters.
 */
module Window {
  import opened Wrappers
  import opened JavaText
  import opened Users
  import opened Seqs
  import opened DataExport
  import opened Classification

  const DefaultInactiveDaysText: string := "365"
  const DefaultBatchSizeText: string := "2"
  /** The batch size used when the batch-size field does not hold an `int`. */
  const DefaultBatchSize: Int32 := 2
  const CountLabelSuffix: string := " 不活跃用户/全部"
  const InitialCountLabel: string := "0/0 不活跃用户/全部"

  // ---------------------------------------------------------------------------------------------
  // Reading the text fields

  /** The threshold the live filter uses: a trimmed decimal `int` that is not negative. */
  function FilterThreshold(text: string): (r: Option<nat>)
    ensures r.Some? ==> ParseDecimal(Trim(text)) == Some(r.value) && r.value <= MaxInt32
    ensures r.None? ==> ParseInt(Trim(text)).None? || ParseInt(Trim(text)).value < 0
  {
    match ParseInt(Trim(text))
    case Some(t) => if t >= 0 then Some(t as nat) else None
    case None => None
  }

  /**
   * The threshold check of the process and load handlers: a trimmed decimal `int` above 0. It
   * accepts exactly the positive thresholds that the live filter accepts.
   */
  function ValidThreshold(text: string): (r: Option<Int32>)
    ensures r.Some? <==> FilterThreshold(text).Some? && FilterThreshold(text).value > 0
    ensures r.Some? ==> r.value as int == FilterThreshold(text).value
  {
    match ParseInt(Trim(text))
    case Some(t) => if t > 0 then Some(t) else None
    case None => None
  }

  /**
   * The batch size the process handler passes on: the trimmed field when it is a decimal `int`,
   * else 2. The value is passed as typed; the task raises it to at least 1.
   */
  function BatchSizeSetting(text: string): (r: Int32)
    ensures ParseInt(Trim(text)).Some? ==> ParseDecimal(Trim(text)) == Some(r as int)
    ensures ParseInt(Trim(text)).None? ==> r == DefaultBatchSize
  {
    ParseInt(Trim(text)).GetOr(DefaultBatchSize)
  }

  /** A decimal numeral has nothing for `trim` to remove. */
  lemma DecimalStringIsTrimmed(n: int)
    ensures Trim(DecimalString(n)) == DecimalString(n)
  {
    var s := DecimalString(n);
    DecimalStringShape(n);
    forall k | 0 <= k < |s|
      ensures !IsTrimmed(s[k])
    {
      assert IsDigit(s[k]) || s[k] == '-';
    }
    TrimClean(s);
  }

  /** A number typed into a field as its decimal spelling is read as itself. */
  lemma TypedNumberParses(n: Int32)
    ensures ParseInt(Trim(DecimalString(n))) == Some(n)
  {
    DecimalStringIsTrimmed(n);
    ParseIntOfDecimalString(n);
  }

  /** A number typed as its decimal spelling reads back as itself in every field. */
  lemma TypedNumberReadsBack(n: Int32)
    ensures ValidThreshold(DecimalString(n)) == (if n > 0 then Some(n) else None)
    ensures FilterThreshold(DecimalString(n)) == (if n >= 0 then Some(n as nat) else None)
    ensures BatchSizeSetting(DecimalString(n)) == n
  {
    TypedNumberParses(n);
  }

  /** The threshold field's initial text is a valid threshold of 365 days. */
  lemma DefaultThresholdIsValid()
    ensures ValidThreshold(DefaultInactiveDaysText) == Some(365)
  {
    assert NatDigits(36) == "36";
    assert DecimalString(365) == DefaultInactiveDaysText;
    TypedNumberReadsBack(365);
  }

  /** The batch-size field's initial text is a batch size of 2. */
  lemma DefaultBatchSizeIsValid()
    ensures BatchSizeSetting(DefaultBatchSizeText) == 2
  {
    assert DecimalString(2) == DefaultBatchSizeText;
    TypedNumberReadsBack(2);
  }

  // ---------------------------------------------------------------------------------------------
  // The threshold filter

  /** The users the table shows for a threshold: everyone for 0, else those inactive that long. */
  function ThresholdView(users: seq<UserData>, thresholdDays: nat): (r: seq<UserData>)
    ensures |r| <= |users|
    ensures thresholdDays == 0 ==> r == users
    ensures thresholdDays > 0 ==> forall i :: 0 <= i < |r| ==> r[i].inactiveDays >= thresholdDays
  {
    if thresholdDays == 0 then users else Filter(users, u => IsInactive(u, thresholdDays))
  }

  /**
   * A user is shown exactly when it is in the list and, for a positive threshold, inactive for at
   * least that many days; threshold 0 also shows users whose count of days is negative.
   */
  lemma ThresholdViewMembers(users: seq<UserData>, thresholdDays: nat, u: UserData)
    ensures u in ThresholdView(users, thresholdDays) <==>
      u in users && (thresholdDays == 0 || u.inactiveDays >= thresholdDays)
  {
    if thresholdDays > 0 {
      FilterMembership(users, v => IsInactive(v, thresholdDays), u);
    }
  }

  /**
   * The shown users keep their order, and a larger threshold shows a sublist of what a smaller
   * one shows, so the shown count never exceeds the total.
   */
  lemma ThresholdViewNarrows(users: seq<UserData>, smaller: nat, larger: nat)
    requires smaller <= larger
    ensures IsSubsequence(ThresholdView(users, larger), ThresholdView(users, smaller))
    ensures |ThresholdView(users, larger)| <= |ThresholdView(users, smaller)| <= |users|
  {
    var strong := u => IsInactive(u, larger);
    if smaller == 0 && larger == 0 {
      SubsequenceReflexive(users);
    } else if smaller == 0 {
      FilterIsSubsequence(users, strong);
    } else {
      var weak := u => IsInactive(u, smaller);
      forall u | strong(u)
        ensures weak(u)
      {
        IsInactiveMonotone(u, smaller, larger);
      }
      FilterStrongerIsSubsequence(users, strong, weak);
    }
    SubsequenceLength(ThresholdView(users, larger), ThresholdView(users, smaller));
  }

  /** Filtering the shown users again with the same threshold changes nothing. */
  lemma ThresholdViewIdempotent(users: seq<UserData>, thresholdDays: nat)
    ensures ThresholdView(ThresholdView(users, thresholdDays), thresholdDays) == ThresholdView(users, thresholdDays)
  {
    if thresholdDays > 0 {
      FilterIdempotent(users, u => IsInactive(u, thresholdDays));
    }
  }

  // ---------------------------------------------------------------------------------------------
  // The count label

  /** The count label: shown users, a slash, all users, then the caption. */
  function CountLabel(shown: nat, total: nat): (r: string)
    ensures var s := DecimalString(shown);
      |r| > |s| && r[..|s|] == s && r[|s|] == '/'
  {
    DecimalString(shown) + "/" + DecimalString(total) + CountLabelSuffix
  }

  lemma DecimalStringAvoidsSlash(n: int)
    ensures '/' !in DecimalString(n)
  {
    var s := DecimalString(n);
    DecimalStringShape(n);
    forall i | 0 <= i < |s|
      ensures s[i] != '/'
    {
      assert IsDigit(s[i]) || s[i] == '-';
    }
  }

  /** The position of the first `c` in `s`. */
  function FirstIndexOf(s: string, c: char): nat
    requires c in s
  {
    if s[0] == c then 0 else 1 + FirstIndexOf(s[1..], c)
  }

  lemma {:induction false} FirstIndexAfter(x: string, c: char, rest: string)
    requires c !in x
    ensures c in x + [c] + rest && FirstIndexOf(x + [c] + rest, c) == |x|
  {
    var s := x + [c] + rest;
    assert s[|x|] == c;
    if x != [] {
      assert s[1..] == x[1..] + [c] + rest;
      FirstIndexAfter(x[1..], c, rest);
    }
  }

  /** Text up to the first `c` and the text after it determine each other's split. */
  lemma SplitAtFirst(x: string, y: string, z: string, w: string, c: char)
    requires x + [c] + y == z + [c] + w && c !in x && c !in z
    ensures x == z && y == w
  {
    var s := x + [c] + y;
    FirstIndexAfter(x, c, y);
    FirstIndexAfter(z, c, w);
    assert x == s[..|x|] && z == s[..|z|];
    assert y == s[|x| + 1..] && w == s[|z| + 1..];
  }

  /** The count label can be read back: different counts give different labels. */
  lemma CountLabelReadsBack(shown: nat, total: nat, shown': nat, total': nat)
    requires CountLabel(shown, total) == CountLabel(shown', total')
    ensures shown == shown' && total == total'
  {
    var a, b := DecimalString(shown), DecimalString(total);
    var a', b' := DecimalString(shown'), DecimalString(total');
    assert CountLabel(shown, total) == a + ['/'] + (b + CountLabelSuffix);
    assert CountLabel(shown', total') == a' + ['/'] + (b' + CountLabelSuffix);
    DecimalStringAvoidsSlash(shown);
    DecimalStringAvoidsSlash(shown');
    SplitAtFirst(a, b + CountLabelSuffix, a', b' + CountLabelSuffix, '/');
    assert b == (b + CountLabelSuffix)[..|b|] && b' == (b' + CountLabelSuffix)[..|b'|];
    DecimalStringInjective(shown, shown');
    DecimalStringInjective(total, total');
  }

  // ---------------------------------------------------------------------------------------------
  // From table rows back to users

  /** The first user with the given uid. */
  function FirstWithUid(users: seq<UserData>, uid: Int64): (r: Option<UserData>)
    ensures r.Some? ==> r.value in users && r.value.uid == uid
    ensures r.None? <==> forall i :: 0 <= i < |users| ==> users[i].uid != uid
  {
    if users == [] then None
    else if users[0].uid == uid then Some(users[0])
    else FirstWithUid(users[1..], uid)
  }

  /** A user with the uid and no earlier one is the one found. */
  lemma {:induction false} FirstWithUidAt(users: seq<UserData>, uid: Int64, k: nat)
    requires k < |users| && users[k].uid == uid
    requires forall j :: 0 <= j < k ==> users[j].uid != uid
    ensures FirstWithUid(users, uid) == Some(users[k])
  {
    if k > 0 {
      FirstWithUidAt(users[1..], uid, k - 1);
    }
  }

  /** No two users share a uid. */
  predicate UniqueUids(users: seq<UserData>) {
    forall i, j :: 0 <= i < j < |users| ==> users[i].uid != users[j].uid
  }

  /** With unique uids, looking up a user's uid finds that user. */
  lemma FirstWithUidOfMember(users: seq<UserData>, u: UserData)
    requires UniqueUids(users) && u in users
    ensures FirstWithUid(users, u.uid) == Some(u)
  {
    var k :| 0 <= k < |users| && users[k] == u;
    FirstWithUidAt(users, u.uid, k);
  }

  /** Every model row index is a row of the table. */
  predicate RowsIn(table: seq<UserData>, modelRows: seq<nat>) {
    forall i :: 0 <= i < |modelRows| ==> modelRows[i] < |table|
  }

  /** What one row adds to a lookup: the user found for its uid, if any. */
  function FoundFor(users: seq<UserData>, uid: Int64): seq<UserData> {
    match FirstWithUid(users, uid)
    case Some(u) => [u]
    case None => []
  }

  /** For each model row in turn, the first user with that row's uid; a row nobody has adds nothing. */
  function LookupRows(users: seq<UserData>, table: seq<UserData>, modelRows: seq<nat>): seq<UserData>
    requires RowsIn(table, modelRows)
  {
    if modelRows == [] then []
    else
      var n := |modelRows| - 1;
      LookupRows(users, table, modelRows[..n]) + FoundFor(users, table[modelRows[n]].uid)
  }

  lemma LookupRowsAppend(users: seq<UserData>, table: seq<UserData>, modelRows: seq<nat>, m: nat)
    requires RowsIn(table, modelRows) && m < |table|
    ensures RowsIn(table, modelRows + [m])
    ensures LookupRows(users, table, modelRows + [m]) ==
      LookupRows(users, table, modelRows) + FoundFor(users, table[m].uid)
  {
    assert (modelRows + [m])[..|modelRows|] == modelRows;
  }

  /** The users found are users of the list, at most one per row. */
  lemma {:induction false} LookupRowsBounded(users: seq<UserData>, table: seq<UserData>, modelRows: seq<nat>)
    requires RowsIn(table, modelRows)
    ensures var r := LookupRows(users, table, modelRows);
      |r| <= |modelRows| && forall i :: 0 <= i < |r| ==> r[i] in users
  {
    if modelRows != [] {
      LookupRowsBounded(users, table, modelRows[..|modelRows| - 1]);
    }
  }

  /** The users the given model rows show, in row order. */
  function RowsAt(table: seq<UserData>, modelRows: seq<nat>): seq<UserData>
    requires RowsIn(table, modelRows)
  {
    if modelRows == [] then []
    else
      var n := |modelRows| - 1;
      RowsAt(table, modelRows[..n]) + [table[modelRows[n]]]
  }

  predicate HasUserWithUid(users: seq<UserData>, uid: Int64) {
    exists j :: 0 <= j < |users| && users[j].uid == uid
  }

  /**
   * When every row's uid belongs to some user, each row finds a user with that row's uid: the
   * users found carry the rows' uids, in row order.
   */
  lemma {:induction false} LookupRowsFindsEveryRow(users: seq<UserData>, table: seq<UserData>, modelRows: seq<nat>)
    requires RowsIn(table, modelRows)
    requires forall i :: 0 <= i < |table| ==> HasUserWithUid(users, table[i].uid)
    ensures |LookupRows(users, table, modelRows)| == |modelRows|
    ensures Uids(LookupRows(users, table, modelRows)) == Uids(RowsAt(table, modelRows))
  {
    if modelRows != [] {
      var n := |modelRows| - 1;
      var init, row := modelRows[..n], table[modelRows[n]];
      LookupRowsFindsEveryRow(users, table, init);
      var found := FirstWithUid(users, row.uid);
      assert found.Some?;
      assert LookupRows(users, table, modelRows) == LookupRows(users, table, init) + [found.value];
      UidsAppend(LookupRows(users, table, init), found.value);
      UidsAppend(RowsAt(table, init), row);
    }
  }

  /**
   * When the table shows users of a list without repeated uids, each row finds exactly the user
   * it shows.
   */
  lemma {:induction false} LookupRowsOfShownUsers(users: seq<UserData>, table: seq<UserData>, modelRows: seq<nat>)
    requires RowsIn(table, modelRows) && UniqueUids(users)
    requires forall i :: 0 <= i < |table| ==> table[i] in users
    ensures LookupRows(users, table, modelRows) == RowsAt(table, modelRows)
  {
    if modelRows != [] {
      var n := |modelRows| - 1;
      LookupRowsOfShownUsers(users, table, modelRows[..n]);
      FirstWithUidOfMember(users, table[modelRows[n]]);
    }
  }

  /** The model rows of the selected view rows. */
  function SelectedModelRows(viewRows: seq<nat>, viewToModel: seq<nat>): (r: seq<nat>)
    requires forall i :: 0 <= i < |viewRows| ==> viewRows[i] < |viewToModel|
    ensures |r| == |viewRows| && forall i :: 0 <= i < |r| ==> r[i] == viewToModel[viewRows[i]]
  {
    if viewRows == [] then []
    else
      var n := |viewRows| - 1;
      SelectedModelRows(viewRows[..n], viewToModel) + [viewToModel[viewRows[n]]]
  }

  // ---------------------------------------------------------------------------------------------
  // The export button

  /** How a click on the export button ends. */
  datatype ExportOutcome =
    | NothingToExport      // no processed data, or an empty result list
    | NothingSelected      // "export selected" found no user for the selected rows
    | NothingShown         // another mode found no user for the rows on show
    | DirectoryNotChosen   // the directory chooser was cancelled
    | Exported(written: Export)
    | ExportFailed(error: ExportError)

  /** The users an export click hands to the exporter: the selected rows, or every row on show. */
  function RowsToExport(users: seq<UserData>, table: seq<UserData>, exportType: string,
                        selectedRows: seq<nat>, viewToModel: seq<nat>): seq<UserData>
    requires RowsIn(table, viewToModel)
    requires forall i :: 0 <= i < |selectedRows| ==> selectedRows[i] < |viewToModel|
  {
    if exportType == SelectedLabel then LookupRows(users, table, SelectedModelRows(selectedRows, viewToModel))
    else LookupRows(users, table, viewToModel)
  }

  /**
   * The export handler: the data checks, the users to export, the directory chooser (`None` when
   * cancelled, else whether the choice is a directory), and the compact export.
   */
  function ExportClick(dataProcessed: bool, inactiveUsers: Option<seq<UserData>>, table: seq<UserData>,
                       exportType: string, selectedRows: seq<nat>, viewToModel: seq<nat>,
                       directory: Option<bool>, timestamp: string): ExportOutcome
    requires RowsIn(table, viewToModel)
    requires forall i :: 0 <= i < |selectedRows| ==> selectedRows[i] < |viewToModel|
  {
    if !dataProcessed || inactiveUsers.None? || inactiveUsers.value == [] then NothingToExport
    else
      var usersToExport := RowsToExport(inactiveUsers.value, table, exportType, selectedRows, viewToModel);
      if usersToExport == [] then (if exportType == SelectedLabel then NothingSelected else NothingShown)
      else match directory
        case None => DirectoryNotChosen
        case Some(directoryOk) =>
          match CompactExport(Some(usersToExport), directoryOk, exportType, timestamp)
          case Success(written) => Exported(written)
          case Failure(e) => ExportFailed(e)
  }

  /**
   * The exporter never reports missing data when called from the window; in the "selected" and
   * "all" modes the only possible failure is a target that is not a directory; and a successful
   * export writes exactly the users found for the rows, read back from the file in order.
   */
  lemma ExportClickOutcomes(dataProcessed: bool, inactiveUsers: Option<seq<UserData>>, table: seq<UserData>,
                            exportType: string, selectedRows: seq<nat>, viewToModel: seq<nat>,
                            directory: Option<bool>, timestamp: string)
    requires RowsIn(table, viewToModel)
    requires forall i :: 0 <= i < |selectedRows| ==> selectedRows[i] < |viewToModel|
    ensures var o := ExportClick(dataProcessed, inactiveUsers, table, exportType, selectedRows, viewToModel, directory, timestamp);
      && (o.ExportFailed? ==> o.error != NoData)
      && (o.ExportFailed? && (exportType == SelectedLabel || exportType == AllLabel) ==> o.error == NotADirectory)
      && (o.Exported? ==>
            ReadUids(o.written.body) ==
              Some(UidValues(Selection(RowsToExport(inactiveUsers.value, table, exportType, selectedRows, viewToModel),
                                       ParseExportType(exportType).value))))
  {
    var o := ExportClick(dataProcessed, inactiveUsers, table, exportType, selectedRows, viewToModel, directory, timestamp);
    if o.ExportFailed? || o.Exported? {
      var chosen := RowsToExport(inactiveUsers.value, table, exportType, selectedRows, viewToModel);
      SelectedAndAllKeepEveryone(chosen);
      ParseLabel(Selected);
      ParseLabel(All);
      if o.Exported? {
        CompactExportContents(Some(chosen), directory.value, exportType, timestamp);
      }
    }
  }

  // ---------------------------------------------------------------------------------------------
  // The process and load buttons

  /** How a click on the process or load button ends before the background task takes over. */
  datatype StartOutcome =
    | NoFileSelected
    | ChooserCancelled
    | CacheFileMissing
    | InvalidThreshold
    | ProcessingStarted(inactiveDays: Int32, batchSize: Int32)
    | LoadingStarted(inactiveDays: Int32)

  /** The process handler's checks: a file must be chosen and the threshold must be positive. */
  function ProcessClick(fileSelected: bool, inactiveDaysText: string, batchSizeText: string): (r: StartOutcome)
    ensures r.ProcessingStarted? <==> fileSelected && ValidThreshold(inactiveDaysText).Some?
    ensures r.ProcessingStarted? ==> r.inactiveDays > 0 && r.inactiveDays as int == FilterThreshold(inactiveDaysText).value
    ensures r.ProcessingStarted? ==> r.batchSize == BatchSizeSetting(batchSizeText)
    ensures !fileSelected ==> r == NoFileSelected
    ensures fileSelected && ValidThreshold(inactiveDaysText).None? ==> r == InvalidThreshold
  {
    if !fileSelected then NoFileSelected
    else match ValidThreshold(inactiveDaysText)
      case None => InvalidThreshold
      case Some(t) => ProcessingStarted(t, BatchSizeSetting(batchSizeText))
  }

  /** The load handler's checks: a cache file must be picked and exist, and the threshold must be positive. */
  function LoadClick(picked: bool, cacheExists: bool, inactiveDaysText: string): (r: StartOutcome)
    ensures r.LoadingStarted? <==> picked && cacheExists && ValidThreshold(inactiveDaysText).Some?
    ensures r.LoadingStarted? ==> r.inactiveDays > 0 && r.inactiveDays as int == FilterThreshold(inactiveDaysText).value
    ensures !picked ==> r == ChooserCancelled
    ensures picked && !cacheExists ==> r == CacheFileMissing
    ensures picked && cacheExists && ValidThreshold(inactiveDaysText).None? ==> r == InvalidThreshold
  {
    if !picked then ChooserCancelled
    else if !cacheExists then CacheFileMissing
    else match ValidThreshold(inactiveDaysText)
      case None => InvalidThreshold
      case Some(t) => LoadingStarted(t)
  }

  // ---------------------------------------------------------------------------------------------
  // The window

  class MainApp {
    /** The full result list (`null` before any task has finished). */
    var inactiveUsers: Option<seq<UserData>>
    var dataProcessed: bool
    /** The rows of the table model, as the users they show, in model order. */
    var table: seq<UserData>
    var countLabel: string
    var inactiveDaysText: string
    var batchSizeText: string

    constructor ()
      ensures inactiveUsers == None && !dataProcessed && table == []
      ensures countLabel == InitialCountLabel && countLabel == CountLabel(0, 0)
      ensures inactiveDaysText == DefaultInactiveDaysText && batchSizeText == DefaultBatchSizeText
    {
      inactiveUsers := None;
      dataProcessed := false;
      table := [];
      countLabel := InitialCountLabel;
      inactiveDaysText := DefaultInactiveDaysText;
      batchSizeText := DefaultBatchSizeText;
      assert DecimalString(0) == "0";
    }

    /** `displayFilteredResults`: the table shows the given users and the label counts them. */
    method DisplayFilteredResults(users: seq<UserData>)
      requires inactiveUsers.Some?
      modifies this`table, this`countLabel
      ensures table == users && countLabel == CountLabel(|users|, |inactiveUsers.value|)
    {
      var rows := [];
      for i := 0 to |users|
        invariant rows == users[..i]
      {
        rows := rows + [users[i]];
      }
      assert users[..|users|] == users;
      table := rows;
      countLabel := CountLabel(|users|, |inactiveUsers.value|);
    }

    /**
     * `updateInactiveDaysFilter`: with processed data and a threshold that is an `int` of at least
     * 0, the table shows that threshold's view of all users and the label counts it; otherwise
     * nothing changes.
     */
    method UpdateInactiveDaysFilter()
      modifies this`table, this`countLabel
      ensures var t := FilterThreshold(inactiveDaysText);
        if dataProcessed && inactiveUsers.Some? && t.Some? then
          && table == ThresholdView(inactiveUsers.value, t.value)
          && countLabel == CountLabel(|table|, |inactiveUsers.value|)
          && |table| <= |inactiveUsers.value|
        else
          table == old(table) && countLabel == old(countLabel)
    {
      if !dataProcessed || inactiveUsers.None? {
        return;
      }
      var parsed := ParseInt(Trim(inactiveDaysText));
      if parsed.None? {
        return;  // the NumberFormatException is ignored
      }
      var t := parsed.value;
      if t < 0 {
        return;
      }
      var all := inactiveUsers.value;
      var filteredUsers := FilterUsers(all, t as nat);
      ThresholdViewNarrows(all, t as nat, t as nat);
      DisplayFilteredResults(filteredUsers);
    }

    /** The filtering part of `updateInactiveDaysFilter`: a copy for 0, else a loop keeping the inactive users. */
    static method FilterUsers(all: seq<UserData>, t: nat) returns (filteredUsers: seq<UserData>)
      ensures filteredUsers == ThresholdView(all, t)
    {
      if t == 0 {
        filteredUsers := all;
      } else {
        filteredUsers := [];
        for i := 0 to |all|
          invariant filteredUsers == Filter(all[..i], u => IsInactive(u, t))
        {
          var user := all[i];
          assert all[..i + 1] == all[..i] + [user];
          FilterAppend(all[..i], user, u => IsInactive(u, t));
          if IsInactive(user, t) {
            filteredUsers := filteredUsers + [user];
          }
        }
        assert all[..|all|] == all;
      }
    }

    /** An edit of the threshold field: the document listener re-runs the filter. */
    method SetInactiveDaysText(text: string)
      modifies this`inactiveDaysText, this`table, this`countLabel
      ensures inactiveDaysText == text
      ensures var t := FilterThreshold(text);
        if dataProcessed && inactiveUsers.Some? && t.Some? then
          table == ThresholdView(inactiveUsers.value, t.value) && countLabel == CountLabel(|table|, |inactiveUsers.value|)
        else
          table == old(table) && countLabel == old(countLabel)
    {
      inactiveDaysText := text;
      UpdateInactiveDaysFilter();
    }

    /**
     * `displayResults`: an empty or missing list only brings up a message; otherwise the list
     * becomes the full result list and the table shows all of it.
     */
    method DisplayResults(users: Option<seq<UserData>>)
      modifies this`inactiveUsers, this`table, this`countLabel
      ensures users.None? || users.value == [] ==>
        inactiveUsers == old(inactiveUsers) && table == old(table) && countLabel == old(countLabel)
      ensures users.Some? && users.value != [] ==>
        inactiveUsers == users && table == users.value && countLabel == CountLabel(|users.value|, |users.value|)
    {
      if users.None? || users.value == [] {
        return;
      }
      inactiveUsers := Some(users.value);
      var rows := [];
      for i := 0 to |users.value|
        invariant rows == users.value[..i]
      {
        rows := rows + [users.value[i]];
      }
      assert users.value[..|users.value|] == users.value;
      table := rows;
      countLabel := CountLabel(|users.value|, |users.value|);
    }

    /**
     * The `done` callback of either background task: `None` stands for the exception `get()`
     * throws, after which only the buttons change. A result becomes the full list, is shown, and
     * the threshold filter is applied to it.
     */
    method TaskDone(result: Option<seq<UserData>>)
      modifies this`inactiveUsers, this`dataProcessed, this`table, this`countLabel
      ensures result.None? ==>
        inactiveUsers == old(inactiveUsers) && dataProcessed == old(dataProcessed) &&
        table == old(table) && countLabel == old(countLabel)
      ensures result.Some? ==> inactiveUsers == result && dataProcessed
      ensures result.Some? && FilterThreshold(inactiveDaysText).Some? ==>
        table == ThresholdView(result.value, FilterThreshold(inactiveDaysText).value) &&
        countLabel == CountLabel(|table|, |result.value|)
      ensures result.Some? && FilterThreshold(inactiveDaysText).None? && result.value != [] ==>
        table == result.value && countLabel == CountLabel(|result.value|, |result.value|)
    {
      if result.None? {
        return;
      }
      inactiveUsers := result;
      DisplayResults(result);
      dataProcessed := true;
      UpdateInactiveDaysFilter();
    }

    /**
     * The process button: with a chosen file and a positive threshold the table is cleared and
     * the processing task starts with the batch size from its field; otherwise nothing changes.
     */
    method ProcessClicked(fileSelected: bool) returns (outcome: StartOutcome)
      modifies this`table
      ensures outcome == ProcessClick(fileSelected, inactiveDaysText, batchSizeText)
      ensures table == (if outcome.ProcessingStarted? then [] else old(table))
    {
      if !fileSelected {
        return NoFileSelected;
      }
      var inactiveDays := ValidThreshold(inactiveDaysText);
      if inactiveDays.None? {
        return InvalidThreshold;
      }
      table := [];
      var batchSize := BatchSizeSetting(batchSizeText);
      outcome := ProcessingStarted(inactiveDays.value, batchSize);
    }

    /**
     * The load button: with a picked, existing cache file and a positive threshold the table is
     * cleared and the loading task starts; otherwise nothing changes.
     */
    method LoadClicked(picked: bool, cacheExists: bool) returns (outcome: StartOutcome)
      modifies this`table
      ensures outcome == LoadClick(picked, cacheExists, inactiveDaysText)
      ensures table == (if outcome.LoadingStarted? then [] else old(table))
    {
      if !picked {
        return ChooserCancelled;
      }
      if !cacheExists {
        return CacheFileMissing;
      }
      var inactiveDays := ValidThreshold(inactiveDaysText);
      if inactiveDays.None? {
        return InvalidThreshold;
      }
      table := [];
      outcome := LoadingStarted(inactiveDays.value);
    }

    /** The inner loop of both lookups: the first user with the uid, stopping at it. */
    method FindUser(uid: Int64) returns (found: Option<UserData>)
      requires inactiveUsers.Some?
      ensures found == FirstWithUid(inactiveUsers.value, uid)
    {
      var all := inactiveUsers.value;
      found := None;
      for j := 0 to |all|
        invariant found.None?
        invariant forall k :: 0 <= k < j ==> all[k].uid != uid
      {
        if all[j].uid == uid {
          FirstWithUidAt(all, uid, j);
          found := Some(all[j]);
          break;
        }
      }
    }

    /** `getCurrentTableUsers`: every row of the table, in view order, mapped back to a user. */
    method GetCurrentTableUsers(viewToModel: seq<nat>) returns (currentUsers: seq<UserData>)
      requires inactiveUsers.Some?
      requires |viewToModel| == |table| && RowsIn(table, viewToModel)
      ensures currentUsers == LookupRows(inactiveUsers.value, table, viewToModel)
    {
      currentUsers := [];
      for i := 0 to |table|
        invariant currentUsers == LookupRows(inactiveUsers.value, table, viewToModel[..i])
      {
        var modelRow := viewToModel[i];
        var uid := table[modelRow].uid;
        var user := FindUser(uid);
        assert viewToModel[..i + 1] == viewToModel[..i] + [modelRow];
        LookupRowsAppend(inactiveUsers.value, table, viewToModel[..i], modelRow);
        if user.Some? {
          currentUsers := currentUsers + [user.value];
        }
      }
      assert viewToModel[..|table|] == viewToModel;
    }

    /** `getSelectedTableUsers`: the selected rows, in selection order, mapped back to users. */
    method GetSelectedTableUsers(selectedRows: seq<nat>, viewToModel: seq<nat>) returns (selectedUsers: seq<UserData>)
      requires inactiveUsers.Some?
      requires |viewToModel| == |table| && RowsIn(table, viewToModel)
      requires forall i :: 0 <= i < |selectedRows| ==> selectedRows[i] < |viewToModel|
      ensures selectedUsers == LookupRows(inactiveUsers.value, table, SelectedModelRows(selectedRows, viewToModel))
    {
      selectedUsers := [];
      if selectedRows == [] {
        return;
      }
      for k := 0 to |selectedRows|
        invariant selectedUsers == LookupRows(inactiveUsers.value, table, SelectedModelRows(selectedRows[..k], viewToModel))
      {
        var viewRow := selectedRows[k];
        var modelRow := viewToModel[viewRow];
        var uid := table[modelRow].uid;
        var user := FindUser(uid);
        assert selectedRows[..k + 1][..k] == selectedRows[..k];
        LookupRowsAppend(inactiveUsers.value, table, SelectedModelRows(selectedRows[..k], viewToModel), modelRow);
        if user.Some? {
          selectedUsers := selectedUsers + [user.value];
        }
      }
      assert selectedRows[..|selectedRows|] == selectedRows;
    }

    /** The export button, with the exporter's file writing left to the caller. */
    method ExportClicked(exportType: string, selectedRows: seq<nat>, viewToModel: seq<nat>,
                         directory: Option<bool>, timestamp: string) returns (outcome: ExportOutcome)
      requires |viewToModel| == |table| && RowsIn(table, viewToModel)
      requires forall i :: 0 <= i < |selectedRows| ==> selectedRows[i] < |viewToModel|
      ensures outcome == ExportClick(dataProcessed, inactiveUsers, table, exportType, selectedRows, viewToModel,
                                     directory, timestamp)
    {
      if !dataProcessed || inactiveUsers.None? || inactiveUsers.value == [] {
        return NothingToExport;
      }
      var usersToExport;
      if exportType == SelectedLabel {
        usersToExport := GetSelectedTableUsers(selectedRows, viewToModel);
        if usersToExport == [] {
          return NothingSelected;
        }
      } else {
        usersToExport := GetCurrentTableUsers(viewToModel);
        if usersToExport == [] {
          return NothingShown;
        }
      }
      if directory.None? {
        return DirectoryNotChosen;
      }
      var r := ExportInactiveUsers(Some(usersToExport), directory.value, exportType, timestamp);
      match r
      case Success(written) => outcome := Exported(written);
      case Failure(e) => outcome := ExportFailed(e);
    }
  }
}
