/**
 * `DataExporter`: write the users on display to a text file, either as a comma-separated list of
 * uids or as a header line followed by one quoted row per user. The directory check and the file
 * writing are left to the caller; the model produces the file name and the file's contents.
 */
module DataExport {
  import opened Wrappers
  import opened JavaText
  import opened Users
  import opened Seqs

  const SelectedLabel: string := "导出已选择"
  const AllLabel: string := "导出全部"
  const UntaggedLabel: string := "导出无分组"
  const TaggedLabel: string := "导出有分组"

  const CompactPrefix: string := "inactive_users_"
  const DetailedPrefix: string := "inactive_users_detailed_"
  const FileSuffix: string := ".txt"
  const DetailedHeader: string := "UID,用户名,分组,不活跃天数,最后更新视频\n"

  /** The four entries of the export combo box. */
  datatype ExportType = Selected | All | Untagged | Tagged

  datatype ExportError =
    | NoData                          // the list is null or empty
    | NotADirectory                   // the target directory is missing or a plain file
    | UnsupportedType(exportType: string)
    | NoMatchingUsers                 // the mode kept nobody
    | NullUsername(uid: Int64)        // the detailed row of a user without a name throws

  /** What a successful export writes: the file name and the file's contents. */
  datatype Export = Export(fileName: string, body: string)

  function Label(t: ExportType): string {
    match t
    case Selected => SelectedLabel
    case All => AllLabel
    case Untagged => UntaggedLabel
    case Tagged => TaggedLabel
  }

  /** The `switch` on the export type string; `None` is the `default` branch. */
  function ParseExportType(s: string): (r: Option<ExportType>)
    ensures r.Some? ==> Label(r.value) == s
    ensures r.None? <==> forall t: ExportType :: Label(t) != s
  {
    if s == SelectedLabel then Some(Selected)
    else if s == AllLabel then Some(All)
    else if s == UntaggedLabel then Some(Untagged)
    else if s == TaggedLabel then Some(Tagged)
    else None
  }

  /** Each combo entry selects its own mode. */
  lemma ParseLabel(t: ExportType)
    ensures ParseExportType(Label(t)) == Some(t)
  {
  }

  // ---------------------------------------------------------------------------------------------
  // Choosing the users

  /** Whether a mode keeps a user: the first two keep everyone, the others split on `hasTags`. */
  predicate Keeps(t: ExportType, u: UserData) {
    match t
    case Selected => true
    case All => true
    case Untagged => !HasTags(u)
    case Tagged => HasTags(u)
  }

  /** `usersToExport`. */
  function Selection(users: seq<UserData>, t: ExportType): seq<UserData> {
    Filter(users, u => Keeps(t, u))
  }

  /** "Selected" and "all" export the list as given, in order. */
  lemma SelectedAndAllKeepEveryone(users: seq<UserData>)
    ensures Selection(users, Selected) == users
    ensures Selection(users, All) == users
  {
    FilterKeepsAll(users, u => Keeps(Selected, u));
    FilterKeepsAll(users, u => Keeps(All, u));
  }

  /**
   * "Untagged" keeps exactly the users without tags and "tagged" exactly the others, each in the
   * original order; together they account for every user once.
   */
  lemma TaggedAndUntaggedPartition(users: seq<UserData>)
    ensures forall u :: u in Selection(users, Untagged) ==> !HasTags(u)
    ensures forall u :: u in Selection(users, Tagged) ==> HasTags(u)
    ensures IsSubsequence(Selection(users, Untagged), users) && IsSubsequence(Selection(users, Tagged), users)
    ensures |Selection(users, Untagged)| + |Selection(users, Tagged)| == |users|
    ensures multiset(Selection(users, Untagged)) + multiset(Selection(users, Tagged)) == multiset(users)
  {
    var untagged, tagged := u => Keeps(Untagged, u), u => Keeps(Tagged, u);
    FilterPartition(users, untagged, tagged);
    FilterIsSubsequence(users, untagged);
    FilterIsSubsequence(users, tagged);
  }

  /** Looking at one more user appends it to the selection exactly when the mode keeps it. */
  lemma SelectionStep(users: seq<UserData>, i: nat, t: ExportType)
    requires i < |users|
    ensures Selection(users[..i + 1], t) == Selection(users[..i], t) + (if Keeps(t, users[i]) then [users[i]] else [])
  {
    assert users[..i + 1] == users[..i] + [users[i]];
    FilterAppend(users[..i], users[i], u => Keeps(t, u));
  }

  /** The `switch`: `addAll` for the first two modes, a filtering loop for the other two. */
  method SelectUsers(users: seq<UserData>, exportType: ExportType) returns (usersToExport: seq<UserData>)
    ensures usersToExport == Selection(users, exportType)
  {
    usersToExport := [];
    match exportType {
      case Selected =>
        usersToExport := usersToExport + users;
        SelectedAndAllKeepEveryone(users);
      case All =>
        usersToExport := usersToExport + users;
        SelectedAndAllKeepEveryone(users);
      case Untagged =>
        for i := 0 to |users|
          invariant usersToExport == Selection(users[..i], Untagged)
        {
          var user := users[i];
          SelectionStep(users, i, Untagged);
          if !HasTags(user) {
            usersToExport := usersToExport + [user];
          }
        }
        assert users[..|users|] == users;
      case Tagged =>
        for i := 0 to |users|
          invariant usersToExport == Selection(users[..i], Tagged)
        {
          var user := users[i];
          SelectionStep(users, i, Tagged);
          if HasTags(user) {
            usersToExport := usersToExport + [user];
          }
        }
        assert users[..|users|] == users;
    }
  }

  /** The checks both exports make, in their order, and the users they go on to write. */
  function Validate(users: Option<seq<UserData>>, directoryOk: bool, exportType: string)
    : (r: Result<seq<UserData>, ExportError>)
    ensures r == Failure(NoData) <==> users.None? || users.value == []
    ensures r == Failure(NotADirectory) <==> users.Some? && users.value != [] && !directoryOk
    ensures r == Failure(UnsupportedType(exportType)) <==>
      users.Some? && users.value != [] && directoryOk && ParseExportType(exportType).None?
    ensures r == Failure(NoMatchingUsers) <==>
      users.Some? && users.value != [] && directoryOk && ParseExportType(exportType).Some? &&
      Selection(users.value, ParseExportType(exportType).value) == []
    ensures r.Success? ==>
      users.Some? && directoryOk && ParseExportType(exportType).Some? &&
      r.value == Selection(users.value, ParseExportType(exportType).value) && r.value != []
  {
    if users.None? || users.value == [] then Failure(NoData)
    else if !directoryOk then Failure(NotADirectory)
    else match ParseExportType(exportType)
      case None => Failure(UnsupportedType(exportType))
      case Some(t) =>
        var usersToExport := Selection(users.value, t);
        if usersToExport == [] then Failure(NoMatchingUsers) else Success(usersToExport)
  }

  // ---------------------------------------------------------------------------------------------
  // The compact file: uids separated by commas

  /** `String.valueOf(user.getUid())` for each user, in order. */
  function UidStrings(users: seq<UserData>): seq<string> {
    if users == [] then [] else UidStrings(users[..|users| - 1]) + [DecimalString(users[|users| - 1].uid)]
  }

  lemma {:induction false} UidStringsShape(users: seq<UserData>)
    ensures |UidStrings(users)| == |users|
    ensures forall i :: 0 <= i < |users| ==> UidStrings(users)[i] == DecimalString(users[i].uid)
  {
    if users != [] {
      UidStringsShape(users[..|users| - 1]);
    }
  }

  function CompactBody(users: seq<UserData>): string {
    Join(",", UidStrings(users))
  }

  /** The write loop: each uid, then a comma unless it is the last one. */
  method WriteCompact(usersToExport: seq<UserData>) returns (body: string)
    ensures body == CompactBody(usersToExport)
  {
    body := "";
    var n := |usersToExport|;
    for i := 0 to n
      invariant body == Join(",", UidStrings(usersToExport[..i])) + (if 0 < i < n then "," else "")
    {
      var user := usersToExport[i];
      assert usersToExport[..i + 1][..i] == usersToExport[..i];
      JoinSnoc(",", UidStrings(usersToExport[..i]), DecimalString(user.uid));
      body := body + DecimalString(user.uid);
      if i < n - 1 {
        body := body + ",";
      }
    }
    assert usersToExport[..n] == usersToExport;
  }

  /** The pieces of `s` between occurrences of `c`, as `String.split` with a limit of -1 gives them. */
  function SplitOn(s: string, c: char): (parts: seq<string>)
    ensures |parts| >= 1
  {
    if s == [] then [""]
    else
      var rest := SplitOn(s[1..], c);
      if s[0] == c then [""] + rest else [[s[0]] + rest[0]] + rest[1..]
  }

  function CountChar(s: string, c: char): nat {
    if s == [] then 0 else (if s[0] == c then 1 else 0) + CountChar(s[1..], c)
  }

  /** There is one more piece than there are separators. */
  lemma {:induction false} SplitOnCount(s: string, c: char)
    ensures |SplitOn(s, c)| == CountChar(s, c) + 1
  {
    if s != [] {
      SplitOnCount(s[1..], c);
    }
  }

  /** A string without `c`, followed by `c` and more, splits off as its own first piece. */
  lemma {:induction false} SplitOnPiece(a: string, b: string, c: char)
    requires c !in a
    ensures SplitOn(a + [c] + b, c) == [a] + SplitOn(b, c)
  {
    if a != [] {
      SplitOnPiece(a[1..], b, c);
      var rest := SplitOn(a[1..] + [c] + b, c);
      assert (a + [c] + b)[1..] == a[1..] + [c] + b;
      assert rest[0] == a[1..] && rest[1..] == SplitOn(b, c);
      assert [a[0]] + a[1..] == a;
    } else {
      assert (a + [c] + b)[1..] == b;
    }
  }

  /** A string without `c` is a single piece. */
  lemma {:induction false} SplitOnWhole(a: string, c: char)
    requires c !in a
    ensures SplitOn(a, c) == [a]
  {
    if a != [] {
      SplitOnWhole(a[1..], c);
      assert [a[0]] + a[1..] == a;
    }
  }

  /** Splitting undoes joining when no part contains the separator. */
  lemma {:induction false} SplitJoin(parts: seq<string>, c: char)
    requires |parts| >= 1 && forall i :: 0 <= i < |parts| ==> c !in parts[i]
    ensures SplitOn(Join([c], parts), c) == parts
  {
    if |parts| == 1 {
      SplitOnWhole(parts[0], c);
    } else {
      SplitJoin(parts[1..], c);
      SplitOnPiece(parts[0], Join([c], parts[1..]), c);
      assert parts == [parts[0]] + parts[1..];
    }
  }

  /** Reading each piece back as a decimal number. */
  function ParseAll(pieces: seq<string>): Option<seq<int>> {
    if pieces == [] then Some([])
    else match (ParseDecimal(pieces[0]), ParseAll(pieces[1..]))
      case (Some(v), Some(vs)) => Some([v] + vs)
      case _ => None
  }

  /** Reading a compact file back into uids. */
  function ReadUids(body: string): Option<seq<int>> {
    ParseAll(SplitOn(body, ','))
  }

  /** The uids as numbers, in list order. */
  function UidValues(users: seq<UserData>): (vs: seq<int>)
    ensures |vs| == |users| && forall i :: 0 <= i < |users| ==> vs[i] == users[i].uid
  {
    if users == [] then [] else [users[0].uid as int] + UidValues(users[1..])
  }

  lemma {:induction false} ParseAllUidStrings(users: seq<UserData>)
    ensures ParseAll(UidStrings(users)) == Some(UidValues(users))
  {
    if users != [] {
      var pieces := UidStrings(users);
      ParseAllUidStrings(users[1..]);
      ParseDecimalOfDecimalString(users[0].uid);
      UidStringsShape(users);
      UidStringsShape(users[1..]);
      assert pieces[1..] == UidStrings(users[1..]);
    }
  }

  /** A decimal numeral holds no comma, no quote and no line break. */
  lemma DecimalStringAvoids(n: int)
    ensures ',' !in DecimalString(n) && '"' !in DecimalString(n) && '\n' !in DecimalString(n)
  {
    var s := DecimalString(n);
    DecimalStringShape(n);
    forall i | 0 <= i < |s|
      ensures s[i] != ',' && s[i] != '"' && s[i] != '\n'
    {
      assert IsDigit(s[i]) || s[i] == '-';
    }
  }

  /**
   * The compact file of a non-empty list reads back as exactly its uids, in order; it holds one
   * comma fewer than there are users.
   */
  lemma CompactRoundTrip(users: seq<UserData>)
    requires users != []
    ensures ReadUids(CompactBody(users)) == Some(UidValues(users))
    ensures CountChar(CompactBody(users), ',') == |users| - 1
  {
    var parts := UidStrings(users);
    UidStringsShape(users);
    forall i | 0 <= i < |parts|
      ensures ',' !in parts[i]
    {
      DecimalStringAvoids(users[i].uid);
    }
    SplitJoin(parts, ',');
    ParseAllUidStrings(users);
    SplitOnCount(CompactBody(users), ',');
  }

  // ---------------------------------------------------------------------------------------------
  // The detailed file: a header, then one quoted row per user

  /** `replace("\"", "\\\"")`: every double quote gets a backslash in front of it. */
  function Escape(s: string): (r: string)
    ensures |r| == |s| + CountChar(s, '"')
  {
    if s == [] then [] else (if s[0] == '"' then ['\\', '"'] else [s[0]]) + Escape(s[1..])
  }

  /** Reading an escaped field back: a backslash followed by a quote stands for the quote. */
  function Unescape(s: string): string {
    if s == [] then []
    else if |s| >= 2 && s[0] == '\\' && s[1] == '"' then ['"'] + Unescape(s[2..])
    else [s[0]] + Unescape(s[1..])
  }

  /** A string without quotes is written as it is. */
  lemma {:induction false} EscapeQuoteFree(s: string)
    requires '"' !in s
    ensures Escape(s) == s
  {
    if s != [] {
      EscapeQuoteFree(s[1..]);
      assert [s[0]] + s[1..] == s;
    }
  }

  /** An escaped string never starts with a bare quote. */
  lemma EscapeStart(s: string)
    requires s != []
    ensures Escape(s)[0] != '"'
  {
  }

  /** Every quote in `r` has a backslash right before it. */
  predicate QuotesArePreceded(r: string) {
    forall i :: 0 <= i < |r| && r[i] == '"' ==> 0 < i && r[i - 1] == '\\'
  }

  /** In an escaped string every quote has a backslash right before it. */
  lemma {:induction false} EscapedQuotesArePreceded(s: string)
    ensures QuotesArePreceded(Escape(s))
  {
    if s != [] {
      EscapedQuotesArePreceded(s[1..]);
      var head := if s[0] == '"' then ['\\', '"'] else [s[0]];
      var r, tail := Escape(s), Escape(s[1..]);
      assert r == head + tail;
      forall i | 0 <= i < |r| && r[i] == '"'
        ensures 0 < i && r[i - 1] == '\\'
      {
        if i < |head| {
          assert r[i] == head[i];
          assert i == 1 && r[0] == head[0];
        } else if i > |head| {
          var j := i - |head|;
          assert 0 < j < |tail| && r[i] == tail[j];
          assert r[i - 1] == tail[j - 1];
        }
      }
    }
  }

  /** Escaping loses nothing: the field reads back as it was. */
  lemma {:induction false} UnescapeEscape(s: string)
    ensures Unescape(Escape(s)) == s
  {
    if s != [] {
      var tail := Escape(s[1..]);
      UnescapeEscape(s[1..]);
      if s[0] == '"' {
        assert Escape(s) == ['\\', '"'] + tail;
        assert Escape(s)[2..] == tail;
      } else {
        assert Escape(s) == [s[0]] + tail;
        assert Escape(s)[1..] == tail;
        if s[0] == '\\' && tail != [] {
          EscapeStart(s[1..]);
        }
      }
      assert [s[0]] + s[1..] == s;
    }
  }

  /**
   * Reading one quoted field back, after its opening quote, with the same convention: a backslash
   * followed by a quote stands for the quote and a bare quote closes the field. The result is the
   * field and what follows its closing quote.
   */
  function QuotedField(s: string): (string, string)
  {
    if s == [] then ([], [])
    else if |s| >= 2 && s[0] == '\\' && s[1] == '"' then
      var (field, rest) := QuotedField(s[2..]);
      (['"'] + field, rest)
    else if s[0] == '"' then ([], s[1..])
    else
      var (field, rest) := QuotedField(s[1..]);
      ([s[0]] + field, rest)
  }

  predicate EndsInBackslash(s: string) {
    s != [] && s[|s| - 1] == '\\'
  }

  /** A backslash-quote reads as a quote, and the reading goes on after it. */
  lemma QuotedFieldEscapedQuote(x: string)
    ensures QuotedField(['\\', '"'] + x) == (['"'] + QuotedField(x).0, QuotedField(x).1)
  {
    assert (['\\', '"'] + x)[2..] == x;
  }

  /** Any other character but a bare quote is kept, and the reading goes on after it. */
  lemma QuotedFieldPlain(c: char, x: string)
    requires c != '"' && !(c == '\\' && x != [] && x[0] == '"')
    ensures QuotedField([c] + x) == ([c] + QuotedField(x).0, QuotedField(x).1)
  {
    assert ([c] + x)[1..] == x;
  }

  /** The step of `QuotedFieldOfEscape` for a field that starts with a quote. */
  lemma QuotedFieldOfEscapeQuote(s: string, rest: string)
    requires s != [] && s[0] == '"'
    requires QuotedField(Escape(s[1..]) + ['"'] + rest) == (s[1..], rest)
    ensures QuotedField(Escape(s) + ['"'] + rest) == (s, rest)
  {
    var w' := Escape(s[1..]) + ['"'] + rest;
    assert Escape(s) + ['"'] + rest == ['\\', '"'] + w';
    QuotedFieldEscapedQuote(w');
    assert s == [s[0]] + s[1..];
  }

  /** The step of `QuotedFieldOfEscape` for a field that starts with another character. */
  lemma QuotedFieldOfEscapePlain(s: string, rest: string)
    requires s != [] && s[0] != '"' && !EndsInBackslash(s)
    requires QuotedField(Escape(s[1..]) + ['"'] + rest) == (s[1..], rest)
    ensures QuotedField(Escape(s) + ['"'] + rest) == (s, rest)
  {
    var tail := Escape(s[1..]);
    var w' := tail + ['"'] + rest;
    assert Escape(s) + ['"'] + rest == [s[0]] + w';
    if s[0] == '\\' {
      EscapeStart(s[1..]);
      assert w'[0] == tail[0];
    }
    QuotedFieldPlain(s[0], w');
    assert s == [s[0]] + s[1..];
  }

  /**
   * An escaped field followed by its closing quote reads back as the field, and the reading stops
   * right after that quote, unless the field ends in a backslash.
   */
  lemma {:induction false} QuotedFieldOfEscape(s: string, rest: string)
    requires !EndsInBackslash(s)
    ensures QuotedField(Escape(s) + ['"'] + rest) == (s, rest)
  {
    if s == [] {
      assert Escape(s) + ['"'] + rest == ['"'] + rest;
    } else {
      assert !EndsInBackslash(s[1..]) by {
        if s[1..] != [] {
          assert s[1..][|s[1..]| - 1] == s[|s| - 1];
        }
      }
      QuotedFieldOfEscape(s[1..], rest);
      if s[0] == '"' {
        QuotedFieldOfEscapeQuote(s, rest);
      } else {
        QuotedFieldOfEscapePlain(s, rest);
      }
    }
  }

  /** In a row the escaped name follows the uid and the opening quote, and its closing quote follows it. */
  lemma RowNameField(u: UserData)
    requires u.username.Some?
    ensures var start := |DecimalString(u.uid)| + 2;
      var pieces := RowPieces(u.uid, u.username.value, u.tags, u.inactiveDays, u.lastVideoTitle);
      && start <= |Row(u)|
      && Row(u)[start..] == Escape(u.username.value) + ['"'] + (",\"" + Concat(pieces[4..]))
  {
    var pieces := RowPieces(u.uid, u.username.value, u.tags, u.inactiveDays, u.lastVideoTitle);
    var after := Concat(pieces[4..]);
    assert Concat(pieces[3..]) == pieces[3] + after by { assert pieces[3..][1..] == pieces[4..]; }
    assert Concat(pieces[2..]) == pieces[2] + Concat(pieces[3..]) by { assert pieces[2..][1..] == pieces[3..]; }
    assert Concat(pieces[1..]) == pieces[1] + Concat(pieces[2..]) by { assert pieces[1..][1..] == pieces[2..]; }
    assert Row(u) == DecimalString(u.uid) + ",\"" + (Escape(u.username.value) + ['"'] + (",\"" + after));
  }

  /** A name that does not end in a backslash reads back from its row as it was. */
  lemma RowNameReadsBack(u: UserData)
    requires u.username.Some? && !EndsInBackslash(u.username.value)
    ensures var start := |DecimalString(u.uid)| + 2;
      start <= |Row(u)| && QuotedField(Row(u)[start..]).0 == u.username.value
  {
    RowNameField(u);
    var pieces := RowPieces(u.uid, u.username.value, u.tags, u.inactiveDays, u.lastVideoTitle);
    QuotedFieldOfEscape(u.username.value, ",\"" + Concat(pieces[4..]));
  }

  /** The field `a\\` followed by its closing quote and a comma-quote reads back as `a",`. */
  lemma TrailingBackslashField(more: string)
    ensures QuotedField(Escape("a\\") + ['"'] + (",\"" + more)) == ("a\",", more)
  {
    assert Escape("a\\") == "a\\" by { EscapeQuoteFree("a\\"); }
    var w := "a\\\",\"" + more;
    assert Escape("a\\") + ['"'] + (",\"" + more) == w;
    var field := w[1..][2..];
    assert field == ",\"" + more && field[1..] == ['"'] + more;
    assert QuotedField(field[1..]) == ([], more);
    assert field[0] == ',' && [','] + [] == ",";
    assert QuotedField(field) == (",", more);
    assert w[1..][0] == '\\' && w[1..][1] == '"' && ['"'] + "," == "\",";
    assert QuotedField(w[1..]) == ("\",", more);
    assert w[0] == 'a' && ['a'] + "\"," == "a\",";
  }

  /**
   * A name ending in a backslash does not read back: the escape leaves the backslash alone, so the
   * name's closing quote reads as an escaped quote and the name runs on into the next field. The
   * name `a\` reads back as `a",`.
   */
  lemma TrailingBackslashRunsOn(u: UserData)
    requires u.username == Some("a\\")
    ensures var start := |DecimalString(u.uid)| + 2;
      start <= |Row(u)| && QuotedField(Row(u)[start..]).0 == "a\","
  {
    RowNameField(u);
    var pieces := RowPieces(u.uid, u.username.value, u.tags, u.inactiveDays, u.lastVideoTitle);
    TrailingBackslashField(Concat(pieces[4..]));
  }

  /** Escaping introduces no line break. */
  lemma {:induction false} EscapeAvoidsNewline(s: string)
    requires '\n' !in s
    ensures '\n' !in Escape(s)
  {
    if s != [] {
      EscapeAvoidsNewline(s[1..]);
    }
  }

  /** The pieces of a row: the `String.format` pattern `%d,"%s","%s",%d,"%s"` and a line break. */
  function RowPieces(uid: Int64, name: string, tags: seq<string>, inactiveDays: Int32, title: string): seq<string> {
    [DecimalString(uid), ",\"", Escape(name), "\",\"", Escape(Join(", ", tags)), "\",",
     DecimalString(inactiveDays), ",\"", Escape(title), "\"\n"]
  }

  /** The row of a named user. */
  function Row(u: UserData): (r: string)
    requires u.username.Some?
    ensures var id := DecimalString(u.uid);
      |r| > |id| + 1 && r[..|id|] == id && r[|id|..|id| + 2] == ",\""
  {
    var pieces := RowPieces(u.uid, u.username.value, u.tags, u.inactiveDays, u.lastVideoTitle);
    assert Concat(pieces[1..]) == pieces[1] + Concat(pieces[2..]) by { assert pieces[1..][1..] == pieces[2..]; }
    Concat(pieces)
  }

  /** Every user has a name. */
  predicate AllNamed(users: seq<UserData>) {
    forall i :: 0 <= i < |users| ==> users[i].username.Some?
  }

  /** The position of the first user without a name. */
  function FirstNameless(users: seq<UserData>): (r: Option<nat>)
    ensures r.Some? ==> r.value < |users| && users[r.value].username.None?
    ensures r.None? ==> AllNamed(users)
  {
    if users == [] then None
    else if users[0].username.None? then Some(0)
    else match FirstNameless(users[1..])
      case None => None
      case Some(k) => Some(k + 1)
  }

  /** There is no nameless user exactly when every user has a name. */
  lemma {:induction false} FirstNamelessNone(users: seq<UserData>)
    ensures FirstNameless(users).None? <==> AllNamed(users)
  {
    if users != [] {
      FirstNamelessNone(users[1..]);
      assert forall i :: 1 <= i < |users| ==> users[i] == users[1..][i - 1];
    }
  }

  /** A nameless user with only named users before it is the first nameless user. */
  lemma {:induction false} FirstNamelessAt(users: seq<UserData>, k: nat)
    requires k < |users| && users[k].username.None?
    requires forall i :: 0 <= i < k ==> users[i].username.Some?
    ensures FirstNameless(users) == Some(k)
  {
    if k > 0 {
      FirstNamelessAt(users[1..], k - 1);
    }
  }

  /** The rows of users who all have names, in order. */
  function Rows(users: seq<UserData>): string
    requires AllNamed(users)
  {
    if users == [] then ""
    else
      Rows(users[..|users| - 1]) + Row(users[|users| - 1])
  }

  /** Writing the rows of a longer prefix adds the next user's row. */
  lemma RowsOfLongerPrefix(users: seq<UserData>, i: nat)
    requires i < |users| && AllNamed(users[..i]) && users[i].username.Some?
    ensures AllNamed(users[..i + 1]) && Rows(users[..i + 1]) == Rows(users[..i]) + Row(users[i])
  {
    assert users[..i + 1][..i] == users[..i];
  }

  /**
   * The detailed file: the header and every row, or, when some user has no name, the error of the
   * first such user (the loop throws there).
   */
  function DetailedBody(users: seq<UserData>): (r: Result<string, ExportError>)
    ensures r.Success? <==> FirstNameless(users).None?
    ensures r.Failure? ==> exists k :: 0 <= k < |users| && users[k].username.None? && r.error == NullUsername(users[k].uid)
    ensures r.Success? ==> AllNamed(users) && |r.value| >= |DetailedHeader| && r.value[..|DetailedHeader|] == DetailedHeader
  {
    match FirstNameless(users)
    case Some(k) => Failure(NullUsername(users[k].uid))
    case None => Success(DetailedHeader + Rows(users))
  }

  /** A user whose fields hold no line breaks writes exactly one line. */
  predicate OneLine(u: UserData) {
    && u.username.Some? && '\n' !in u.username.value
    && (forall i :: 0 <= i < |u.tags| ==> '\n' !in u.tags[i])
    && '\n' !in u.lastVideoTitle
  }

  lemma {:induction false} CountCharAppend(a: string, b: string, c: char)
    ensures CountChar(a + b, c) == CountChar(a, c) + CountChar(b, c)
  {
    if a != [] {
      CountCharAppend(a[1..], b, c);
      assert (a + b)[1..] == a[1..] + b;
    } else {
      assert a + b == b;
    }
  }

  lemma {:induction false} CountCharAbsent(s: string, c: char)
    requires c !in s
    ensures CountChar(s, c) == 0
  {
    if s != [] {
      CountCharAbsent(s[1..], c);
    }
  }

  /** The header and every row end the line they are on, and hold no other line break. */
  lemma EndsItsOnlyLine(front: string)
    requires '\n' !in front
    ensures CountChar(front + "\n", '\n') == 1
  {
    CountCharAbsent(front, '\n');
    CountCharAppend(front, "\n", '\n');
  }

  lemma HeaderIsOneLine()
    ensures CountChar(DetailedHeader, '\n') == 1
  {
    var front := "UID,用户名,分组,不活跃天数,最后更新视频";
    assert DetailedHeader == front + "\n";
    EndsItsOnlyLine(front);
  }

  lemma RowIsOneLine(u: UserData)
    requires OneLine(u)
    ensures CountChar(Row(u), '\n') == 1
  {
    var name := u.username.value;
    var tags := Join(", ", u.tags);
    JoinAvoids(", ", u.tags, '\n');
    EscapeAvoidsNewline(name);
    EscapeAvoidsNewline(tags);
    EscapeAvoidsNewline(u.lastVideoTitle);
    DecimalStringAvoids(u.uid);
    DecimalStringAvoids(u.inactiveDays);
    var pieces := RowPieces(u.uid, name, u.tags, u.inactiveDays, u.lastVideoTitle);
    var front := pieces[..9];
    assert pieces == front + ["\"\n"];
    ConcatSnoc(front, "\"\n");
    ConcatAvoids(front + ["\""], '\n');
    ConcatSnoc(front, "\"");
    assert Concat(pieces) == (Concat(front) + "\"") + "\n";
    EndsItsOnlyLine(Concat(front) + "\"");
  }

  lemma {:induction false} RowsLineCount(users: seq<UserData>)
    requires forall i :: 0 <= i < |users| ==> OneLine(users[i])
    ensures AllNamed(users) && CountChar(Rows(users), '\n') == |users|
  {
    if users != [] {
      var n := |users| - 1;
      var u := users[n];
      RowsLineCount(users[..n]);
      RowIsOneLine(u);
      CountCharAppend(Rows(users[..n]), Row(u), '\n');
    }
  }

  /**
   * When no field holds a line break, the detailed file has the header line and then exactly one
   * line per user.
   */
  lemma DetailedLineCount(users: seq<UserData>)
    requires forall i :: 0 <= i < |users| ==> OneLine(users[i])
    ensures DetailedBody(users).Success? && CountChar(DetailedBody(users).value, '\n') == |users| + 1
  {
    RowsLineCount(users);
    DetailedBodyAllNamed(users);
    HeaderIsOneLine();
    CountCharAppend(DetailedHeader, Rows(users), '\n');
  }

  /** The detailed file of users who all have names is the header and their rows. */
  lemma DetailedBodyAllNamed(users: seq<UserData>)
    requires AllNamed(users)
    ensures DetailedBody(users) == Success(DetailedHeader + Rows(users))
  {
    FirstNamelessNone(users);
    assert FirstNameless(users) == None;
  }

  /** The detailed file fails on a nameless user after named ones. */
  lemma DetailedBodyNamelessAt(users: seq<UserData>, k: nat)
    requires k < |users| && users[k].username.None?
    requires AllNamed(users[..k])
    ensures DetailedBody(users) == Failure(NullUsername(users[k].uid))
  {
    assert forall i :: 0 <= i < k ==> users[i] == users[..k][i];
    FirstNamelessAt(users, k);
  }

  /**
   * The write loop of the detailed export: one row per user, after the header line that is written
   * before the loop starts.
   */
  method WriteDetailed(usersToExport: seq<UserData>) returns (r: Result<string, ExportError>)
    ensures r == DetailedBody(usersToExport)
  {
    var rows := "";
    for i := 0 to |usersToExport|
      invariant AllNamed(usersToExport[..i])
      invariant rows == Rows(usersToExport[..i])
    {
      var user := usersToExport[i];
      if user.username.None? {
        DetailedBodyNamelessAt(usersToExport, i);
        return Failure(NullUsername(user.uid));
      }
      RowsOfLongerPrefix(usersToExport, i);
      rows := rows + Row(user);
    }
    assert usersToExport[..|usersToExport|] == usersToExport;
    DetailedBodyAllNamed(usersToExport);
    r := Success(DetailedHeader + rows);
  }

  // ---------------------------------------------------------------------------------------------
  // The two entry points

  function CompactExport(users: Option<seq<UserData>>, directoryOk: bool, exportType: string, timestamp: string)
    : Result<Export, ExportError>
  {
    match Validate(users, directoryOk, exportType)
    case Failure(e) => Failure(e)
    case Success(usersToExport) => Success(Export(CompactPrefix + timestamp + FileSuffix, CompactBody(usersToExport)))
  }

  function DetailedExport(users: Option<seq<UserData>>, directoryOk: bool, exportType: string, timestamp: string)
    : Result<Export, ExportError>
  {
    match Validate(users, directoryOk, exportType)
    case Failure(e) => Failure(e)
    case Success(usersToExport) =>
      match DetailedBody(usersToExport)
      case Failure(e) => Failure(e)
      case Success(body) => Success(Export(DetailedPrefix + timestamp + FileSuffix, body))
  }

  /** A compact export never writes an empty file, and the file names exactly the chosen users. */
  lemma CompactExportContents(users: Option<seq<UserData>>, directoryOk: bool, exportType: string, timestamp: string)
    requires CompactExport(users, directoryOk, exportType, timestamp).Success?
    ensures var chosen := Selection(users.value, ParseExportType(exportType).value);
      var written := CompactExport(users, directoryOk, exportType, timestamp).value;
      && written.fileName == CompactPrefix + timestamp + FileSuffix
      && written.body != []
      && ReadUids(written.body) == Some(UidValues(chosen))
  {
    var chosen := Selection(users.value, ParseExportType(exportType).value);
    CompactRoundTrip(chosen);
    UidStringsShape(chosen);
    DecimalStringShape(chosen[0].uid);
    assert |Join(",", UidStrings(chosen))| >= |UidStrings(chosen)[0]| >= 1;
  }

  /**
   * A detailed export is named by its timestamp and holds the header and one row per selected
   * user, all of whom have names; there is at least one such user.
   */
  lemma DetailedExportContents(users: Option<seq<UserData>>, directoryOk: bool, exportType: string, timestamp: string)
    requires DetailedExport(users, directoryOk, exportType, timestamp).Success?
    ensures var chosen := Selection(users.value, ParseExportType(exportType).value);
      var written := DetailedExport(users, directoryOk, exportType, timestamp).value;
      && written.fileName == DetailedPrefix + timestamp + FileSuffix
      && chosen != [] && AllNamed(chosen)
      && written.body == DetailedHeader + Rows(chosen)
  {
    var chosen := Selection(users.value, ParseExportType(exportType).value);
    assert DetailedBody(chosen).Success?;
    assert FirstNameless(chosen).None?;
  }

  /** `exportInactiveUsers`, minus the directory test itself and the writing of the file. */
  method ExportInactiveUsers(users: Option<seq<UserData>>, directoryOk: bool, exportType: string, timestamp: string)
    returns (r: Result<Export, ExportError>)
    ensures r == CompactExport(users, directoryOk, exportType, timestamp)
  {
    if users.None? || users.value == [] {
      return Failure(NoData);
    }
    if !directoryOk {
      return Failure(NotADirectory);
    }
    var mode := ParseExportType(exportType);
    if mode.None? {
      return Failure(UnsupportedType(exportType));
    }
    var usersToExport := SelectUsers(users.value, mode.value);
    if usersToExport == [] {
      return Failure(NoMatchingUsers);
    }
    var body := WriteCompact(usersToExport);
    r := Success(Export(CompactPrefix + timestamp + FileSuffix, body));
  }

  /** `exportDetailedInactiveUsers`, minus the directory test itself and the writing of the file. */
  method ExportDetailedInactiveUsers(users: Option<seq<UserData>>, directoryOk: bool, exportType: string, timestamp: string)
    returns (r: Result<Export, ExportError>)
    ensures r == DetailedExport(users, directoryOk, exportType, timestamp)
  {
    if users.None? || users.value == [] {
      return Failure(NoData);
    }
    if !directoryOk {
      return Failure(NotADirectory);
    }
    var mode := ParseExportType(exportType);
    if mode.None? {
      return Failure(UnsupportedType(exportType));
    }
    var usersToExport := SelectUsers(users.value, mode.value);
    if usersToExport == [] {
      return Failure(NoMatchingUsers);
    }
    var body := WriteDetailed(usersToExport);
    if body.Failure? {
      return Failure(body.error);
    }
    r := Success(Export(DetailedPrefix + timestamp + FileSuffix, body.value));
  }
}
