/**
 * UserListTag: the JSP tag that writes the user table. Its output is the sequence of strings it
 * hands to the page's writer, in order. The age column's clock is a parameter.
 */
module Tags {
  import opened Wrappers
  import opened Entities

  // ---------------------------------------------------------------------------
  // escapeHtml
  // ---------------------------------------------------------------------------

  /** String.replace with a one-character target: every `c` becomes `rep`. */
  function Replace(s: string, c: char, rep: string): (r: string)
    ensures c !in s ==> r == s
  {
    if s == [] then []
    else (if s[0] == c then rep else [s[0]]) + Replace(s[1..], c, rep)
  }

  lemma {:induction false} ReplaceConcat(a: string, b: string, c: char, rep: string)
    ensures Replace(a + b, c, rep) == Replace(a, c, rep) + Replace(b, c, rep)
  {
    if a != [] {
      assert (a + b)[1..] == a[1..] + b;
      ReplaceConcat(a[1..], b, c, rep);
    } else {
      assert a + b == b;
    }
  }

  /** escapeHtml: "" for null, otherwise the replacement chain, ampersand first. */
  function EscapeHtml(input: Option<string>): (r: string)
    ensures input.None? ==> r == ""
  {
    if input.None? then ""
    else Chain(input.value)
  }

  function Chain(s: string): string {
    Replace(Replace(Replace(Replace(Replace(s, '&', "&amp;"), '<', "&lt;"), '>', "&gt;"), '"', "&quot;"),
            '\'', "&#x27;")
  }

  /** The five characters escapeHtml rewrites. */
  predicate Special(x: char) {
    x == '&' || x == '<' || x == '>' || x == '"' || x == '\''
  }

  /** The reference definition: each character escaped on its own. */
  function EscapeChar(x: char): (r: string)
    ensures Special(x) ==> EntityAt(r, 0) && forall i | 1 <= i < |r| :: r[i] != '&'
    ensures !Special(x) ==> r == [x]
    ensures NoMarkup(r)
  {
    match x
    case '&' => "&amp;"
    case '<' => "&lt;"
    case '>' => "&gt;"
    case '"' => "&quot;"
    case '\'' => "&#x27;"
    case _ => [x]
  }

  /** No '<', '>', '"' or '\''. */
  predicate NoMarkup(t: string) {
    forall i | 0 <= i < |t| :: t[i] != '<' && t[i] != '>' && t[i] != '"' && t[i] != '\''
  }

  function EscapeChars(s: string): string {
    if s == [] then [] else EscapeChar(s[0]) + EscapeChars(s[1..])
  }

  lemma ChainConcat(a: string, b: string)
    ensures Chain(a + b) == Chain(a) + Chain(b)
  {
    var s1a, s1b := Replace(a, '&', "&amp;"), Replace(b, '&', "&amp;");
    ReplaceConcat(a, b, '&', "&amp;");
    var s2a, s2b := Replace(s1a, '<', "&lt;"), Replace(s1b, '<', "&lt;");
    ReplaceConcat(s1a, s1b, '<', "&lt;");
    var s3a, s3b := Replace(s2a, '>', "&gt;"), Replace(s2b, '>', "&gt;");
    ReplaceConcat(s2a, s2b, '>', "&gt;");
    var s4a, s4b := Replace(s3a, '"', "&quot;"), Replace(s3b, '"', "&quot;");
    ReplaceConcat(s3a, s3b, '"', "&quot;");
    ReplaceConcat(s4a, s4b, '\'', "&#x27;");
  }

  lemma ReplaceOne(x: char, c: char, rep: string)
    ensures Replace([x], c, rep) == if x == c then rep else [x]
  {
    assert [x][1..] == [];
  }

  /** After `rep` has been written for an earlier target, the later steps of the chain leave it
      alone: the entities contain none of the later targets. */
  lemma ChainTail(rep: string, from: nat)
    requires 1 <= from <= 5
    requires from <= 1 ==> '<' !in rep
    requires from <= 2 ==> '>' !in rep
    requires from <= 3 ==> '"' !in rep
    requires from <= 4 ==> '\'' !in rep
    ensures from <= 1 ==> Replace(rep, '<', "&lt;") == rep
    ensures from <= 2 ==> Replace(rep, '>', "&gt;") == rep
    ensures from <= 3 ==> Replace(rep, '"', "&quot;") == rep
    ensures from <= 4 ==> Replace(rep, '\'', "&#x27;") == rep
  {
  }

  lemma ChainChar(x: char)
    ensures Chain([x]) == EscapeChar(x)
  {
    ReplaceOne(x, '&', "&amp;");
    if x == '&' {
      ChainTail("&amp;", 1);
      return;
    }
    ReplaceOne(x, '<', "&lt;");
    if x == '<' {
      ChainTail("&lt;", 2);
      return;
    }
    ReplaceOne(x, '>', "&gt;");
    if x == '>' {
      ChainTail("&gt;", 3);
      return;
    }
    ReplaceOne(x, '"', "&quot;");
    if x == '"' {
      ChainTail("&quot;", 4);
      return;
    }
    ReplaceOne(x, '\'', "&#x27;");
  }

  /** The replacement chain escapes character by character: no replacement re-reads what an
      earlier one produced, because the ampersand goes first. */
  lemma {:induction false} ChainIsPerChar(s: string)
    ensures Chain(s) == EscapeChars(s)
  {
    if s == [] {
    } else {
      assert s == [s[0]] + s[1..];
      ChainConcat([s[0]], s[1..]);
      ChainChar(s[0]);
      ChainIsPerChar(s[1..]);
    }
  }

  /** `p` is a prefix of `t`. */
  predicate StartsWith(t: string, p: string) {
    |p| <= |t| && t[..|p|] == p
  }

  /** One of the five entities escapeHtml writes begins at index `i`. */
  predicate EntityAt(t: string, i: nat)
    requires i <= |t|
  {
    var rest := t[i..];
    StartsWith(rest, "&amp;") || StartsWith(rest, "&lt;") || StartsWith(rest, "&gt;")
    || StartsWith(rest, "&quot;") || StartsWith(rest, "&#x27;")
  }

  lemma EntityAtShift(a: string, b: string, j: nat)
    requires j <= |b| && EntityAt(b, j)
    ensures EntityAt(a + b, |a| + j)
  {
    assert (a + b)[|a| + j..] == b[j..];
  }

  lemma EntityAtPrefix(a: string, b: string)
    requires |a| > 0 && EntityAt(a, 0)
    ensures EntityAt(a + b, 0)
  {
    var t := a + b;
    assert t[..|a|] == a;
    assert a[0..] == a;
    assert t[0..] == t;
  }

  /** Every '&' in `t` begins one of the five entities. */
  predicate AmpersandsAreEntities(t: string) {
    forall i | 0 <= i < |t| && t[i] == '&' :: EntityAt(t, i)
  }

  lemma {:induction false} AmpersandsBeginEntities(s: string)
    ensures AmpersandsAreEntities(EscapeChars(s))
  {
    if s != [] {
      var head, tail := EscapeChar(s[0]), EscapeChars(s[1..]);
      AmpersandsBeginEntities(s[1..]);
      var t := head + tail;
      forall i | 0 <= i < |t| && t[i] == '&' ensures EntityAt(t, i) {
        if i < |head| {
          assert head[i] == '&';
          assert i == 0 && Special(s[0]);
          assert EntityAt(head, 0) by { assert head[0..] == head; }
          EntityAtPrefix(head, tail);
        } else {
          assert tail[i - |head|] == '&';
          EntityAtShift(head, tail, i - |head|);
        }
      }
    }
  }

  lemma {:induction false} EscapeCharsNoMarkup(s: string)
    ensures NoMarkup(EscapeChars(s))
  {
    if s != [] {
      EscapeCharsNoMarkup(s[1..]);
      var head, tail := EscapeChar(s[0]), EscapeChars(s[1..]);
      forall i | 0 <= i < |head + tail| ensures (head + tail)[i] != '<' && (head + tail)[i] != '>'
                                            && (head + tail)[i] != '"' && (head + tail)[i] != '\'' {
        if i >= |head| { assert (head + tail)[i] == tail[i - |head|]; }
      }
    }
  }

  /** The output of escapeHtml holds no '<', '>', '"' or '\''. */
  lemma EscapedHasNoMarkup(input: Option<string>)
    ensures NoMarkup(EscapeHtml(input))
  {
    if input.Some? {
      ChainIsPerChar(input.value);
      EscapeCharsNoMarkup(input.value);
    }
  }

  /** Every '&' in the output of escapeHtml begins one of its entities. */
  lemma EscapedAmpersandsAreEntities(input: Option<string>)
    ensures AmpersandsAreEntities(EscapeHtml(input))
  {
    if input.Some? {
      ChainIsPerChar(input.value);
      AmpersandsBeginEntities(input.value);
    }
  }

  /** escapeHtml leaves a string without special characters as it is. */
  lemma EscapeIdentityOnSafe(s: string)
    requires forall i | 0 <= i < |s| :: !Special(s[i])
    ensures EscapeHtml(Some(s)) == s
  {
  }

  // ---------------------------------------------------------------------------
  // doStartTag
  // ---------------------------------------------------------------------------

  /** Tag.SKIP_BODY, the only value doStartTag returns. */
  const SKIP_BODY := 0

  const TR_OPEN := "<tr>"
  const TR_CLOSE := "</tr>"
  const TD_OPEN := "<td>"
  const TD_CLOSE := "</td>"
  const ADMIN_BADGE := "<span class='badge bg-danger'>Admin</span>"
  const USER_BADGE := "<span class='badge bg-primary'>User</span>"

  /** A badge for a role name other than the two known ones, its text escaped. */
  function OtherBadge(name: Option<string>): string {
    "<span class='badge bg-secondary'>" + EscapeHtml(name) + "</span>"
  }

  /** The role cell: the two known names get fixed badges, any other name (null included) is
      escaped into a neutral badge, and a user without a role gets "-". */
  function RoleCell(role: Option<Role>): (r: string)
    ensures role.None? ==> r == "-"
    ensures role.Some? && role.value.name == Some("ADMIN") ==> r == ADMIN_BADGE
    ensures role.Some? && role.value.name == Some("USER") ==> r == USER_BADGE
    ensures role.Some? && role.value.name != Some("ADMIN") && role.value.name != Some("USER") ==>
              r == OtherBadge(role.value.name)
  {
    if role.None? then "-"
    else if role.value.name == Some("ADMIN") then ADMIN_BADGE
    else if role.value.name == Some("USER") then USER_BADGE
    else OtherBadge(role.value.name)
  }

  /** The role cell tells the roles apart: the Admin badge appears exactly for a role named
      "ADMIN", the User badge exactly for "USER", and "-" exactly for a user without a role. */
  lemma RoleBadgeIdentifies(role: Option<Role>)
    ensures RoleCell(role) == ADMIN_BADGE <==> role.Some? && role.value.name == Some("ADMIN")
    ensures RoleCell(role) == USER_BADGE <==> role.Some? && role.value.name == Some("USER")
    ensures RoleCell(role) == "-" <==> role.None?
  {
    if role.Some? && role.value.name != Some("ADMIN") && role.value.name != Some("USER") {
      var other := OtherBadge(role.value.name);
      assert other[22] == 's' && ADMIN_BADGE[22] == 'd' && USER_BADGE[22] == 'p';
      assert |other| > 1;
    }
    assert ADMIN_BADGE[22] != USER_BADGE[22];
  }

  /** The age cell: the age in whole years, or "-" without a birthday. */
  function AgeCell(birthday: Option<Date>, ageOf: Date -> int): (r: string)
    ensures birthday.None? ==> r == "-"
    ensures birthday.Some? ==> r == IntToString(ageOf(birthday.value))
  {
    if birthday.None? then "-" else IntToString(ageOf(birthday.value))
  }

  function LoginCell(login: Option<string>): string {
    "<td><strong>" + EscapeHtml(login) + "</strong></td>"
  }

  function TextCell(text: Option<string>): string {
    TD_OPEN + EscapeHtml(text) + TD_CLOSE
  }

  function EditLink(contextPath: Option<string>, id: Option<int>): string {
    "<a href='" + StringOf(contextPath) + "/admin/users/edit?id=" + LongOf(id) + "' class='btn-link me-2'>Edit</a>"
  }

  /** The delete link; the names reach the script call escaped. */
  function DeleteLink(id: Option<int>, firstName: Option<string>, lastName: Option<string>): string {
    "<a href='#' onclick=\"" + "deleteUser(" + LongOf(id) + ", '" + EscapeHtml(firstName) + "', '"
    + EscapeHtml(lastName) + "')" + "\" class='btn-link text-danger'>Delete</a>"
  }

  const ROW_LENGTH := 15

  /** The row in three stretches, one per group of writes: the text cells, the age and role cells,
      the action links. */
  function RowStart(u: User): seq<string> {
    [TR_OPEN, LoginCell(u.login), TextCell(u.firstName), TextCell(u.lastName)]
  }

  function RowMiddle(u: User, ageOf: Date -> int): seq<string> {
    [TD_OPEN, AgeCell(u.birthday, ageOf), TD_CLOSE, TD_OPEN, RoleCell(u.role), TD_CLOSE]
  }

  function RowEnd(u: User, contextPath: Option<string>): seq<string> {
    [TD_OPEN, EditLink(contextPath, u.id), DeleteLink(u.id, u.firstName, u.lastName), TD_CLOSE, TR_CLOSE]
  }

  /** The chunks the writer receives for one user, first to last: a table row of six cells. */
  function RowChunks(u: User, contextPath: Option<string>, ageOf: Date -> int): (r: seq<string>)
    ensures |r| == ROW_LENGTH
  {
    RowStart(u) + RowMiddle(u, ageOf) + RowEnd(u, contextPath)
  }

  /** A row opens and closes a table row and holds, in order, the login, the two names, the age,
      the role and the action links. */
  lemma RowCells(u: User, contextPath: Option<string>, ageOf: Date -> int)
    ensures var r := RowChunks(u, contextPath, ageOf);
            && r[0] == TR_OPEN && r[ROW_LENGTH - 1] == TR_CLOSE
            && r[1] == LoginCell(u.login) && r[2] == TextCell(u.firstName) && r[3] == TextCell(u.lastName)
            && r[5] == AgeCell(u.birthday, ageOf) && r[8] == RoleCell(u.role)
            && r[11] == EditLink(contextPath, u.id) && r[12] == DeleteLink(u.id, u.firstName, u.lastName)
    ensures var r := RowChunks(u, contextPath, ageOf);
            && (u.birthday.None? ==> r[5] == "-")
            && (u.birthday.Some? ==> r[5] == IntToString(ageOf(u.birthday.value)))
            && (u.role.None? ==> r[8] == "-")
            && (u.role.Some? && u.role.value.name == Some("ADMIN") ==> r[8] == ADMIN_BADGE)
            && (u.role.Some? && u.role.value.name == Some("USER") ==> r[8] == USER_BADGE)
            && (u.role.Some? && u.role.value.name != Some("ADMIN") && u.role.value.name != Some("USER") ==>
                  r[8] == "<span class='badge bg-secondary'>" + EscapeHtml(u.role.value.name) + "</span>")
  {
    var a, b, c := RowStart(u), RowMiddle(u, ageOf), RowEnd(u, contextPath);
    assert (a + b + c)[5] == b[1] && (a + b + c)[8] == b[4];
    assert (a + b + c)[11] == c[1] && (a + b + c)[12] == c[2];
  }

  /** One entry per user, in list order. */
  function RowList(users: seq<User>, contextPath: Option<string>, ageOf: Date -> int): (r: seq<seq<string>>)
    ensures |r| == |users|
    ensures forall i :: 0 <= i < |users| ==> r[i] == RowChunks(users[i], contextPath, ageOf)
  {
    seq(|users|, i requires 0 <= i < |users| => RowChunks(users[i], contextPath, ageOf))
  }

  /** The concatenation of chunk lists, in order. */
  function Flatten<T>(rows: seq<seq<T>>): seq<T> {
    if rows == [] then [] else Flatten(rows[..|rows| - 1]) + rows[|rows| - 1]
  }

  /** Writing list `i` after the first `i` lists, behind a fixed prefix. */
  lemma FlattenSnoc<T>(prefix: seq<T>, rows: seq<seq<T>>, i: nat, written: seq<T>)
    requires i < |rows| && written == prefix + Flatten(rows[..i])
    ensures written + rows[i] == prefix + Flatten(rows[..i + 1])
  {
    assert rows[..i + 1][..i] == rows[..i];
    assert Flatten(rows[..i + 1]) == Flatten(rows[..i]) + rows[i];
  }

  lemma {:induction false} FlattenConcat<T>(a: seq<seq<T>>, b: seq<seq<T>>)
    ensures Flatten(a + b) == Flatten(a) + Flatten(b)
  {
    if b == [] {
      assert a + b == a;
    } else {
      var n := |b| - 1;
      assert (a + b)[..|a + b| - 1] == a + b[..n];
      FlattenConcat(a, b[..n]);
      assert Flatten(a + b) == Flatten(a) + Flatten(b[..n]) + b[n];
    }
  }

  /** Flattening lists of length `k` puts list `i` at positions `k * i` up to `k * i + k`. */
  lemma FlattenSlice<T>(rows: seq<seq<T>>, k: nat, i: nat)
    requires forall j :: 0 <= j < |rows| ==> |rows[j]| == k
    requires i < |rows|
    ensures |Flatten(rows[..i])| == k * i && k * i + k <= |Flatten(rows)|
    ensures Flatten(rows)[k * i..k * i + k] == rows[i]
  {
    var before, after := rows[..i], rows[i + 1..];
    assert rows == before + [rows[i]] + after;
    FlattenConcat(before + [rows[i]], after);
    FlattenConcat(before, [rows[i]]);
    assert Flatten([rows[i]]) == rows[i] by { assert [rows[i]][..0] == []; }
    FlattenLength(before, k);
    var x, y, z := Flatten(before), rows[i], Flatten(after);
    assert Flatten(rows) == x + y + z;
    assert (x + y + z)[|x|..|x| + |y|] == y;
  }

  lemma {:induction false} FlattenLength<T>(rows: seq<seq<T>>, k: nat)
    requires forall j :: 0 <= j < |rows| ==> |rows[j]| == k
    ensures |Flatten(rows)| == k * |rows|
  {
    if rows != [] {
      var n := |rows| - 1;
      FlattenLength(rows[..n], k);
      assert |Flatten(rows)| == |Flatten(rows[..n])| + |rows[n]|;
      assert k * |rows| == k * n + k;
    }
  }

  lemma TakeAll<T>(s: seq<T>)
    ensures s[..|s|] == s
  {
  }

  const NO_USERS_OPEN := "<div class='text-center py-4'>"
  const NO_USERS_TEXT := "<p class='text-muted'>No users found</p>"
  const DIV_CLOSE := "</div>"
  const NO_USERS := [NO_USERS_OPEN, NO_USERS_TEXT, DIV_CLOSE]

  const TABLE_OPEN := "<table class='table table-bordered table-hover mb-0'>"

  const HEADER := [
    "<div class='user-table'>", TABLE_OPEN, "<thead>", TR_OPEN,
    "<th>Login</th>", "<th>First Name</th>", "<th>Last Name</th>", "<th>Age</th>", "<th>Role</th>",
    "<th>Actions</th>", TR_CLOSE, "</thead>", "<tbody>"]

  const FOOTER := ["</tbody>", "</table>", DIV_CLOSE]

  /** The table body. */
  function Rows(users: seq<User>, contextPath: Option<string>, ageOf: Date -> int): (r: seq<string>)
    ensures |r| == ROW_LENGTH * |users|
  {
    var rows := RowList(users, contextPath, ageOf);
    FlattenLength(rows, ROW_LENGTH);
    Flatten(rows)
  }

  /** Everything doStartTag writes: the empty-list notice, or the table with one row per user. */
  function Page(users: Option<seq<User>>, contextPath: Option<string>, ageOf: Date -> int): seq<string> {
    if users.None? || users.value == [] then NO_USERS
    else HEADER + Rows(users.value, contextPath, ageOf) + FOOTER
  }

  /** The "No users found" block never opens a table. */
  lemma NoUsersHasNoTable()
    ensures TABLE_OPEN !in NO_USERS
  {
    assert |NO_USERS_OPEN| != |TABLE_OPEN|;
    assert |NO_USERS_TEXT| != |TABLE_OPEN|;
    assert |DIV_CLOSE| != |TABLE_OPEN|;
  }

  /** A non-empty list gives the header, the rows, and the footer that closes the table. */
  lemma PageFrame(users: seq<User>, contextPath: Option<string>, ageOf: Date -> int)
    requires users != []
    ensures var page := Page(Some(users), contextPath, ageOf);
            && |page| == |HEADER| + ROW_LENGTH * |users| + |FOOTER|
            && page[..|HEADER|] == HEADER
            && page[|HEADER| + ROW_LENGTH * |users|..] == FOOTER
  {
    Framed(HEADER, Rows(users, contextPath, ageOf), FOOTER);
  }

  /** Row `i` of the table body is exactly the chunks of user `i`: one row per user, in list order. */
  lemma RowsInOrder(users: seq<User>, contextPath: Option<string>, ageOf: Date -> int, i: nat)
    requires i < |users|
    ensures Rows(users, contextPath, ageOf)[ROW_LENGTH * i..ROW_LENGTH * i + ROW_LENGTH]
            == RowChunks(users[i], contextPath, ageOf)
  {
    var rows := RowList(users, contextPath, ageOf);
    var row := RowChunks(users[i], contextPath, ageOf);
    assert rows[i] == row;
    assert forall j :: 0 <= j < |rows| ==> |rows[j]| == ROW_LENGTH;
    FlattenRowAt(rows, ROW_LENGTH, i, row);
    assert Rows(users, contextPath, ageOf) == Flatten(rows);
  }

  /** The slice of the flattened rows at row `i` is the given row. */
  lemma FlattenRowAt<T>(rows: seq<seq<T>>, k: nat, i: nat, row: seq<T>)
    requires forall j :: 0 <= j < |rows| ==> |rows[j]| == k
    requires i < |rows| && rows[i] == row
    ensures k * i + k <= |Flatten(rows)| && Flatten(rows)[k * i..k * i + k] == row
  {
    FlattenSlice(rows, k, i);
  }

  /** The two ends of `a + b + c`. */
  lemma Framed<T>(a: seq<T>, b: seq<T>, c: seq<T>)
    ensures |a + b + c| == |a| + |b| + |c|
    ensures (a + b + c)[..|a|] == a
    ensures (a + b + c)[|a| + |b|..] == c
  {
    assert (a + b + c)[..|a|] == a;
  }

  /** The tag handler; the page sets its two attributes before the tag runs. */
  class UserListTag {
    var users: Option<seq<User>>
    var contextPath: Option<string>

    constructor (users: Option<seq<User>>, contextPath: Option<string>)
      ensures this.users == users && this.contextPath == contextPath
    {
      this.users := users;
      this.contextPath := contextPath;
    }

    /**
     * doStartTag: a null or empty list writes only the "No users found" block and no table;
     * otherwise the header, one row per user in list order (RowsInOrder), and the footer. `ageOf`
     * gives the age in whole years of a birthday on the current date.
     */
    method DoStartTag(ageOf: Date -> int) returns (out: seq<string>, code: int)
      ensures out == Page(users, contextPath, ageOf)
      ensures code == SKIP_BODY
      ensures users.None? || users.value == [] ==> out == NO_USERS && TABLE_OPEN !in out
    {
      code := SKIP_BODY;
      if users.None? || users.value == [] {
        out := [NO_USERS_OPEN];
        out := out + [NO_USERS_TEXT];
        out := out + [DIV_CLOSE];
        NoUsersHasNoTable();
        return;
      }

      out := HEADER;
      var list := users.value;
      ghost var rows := RowList(list, contextPath, ageOf);
      for i := 0 to |list|
        invariant out == HEADER + Flatten(rows[..i])
      {
        FlattenSnoc(HEADER, rows, i, out);
        out := WriteRow(out, list[i], contextPath, ageOf);
      }
      TakeAll(rows);
      out := out + FOOTER;
    }
  }

  /** The loop body of doStartTag: the writes for one user. */
  method WriteRow(out: seq<string>, u: User, contextPath: Option<string>, ageOf: Date -> int)
    returns (written: seq<string>)
    ensures written == out + RowChunks(u, contextPath, ageOf)
  {
    written := WriteTextCells(out, u);
    written := WriteAgeAndRole(written, u, ageOf);
    written := WriteActions(written, u, contextPath);
  }

  method WriteTextCells(out: seq<string>, u: User) returns (written: seq<string>)
    ensures written == out + RowStart(u)
  {
    written := out + [TR_OPEN];
    written := written + [LoginCell(u.login)];
    written := written + [TextCell(u.firstName)];
    written := written + [TextCell(u.lastName)];
  }

  method WriteAgeAndRole(out: seq<string>, u: User, ageOf: Date -> int) returns (written: seq<string>)
    ensures written == out + RowMiddle(u, ageOf)
  {
    written := out + [TD_OPEN];
    if u.birthday.Some? {
      written := written + [IntToString(ageOf(u.birthday.value))];
    } else {
      written := written + ["-"];
    }
    written := written + [TD_CLOSE];

    written := written + [TD_OPEN];
    if u.role.Some? {
      var roleName := u.role.value.name;
      if roleName == Some("ADMIN") {
        written := written + [ADMIN_BADGE];
      } else if roleName == Some("USER") {
        written := written + [USER_BADGE];
      } else {
        written := written + [OtherBadge(roleName)];
      }
    } else {
      written := written + ["-"];
    }
    written := written + [TD_CLOSE];
  }

  method WriteActions(out: seq<string>, u: User, contextPath: Option<string>) returns (written: seq<string>)
    ensures written == out + RowEnd(u, contextPath)
  {
    written := out + [TD_OPEN];
    written := written + [EditLink(contextPath, u.id)];
    written := written + [DeleteLink(u.id, u.firstName, u.lastName)];
    written := written + [TD_CLOSE];
    written := written + [TR_CLOSE];
  }
}
