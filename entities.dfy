/**
 * The two entities, User and Role, with their bean-validation constraints,
 * and the few java.lang.String operations the rest of the model relies on.
 */
module Entities {
  import opened Wrappers

  /** A calendar date as a day number: a larger number is a later day. */
  type Date = int

  // ---------------------------------------------------------------------------
  // java.lang.String helpers
  // ---------------------------------------------------------------------------

  /** Every character is one that String.trim() strips (code point at most U+0020). */
  predicate IsBlank(s: string) {
    forall i | 0 <= i < |s| :: s[i] <= ' '
  }

  /** The Java guard `s == null || s.trim().isEmpty()`. */
  predicate NullOrBlank(s: Option<string>) {
    s.None? || IsBlank(s.value)
  }

  /** Drops the leading characters that String.trim() strips. */
  function TrimStart(s: string): (r: string)
    ensures |r| <= |s| && r == s[|s| - |r|..]
    ensures r == [] || r[0] > ' '
    ensures IsBlank(s[..|s| - |r|])
  {
    if s != [] && s[0] <= ' ' then
      var r := TrimStart(s[1..]);
      assert s[..|s| - |r|] == [s[0]] + s[1..][..|s| - 1 - |r|];
      r
    else
      s
  }

  /** Drops the trailing characters that String.trim() strips. */
  function TrimEnd(s: string): (r: string)
    ensures |r| <= |s| && r == s[..|r|]
    ensures r == [] || r[|r| - 1] > ' '
    ensures IsBlank(s[|r|..])
  {
    if s != [] && s[|s| - 1] <= ' ' then
      var r := TrimEnd(s[..|s| - 1]);
      assert s[|r|..] == s[..|s| - 1][|r|..] + [s[|s| - 1]];
      r
    else
      s
  }

  /** String.trim(): what is left of `s` once blank padding is removed from both ends; it neither
      starts nor ends with a blank character, and it is empty exactly when `s` is blank. */
  function Trim(s: string): (r: string)
    ensures |r| <= |s|
    ensures r == [] <==> IsBlank(s)
    ensures r != [] ==> r[0] > ' ' && r[|r| - 1] > ' '
  {
    var t := TrimStart(s);
    var r := TrimEnd(t);
    assert r == [] ==> s == s[..|s| - |t|] + t[|r|..];
    r
  }

  /** Trimming cuts padding only: `s` is a blank prefix, then the trimmed string, then a blank suffix. */
  lemma TrimSplits(s: string) returns (p: string, q: string)
    ensures IsBlank(p) && IsBlank(q)
    ensures s == p + Trim(s) + q
  {
    var t := TrimStart(s);
    p := s[..|s| - |t|];
    assert s == p + t;
    q := TrimEndSplits(t);
    assert s == p + (Trim(s) + q);
  }

  lemma TrimEndSplits(t: string) returns (q: string)
    ensures IsBlank(q) && t == TrimEnd(t) + q
  {
    q := t[|TrimEnd(t)|..];
  }

  /** Trimming twice is trimming once. */
  lemma TrimIdempotent(s: string)
    ensures Trim(Trim(s)) == Trim(s)
  {
    var r := Trim(s);
    if r != [] {
      assert TrimStart(r) == r;
      assert TrimEnd(r) == r;
    }
  }

  function DigitChar(d: nat): char
    requires d < 10
  {
    "0123456789"[d]
  }

  function NatToString(n: nat): string
    decreases n
  {
    if n < 10 then [DigitChar(n)] else NatToString(n / 10) + [DigitChar(n % 10)]
  }

  /** Long.toString(long). */
  function IntToString(i: int): string {
    if i < 0 then "-" + NatToString(-i) else NatToString(i)
  }

  /** String concatenation of a nullable String: `"" + s`. */
  function StringOf(s: Option<string>): string {
    if s.None? then "null" else s.value
  }

  /** String concatenation of a nullable Long: `"" + id`. */
  function LongOf(i: Option<int>): string {
    if i.None? then "null" else IntToString(i.value)
  }

  // ---------------------------------------------------------------------------
  // The entities
  // ---------------------------------------------------------------------------

  /** A role. Its lazily loaded back-reference to the users holding it is not modelled. */
  datatype Role = Role(id: Option<int>, name: Option<string>)

  /** A user; every reference-typed field can be null. */
  datatype User = User(
    id: Option<int>,
    login: Option<string>,
    password: Option<string>,
    email: Option<string>,
    firstName: Option<string>,
    lastName: Option<string>,
    birthday: Option<Date>,
    role: Option<Role>)

  /** The seven-argument constructor: the id stays null until the store generates one. */
  function NewUser(login: Option<string>, password: Option<string>, email: Option<string>,
                   firstName: Option<string>, lastName: Option<string>, birthday: Option<Date>,
                   role: Option<Role>): (u: User)
    ensures u.id.None?
    ensures && u.login == login && u.password == password && u.email == email && u.firstName == firstName
            && u.lastName == lastName && u.birthday == birthday && u.role == role
  {
    User(None, login, password, email, firstName, lastName, birthday, role)
  }

  /** The one-argument constructor Role(name). */
  function NewRole(name: Option<string>): (r: Role)
    ensures r.id.None? && r.name == name
  {
    Role(None, name)
  }

  // ---------------------------------------------------------------------------
  // Bean-validation constraints (javax.validation annotations)
  // ---------------------------------------------------------------------------

  /** @NotBlank: not null, and something is left after trimming. */
  predicate NotBlank(s: Option<string>) {
    s.Some? && !IsBlank(s.value)
  }

  /** @Size(min, max): a null value passes; `max` None means no upper bound. */
  predicate SizeWithin(s: Option<string>, min: nat, max: Option<nat>) {
    s.None? || (min <= |s.value| && (max.None? || |s.value| <= max.value))
  }

  /** @Email: a null value passes; the check itself belongs to the validation library. */
  predicate EmailPasses(s: Option<string>, isEmail: string -> bool) {
    s.None? || isEmail(s.value)
  }

  /** @Past: a null date passes; otherwise it must be strictly before today. */
  predicate PastPasses(d: Option<Date>, today: Date) {
    d.None? || d.value < today
  }

  /** All the field constraints declared on User. The role has none: its non-null join column is
      a mapping attribute, not a bean constraint, and the role object is not validated in cascade. */
  predicate BeanValid(u: User, today: Date, isEmail: string -> bool) {
    && NotBlank(u.login) && SizeWithin(u.login, 3, Some(50))
    && NotBlank(u.password) && SizeWithin(u.password, 3, None)
    && NotBlank(u.email) && EmailPasses(u.email, isEmail) && SizeWithin(u.email, 0, Some(100))
    && NotBlank(u.firstName) && SizeWithin(u.firstName, 0, Some(50))
    && NotBlank(u.lastName) && SizeWithin(u.lastName, 0, Some(50))
    && PastPasses(u.birthday, today)
  }

  function Check(ok: bool, message: string): (v: set<string>)
    ensures v == {} <==> ok
    ensures message in v <==> !ok
  {
    if ok then {} else {message}
  }

  /** The messages of the constraint violations Validator.validate reports for a user;
      there are none exactly when the user is bean-valid. */
  function Violations(u: User, today: Date, isEmail: string -> bool): (v: set<string>)
    ensures v == {} <==> BeanValid(u, today, isEmail)
  {
    var login := Check(NotBlank(u.login), "Login is required")
      + Check(SizeWithin(u.login, 3, Some(50)), "Login must be between 3 and 50 characters");
    var password := Check(NotBlank(u.password), "Password is required")
      + Check(SizeWithin(u.password, 3, None), "Password must be at least 3 characters long");
    var email := Check(NotBlank(u.email), "Email is required")
      + Check(EmailPasses(u.email, isEmail), "Please provide a valid email address")
      + Check(SizeWithin(u.email, 0, Some(100)), "Email must not exceed 100 characters");
    var names := Check(NotBlank(u.firstName), "First name is required")
      + Check(SizeWithin(u.firstName, 0, Some(50)), "First name must not exceed 50 characters")
      + Check(NotBlank(u.lastName), "Last name is required")
      + Check(SizeWithin(u.lastName, 0, Some(50)), "Last name must not exceed 50 characters");
    var birthday := Check(PastPasses(u.birthday, today), "Birthday must be in the past");
    login + password + email + names + birthday
  }

  /** The constraints declared on Role's name. */
  predicate RoleBeanValid(r: Role) {
    NotBlank(r.name) && SizeWithin(r.name, 2, Some(50))
  }

  function RoleViolations(r: Role): (v: set<string>)
    ensures v == {} <==> RoleBeanValid(r)
    ensures r.name == Some("") ==> v == {"Role name is required", "Role name must be between 2 and 50 characters"}
  {
    Check(NotBlank(r.name), "Role name is required")
    + Check(SizeWithin(r.name, 2, Some(50)), "Role name must be between 2 and 50 characters")
  }

  /** A password has a lower bound only: any non-blank password of at least three characters passes,
      however long it is. */
  lemma PasswordHasNoUpperBound(u: User, today: Date, isEmail: string -> bool, p: string)
    requires BeanValid(u, today, isEmail)
    requires |p| >= 3 && !IsBlank(p)
    ensures BeanValid(u.(password := Some(p)), today, isEmail)
  {
  }

  /** A birthday of today violates @Past. */
  lemma TodayIsNotPast(u: User, today: Date, isEmail: string -> bool)
    requires u.birthday == Some(today)
    ensures !BeanValid(u, today, isEmail)
    ensures "Birthday must be in the past" in Violations(u, today, isEmail)
  {
  }
}
