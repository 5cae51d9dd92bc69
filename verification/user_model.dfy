/** The rules of the User schema that run when a user is created or
    saved: required fields, the e-mail pattern, the password's minimum
    length, the role enumeration with its default, the avatar default, and
    the ten-minute validity of a password-reset token. Hashing, token
    signing and random bytes are calls into libraries outside the model. */
module UserModel {
  import opened Wrappers
  import Text

  // ---------------------------------------------------------------------
  // The e-mail pattern ^[a-zA-Z0-9.!#$%&'*+/=?^_`{|}~-]+@[a-zA-Z0-9-]+(?:\.[a-zA-Z0-9-]+)*$

  predicate IsAlnum(c: char) {
    ('a' <= c <= 'z') || ('A' <= c <= 'Z') || ('0' <= c <= '9')
  }

  /** The character class of the part before the `@`. */
  predicate IsLocalChar(c: char) {
    IsAlnum(c) || c in ".!#$%&'*+/=?^_`{|}~-"
  }

  /** The character class of a domain label. */
  predicate IsLabelChar(c: char) {
    IsAlnum(c) || c == '-'
  }

  predicate IsLocalPart(s: string) {
    |s| > 0 && forall k :: 0 <= k < |s| ==> IsLocalChar(s[k])
  }

  /** One or more non-empty labels separated by single dots: only label
      characters and dots, no dot first or last, no two dots in a row. */
  predicate IsDomain(d: string) {
    && |d| > 0
    && (forall k :: 0 <= k < |d| ==> IsLabelChar(d[k]) || d[k] == '.')
    && d[0] != '.' && d[|d| - 1] != '.'
    && (forall k :: 0 <= k < |d| - 1 ==> d[k] != '.' || d[k + 1] != '.')
  }

  /** The language of the pattern: a local part, one `@`, a domain. */
  predicate IsEmail(s: string) {
    exists i :: 0 < i < |s| && s[i] == '@' && IsLocalPart(s[..i]) && IsDomain(s[i + 1..])
  }

  /** Where the local-part character class stops, from `k` on. */
  function LocalStop(s: string, k: int): (e: int)
    requires 0 <= k <= |s|
    ensures k <= e <= |s|
    decreases |s| - k
  {
    if k == |s| || !IsLocalChar(s[k]) then k else LocalStop(s, k + 1)
  }

  lemma {:induction false} LocalStopAt(s: string, k: int, e: int)
    requires 0 <= k <= e <= |s|
    requires forall m :: k <= m < e ==> IsLocalChar(s[m])
    requires e == |s| || !IsLocalChar(s[e])
    ensures LocalStop(s, k) == e
    decreases e - k
  {
    if k < e {
      LocalStopAt(s, k + 1, e);
    }
  }

  /** The `@` of a match is where the local part stops, so a string
      matches exactly when the text after that point is a domain. */
  lemma EmailShape(s: string, i: int)
    requires i == LocalStop(s, 0)
    requires forall k :: 0 <= k < i ==> IsLocalChar(s[k])
    ensures IsEmail(s) <==> 0 < i < |s| && s[i] == '@' && IsDomain(s[i + 1..])
  {
    if IsEmail(s) {
      var i' :| 0 < i' < |s| && s[i'] == '@' && IsLocalPart(s[..i']) && IsDomain(s[i' + 1..]);
      WitnessIsStop(s, i');
    }
    if 0 < i < |s| && s[i] == '@' && IsDomain(s[i + 1..]) {
      assert IsLocalPart(s[..i]);
    }
  }

  lemma WitnessIsStop(s: string, i: int)
    requires 0 < i < |s| && s[i] == '@' && IsLocalPart(s[..i])
    ensures LocalStop(s, 0) == i
  {
    assert forall m :: 0 <= m < i ==> IsLocalChar(s[m]) by {
      assert forall m :: 0 <= m < i ==> s[..i][m] == s[m];
    }
    assert !IsLocalChar('@');
    LocalStopAt(s, 0, i);
  }

  /** The pattern test, one left-to-right pass: the local part runs up to
      the first character outside its class, which must be the `@`; the
      domain is then read label by label. */
  method MatchEmail(s: string) returns (ok: bool)
    ensures ok <==> IsEmail(s)
  {
    var i := 0;
    while i < |s| && IsLocalChar(s[i])
      invariant 0 <= i <= |s|
      invariant forall k :: 0 <= k < i ==> IsLocalChar(s[k])
    {
      i := i + 1;
    }
    LocalStopAt(s, 0, i);
    EmailShape(s, i);
    if i == 0 || i == |s| || s[i] != '@' {
      return false;
    }
    ok := MatchDomain(s[i + 1..]);
  }

  /** The part after the `@`, in one pass: labels of label characters,
      each non-empty, separated by single dots. */
  method MatchDomain(d: string) returns (ok: bool)
    ensures ok <==> IsDomain(d)
  {
    var j := 0;
    var atLabelStart := true;
    ok := true;
    while j < |d| && ok
      invariant 0 <= j <= |d|
      invariant ok ==> forall k :: 0 <= k < j ==> IsLabelChar(d[k]) || d[k] == '.'
      invariant ok && j > 0 ==> d[0] != '.'
      invariant ok ==> forall k :: 0 <= k < j - 1 ==> d[k] != '.' || d[k + 1] != '.'
      invariant ok ==> (atLabelStart <==> j == 0 || d[j - 1] == '.')
      invariant !ok ==> !IsDomain(d)
    {
      if d[j] == '.' {
        if atLabelStart {
          ok := false;
        } else {
          atLabelStart := true;
        }
      } else if IsLabelChar(d[j]) {
        atLabelStart := false;
      } else {
        ok := false;
      }
      j := j + 1;
    }
    ok := ok && !atLabelStart;
  }

  // ---------------------------------------------------------------------
  // The domain is a list of labels joined by dots

  predicate IsLabel(p: string) {
    |p| > 0 && forall k :: 0 <= k < |p| ==> IsLabelChar(p[k])
  }

  predicate AllLabels(labels: seq<string>) {
    forall k :: 0 <= k < |labels| ==> IsLabel(labels[k])
  }

  lemma DomainCons(l: string, r: string)
    requires IsLabel(l) && IsDomain(r)
    ensures IsDomain(l + "." + r)
  {
    var d := l + "." + r;
    assert forall k :: 0 <= k < |d| ==>
      d[k] == (if k < |l| then l[k] else if k == |l| then '.' else r[k - |l| - 1]);
    assert l[|l| - 1] != '.';
  }

  /** Non-empty labels joined by dots make a domain. */
  lemma {:induction false} DomainOfLabels(labels: seq<string>)
    requires |labels| > 0 && AllLabels(labels)
    ensures IsDomain(Text.Join(labels, "."))
    decreases |labels|
  {
    if |labels| == 1 {
      assert IsLabel(labels[0]);
    } else {
      DomainOfLabels(labels[1..]);
      assert IsLabel(labels[0]);
      DomainCons(labels[0], Text.Join(labels[1..], "."));
    }
  }

  /** Every dot-separated piece of a domain is a non-empty label. */
  lemma {:induction false} LabelsOfDomain(d: string)
    requires IsDomain(d)
    ensures AllLabels(Text.Split(d, '.'))
    decreases |d|
  {
    var rest := Text.Split(d[1..], '.');
    assert Text.Split(d, '.') == [[d[0]] + rest[0]] + rest[1..];
    if |d| == 1 {
      assert d[1..] == [];
      assert rest == [""];
      assert [d[0]] + rest[0] == [d[0]];
    } else if d[1] == '.' {
      var tail := d[2..];
      assert d[1..][1..] == tail;
      assert IsDomain(tail) by {
        assert forall k :: 0 <= k < |tail| ==> tail[k] == d[k + 2];
      }
      LabelsOfDomain(tail);
      assert rest == [""] + Text.Split(tail, '.');
      assert rest[0] == "" && rest[1..] == Text.Split(tail, '.');
      assert [d[0]] + rest[0] == [d[0]];
    } else {
      var tail := d[1..];
      assert IsDomain(tail) by {
        assert forall k :: 0 <= k < |tail| ==> tail[k] == d[k + 1];
      }
      LabelsOfDomain(tail);
      assert IsLabel(rest[0]);
    }
  }

  /** The domain part of the pattern is exactly the set of strings made by
      joining one or more non-empty labels with dots. */
  lemma DomainIsJoinedLabels(d: string)
    ensures IsDomain(d) <==> exists labels :: |labels| > 0 && AllLabels(labels) && d == Text.Join(labels, ".")
  {
    if IsDomain(d) {
      var labels := Text.Split(d, '.');
      LabelsOfDomain(d);
      Text.SplitJoinReplaces(d, '.', '.');
      assert Text.ReplaceChar(d, '.', '.') == d;
      assert d == Text.Join(labels, ".");
    }
    if exists labels :: |labels| > 0 && AllLabels(labels) && d == Text.Join(labels, ".") {
      var labels :| |labels| > 0 && AllLabels(labels) && d == Text.Join(labels, ".");
      DomainOfLabels(labels);
    }
  }

  // ---------------------------------------------------------------------
  // Schema validation and defaults

  const Roles: seq<string> := ["user", "publisher", "admin"]
  const DefaultRole: string := "user"
  const DefaultAvatar: string := "nopic.png"
  const MinPasswordLength: int := 6

  /** The fields of a new or changed user as handed to the schema; `None`
      is a missing field. */
  datatype UserInput = UserInput(
    name: Option<string>, email: Option<string>, password: Option<string>,
    avatar: Option<string>, role: Option<string>)

  /** A user that passed validation, defaults filled in. */
  datatype UserDoc = UserDoc(name: string, email: string, password: string, avatar: string, role: string)

  /** One failed rule: the schema path and the message. */
  datatype FieldError = FieldError(path: string, message: string)

  /** String length as JavaScript counts it, in UTF-16 code units: a
      character outside the Basic Multilingual Plane counts twice. */
  function Utf16Length(s: string): (n: nat)
    ensures n >= |s|
  {
    if s == [] then 0 else (if s[0] as int > 0xFFFF then 2 else 1) + Utf16Length(s[1..])
  }

  /** `required`: a string path fails when missing or empty. */
  predicate Present(v: Option<string>) {
    v.Some? && v.value != ""
  }

  function NameErrors(name: Option<string>): seq<FieldError> {
    if !Present(name) then [FieldError("name", "Name is required")] else []
  }

  function EmailErrors(email: Option<string>): seq<FieldError> {
    if !Present(email) then [FieldError("email", "Email is required")]
    else if !IsEmail(email.value) then [FieldError("email", "Please add a valid type of email")]
    else []
  }

  function PasswordErrors(password: Option<string>): seq<FieldError> {
    if !Present(password) then [FieldError("password", "Password is required")]
    else if Utf16Length(password.value) < MinPasswordLength then
      [FieldError("password", "Password must be at least 6 characters")]
    else []
  }

  /** The enum check runs after the default is applied. */
  function RoleErrors(role: Option<string>): seq<FieldError> {
    var r := role.GetOr(DefaultRole);
    if r !in Roles then [FieldError("role", "`" + r + "` is not a valid enum value for path `role`.")] else []
  }

  /** Validation of a user: defaults first, then every path's rules, the
      errors collected in schema order. */
  function Validate(u: UserInput): (r: Result<UserDoc, seq<FieldError>>)
    ensures r.Ok? <==> (Present(u.name) && Present(u.email) && IsEmail(u.email.value)
                        && Present(u.password) && Utf16Length(u.password.value) >= MinPasswordLength
                        && u.role.GetOr(DefaultRole) in Roles)
    ensures r.Ok? ==> (r.value.role in Roles && Utf16Length(r.value.password) >= 6
                       && r.value.name != "" && IsEmail(r.value.email))
    ensures r.Ok? ==> r.value.avatar == u.avatar.GetOr(DefaultAvatar) && r.value.role == u.role.GetOr(DefaultRole)
    ensures r.Ok? ==> r.value.name == u.name.value && r.value.email == u.email.value
                      && r.value.password == u.password.value
    ensures r.Err? ==> |r.error| > 0
    ensures !Present(u.name) ==> r.Err? && r.error[0] == FieldError("name", "Name is required")
  {
    var errors := NameErrors(u.name) + EmailErrors(u.email) + PasswordErrors(u.password) + RoleErrors(u.role);
    if errors != [] then Err(errors)
    else Ok(UserDoc(u.name.value, u.email.value, u.password.value, u.avatar.GetOr(DefaultAvatar), u.role.GetOr(DefaultRole)))
  }

  /** A stored user, handed back to the schema, validates to itself: the
      defaults are idempotent and validation changes nothing. */
  lemma ValidateIdempotent(u: UserInput)
    requires Validate(u).Ok?
    ensures var d := Validate(u).value;
      Validate(UserInput(Some(d.name), Some(d.email), Some(d.password), Some(d.avatar), Some(d.role))) == Ok(d)
  {
  }

  /** Without avatar and role a valid user gets `nopic.png` and `user`. */
  lemma Defaults(name: string, email: string, password: string)
    requires Validate(UserInput(Some(name), Some(email), Some(password), None, None)).Ok?
    ensures var d := Validate(UserInput(Some(name), Some(email), Some(password), None, None)).value;
      d.avatar == "nopic.png" && d.role == "user"
  {
  }

  /** Any password of six or more characters is long enough, whatever
      the characters; a shorter one can still pass when it has characters
      outside the Basic Multilingual Plane. */
  lemma {:induction false} Utf16LengthPerChar(s: string)
    ensures Utf16Length(s) <= 2 * |s|
    ensures (forall k :: 0 <= k < |s| ==> s[k] as int <= 0xFFFF) ==> Utf16Length(s) == |s|
    decreases |s|
  {
    if s != [] {
      Utf16LengthPerChar(s[1..]);
      assert forall k :: 0 <= k < |s| - 1 ==> s[1..][k] == s[k + 1];
    }
  }

  // ---------------------------------------------------------------------
  // Password reset expiry

  /** `Date.now() + 10 * 60 * 1000`: ten minutes after `now`, in ms. */
  function ResetExpiry(now: int): (expire: int)
    ensures expire - now == 600000
  {
    now + 10 * 60 * 1000
  }

  /** The reset handler's lookup: the stored expiry must be later than
      the time of the request (`resetPasswordExpire: { $gt: Date.now() }`). */
  predicate ResetStillValid(expire: int, now: int) {
    expire > now
  }

  /** A reset token works for requests less than ten minutes after it was
      issued, and for none later. */
  lemma ResetWindow(issued: int, now: int)
    ensures ResetStillValid(ResetExpiry(issued), now) <==> now - issued < 600000
  {
  }
}
