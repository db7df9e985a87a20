/** What the guard lets through, spelled out: the header, the role names and the roles of the route. */
module AuthScreening {
  import opened Options
  import opened Text
  import opened AuthCache

  // ---------- The header ----------

  /** A scheme, a space and a token; whatever follows a second space is ignored. */
  predicate Spells(header: string, scheme: string, token: string, rest: string) {
    header == scheme + " " + token + rest && token != "" && ' ' !in token && (rest == "" || rest[0] == ' ')
  }

  ghost predicate BearsToken(authorization: Option<string>) {
    authorization.Some? && exists token, rest :: Spells(authorization.value, "Bearer", token, rest)
  }

  lemma {:induction false} SplitTail(s: string, sep: char) returns (rest: string)
    requires |Split(s, sep)| > 1
    ensures s == Split(s, sep)[0] + [sep] + rest && Split(rest, sep) == Split(s, sep)[1..]
  {
    if s[0] == sep {
      rest := s[1..];
    } else {
      rest := SplitTail(s[1..], sep);
    }
  }

  lemma {:induction false} SplitOne(s: string, sep: char)
    requires |Split(s, sep)| == 1
    ensures Split(s, sep)[0] == s
  {
    if s != "" {
      SplitOne(s[1..], sep);
    }
  }

  lemma SpelledIsExtracted(header: string, scheme: string, token: string, rest: string)
    requires ' ' !in scheme && Spells(header, scheme, token, rest)
    ensures ExtractBearerToken(header, scheme) == Some(token)
  {
    assert header == scheme + [' '] + (token + rest);
    SplitField(scheme, ' ', token + rest);
    if rest == "" {
      assert token + rest == token;
      SplitSingle(token, ' ');
    } else {
      assert token + rest == token + [' '] + rest[1..];
      SplitField(token, ' ', rest[1..]);
    }
  }

  lemma ExtractedIsSpelled(header: string, scheme: string) returns (token: string, rest: string)
    requires ExtractBearerToken(header, scheme).Some?
    ensures Spells(header, scheme, token, rest)
  {
    var tail := SplitTail(header, ' ');
    token := Split(tail, ' ')[0];
    if |Split(tail, ' ')| > 1 {
      var more := SplitTail(tail, ' ');
      rest := [' '] + more;
    } else {
      SplitOne(tail, ' ');
      rest := "";
    }
    assert header == scheme + " " + token + rest;
  }

  lemma BearsIffExtracted(header: string)
    ensures ExtractBearerToken(header, BEARER).Some? <==> BearsToken(Some(header))
  {
    if ExtractBearerToken(header, BEARER).Some? {
      var token, rest := ExtractedIsSpelled(header, BEARER);
      assert Spells(header, "Bearer", token, rest);
    }
    if token, rest :| Spells(header, "Bearer", token, rest) {
      SpelledIsExtracted(header, BEARER, token, rest);
    }
  }

  // ---------- The claims ----------

  predicate KnownRole(claims: Option<Claims>) {
    claims.Some? && (claims.value.role == "admin" || claims.value.role == "user")
  }

  /** The account that verified claims name. */
  function Claimed(claims: Claims): AccountId {
    AccountId(if claims.role == "admin" then Admin else User, claims.userId)
  }

  lemma RoleNames(name: string)
    ensures CoerceRole(name) == if name == "admin" then Some(Admin) else if name == "user" then Some(User) else None
  {
  }

  /** A route without roles is open to every role. */
  predicate Allows(required: seq<Role>, role: Role) {
    |required| == 0 || exists i :: 0 <= i < |required| && required[i] == role
  }

  lemma ScreenAnswers(request: HttpRequest)
    ensures Screen(request) ==
              if request.isPublic then Stopped(Verdict.Public)
              else if !BearsToken(request.authorization) then Stopped(MissingToken)
              else if !KnownRole(request.claims) then Stopped(InvalidToken)
              else if !Allows(request.required, Claimed(request.claims.value).role) then Stopped(ForbiddenRole)
              else Asks(Claimed(request.claims.value))
  {
    if request.authorization.Some? {
      BearsIffExtracted(request.authorization.value);
    }
    if request.claims.Some? {
      RoleNames(request.claims.value.role);
    }
  }

  /** The request carries a verified token of the account, for a route open to its role. */
  ghost predicate Carries(request: HttpRequest, a: AccountId) {
    && !request.isPublic && BearsToken(request.authorization) && KnownRole(request.claims)
    && Claimed(request.claims.value) == a && Allows(request.required, a.role)
  }

  lemma CarriesIffAsks(request: HttpRequest, a: AccountId)
    ensures Screen(request) == Asks(a) <==> Carries(request, a)
  {
    ScreenAnswers(request);
  }

  // ---------- Writes ----------

  /** Which columns each write of a user's row changes, and that the others stay. */
  lemma UserWrites(db: Db, user: nat, active: bool, phone: string, completed: bool, photo: Option<string>, profile: Profile, key: string, dto: Profile)
    requires UserRow(db, user) == Some(UserAccount(active, phone, completed, photo, profile))
    ensures EffectOf(db, UploadPhoto(user, key))
         == Update(AccountId(User, user), UserAccount(active, phone, completed, Some(key), profile), false, None)
    ensures EffectOf(db, UpdateMe(user, dto, false))
         == Update(AccountId(User, user), UserAccount(active, phone, completed, photo, profile + dto), false, None)
    ensures EffectOf(db, CompleteProfile(user, dto, false)) ==
              if completed then NoWrite(Failed(ProfileAlreadyCompleted))
              else Update(AccountId(User, user), UserAccount(active, phone, true, photo, profile + dto), false, None)
    ensures EffectOf(db, Deactivate(user))
         == Update(AccountId(User, user), UserAccount(false, phone, completed, photo, profile), true, None)
    ensures EffectOf(db, Activate(user))
         == Update(AccountId(User, user), UserAccount(true, phone, completed, photo, profile), false, None)
  {
  }

  /** Likewise for an admin's row; a new name or password needs the current password and revokes the sessions. */
  lemma AdminWrites(db: Db, admin: nat, active: bool, name: string, photo: Option<string>, profile: Profile, key: string, changes: AdminChanges, current: string)
    requires AdminRow(db, admin) == Some(AdminAccount(active, name, photo, profile))
    ensures EffectOf(db, AdminUploadPhoto(admin, key))
         == Update(AccountId(Admin, admin), AdminAccount(active, name, Some(key), profile), false, None)
    ensures EffectOf(db, AdminUpdateMe(admin, changes, current)) ==
              if (changes.username.Some? || changes.password.Some?) && !(admin in db.passwords && db.passwords[admin] == current)
              then NoWrite(Failed(CurrentPasswordIncorrect))
              else if changes.username.Some? && changes.username.value != name && UsernameTakenBy(db.rows, changes.username.value, admin)
              then NoWrite(Failed(UsernameTaken))
              else Update(AccountId(Admin, admin),
                          AdminAccount(active, if changes.username.Some? then changes.username.value else name, photo, profile + changes.profile),
                          changes.username.Some? || changes.password.Some?, changes.password)
  {
  }

  /** Without the row every write of it is refused, a missing admin as bad credentials. */
  lemma MissingRows(db: Db, user: nat, key: string, dto: Profile, cityMissing: bool, changes: AdminChanges, current: string)
    ensures UserRow(db, user).None? ==>
              && EffectOf(db, UploadPhoto(user, key)) == NoWrite(Failed(NotFound))
              && EffectOf(db, UpdateMe(user, dto, cityMissing)) == NoWrite(Failed(if cityMissing then CityNotFound else NotFound))
              && EffectOf(db, CompleteProfile(user, dto, cityMissing)) == NoWrite(Failed(NotFound))
              && EffectOf(db, Deactivate(user)) == NoWrite(Failed(NotFound)) && EffectOf(db, Activate(user)) == NoWrite(Failed(NotFound))
    ensures AdminRow(db, user).None? ==>
              && EffectOf(db, AdminUploadPhoto(user, key)) == NoWrite(Failed(InvalidCredentials))
              && EffectOf(db, AdminUpdateMe(user, changes, current)) == NoWrite(Failed(InvalidCredentials))
  {
  }

  /** A phone without a row gets one: incomplete when the user signs up, complete when an admin creates it. */
  lemma NewUsers(db: Db, phone: string, dto: Profile, cityMissing: bool)
    ensures (forall a :: a in db.rows ==> !HasPhone(db.rows, a, phone)) ==>
              && EffectOf(db, FindOrCreate(phone)) == Create(UserAccount(true, phone, false, None, map[]))
              && EffectOf(db, CreateByAdmin(phone, dto, cityMissing)) ==
                   if cityMissing then NoWrite(Failed(CityNotFound)) else Create(UserAccount(true, phone, true, None, dto))
    ensures forall a :: Sound(db) && HasPhone(db.rows, a, phone) ==>
              && EffectOf(db, FindOrCreate(phone)) == NoWrite(Saved(db.rows[a], false))
              && EffectOf(db, CreateByAdmin(phone, dto, cityMissing)) == NoWrite(Failed(PhoneTaken))
  {
  }
}
