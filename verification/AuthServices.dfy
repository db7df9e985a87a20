/** The cache service, the authentication guard and the account services as objects. */
module AuthServices {
  import opened Options
  import opened AuthCache

  class Database {
    var rows: map<AccountId, Account>
    var passwords: map<nat, string>
    var nextUser: nat

    constructor (db: Db)
      ensures State() == db
    {
      rows, passwords, nextUser := db.rows, db.passwords, db.nextUser;
    }

    function State(): Db
      reads this
    {
      Db(rows, passwords, nextUser)
    }
  }

  class CacheService {
    var driver: Driver

    constructor (driver: Driver)
      ensures this.driver == driver
    {
      this.driver := driver;
    }

    method Get(key: AccountId, now: int) returns (r: Option<Account>)
      ensures r == CacheGet(driver, key, now)
    {
      r := CacheGet(driver, key, now);
    }

    /** The key answers with the value for the time to live, and no other key is touched. */
    method Set(key: AccountId, value: Account, now: int)
      modifies this
      ensures driver == CacheSet(old(driver), key, value, now)
      ensures forall later :: CacheGet(driver, key, later) ==
                if driver.Redis? && later < now + AUTH_USER_SECONDS * 1000 then Some(value) else None
      ensures forall other, later :: other != key ==> CacheGet(driver, other, later) == CacheGet(old(driver), other, later)
    {
      driver := CacheSet(driver, key, value, now);
    }

    /** The key no longer answers at any instant, and no other key is touched. */
    method Delete(key: AccountId)
      modifies this
      ensures driver == CacheDelete(old(driver), key)
      ensures forall later :: CacheGet(driver, key, later).None?
      ensures forall other, later :: other != key ==> CacheGet(driver, other, later) == CacheGet(old(driver), other, later)
    {
      driver := CacheDelete(driver, key);
    }

    method GetOrSet(key: AccountId, factory: () -> Option<Account>, now: int) returns (r: Option<Account>)
      modifies this
      ensures (driver, r) == ReadThrough(old(driver), key, factory(), now)
    {
      var cached := Get(key, now);
      if cached.Some? {
        return cached;
      }
      var loaded := factory();
      if loaded.Some? {
        Set(key, loaded.value, now);
      }
      return loaded;
    }
  }

  class JwtAuthGuard {
    const db: Database
    const cache: CacheService

    constructor (db: Database, cache: CacheService)
      ensures this.db == db && this.cache == cache
    {
      this.db, this.cache := db, cache;
    }

    method CanActivate(request: HttpRequest, now: int) returns (verdict: Verdict)
      modifies cache
      ensures (World(db.State(), cache.driver), Judged(verdict)) == Guarded(World(db.State(), old(cache.driver)), request, now)
    {
      if request.isPublic {
        return Public;
      }
      if request.authorization.None? || ExtractBearerToken(request.authorization.value, BEARER).None? {
        return MissingToken;
      }
      if request.claims.None? {
        return InvalidToken;
      }
      var role := CoerceRole(request.claims.value.role);
      if role.None? {
        return InvalidToken;
      }
      if request.required != [] && role.value !in request.required {
        return ForbiddenRole;
      }
      var a := AccountId(role.value, request.claims.value.userId);
      var rows := db.rows;
      var user := cache.GetOrSet(a, () => Lookup(rows, a), now);
      if user.None? {
        return AccountNotFound;
      }
      if !user.value.isActive {
        return AccountDisabled;
      }
      return Admitted(user.value);
    }
  }

  class UserService {
    const db: Database
    const cache: CacheService

    constructor (db: Database, cache: CacheService)
      ensures this.db == db && this.cache == cache
    {
      this.db, this.cache := db, cache;
    }

    ghost function Current(): World
      reads this, db, cache
    {
      World(db.State(), cache.driver)
    }

    method MergeAndSave(user: nat, account: Account)
      modifies db
      ensures db.State() == old(db.State()).(rows := old(db.rows)[AccountId(User, user) := account])
    {
      db.rows := db.rows[AccountId(User, user) := account];
    }

    method InvalidateAuthCache(user: nat)
      modifies cache
      ensures cache.driver == CacheDelete(old(cache.driver), AccountId(User, user))
    {
      cache.Delete(AccountId(User, user));
    }

    method Save(account: Account)
      modifies db
      ensures db.State() == old(db.State()).(rows := old(db.rows)[AccountId(User, old(db.nextUser)) := account], nextUser := old(db.nextUser) + 1)
    {
      db.rows := db.rows[AccountId(User, db.nextUser) := account];
      db.nextUser := db.nextUser + 1;
    }

    method FindByPhone(phone: string) returns (r: Option<AccountId>)
      requires Sound(db.State())
      ensures r == PhoneOwner(db.rows, phone)
    {
      if a :| a in db.rows && HasPhone(db.rows, a, phone) {
        r := Some(a);
      } else {
        r := None;
      }
    }

    method UploadPhoto(user: nat, key: string) returns (r: Outcome)
      modifies db, cache
      ensures (Current(), r) == Written(old(Current()), EffectOf(old(db.State()), Call.UploadPhoto(user, key)))
    {
      var current := UserRow(db.State(), user);
      if current.None? {
        return Failed(NotFound);
      }
      var saved := WithPhoto(current.value, key);
      MergeAndSave(user, saved);
      InvalidateAuthCache(user);
      return Saved(saved, false);
    }

    method UpdateMe(user: nat, dto: Profile, cityMissing: bool) returns (r: Outcome)
      modifies db, cache
      ensures (Current(), r) == Written(old(Current()), EffectOf(old(db.State()), Call.UpdateMe(user, dto, cityMissing)))
    {
      if cityMissing {
        return Failed(CityNotFound);
      }
      var current := UserRow(db.State(), user);
      if current.None? {
        return Failed(NotFound);
      }
      var saved := Merged(current.value, dto);
      MergeAndSave(user, saved);
      InvalidateAuthCache(user);
      return Saved(saved, false);
    }

    method CompleteProfile(user: nat, dto: Profile, cityMissing: bool) returns (r: Outcome)
      modifies db, cache
      ensures (Current(), r) == Written(old(Current()), EffectOf(old(db.State()), Call.CompleteProfile(user, dto, cityMissing)))
    {
      var current := UserRow(db.State(), user);
      if current.None? {
        return Failed(NotFound);
      }
      if current.value.isProfileCompleted {
        return Failed(ProfileAlreadyCompleted);
      }
      if cityMissing {
        return Failed(CityNotFound);
      }
      var saved := Completed(current.value, dto);
      MergeAndSave(user, saved);
      InvalidateAuthCache(user);
      return Saved(saved, false);
    }

    /** The refresh tokens of a deactivated user are revoked between the two writes. */
    method DeactivateByAdmin(user: nat) returns (r: Outcome)
      modifies db, cache
      ensures (Current(), r) == Written(old(Current()), EffectOf(old(db.State()), Deactivate(user)))
    {
      var current := UserRow(db.State(), user);
      if current.None? {
        return Failed(NotFound);
      }
      var updated := WithActive(current.value, false);
      MergeAndSave(user, updated);
      InvalidateAuthCache(user);
      return Saved(updated, true);
    }

    method ActivateByAdmin(user: nat) returns (r: Outcome)
      modifies db, cache
      ensures (Current(), r) == Written(old(Current()), EffectOf(old(db.State()), Activate(user)))
    {
      var current := UserRow(db.State(), user);
      if current.None? {
        return Failed(NotFound);
      }
      var updated := WithActive(current.value, true);
      MergeAndSave(user, updated);
      InvalidateAuthCache(user);
      return Saved(updated, false);
    }

    method FindOneOrCreateByPhone(phone: string) returns (r: Outcome)
      requires Sound(db.State())
      modifies db
      ensures (Current(), r) == Written(old(Current()), EffectOf(old(db.State()), FindOrCreate(phone)))
    {
      var existing := FindByPhone(phone);
      if existing.Some? {
        return Saved(db.rows[existing.value], false);
      }
      var created := UserAccount(true, phone, false, None, map[]);
      Save(created);
      return Saved(created, false);
    }

    method CreateByAdmin(phone: string, dto: Profile, cityMissing: bool) returns (r: Outcome)
      requires Sound(db.State())
      modifies db
      ensures (Current(), r) == Written(old(Current()), EffectOf(old(db.State()), Call.CreateByAdmin(phone, dto, cityMissing)))
    {
      var existing := FindByPhone(phone);
      if existing.Some? {
        return Failed(PhoneTaken);
      }
      if cityMissing {
        return Failed(CityNotFound);
      }
      var user := UserAccount(true, phone, true, None, dto);
      Save(user);
      return Saved(user, false);
    }
  }

  class AdminService {
    const db: Database
    const cache: CacheService

    constructor (db: Database, cache: CacheService)
      ensures this.db == db && this.cache == cache
    {
      this.db, this.cache := db, cache;
    }

    ghost function Current(): World
      reads this, db, cache
    {
      World(db.State(), cache.driver)
    }

    method UploadPhoto(admin: nat, key: string) returns (r: Outcome)
      modifies db, cache
      ensures (Current(), r) == Written(old(Current()), EffectOf(old(db.State()), AdminUploadPhoto(admin, key)))
    {
      var current := AdminRow(db.State(), admin);
      if current.None? {
        return Failed(InvalidCredentials);
      }
      var saved := WithPhoto(current.value, key);
      db.rows := db.rows[AccountId(Admin, admin) := saved];
      cache.Delete(AccountId(Admin, admin));
      return Saved(saved, false);
    }

    method UpdateMe(admin: nat, changes: AdminChanges, currentPassword: string) returns (r: Outcome)
      modifies db, cache
      ensures (Current(), r) == Written(old(Current()), EffectOf(old(db.State()), AdminUpdateMe(admin, changes, currentPassword)))
    {
      var isChangingCredentials := changes.username.Some? || changes.password.Some?;
      var current := AdminRow(db.State(), admin);
      if current.None? {
        return Failed(InvalidCredentials);
      }
      if isChangingCredentials && !(admin in db.passwords && db.passwords[admin] == currentPassword) {
        return Failed(CurrentPasswordIncorrect);
      }
      var username := current.value.username;
      if changes.username.Some? && changes.username.value != current.value.username {
        username := changes.username.value;
        if a :| a in db.rows && a.role == Admin && db.rows[a].AdminAccount? && db.rows[a].username == username && a.id != admin {
          return Failed(UsernameTaken);
        }
      }
      var saved := Renamed(Merged(current.value, changes.profile), username);
      db.rows := db.rows[AccountId(Admin, admin) := saved];
      if changes.password.Some? {
        db.passwords := db.passwords[admin := changes.password.value];
      }
      cache.Delete(AccountId(Admin, admin));
      return Saved(saved, isChangingCredentials);
    }
  }
}
