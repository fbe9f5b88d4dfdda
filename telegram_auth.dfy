/**
 * The password login of telegram_auth.py: the in-memory table of failed
 * attempts per Telegram user, the ten-minute block after five failures,
 * and the login sequence that checks the block, compares the password and
 * then records a failure or clears the user's entry and upserts the user
 * into the `telegram_auth` collection.
 *
 * Time is whole seconds, passed in as `now`. The `AUTH_PASSWORD`
 * environment variable is the parameter `authPassword` (`None` when unset).
 * `storeFails` makes every access to the collection raise.
 */
module TelegramAuth {
  import opened Wrappers

  const MaxFailedAttempts: int := 5
  const BlockSeconds: int := 10 * 60

  /** One entry of `failed_attempts`. */
  datatype Attempts = Attempts(count: int, blockedUntil: int)

  type AttemptTable = map<int, Attempts>

  /** `u` has reached the limit and its block has not run out at `now`. */
  predicate IsBlocked(t: AttemptTable, u: int, now: int) {
    u in t && t[u].count >= MaxFailedAttempts && now < t[u].blockedUntil
  }

  /** `u` has reached the limit and its block has run out at `now`. */
  predicate BlockExpired(t: AttemptTable, u: int, now: int) {
    u in t && t[u].count >= MaxFailedAttempts && now >= t[u].blockedUntil
  }

  /** Every entry counts between one and five failures. */
  predicate CountsBounded(t: AttemptTable) {
    forall v :: v in t ==> 1 <= t[v].count <= MaxFailedAttempts
  }

  /** The table after `check_rate_limit(u)` at `now`: an expired block is deleted, nothing else changes. */
  function AfterCheck(t: AttemptTable, u: int, now: int): (r: AttemptTable)
    ensures BlockExpired(t, u, now) ==> r.Keys == t.Keys - {u}
    ensures !BlockExpired(t, u, now) ==> r == t
    ensures forall v :: v in r ==> v in t && r[v] == t[v]
    ensures !IsBlocked(t, u, now) ==> u !in r || r[u].count < MaxFailedAttempts
  {
    if BlockExpired(t, u, now) then t - {u} else t
  }

  /**
   * The table after `record_failed_attempt(u)` at `now`: a missing entry
   * starts at zero, the count rises by one, and from five on the block
   * runs until ten minutes after `now`.
   */
  function AfterFailure(t: AttemptTable, u: int, now: int): (r: AttemptTable)
    ensures r.Keys == t.Keys + {u}
    ensures r[u].count == (if u in t then t[u].count else 0) + 1
    ensures r[u].count >= MaxFailedAttempts ==> r[u].blockedUntil == now + BlockSeconds
    ensures r[u].count < MaxFailedAttempts ==> r[u].blockedUntil == (if u in t then t[u].blockedUntil else 0)
    ensures forall v :: v in t && v != u ==> r[v] == t[v]
  {
    var previous := if u in t then t[u] else Attempts(0, 0);
    var count := previous.count + 1;
    t[u := Attempts(count, if count >= MaxFailedAttempts then now + BlockSeconds else previous.blockedUntil)]
  }

  /** The table after `clear_failed_attempts(u)`: `u` has no entry, every other entry is kept. */
  function Cleared(t: AttemptTable, u: int): (r: AttemptTable)
    ensures r.Keys == t.Keys - {u}
    ensures forall v :: v in r ==> r[v] == t[v]
  {
    t - {u}
  }

  lemma ClearIdempotent(t: AttemptTable, u: int)
    ensures Cleared(Cleared(t, u), u) == Cleared(t, u)
    ensures u !in t ==> Cleared(t, u) == t
  {
  }

  /**
   * `get_remaining_block_time(u)`: `None` unless `u` has reached the limit,
   * otherwise the seconds left until the block ends, never negative.
   */
  function RemainingBlockTime(t: AttemptTable, u: int, now: int): (r: Option<int>)
    ensures r.None? <==> !(u in t && t[u].count >= MaxFailedAttempts)
    ensures r.Some? ==> r.value >= 0 && r.value >= t[u].blockedUntil - now
    ensures r.Some? && r.value > 0 ==> r.value == t[u].blockedUntil - now
  {
    if u in t && t[u].count >= MaxFailedAttempts then
      var remaining := t[u].blockedUntil - now;
      Some(if remaining > 0 then remaining else 0)
    else None
  }

  /** A positive remaining time is shown exactly when the login would be refused. */
  lemma RemainingTimeAgreesWithBlock(t: AttemptTable, u: int, now: int)
    ensures IsBlocked(t, u, now) <==> RemainingBlockTime(t, u, now).Some? && RemainingBlockTime(t, u, now).value > 0
  {
  }

  /** The fifth failure blocks `u` for the next ten minutes and no longer. */
  lemma FifthFailureBlocks(t: AttemptTable, u: int, now: int, later: int)
    requires u in t && t[u].count == MaxFailedAttempts - 1
    ensures now <= later < now + BlockSeconds ==> IsBlocked(AfterFailure(t, u, now), u, later)
    ensures later >= now + BlockSeconds ==> BlockExpired(AfterFailure(t, u, now), u, later)
  {
  }

  // ------------------------------------------------------------- users

  /** The fields of a `telegram_auth` document the model keeps: the key and the optional names. */
  datatype UserRecord = UserRecord(telegramUserId: int, username: Option<string>, firstName: Option<string>)

  /** What the Telegram user object offers: each name may be missing. */
  datatype UserInfo = UserInfo(username: Option<string>, firstName: Option<string>)

  type UserTable = map<int, UserRecord>

  /** `hasattr(info, f) and info.f`: present and not empty. */
  predicate Given(field: Option<string>) {
    field.Some? && field.value != ""
  }

  /**
   * A field under `$set`: replaced when given, otherwise the stored value
   * stays; a stored name is never erased, and no value is made up.
   */
  function SetField(stored: Option<string>, given: Option<string>): (r: Option<string>)
    ensures Given(given) ==> r == given
    ensures !Given(given) ==> r == stored
    ensures r == given || r == stored
    ensures Given(stored) || Given(given) <==> Given(r)
  {
    if Given(given) then given else stored
  }

  /** `update_one({"telegram_user_id": u}, {"$set": ...}, upsert=True)`. */
  function UpsertUser(users: UserTable, u: int, info: UserInfo): (r: UserTable)
    ensures r.Keys == users.Keys + {u}
    ensures r[u].telegramUserId == u
    ensures r[u].username == SetField(if u in users then users[u].username else None, info.username)
    ensures r[u].firstName == SetField(if u in users then users[u].firstName else None, info.firstName)
    ensures forall v :: v in users && v != u ==> r[v] == users[v]
  {
    var stored := if u in users then users[u] else UserRecord(u, None, None);
    users[u := UserRecord(u, SetField(stored.username, info.username), SetField(stored.firstName, info.firstName))]
  }

  /** Every record sits under its own Telegram id, so the collection holds at most one record per user. */
  predicate KeyedById(users: UserTable) {
    forall v :: v in users ==> users[v].telegramUserId == v
  }

  lemma UpsertUserKeyedById(users: UserTable, u: int, info: UserInfo)
    requires KeyedById(users)
    ensures KeyedById(UpsertUser(users, u, info))
  {
  }

  /** A second login without names keeps the names the first one stored. */
  lemma UpsertUserKeepsNames(users: UserTable, u: int, first: UserInfo, second: UserInfo)
    requires !Given(second.username) && !Given(second.firstName)
    ensures UpsertUser(UpsertUser(users, u, first), u, second) == UpsertUser(users, u, first)
  {
    var once := UpsertUser(users, u, first);
    assert UpsertUser(once, u, second)[u] == once[u];
  }

  /** `is_telegram_user_authenticated(u)`: a record for `u` exists and the collection can be read. */
  function IsUserAuthenticated(users: UserTable, u: int, storeFails: bool): (r: bool)
    ensures r <==> !storeFails && u in users
  {
    !storeFails && u in users
  }

  // ------------------------------------------------------------- login

  datatype AuthState = AuthState(attempts: AttemptTable, users: UserTable)

  datatype AuthOutcome = AuthOutcome(ok: bool, state: AuthState)

  /** `not auth_password or password != auth_password` is false: a password is set and matches. */
  predicate PasswordAccepted(password: string, authPassword: Option<string>) {
    authPassword.Some? && authPassword.value != "" && password == authPassword.value
  }

  /**
   * `authenticate_telegram_user(u, password, info)` at `now`: a blocked
   * user is refused and nothing is recorded; a wrong or unset password
   * records exactly one failure; the right one clears the user's entry,
   * upserts the user's record and succeeds unless the collection fails.
   */
  function Authenticate(s: AuthState, u: int, password: string, info: UserInfo,
                        authPassword: Option<string>, now: int, storeFails: bool): (r: AuthOutcome)
    ensures IsBlocked(s.attempts, u, now) ==> r == AuthOutcome(false, s)
    ensures !IsBlocked(s.attempts, u, now) && !PasswordAccepted(password, authPassword) ==>
              && !r.ok && r.state.users == s.users
              && r.state.attempts == AfterFailure(AfterCheck(s.attempts, u, now), u, now)
    ensures !IsBlocked(s.attempts, u, now) && PasswordAccepted(password, authPassword) ==>
              && r.ok == !storeFails
              && r.state.attempts == Cleared(s.attempts, u)
              && r.state.users == (if storeFails then s.users else UpsertUser(s.users, u, info))
    ensures r.ok <==> !IsBlocked(s.attempts, u, now) && PasswordAccepted(password, authPassword) && !storeFails
  {
    if IsBlocked(s.attempts, u, now) then AuthOutcome(false, s)
    else
      var checked := AfterCheck(s.attempts, u, now);
      if !PasswordAccepted(password, authPassword) then
        AuthOutcome(false, AuthState(AfterFailure(checked, u, now), s.users))
      else
        assert Cleared(checked, u) == Cleared(s.attempts, u);
        if storeFails then AuthOutcome(false, AuthState(Cleared(checked, u), s.users))
        else AuthOutcome(true, AuthState(Cleared(checked, u), UpsertUser(s.users, u, info)))
  }

  /** Driven only by logins, no entry ever counts more than five failures or fewer than one. */
  lemma AuthenticateKeepsCountsBounded(s: AuthState, u: int, password: string, info: UserInfo,
                                       authPassword: Option<string>, now: int, storeFails: bool)
    requires CountsBounded(s.attempts)
    ensures CountsBounded(Authenticate(s, u, password, info, authPassword, now, storeFails).state.attempts)
  {
    if !IsBlocked(s.attempts, u, now) && !PasswordAccepted(password, authPassword) {
      var checked := AfterCheck(s.attempts, u, now);
      assert u !in checked || checked[u].count < MaxFailedAttempts;
    }
  }

  /** A successful login lets the user through and leaves no failure on record. */
  lemma SuccessfulLoginAuthenticates(s: AuthState, u: int, password: string, info: UserInfo,
                                     authPassword: Option<string>, now: int, later: int)
    requires !IsBlocked(s.attempts, u, now) && PasswordAccepted(password, authPassword)
    ensures var r := Authenticate(s, u, password, info, authPassword, now, false);
            r.ok && IsUserAuthenticated(r.state.users, u, false)
            && !IsBlocked(r.state.attempts, u, later) && RemainingBlockTime(r.state.attempts, u, later).None?
  {
  }

  /** After a block has run out, a wrong password starts the count afresh. */
  lemma ExpiredBlockRestartsCount(s: AuthState, u: int, password: string, info: UserInfo,
                                  authPassword: Option<string>, now: int, storeFails: bool)
    requires BlockExpired(s.attempts, u, now) && !PasswordAccepted(password, authPassword)
    ensures Authenticate(s, u, password, info, authPassword, now, storeFails).state.attempts[u] == Attempts(1, 0)
  {
  }

  /** The state after `k` logins with a wrong password, all at `now`. */
  function WrongLogins(s: AuthState, u: int, password: string, info: UserInfo,
                       authPassword: Option<string>, now: int, k: nat): AuthState
    decreases k
  {
    if k == 0 then s
    else Authenticate(WrongLogins(s, u, password, info, authPassword, now, k - 1),
                      u, password, info, authPassword, now, false).state
  }

  /**
   * Starting without an entry, `k` wrong passwords in the same second count
   * `k` failures up to five; from the fifth on the user is blocked and the
   * count stays at five.
   */
  lemma {:induction false} RepeatedWrongLogins(s: AuthState, u: int, password: string, info: UserInfo,
                                               authPassword: Option<string>, now: int, k: nat)
    requires u !in s.attempts && !PasswordAccepted(password, authPassword)
    ensures var t := WrongLogins(s, u, password, info, authPassword, now, k).attempts;
            && (k > 0 ==> u in t && t[u].count == (if k < MaxFailedAttempts then k else MaxFailedAttempts))
            && (k >= MaxFailedAttempts <==> IsBlocked(t, u, now))
    ensures WrongLogins(s, u, password, info, authPassword, now, k).users == s.users
  {
    if k > 0 {
      RepeatedWrongLogins(s, u, password, info, authPassword, now, k - 1);
    }
  }

  // --------------------------------------------------------- the service

  /** The module state of telegram_auth.py: `failed_attempts` and the `telegram_auth` collection. */
  class AuthService {
    var failedAttempts: AttemptTable
    var users: UserTable

    function State(): AuthState
      reads this
    {
      AuthState(failedAttempts, users)
    }

    /** A fresh process: no failed attempts, whatever the collection already holds. */
    constructor (users: UserTable)
      ensures failedAttempts == map[] && this.users == users
    {
      failedAttempts := map[];
      this.users := users;
    }

    /** `check_rate_limit(u)` at `now`. */
    method CheckRateLimit(u: int, now: int) returns (allowed: bool)
      modifies this
      ensures allowed <==> !IsBlocked(old(failedAttempts), u, now)
      ensures failedAttempts == AfterCheck(old(failedAttempts), u, now)
      ensures users == old(users)
    {
      if u in failedAttempts {
        var attempts := failedAttempts[u];
        if attempts.count >= MaxFailedAttempts {
          if now < attempts.blockedUntil {
            return false;
          } else {
            failedAttempts := failedAttempts - {u};
          }
        }
      }
      return true;
    }

    /** `record_failed_attempt(u)` at `now`. */
    method RecordFailedAttempt(u: int, now: int)
      modifies this
      ensures failedAttempts == AfterFailure(old(failedAttempts), u, now)
      ensures users == old(users)
    {
      if u !in failedAttempts {
        failedAttempts := failedAttempts[u := Attempts(0, 0)];
      }
      var attempts := failedAttempts[u];
      failedAttempts := failedAttempts[u := attempts.(count := attempts.count + 1)];
      if failedAttempts[u].count >= MaxFailedAttempts {
        failedAttempts := failedAttempts[u := failedAttempts[u].(blockedUntil := now + BlockSeconds)];
      }
    }

    /** `clear_failed_attempts(u)`. */
    method ClearFailedAttempts(u: int)
      modifies this
      ensures failedAttempts == Cleared(old(failedAttempts), u)
      ensures users == old(users)
    {
      if u in failedAttempts {
        failedAttempts := failedAttempts - {u};
      }
    }

    /** `authenticate_telegram_user(u, password, info)` at `now`. */
    method AuthenticateTelegramUser(u: int, password: string, info: UserInfo,
                                    authPassword: Option<string>, now: int, storeFails: bool)
      returns (ok: bool)
      modifies this
      ensures AuthOutcome(ok, State()) == Authenticate(old(State()), u, password, info, authPassword, now, storeFails)
    {
      var allowed := CheckRateLimit(u, now);
      if !allowed {
        return false;
      }
      if authPassword.None? || authPassword.value == "" || password != authPassword.value {
        RecordFailedAttempt(u, now);
        return false;
      }
      ClearFailedAttempts(u);
      if storeFails {
        return false;
      }
      users := UpsertUser(users, u, info);
      return true;
    }
  }
}
