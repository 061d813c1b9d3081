/** The popup's login cache (popup.js): one record under a fixed key of the extension's
    local storage, which expires thirty minutes after it was written. Storage is a map and
    the clock is a parameter. */
module LoginCache {
  import opened Wrappers
  import opened Normalize

  /** The storage key of the record. */
  const LOGIN_CACHE_KEY := "provider_login_cache_v1"

  /** How long a record lives, in milliseconds: thirty minutes. */
  const LOGIN_CACHE_TTL_MS: int := 30 * 60 * 1000

  /** A stored record. A field is `None` when its key is absent; `password` is `Some` when
      the record still has the `Password` key of the old schema. */
  datatype CacheRecord = CacheRecord(
    username: Option<string>,
    accountType: Option<string>,
    provider: Option<string>,
    expiresAt: Option<int>,
    password: Option<string>)

  /** The extension's local storage. */
  type Store = map<string, CacheRecord>

  /** What `readLoginCache` leaves in storage and returns. */
  datatype ReadResult = ReadResult(store: Store, login: Option<CacheRecord>)

  /** `!cached.expiresAt || cached.expiresAt <= now`: a missing or zero expiry counts as
      expired. */
  predicate Expired(r: CacheRecord, now: int) {
    r.expiresAt.None? || r.expiresAt.value == 0 || r.expiresAt.value <= now
  }

  /** The two billing types a record may name; anything else reads as home internet. */
  function CleanAccountType(accountType: Option<string>): (t: string)
    ensures t == "mobile_internet" <==> accountType == Some("mobile_internet")
    ensures t == "mobile_internet" || t == "home_internet"
  {
    if accountType == Some("mobile_internet") then "mobile_internet" else "home_internet"
  }

  /** The record rewritten without its legacy `Password` field: the username trimmed, the
      billing type one of the two known ones, the provider a string, the expiry kept. */
  function Purged(r: CacheRecord): (c: CacheRecord)
    ensures c.password.None? && c.expiresAt == r.expiresAt
    ensures c.username.Some? && Trimmed(c.username.value)
    ensures c.username == Some(Trim(r.username.GetOr("")))
    ensures c.accountType.Some? && c.accountType.value in {"mobile_internet", "home_internet"}
    ensures c.accountType == Some(CleanAccountType(r.accountType))
    ensures c.accountType == Some("mobile_internet") <==> r.accountType == Some("mobile_internet")
    ensures c.provider == Some(r.provider.GetOr(""))
  {
    CacheRecord(Some(Trim(r.username.GetOr(""))), Some(CleanAccountType(r.accountType)),
                Some(r.provider.GetOr("")), r.expiresAt, None)
  }

  /** `readLoginCache` at time `now`: nothing when no record is stored; an expired record
      is removed; a legacy record is purged of its password and written back; any other
      record is returned as stored. */
  function ReadLoginCache(store: Store, now: int): (res: ReadResult)
    ensures LOGIN_CACHE_KEY !in store ==> res == ReadResult(store, None)
    ensures LOGIN_CACHE_KEY in store && Expired(store[LOGIN_CACHE_KEY], now) ==>
      res.login.None? && LOGIN_CACHE_KEY !in res.store
    ensures res.login.Some? ==>
      LOGIN_CACHE_KEY in res.store && res.store[LOGIN_CACHE_KEY] == res.login.value
      && res.login.value.password.None? && !Expired(res.login.value, now)
    ensures LOGIN_CACHE_KEY in store && !Expired(store[LOGIN_CACHE_KEY], now) ==>
      res.login == Some(if store[LOGIN_CACHE_KEY].password.Some? then Purged(store[LOGIN_CACHE_KEY])
                        else store[LOGIN_CACHE_KEY])
    ensures forall k | k != LOGIN_CACHE_KEY :: (k in res.store <==> k in store)
    ensures forall k | k != LOGIN_CACHE_KEY && k in store :: res.store[k] == store[k]
  {
    if LOGIN_CACHE_KEY !in store then ReadResult(store, None)
    else
      var cached := store[LOGIN_CACHE_KEY];
      if Expired(cached, now) then ReadResult(store - {LOGIN_CACHE_KEY}, None)
      else if cached.password.Some? then
        var cleaned := Purged(cached);
        ReadResult(store[LOGIN_CACHE_KEY := cleaned], Some(cleaned))
      else ReadResult(store, Some(cached))
  }

  /** The login the popup stores. */
  datatype Login = Login(username: string, accountType: string, provider: string)

  /** `saveLoginCache(login)` at time `now`: the login with an expiry thirty minutes on. */
  function SaveLoginCache(store: Store, login: Login, now: int): (s: Store)
    ensures LOGIN_CACHE_KEY in s && s[LOGIN_CACHE_KEY].password.None?
    ensures s[LOGIN_CACHE_KEY].expiresAt == Some(now + LOGIN_CACHE_TTL_MS)
    ensures forall k | k != LOGIN_CACHE_KEY :: (k in s <==> k in store)
    ensures forall k | k != LOGIN_CACHE_KEY && k in store :: s[k] == store[k]
  {
    store[LOGIN_CACHE_KEY := CacheRecord(Some(login.username), Some(login.accountType), Some(login.provider),
                                         Some(now + LOGIN_CACHE_TTL_MS), None)]
  }

  /** `persistLoginDraft`: the form is saved, username trimmed, unless the username is
      blank. */
  function PersistLoginDraft(store: Store, username: string, accountType: string, provider: string, now: int): (s: Store)
    ensures Trim(username) == "" ==> s == store
    ensures Trim(username) != "" ==>
      LOGIN_CACHE_KEY in s && s[LOGIN_CACHE_KEY].username == Some(Trim(username))
      && s[LOGIN_CACHE_KEY].expiresAt == Some(now + LOGIN_CACHE_TTL_MS)
  {
    var trimmed := Trim(username);
    if trimmed == "" then store else SaveLoginCache(store, Login(trimmed, accountType, provider), now)
  }

  /** A saved login is read back unchanged until it expires, and not afterwards, when it
      is removed. */
  lemma SaveThenRead(store: Store, login: Login, now: int, later: int)
    requires now + LOGIN_CACHE_TTL_MS != 0
    ensures var s := SaveLoginCache(store, login, now);
      later < now + LOGIN_CACHE_TTL_MS ==>
        ReadLoginCache(s, later) == ReadResult(s, Some(CacheRecord(Some(login.username), Some(login.accountType),
                                                                   Some(login.provider), Some(now + LOGIN_CACHE_TTL_MS), None)))
    ensures var s := SaveLoginCache(store, login, now);
      later >= now + LOGIN_CACHE_TTL_MS ==>
        ReadLoginCache(s, later).login.None? && LOGIN_CACHE_KEY !in ReadLoginCache(s, later).store
  {
  }

  /** Reading twice at the same time is reading once: the purge and the removal happen on
      the first read. */
  lemma ReadIdempotent(store: Store, now: int)
    ensures var first := ReadLoginCache(store, now);
      ReadLoginCache(first.store, now) == first
  {
  }

  /** A legacy record that has not expired comes back without its password, and the
      stored copy is the cleaned one. */
  lemma LegacyPasswordPurged(store: Store, now: int)
    requires LOGIN_CACHE_KEY in store && store[LOGIN_CACHE_KEY].password.Some?
    requires !Expired(store[LOGIN_CACHE_KEY], now)
    ensures ReadLoginCache(store, now).login == Some(Purged(store[LOGIN_CACHE_KEY]))
    ensures ReadLoginCache(store, now).store[LOGIN_CACHE_KEY].password.None?
    ensures ReadLoginCache(store, now).store[LOGIN_CACHE_KEY].username
         == Some(Trim(store[LOGIN_CACHE_KEY].username.GetOr("")))
    ensures ReadLoginCache(store, now).store[LOGIN_CACHE_KEY].expiresAt == store[LOGIN_CACHE_KEY].expiresAt
  {
  }
}
