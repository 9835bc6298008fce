/** The key-value session backend (`SessionDriver/Redis.php`). Three key families share the
    `USER_SESSION` prefix: one hash per session under `USER_SESSION:<id>`, one hash
    `USER_SESSION_MAP` from account id to that account's primary session key, and one
    integer marker `USER_SESSION_LIVE:<account>` per account seen in a request. The driver
    instance keeps the session fields it last wrote or read (`_data`); once a session has
    been resolved the instance is memoised for the rest of the request. */
module KeyValueStore {
  import opened Outcomes
  import Text
  import Payload
  import Driver
  import Account
  import opened Keyspace

  const PREFIX: string := "USER_SESSION"
  const SESSION_PREFIX: string := "USER_SESSION:"
  const LIVE_SESSION: string := "USER_SESSION_LIVE:"
  const MAP_KEY: string := "USER_SESSION_MAP"

  /** The fields `getSession` reads back, in order. */
  const FIELDS: seq<string> := ["id", "auth_account_id", "ip", "shadow_session", "data"]

  /** One request against one driver instance: the clock, the client address, the cookie
      jar, the instance's `_data` and whether `self::$session` holds the instance. */
  datatype Ctx = Ctx(now: int, ip: string, cookie: Option<Driver.Cookie>,
                     data: map<string, Payload.Blob>, cached: bool)

  type Step<T> = Driver.Step<Store, Ctx, T>

  /** The storage key of a session id. */
  function SessionKey(sessionId: string): (k: string)
    ensures SESSION_PREFIX <= k && k[|SESSION_PREFIX|..] == sessionId
  {
    SESSION_PREFIX + sessionId
  }

  /** The key `getSession` looks up: the session prefix and the cookie value, a missing
      cookie reading as "". */
  function CookieKey(ctx: Ctx): (k: string)
    ensures ctx.cookie.Some? ==> k == SessionKey(ctx.cookie.value.value)
    ensures ctx.cookie.None? ==> k == SESSION_PREFIX
  {
    var cookie := Driver.GetCookie(ctx.cookie);
    SessionKey(if cookie.Some? then cookie.value else "")
  }

  /** The live marker of an account. */
  function LiveKey(account: string): (k: string)
    ensures LIVE_SESSION <= k && k[|LIVE_SESSION|..] == account
  {
    LIVE_SESSION + account
  }

  /** `$session->name` read as a string: a field of the instance's `_data`, "" when unset. */
  function Field(ctx: Ctx, name: string): (s: string)
    ensures name in ctx.data && ctx.data[name].Text? ==> s == ctx.data[name].s
    ensures name !in ctx.data ==> s == ""
  {
    Str(if name in ctx.data then Some(ctx.data[name]) else None)
  }

  /** The `$data` array `createNew` writes, in order: the full key, the account, the client
      address, the shadow flag as 1 or 0, and an empty payload. */
  function NewPairs(key: string, account: string, ip: string, shadow: bool): (p: seq<(string, Payload.Blob)>)
    ensures |p| == |FIELDS| && forall i :: 0 <= i < |p| ==> p[i].0 == FIELDS[i]
  {
    [("id", Payload.Text(key)), ("auth_account_id", Payload.Text(account)), ("ip", Payload.Text(ip)),
     ("shadow_session", Payload.Text(if shadow then "1" else "0")), ("data", Payload.Text(""))]
  }

  /** The non-shadow half of `createNew`: delete the key the map holds for the account when
      that value is truthy, then point the map at the new key. */
  function Repoint(ks: Store, now: int, account: string, key: string): (r: Store)
    ensures var prior := Str(HGet(ks, now, MAP_KEY, account));
      && (Text.Truthy(prior) && prior != MAP_KEY ==> prior !in r)
      && (forall j :: j != MAP_KEY && j != prior ==> (j in r <==> j in ks) && (j in r ==> r[j] == ks[j]))
    ensures !(Alive(ks, now, MAP_KEY) && ks[MAP_KEY].value.Num?) ==>
      HGet(r, now, MAP_KEY, account) == Some(Payload.Text(key))
  {
    var prior := Str(HGet(ks, now, MAP_KEY, account));
    var cleared := if Text.Truthy(prior) then Del(ks, prior) else ks;
    HSet(cleared, now, MAP_KEY, account, Payload.Text(key))
  }

  /** `createNew`: a primary session first evicts the account's previous primary through
      the map and takes its place there; then the new hash is written and given the expiry
      `now + (ttl ?: sessionTTL)` — an absolute instant passed where the server expects a
      number of seconds, so the key lives until twice now plus the ttl. The cookie is bound
      to the bare id and the instance keeps the written fields; the memo is untouched. */
  function CreateNew(ks: Store, ctx: Ctx, cfg: Driver.Config, account: string, ttl: Option<int>,
                     shadow: bool, sessionId: string): (s: Step<()>)
    ensures s.ctx == ctx.(cookie := Some(Driver.SetCookie(sessionId, ctx.now + Driver.EffectiveTTL(ttl, cfg.sessionTTL))),
                          data := ToMap(NewPairs(SessionKey(sessionId), account, ctx.ip, shadow)))
  {
    var key := SessionKey(sessionId);
    var expireTime := Driver.ExpireTime(ctx.now, ttl, cfg);
    var mapped := if shadow then ks else Repoint(ks, ctx.now, account, key);
    var pairs := NewPairs(key, account, ctx.ip, shadow);
    var written := Expire(HSetAll(mapped, ctx.now, key, pairs), ctx.now, key, expireTime);
    Driver.Step(written, ctx.(cookie := Some(Driver.SetCookie(sessionId, expireTime)), data := ToMap(pairs)), ())
  }

  /** The fields of a session hash that are set, as `getSession` reads them one by one. */
  function ReadFields(ks: Store, now: int, key: string): (m: map<string, Payload.Blob>)
    ensures forall f :: f in m <==> f in FIELDS && HGet(ks, now, key, f).Some?
    ensures forall f :: f in m ==> HGet(ks, now, key, f) == Some(m[f])
  {
    map f | f in FIELDS && HGet(ks, now, key, f).Some? :: HGet(ks, now, key, f).value
  }

  /** `getSession`: the memoised instance when there is one. Otherwise, if the cookie's
      session key exists, read its fields into the instance, set the account's live marker
      to 1 with expiry `now + liveSessionTTL` (again an instant passed as seconds) unless
      the marker already exists, and memoise the instance. The result is whether a session
      is current. */
  function GetSession(ks: Store, ctx: Ctx, cfg: Driver.Config): (s: Step<bool>)
    ensures s.out == s.ctx.cached
    ensures s.ctx.now == ctx.now && s.ctx.ip == ctx.ip && s.ctx.cookie == ctx.cookie
    ensures ctx.cached ==> s.state == ks && s.ctx == ctx
    ensures !ctx.cached ==> (s.out <==> Alive(ks, ctx.now, CookieKey(ctx)))
    ensures !s.out ==> s.state == ks && s.ctx == ctx
    ensures !ctx.cached && s.out ==>
      var key := CookieKey(ctx);
      var live := LiveKey(Str(HGet(ks, ctx.now, key, "auth_account_id")));
      && s.ctx.data == ReadFields(ks, ctx.now, key)
      && Alive(s.state, ctx.now, live) == (Alive(ks, ctx.now, live) || ctx.now + cfg.liveSessionTTL > 0)
      && SameExcept(ks, s.state, live)
  {
    if ctx.cached then Driver.Step(ks, ctx, true)
    else
      var key := CookieKey(ctx);
      if !Alive(ks, ctx.now, key) then Driver.Step(ks, ctx, false)
      else
        var data := ReadFields(ks, ctx.now, key);
        var ttl := ctx.now + cfg.liveSessionTTL;
        var live := LiveKey(Str(if "auth_account_id" in data then Some(data["auth_account_id"]) else None));
        var marked := if !Alive(ks, ctx.now, live) then Expire(SetNum(ks, live, 1), ctx.now, live, ttl) else ks;
        Driver.Step(marked, ctx.(data := data, cached := true), true)
  }

  /** `getCount`: the number of live keys under the session prefix (`all`) or under the
      live-marker prefix. */
  function GetCount(ks: Store, ctx: Ctx, all: bool): (n: nat)
    ensures n == |Keys(ks, ctx.now, if all then SESSION_PREFIX else LIVE_SESSION)|
    ensures all ==> n == |set k | k in ks && Alive(ks, ctx.now, k) && SESSION_PREFIX <= k|
  {
    |Keys(ks, ctx.now, if all then SESSION_PREFIX else LIVE_SESSION)|
  }

  /** `destroy`: with a current session, delete its key, remove its account from the map
      and delete the account's live marker, clear the cookie and return true. The map entry
      is removed even when the destroyed session is a shadow, so the account's primary
      session loses its pointer (see `DestroyCorrected`). Without a session, return false.
      The memo survives. */
  function Destroy(ks: Store, ctx: Ctx, cfg: Driver.Config): (s: Step<bool>)
    ensures s.out == GetSession(ks, ctx, cfg).out
    ensures !s.out ==> s.state == ks && s.ctx == ctx
    ensures s.out ==>
      var c := GetSession(ks, ctx, cfg).ctx;
      && s.ctx == c.(cookie := Some(Driver.Cookie("", 0, "/")))
      && !Alive(s.state, ctx.now, Field(c, "id"))
      && !Alive(s.state, ctx.now, LiveKey(Field(c, "auth_account_id")))
      && HGet(s.state, ctx.now, MAP_KEY, Field(c, "auth_account_id")).None?
  {
    var g := GetSession(ks, ctx, cfg);
    if !g.out then g
    else
      var account := Field(g.ctx, "auth_account_id");
      var cleared := Del(HDel(Del(g.state, Field(g.ctx, "id")), ctx.now, MAP_KEY, account), LiveKey(account));
      Driver.Step(cleared, g.ctx.(cookie := Some(Driver.SetCookie("", 0))), true)
  }

  /** `destroy` as evidently intended: the map entry is removed only when it points at the
      destroyed session, so destroying a shadow session leaves the primary's pointer. */
  function DestroyCorrected(ks: Store, ctx: Ctx, cfg: Driver.Config): (s: Step<bool>)
    ensures s.out == GetSession(ks, ctx, cfg).out
    ensures !s.out ==> s.state == ks && s.ctx == ctx
    ensures s.out ==>
      var c := GetSession(ks, ctx, cfg).ctx;
      && s.ctx == c.(cookie := Some(Driver.Cookie("", 0, "/")))
      && !Alive(s.state, ctx.now, Field(c, "id"))
      && !Alive(s.state, ctx.now, LiveKey(Field(c, "auth_account_id")))
  {
    var g := GetSession(ks, ctx, cfg);
    if !g.out then g
    else
      var id := Field(g.ctx, "id");
      var account := Field(g.ctx, "auth_account_id");
      var dropped := Del(g.state, id);
      var unmapped := if HGet(dropped, ctx.now, MAP_KEY, account) == Some(Payload.Text(id))
                      then HDel(dropped, ctx.now, MAP_KEY, account) else dropped;
      Driver.Step(Del(unmapped, LiveKey(account)), g.ctx.(cookie := Some(Driver.SetCookie("", 0))), true)
  }

  /** `destroyAll`: with `all`, delete every live key under `USER_SESSION` — sessions, the
      map and the live markers alike; without it, do nothing. Always true. */
  function DestroyAll(ks: Store, ctx: Ctx, all: bool): (s: Step<bool>)
    ensures s.out && s.ctx == ctx
    ensures !all ==> s.state == ks
    ensures all ==> Keys(s.state, ctx.now, PREFIX) == {}
    ensures all ==> forall k :: k in ks && !(Alive(ks, ctx.now, k) && PREFIX <= k) ==> k in s.state && s.state[k] == ks[k]
    ensures all ==> forall k :: k in s.state ==> k in ks
  {
    if !all then Driver.Step(ks, ctx, true)
    else
      var doomed := Keys(ks, ctx.now, PREFIX);
      Driver.Step(map k | k in ks && k !in doomed :: ks[k], ctx, true)
  }

  /** `resetTTL`: with a current session, pass `now + (ttl ?: sessionTTL)` -- an instant -- to
      `EXPIRE`, which reads it as a count of seconds: a live key ends up expiring at
      `2 * now + ttl'`, or is removed at once when the count is not positive. The cookie, the
      fields and every other key are left alone. */
  function ResetTTL(ks: Store, ctx: Ctx, cfg: Driver.Config, ttl: Option<int>): (s: Step<()>)
    ensures s.ctx == GetSession(ks, ctx, cfg).ctx
    ensures !GetSession(ks, ctx, cfg).out ==> s.state == ks
    ensures var g := GetSession(ks, ctx, cfg); var id := Field(g.ctx, "id");
      g.out ==> SameExcept(g.state, s.state, id)
    ensures var g := GetSession(ks, ctx, cfg); var id := Field(g.ctx, "id");
      g.out && !Alive(g.state, ctx.now, id) ==> s.state == g.state
    ensures var g := GetSession(ks, ctx, cfg); var id := Field(g.ctx, "id");
      g.out && Alive(g.state, ctx.now, id) && ctx.now + Driver.EffectiveTTL(ttl, cfg.sessionTTL) <= 0 ==>
        id !in s.state
    ensures var g := GetSession(ks, ctx, cfg); var id := Field(g.ctx, "id");
      g.out && Alive(g.state, ctx.now, id) && ctx.now + Driver.EffectiveTTL(ttl, cfg.sessionTTL) > 0 ==>
        && id in s.state && s.state[id].value == g.state[id].value
        && s.state[id].expireAt == Some(2 * ctx.now + Driver.EffectiveTTL(ttl, cfg.sessionTTL))
  {
    var g := GetSession(ks, ctx, cfg);
    if !g.out then Driver.Step(g.state, g.ctx, ())
    else Driver.Step(Expire(g.state, ctx.now, Field(g.ctx, "id"), Driver.ExpireTime(ctx.now, ttl, cfg)), g.ctx, ())
  }

  /** `saveData`: write the payload to the `data` field of the current session's key. */
  function SaveData(ks: Store, ctx: Ctx, cfg: Driver.Config, data: Payload.Blob): (s: Step<()>)
    ensures s.ctx == GetSession(ks, ctx, cfg).ctx
    ensures !GetSession(ks, ctx, cfg).out ==> s.state == ks
    ensures GetSession(ks, ctx, cfg).out ==>
      && SameExcept(GetSession(ks, ctx, cfg).state, s.state, Field(s.ctx, "id"))
      && (IsHash(GetSession(ks, ctx, cfg).state, ctx.now, Field(s.ctx, "id")) ||
          !Alive(GetSession(ks, ctx, cfg).state, ctx.now, Field(s.ctx, "id")) ==>
            HGet(s.state, ctx.now, Field(s.ctx, "id"), "data") == Some(data))
  {
    var g := GetSession(ks, ctx, cfg);
    if !g.out then Driver.Step(g.state, g.ctx, ())
    else Driver.Step(HSet(g.state, ctx.now, Field(g.ctx, "id"), "data", data), g.ctx, ())
  }

  /** `retrieveData`: the `data` field of the current session's key, null without one. */
  function RetrieveData(ks: Store, ctx: Ctx, cfg: Driver.Config): (s: Step<Option<Payload.Blob>>)
    ensures s.state == GetSession(ks, ctx, cfg).state && s.ctx == GetSession(ks, ctx, cfg).ctx
    ensures !s.ctx.cached ==> s.out.None?
    ensures s.ctx.cached ==> s.out == HGet(s.state, ctx.now, Field(s.ctx, "id"), "data")
  {
    var g := GetSession(ks, ctx, cfg);
    Driver.Step(g.state, g.ctx, if g.out then HGet(g.state, ctx.now, Field(g.ctx, "id"), "data") else None)
  }

  /** `setData`: read the whole bag, override one key, save the full bag once. */
  function SetData(ks: Store, ctx: Ctx, cfg: Driver.Config, key: string, value: Payload.Value): Step<()>
  {
    var read := RetrieveData(ks, ctx, cfg);
    SaveData(read.state, read.ctx, cfg, Payload.Updated(read.out, key, value))
  }

  /** `getData`: the value under a truthy key, or the whole bag. */
  function GetData(ks: Store, ctx: Ctx, cfg: Driver.Config, key: Option<string>): (s: Step<Payload.Read>)
    ensures s.state == GetSession(ks, ctx, cfg).state && s.ctx == GetSession(ks, ctx, cfg).ctx
  {
    var read := RetrieveData(ks, ctx, cfg);
    Driver.Step(read.state, read.ctx, Payload.Get(Payload.Decode(read.out), key))
  }

  /** `getAccount`: the account row whose primary key is the session's stored account id,
      as the account table reads that string (`toId`); none without a session. */
  function GetAccount(ks: Store, ctx: Ctx, cfg: Driver.Config, accounts: Account.Table,
                      toId: string -> int): (s: Step<Option<Account.AccountRow>>)
    ensures s.state == GetSession(ks, ctx, cfg).state && s.ctx == GetSession(ks, ctx, cfg).ctx
    ensures s.out.Some? ==> s.ctx.cached && s.out.value in accounts.rows
                            && s.out.value.id == toId(Field(s.ctx, "auth_account_id"))
    ensures s.ctx.cached && (exists i :: 0 <= i < |accounts.rows| && accounts.rows[i].id == toId(Field(s.ctx, "auth_account_id")))
            ==> s.out.Some?
  {
    var g := GetSession(ks, ctx, cfg);
    Driver.Step(g.state, g.ctx, if g.out then Account.FindById(accounts, toId(Field(g.ctx, "auth_account_id"))) else None)
  }
}
