/** The relational session backend (`SessionDriver/DB.php`): one row per session in the
    `auth_session` table, looked up by the cookie's session id and an `expired_at` later than
    now, memoised for the rest of the request. */
module RelationalStore {
  import opened Outcomes
  import Payload
  import Driver
  import Seqs
  import Account

  /** One `auth_session` row. `liveExpiredAt` is the nullable `live_session_expired_at`;
      the audit timestamps are left out. */
  datatype Row = Row(
    id: nat,
    account: int,
    sessionId: string,
    ip: string,
    data: Payload.Blob,
    shadow: bool,
    expiredAt: int,
    liveExpiredAt: Option<int>)

  /** The table in primary-key order, and the next auto-increment id. */
  datatype Table = Table(rows: seq<Row>, nextId: nat)

  /** One request: the clock, the client address, the cookie jar and the memoised session
      entity (`self::$session`). */
  datatype Ctx = Ctx(now: int, ip: string, cookie: Option<Driver.Cookie>, cache: Option<Row>)

  type Step<T> = Driver.Step<Table, Ctx, T>

  /** Row ids are strictly increasing and below the auto-increment counter. */
  predicate WellFormed(t: Table)
  {
    && (forall i, j :: 0 <= i < j < |t.rows| ==> t.rows[i].id < t.rows[j].id)
    && (forall i :: 0 <= i < |t.rows| ==> t.rows[i].id < t.nextId)
  }

  /** A primary (non-shadow) session of `account`. */
  predicate IsPrimaryOf(r: Row, account: int)
  {
    r.account == account && !r.shadow
  }

  /** No account has two primary sessions. */
  predicate SinglePrimary(rows: seq<Row>)
  {
    forall i, j :: 0 <= i < j < |rows| && !rows[i].shadow && !rows[j].shadow ==> rows[i].account != rows[j].account
  }

  /** The lookup `getSession` issues: `session_id = <cookie> AND expired_at > now`. */
  predicate Resolves(r: Row, cookie: Option<string>, now: int)
  {
    cookie.Some? && r.sessionId == cookie.value && r.expiredAt > now
  }

  /** The rows `getCount(false)` counts: `live_session_expired_at > now`. */
  predicate LiveAt(r: Row, now: int)
  {
    r.liveExpiredAt.Some? && r.liveExpiredAt.value > now
  }

  /** Every row but the last: after an insert, the rows that were already there. */
  function Survivors(t: Table): seq<Row>
  {
    if |t.rows| == 0 then [] else t.rows[..|t.rows| - 1]
  }

  /** `createNew`: a primary session first deletes every primary row of the account,
      expired or not; then one row is inserted and the cookie is bound to it. The memoised
      session is left as it was. */
  function CreateNew(t: Table, ctx: Ctx, cfg: Driver.Config, account: int, ttl: Option<int>,
                     shadow: bool, sessionId: string): (s: Step<Row>)
    ensures s.out.id == t.nextId && s.state.nextId == t.nextId + 1
    ensures s.out.account == account && s.out.sessionId == sessionId && s.out.ip == ctx.ip
    ensures s.out.shadow == shadow && s.out.liveExpiredAt.None? && s.out.data == Payload.Text("")
    ensures s.out.expiredAt == ctx.now + Driver.EffectiveTTL(ttl, cfg.sessionTTL)
    ensures |s.state.rows| > 0 && s.state.rows[|s.state.rows| - 1] == s.out
    ensures forall r :: r in t.rows ==> (r in Survivors(s.state) <==> shadow || !IsPrimaryOf(r, account))
    ensures forall r :: r in Survivors(s.state) ==> r in t.rows
    ensures s.ctx == ctx.(cookie := Some(Driver.SetCookie(sessionId, s.out.expiredAt)))
  {
    var kept := if shadow then t.rows else Seqs.Keep(t.rows, (r: Row) => !IsPrimaryOf(r, account));
    var expire := Driver.ExpireTime(ctx.now, ttl, cfg);
    var row := Row(t.nextId, account, sessionId, ctx.ip, Payload.Text(""), shadow, expire, None);
    Driver.Step(Table(kept + [row], t.nextId + 1), ctx.(cookie := Some(Driver.SetCookie(sessionId, expire))), row)
  }

  /** `getSession`: the memoised session when there is one, without consulting storage;
      otherwise the first row matching the cookie that has not expired, which is then
      memoised. Nothing but the memo changes: the live-session update is commented out in
      the source. */
  function GetSession(t: Table, ctx: Ctx): (c: Ctx)
    ensures c.(cache := ctx.cache) == ctx
    ensures ctx.cache.Some? ==> c.cache == ctx.cache
    ensures ctx.cache.None? ==>
      (c.cache.Some? <==> exists i :: 0 <= i < |t.rows| && Resolves(t.rows[i], Driver.GetCookie(ctx.cookie), ctx.now))
    ensures ctx.cache.None? && c.cache.Some? ==>
      c.cache.value in t.rows && Resolves(c.cache.value, Driver.GetCookie(ctx.cookie), ctx.now)
  {
    if ctx.cache.Some? then ctx
    else
      var cookie := Driver.GetCookie(ctx.cookie);
      ctx.(cache := Seqs.First(t.rows, (r: Row) => Resolves(r, cookie, ctx.now)))
  }

  /** `getCount`: every row (expired ones included) or the rows whose live marker is still
      ahead of now. */
  function GetCount(t: Table, ctx: Ctx, all: bool): (n: nat)
    ensures all ==> n == |t.rows|
    ensures !all ==> n <= |t.rows|
    ensures !all && (forall i :: 0 <= i < |t.rows| ==> !LiveAt(t.rows[i], ctx.now)) ==> n == 0
    ensures !all && (exists i :: 0 <= i < |t.rows| && LiveAt(t.rows[i], ctx.now)) ==> n > 0
  {
    if all then |t.rows|
    else
      var live := Seqs.Keep(t.rows, (r: Row) => LiveAt(r, ctx.now));
      assert |live| > 0 ==> live[0] in t.rows;
      |live|
  }

  /** `destroy`: with a current session, delete its row and clear the cookie; the memo
      survives. Without one, return false and change nothing. */
  function Destroy(t: Table, ctx: Ctx): (s: Step<bool>)
    ensures s.out <==> GetSession(t, ctx).cache.Some?
    ensures !s.out ==> s.state == t && s.ctx == ctx
    ensures s.out ==> s.state.nextId == t.nextId
    ensures s.out ==> s.ctx == GetSession(t, ctx).(cookie := Some(Driver.Cookie("", 0, "/")))
    ensures s.out ==> forall r :: r in t.rows ==> (r in s.state.rows <==> r.id != GetSession(t, ctx).cache.value.id)
    ensures s.out ==> forall r :: r in s.state.rows ==> r in t.rows
  {
    var c := GetSession(t, ctx);
    if c.cache.None? then Driver.Step(t, c, false)
    else
      var gone := c.cache.value.id;
      Driver.Step(t.(rows := Seqs.Keep(t.rows, (r: Row) => r.id != gone)),
                  c.(cookie := Some(Driver.SetCookie())), true)
  }

  /** `destroyAll`: `all` empties the table; otherwise only rows whose `expired_at` is
      strictly before now are deleted. Always returns true. */
  function DestroyAll(t: Table, ctx: Ctx, all: bool): (s: Step<bool>)
    ensures s.out && s.ctx == ctx && s.state.nextId == t.nextId
    ensures all ==> s.state.rows == []
    ensures !all ==> forall r :: r in t.rows ==> (r in s.state.rows <==> r.expiredAt >= ctx.now)
    ensures !all ==> forall r :: r in s.state.rows ==> r in t.rows
  {
    if all then Driver.Step(t.(rows := []), ctx, true)
    else Driver.Step(t.(rows := Seqs.Keep(t.rows, (r: Row) => !(r.expiredAt < ctx.now))), ctx, true)
  }

  /** `resetTTL`: with a current session, move its expiry to now plus the ttl (or the
      default), record the client address, and rebind the cookie to the same id with the new
      expiry. The memoised entity sees the same update. */
  function ResetTTL(t: Table, ctx: Ctx, cfg: Driver.Config, ttl: Option<int>): (s: Step<()>)
    ensures GetSession(t, ctx).cache.None? ==> s.state == t && s.ctx == ctx
    ensures GetSession(t, ctx).cache.Some? ==>
      var prev := GetSession(t, ctx).cache.value;
      var expire := ctx.now + Driver.EffectiveTTL(ttl, cfg.sessionTTL);
      && s.state.nextId == t.nextId && |s.state.rows| == |t.rows|
      && (forall i :: 0 <= i < |t.rows| ==>
            s.state.rows[i] == if t.rows[i].id == prev.id then t.rows[i].(ip := ctx.ip, expiredAt := expire) else t.rows[i])
      && s.ctx.cache == Some(prev.(ip := ctx.ip, expiredAt := expire))
      && s.ctx.cookie == Some(Driver.Cookie(prev.sessionId, expire, "/"))
      && s.ctx.now == ctx.now && s.ctx.ip == ctx.ip
  {
    var c := GetSession(t, ctx);
    if c.cache.None? then Driver.Step(t, c, ())
    else
      var session := c.cache.value;
      var expire := Driver.ExpireTime(ctx.now, ttl, cfg);
      var renew := (r: Row) => r.(ip := ctx.ip, expiredAt := expire);
      Driver.Step(t.(rows := Seqs.Replace(t.rows, (r: Row) => r.id == session.id, renew)),
                  c.(cache := Some(renew(session)), cookie := Some(Driver.SetCookie(session.sessionId, expire))), ())
  }

  /** `saveData`: write the payload to the current session's row (and the memoised
      entity); a no-op without a session. */
  function SaveData(t: Table, ctx: Ctx, data: Payload.Blob): (s: Step<()>)
    ensures GetSession(t, ctx).cache.None? ==> s.state == t && s.ctx == ctx
    ensures GetSession(t, ctx).cache.Some? ==>
      var prev := GetSession(t, ctx).cache.value;
      && s.state.nextId == t.nextId && |s.state.rows| == |t.rows|
      && (forall i :: 0 <= i < |t.rows| ==>
            s.state.rows[i] == if t.rows[i].id == prev.id then t.rows[i].(data := data) else t.rows[i])
      && s.ctx == GetSession(t, ctx).(cache := Some(prev.(data := data)))
  {
    var c := GetSession(t, ctx);
    if c.cache.None? then Driver.Step(t, c, ())
    else
      var session := c.cache.value;
      Driver.Step(t.(rows := Seqs.Replace(t.rows, (r: Row) => r.id == session.id, (r: Row) => r.(data := data))),
                  c.(cache := Some(session.(data := data))), ())
  }

  /** `retrieveData`: the memoised entity's payload, or null without a session. */
  function RetrieveData(t: Table, ctx: Ctx): (s: Step<Option<Payload.Blob>>)
    ensures s.state == t && s.ctx == GetSession(t, ctx)
    ensures s.out.Some? <==> s.ctx.cache.Some?
    ensures s.out.Some? ==> s.out.value == s.ctx.cache.value.data
  {
    var c := GetSession(t, ctx);
    Driver.Step(t, c, if c.cache.Some? then Some(c.cache.value.data) else None)
  }

  /** `setData`: read the whole bag, override one key, save the full bag once. */
  function SetData(t: Table, ctx: Ctx, key: string, value: Payload.Value): Step<()>
  {
    var read := RetrieveData(t, ctx);
    SaveData(read.state, read.ctx, Payload.Updated(read.out, key, value))
  }

  /** `getData`: the value under a truthy key, or the whole bag. */
  function GetData(t: Table, ctx: Ctx, key: Option<string>): (s: Step<Payload.Read>)
    ensures s.state == t && s.ctx == GetSession(t, ctx)
  {
    var read := RetrieveData(t, ctx);
    Driver.Step(t, read.ctx, Payload.Get(Payload.Decode(read.out), key))
  }

  /** `getAccount`: the account row the current session belongs to; false (none) without a
      session. */
  function GetAccount(t: Table, ctx: Ctx, accounts: Account.Table): (s: Step<Option<Account.AccountRow>>)
    ensures s.state == t && s.ctx == GetSession(t, ctx)
    ensures s.out.Some? ==> s.ctx.cache.Some? && s.out.value in accounts.rows && s.out.value.id == s.ctx.cache.value.account
    ensures s.ctx.cache.Some? && (exists i :: 0 <= i < |accounts.rows| && accounts.rows[i].id == s.ctx.cache.value.account)
            ==> s.out.Some?
  {
    var c := GetSession(t, ctx);
    Driver.Step(t, c, if c.cache.Some? then Account.FindById(accounts, c.cache.value.account) else None)
  }
}
