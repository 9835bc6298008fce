/** The parts of the `TDriver` trait both backends share: configuration, the session
    cookie, and the "ttl or default" rule. Cookie transport, the clock, the client address
    and id generation are inputs of the model. */
module Driver {
  import opened Outcomes

  /** The `Auth` configuration entries the backends read. */
  datatype Config = Config(sessionTTL: int, liveSessionTTL: int)

  /** The one session cookie: value, expiry timestamp and path. */
  datatype Cookie = Cookie(value: string, expire: int, path: string)

  /** The new state, the new request context and the operation's return value. */
  datatype Step<S, C, T> = Step(state: S, ctx: C, out: T)

  /** `setCookie($sessionId = "", $expire = 0)`: the cookie is always written with path "/". */
  function SetCookie(sessionId: string := "", expire: int := 0): (c: Cookie)
    ensures c.value == sessionId && c.expire == expire && c.path == "/"
  {
    Cookie(sessionId, expire, "/")
  }

  /** `getCookie()`: the value of the session cookie, null when the client sent none. */
  function GetCookie(jar: Option<Cookie>): (v: Option<string>)
    ensures v.Some? <==> jar.Some?
    ensures v.Some? ==> v.value == jar.value.value
  {
    if jar.Some? then Some(jar.value.value) else None
  }

  /** PHP truthiness of an optional integer argument: null and 0 are falsy. */
  predicate TruthyInt(x: Option<int>)
  {
    x.Some? && x.value != 0
  }

  /** `$ttl ?: $this->config["sessionTTL"]`: a falsy ttl falls back to the default, any
      other ttl (negative ones included) is used as given. */
  function EffectiveTTL(ttl: Option<int>, fallback: int): (r: int)
    ensures TruthyInt(ttl) ==> r == ttl.value
    ensures !TruthyInt(ttl) ==> r == fallback
  {
    if TruthyInt(ttl) then ttl.value else fallback
  }

  /** `time() + ($ttl ?: sessionTTL)`: the absolute expiry of a new or renewed session. */
  function ExpireTime(now: int, ttl: Option<int>, cfg: Config): int
  {
    now + EffectiveTTL(ttl, cfg.sessionTTL)
  }

  /** Called with its defaults, `setCookie` clears the cookie. */
  lemma ClearedCookie()
    ensures SetCookie() == Cookie("", 0, "/")
  {
  }
}
