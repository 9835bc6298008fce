/** Properties of the key-value backend: the three key families are disjoint, so counting
    by prefix counts one family; the map points every primary session's account at it,
    which makes primary sessions unique per account; and what each operation leaves
    alone. */
module KeyValueLemmas {
  import opened Outcomes
  import Text
  import Payload
  import Driver
  import opened Keyspace
  import opened KeyValueStore

  /** A live session hash that belongs to `account` and is not a shadow session. */
  predicate IsPrimary(ks: Store, now: int, k: string, account: string)
  {
    && SESSION_PREFIX <= k
    && HGet(ks, now, k, "auth_account_id") == Some(Payload.Text(account))
    && HGet(ks, now, k, "shadow_session") == Some(Payload.Text("0"))
  }

  /** Every value of the map names a session key. */
  ghost predicate MapTargetsSessions(fields: map<string, Payload.Blob>)
  {
    forall a :: a in fields ==> fields[a].Text? && SESSION_PREFIX <= fields[a].s
  }

  /** A session hash's `id` field, when set, is its own key. */
  predicate IdIsKey(ks: Store, now: int, k: string)
  {
    SESSION_PREFIX <= k && HGet(ks, now, k, "id").Some? ==> HGet(ks, now, k, "id") == Some(Payload.Text(k))
  }

  /** The backend's invariant: the map is a hash without expiry whose values are session
      keys; every primary session is the one the map holds for its account; and every
      session hash's `id` field, when it has one, is its own key. (A hash without an `id`
      arises when `saveData` writes to a session key that has expired or been removed.) */
  ghost predicate Inv(ks: Store, now: int)
  {
    && (MAP_KEY in ks ==> ks[MAP_KEY].expireAt.None? && ks[MAP_KEY].value.Hash?
                          && MapTargetsSessions(ks[MAP_KEY].value.fields))
    && (forall k, a :: IsPrimary(ks, now, k, a) ==> HGet(ks, now, MAP_KEY, a) == Some(Payload.Text(k)))
    && (forall k :: k in ks ==> IdIsKey(ks, now, k))
  }

  /** The session key the instance remembers is unset or under the session prefix, so it
      is never the map or a live marker. */
  predicate CtxInv(ctx: Ctx)
  {
    Field(ctx, "id") == "" || SESSION_PREFIX <= Field(ctx, "id")
  }

  /** Under `CtxInv` the remembered key is neither the map nor a live marker. */
  lemma RememberedKeyIsNoMarker(ctx: Ctx)
    requires CtxInv(ctx)
    ensures Field(ctx, "id") != MAP_KEY && !(LIVE_SESSION <= Field(ctx, "id"))
  {
    if Field(ctx, "id") != "" {
      assert Field(ctx, "id")[12] == ':';
    }
  }

  /** The three key families never collide, and all share the `USER_SESSION` prefix that
      `destroyAll(true)` wipes. */
  lemma KeyFamiliesDisjoint(x: string, y: string)
    ensures SESSION_PREFIX <= SessionKey(x) && !(LIVE_SESSION <= SessionKey(x)) && SessionKey(x) != MAP_KEY
    ensures LIVE_SESSION <= LiveKey(y) && !(SESSION_PREFIX <= LiveKey(y)) && LiveKey(y) != MAP_KEY
    ensures !(SESSION_PREFIX <= MAP_KEY) && !(LIVE_SESSION <= MAP_KEY)
    ensures PREFIX <= SessionKey(x) && PREFIX <= LiveKey(y) && PREFIX <= MAP_KEY
  {
    assert SessionKey(x)[12] == ':' && LiveKey(y)[12] == '_';
  }

  /** A key under the session or live-marker prefix is under `USER_SESSION`. */
  lemma FamiliesUnderPrefix(k: string)
    ensures SESSION_PREFIX <= k ==> PREFIX <= k
    ensures LIVE_SESSION <= k ==> PREFIX <= k
  {
    if SESSION_PREFIX <= k {
      assert k[..|PREFIX|] == SESSION_PREFIX[..|PREFIX|];
    }
    if LIVE_SESSION <= k {
      assert k[..|PREFIX|] == LIVE_SESSION[..|PREFIX|];
    }
  }

  /** Primary sessions are unique per account under the invariant. */
  lemma {:induction false} SinglePrimary(ks: Store, now: int, k1: string, k2: string, account: string)
    requires Inv(ks, now)
    requires IsPrimary(ks, now, k1, account) && IsPrimary(ks, now, k2, account)
    ensures k1 == k2
  {
    assert HGet(ks, now, MAP_KEY, account) == Some(Payload.Text(k1));
  }

  /** The invariant survives the passing of time: keys only expire, and the map never
      does. */
  lemma {:induction false} InvLater(ks: Store, now: int, later: int)
    requires Inv(ks, now) && now <= later
    ensures Inv(ks, later)
  {
    forall k, a | IsPrimary(ks, later, k, a) ensures HGet(ks, later, MAP_KEY, a) == Some(Payload.Text(k)) {
      assert IsPrimary(ks, now, k, a);
    }
    forall k | k in ks ensures IdIsKey(ks, later, k) {
      assert IdIsKey(ks, now, k);
    }
  }

  /** Changing one key outside the session family, other than the map, keeps the
      invariant. */
  lemma {:induction false} InvOtherKey(ks: Store, r: Store, now: int, j: string)
    requires Inv(ks, now) && SameExcept(ks, r, j) && !(SESSION_PREFIX <= j) && j != MAP_KEY
    ensures Inv(r, now)
  {
    forall k, a | IsPrimary(r, now, k, a) ensures HGet(r, now, MAP_KEY, a) == Some(Payload.Text(k)) {
      assert IsPrimary(ks, now, k, a);
    }
    forall k | k in r ensures IdIsKey(r, now, k) {
      if k != j {
        assert IdIsKey(ks, now, k);
      }
    }
  }

  /** Deleting a key, or moving its expiry without killing more than that key, keeps the
      invariant, provided the key is not the map. */
  lemma {:induction false} InvFade(ks: Store, r: Store, now: int, j: string)
    requires Inv(ks, now) && SameExcept(ks, r, j) && j != MAP_KEY
    requires j in r ==> j in ks && r[j].value == ks[j].value && (Alive(r, now, j) ==> Alive(ks, now, j))
    ensures Inv(r, now)
  {
    forall k, a | IsPrimary(r, now, k, a) ensures HGet(r, now, MAP_KEY, a) == Some(Payload.Text(k)) {
      assert IsPrimary(ks, now, k, a);
    }
    forall k | k in r ensures IdIsKey(r, now, k) {
      assert IdIsKey(ks, now, k);
    }
  }

  /** The fields `createNew` writes, as a map. */
  lemma NewFields(key: string, account: string, ip: string, shadow: bool)
    ensures var m := ToMap(NewPairs(key, account, ip, shadow));
      && m.Keys == {"id", "auth_account_id", "ip", "shadow_session", "data"}
      && m["id"] == Payload.Text(key) && m["auth_account_id"] == Payload.Text(account)
      && m["ip"] == Payload.Text(ip) && m["shadow_session"] == Payload.Text(if shadow then "1" else "0")
      && m["data"] == Payload.Text("")
  {
    NewFieldsMap(key, account, ip, shadow);
    FieldNamesDistinct();
  }

  /** The fields `createNew` writes, built up pair by pair. */
  lemma NewFieldsMap(key: string, account: string, ip: string, shadow: bool)
    ensures ToMap(NewPairs(key, account, ip, shadow))
            == map["id" := Payload.Text(key), "auth_account_id" := Payload.Text(account), "ip" := Payload.Text(ip),
                   "shadow_session" := Payload.Text(if shadow then "1" else "0"), "data" := Payload.Text("")]
  {
    var p := NewPairs(key, account, ip, shadow);
    assert p[..0] == [];
    ToMapStep(p, 1);
    ToMapStep(p, 2);
    ToMapStep(p, 3);
    ToMapStep(p, 4);
    ToMapStep(p, 5);
    assert p[..5] == p;
  }

  /** Writing one more pair updates the map with it. */
  lemma ToMapStep(p: seq<(string, Payload.Blob)>, k: nat)
    requires 0 < k <= |p|
    ensures ToMap(p[..k]) == ToMap(p[..k - 1])[p[k - 1].0 := p[k - 1].1]
  {
    assert p[..k][..k - 1] == p[..k - 1];
  }

  /** The five field names are pairwise distinct. */
  lemma FieldNamesDistinct()
    ensures "id" != "auth_account_id" && "id" != "ip" && "id" != "shadow_session" && "id" != "data"
    ensures "auth_account_id" != "ip" && "auth_account_id" != "shadow_session" && "auth_account_id" != "data"
    ensures "ip" != "shadow_session" && "ip" != "data" && "shadow_session" != "data"
  {
    assert "id"[1] != "ip"[1];
  }

  /** The map half of a primary `createNew` keeps the invariant and leaves the map
      pointing at the new key. */
  lemma {:induction false} RepointKeepsInv(ks: Store, now: int, account: string, key: string)
    requires Inv(ks, now) && SESSION_PREFIX <= key
    ensures Inv(Repoint(ks, now, account, key), now)
    ensures HGet(Repoint(ks, now, account, key), now, MAP_KEY, account) == Some(Payload.Text(key))
    ensures forall k, a :: IsPrimary(Repoint(ks, now, account, key), now, k, a) ==> a != account
  {
    var prior := Str(HGet(ks, now, MAP_KEY, account));
    var cleared := if Text.Truthy(prior) then Del(ks, prior) else ks;
    var r := Repoint(ks, now, account, key);
    assert prior != MAP_KEY by {
      KeyFamiliesDisjoint("", "");
      if HGet(ks, now, MAP_KEY, account).Some? {
        assert MapTargetsSessions(ks[MAP_KEY].value.fields);
      }
    }
    assert MAP_KEY in cleared <==> MAP_KEY in ks;
    assert MAP_KEY in cleared ==> cleared[MAP_KEY] == ks[MAP_KEY];
    InvFade(ks, cleared, now, prior);
    forall k, a | IsPrimary(r, now, k, a)
      ensures HGet(r, now, MAP_KEY, a) == Some(Payload.Text(k)) && a != account
    {
      assert IsPrimary(cleared, now, k, a);
      if a == account {
        assert false;
      }
    }
    forall k | k in r ensures IdIsKey(r, now, k) {
      if k != MAP_KEY {
        assert IdIsKey(cleared, now, k);
      } else {
        KeyFamiliesDisjoint("", "");
      }
    }
  }

  /** The fields `createNew` writes to a key under the session prefix: the key belongs to
      the account, is primary exactly when not a shadow, and names itself in `id`. */
  lemma {:induction false} WrittenSession(ks: Store, now: int, key: string, account: string, ip: string, shadow: bool)
    requires !(Alive(ks, now, key) && ks[key].value.Num?)
    ensures var w := HSetAll(ks, now, key, NewPairs(key, account, ip, shadow));
      && IsHash(w, now, key)
      && HGet(w, now, key, "id") == Some(Payload.Text(key))
      && HGet(w, now, key, "auth_account_id") == Some(Payload.Text(account))
      && HGet(w, now, key, "shadow_session") == Some(Payload.Text(if shadow then "1" else "0"))
      && HGet(w, now, key, "data") == Some(Payload.Text(""))
      && (Alive(ks, now, key) ==> w[key].expireAt == ks[key].expireAt)
      && (!Alive(ks, now, key) ==> w[key] == Entry(Hash(ToMap(NewPairs(key, account, ip, shadow))), None))
  {
    var m := ToMap(NewPairs(key, account, ip, shadow));
    NewFields(key, account, ip, shadow);
    var w := HSetAll(ks, now, key, NewPairs(key, account, ip, shadow));
    var fs := if Alive(ks, now, key) then ks[key].value.fields + m else m;
    assert key in w && w[key].value == Hash(fs);
    assert fs["id"] == m["id"] && fs["auth_account_id"] == m["auth_account_id"];
    assert fs["shadow_session"] == m["shadow_session"] && fs["data"] == m["data"];
  }

  /** Writing the session hash keeps the invariant, given that a primary session's key is
      already the map's value for its account. */
  lemma {:induction false} WriteSessionKeepsInv(ks: Store, now: int, key: string, account: string, ip: string, shadow: bool)
    requires Inv(ks, now) && SESSION_PREFIX <= key
    requires !shadow ==> HGet(ks, now, MAP_KEY, account) == Some(Payload.Text(key))
    ensures Inv(HSetAll(ks, now, key, NewPairs(key, account, ip, shadow)), now)
  {
    var w := HSetAll(ks, now, key, NewPairs(key, account, ip, shadow));
    KeyFamiliesDisjoint("", "");
    assert key != MAP_KEY;
    if Alive(ks, now, key) && ks[key].value.Num? {
      assert w == ks;
    } else {
      WrittenSession(ks, now, key, account, ip, shadow);
      forall k, a | IsPrimary(w, now, k, a) ensures HGet(w, now, MAP_KEY, a) == Some(Payload.Text(k)) {
        if k != key {
          assert IsPrimary(ks, now, k, a);
        }
      }
      forall k | k in w ensures IdIsKey(w, now, k) {
        if k != key {
          assert IdIsKey(ks, now, k);
        }
      }
    }
  }

  /** After `createNew` the instance names the new key and the account, and the cookie
      holds the bare id with the absolute expiry instant. */
  lemma {:induction false} CreateNewRemembersSession(ks: Store, ctx: Ctx, cfg: Driver.Config, account: string,
                                                    ttl: Option<int>, shadow: bool, sessionId: string)
    ensures var c := CreateNew(ks, ctx, cfg, account, ttl, shadow, sessionId).ctx;
      && Field(c, "id") == SessionKey(sessionId)
      && Field(c, "auth_account_id") == account
      && Field(c, "shadow_session") == (if shadow then "1" else "0")
      && Driver.GetCookie(c.cookie) == Some(sessionId)
      && c.cookie.value.expire == ctx.now + Driver.EffectiveTTL(ttl, cfg.sessionTTL)
  {
    var c := CreateNew(ks, ctx, cfg, account, ttl, shadow, sessionId).ctx;
    NewFields(SessionKey(sessionId), account, ctx.ip, shadow);
    assert c.data == ToMap(NewPairs(SessionKey(sessionId), account, ctx.ip, shadow));
  }

  /** `createNew` keeps the invariant, and the instance it leaves names the new key. */
  lemma {:induction false} CreateNewKeepsInv(ks: Store, ctx: Ctx, cfg: Driver.Config, account: string,
                                            ttl: Option<int>, shadow: bool, sessionId: string)
    requires Inv(ks, ctx.now)
    ensures Inv(CreateNew(ks, ctx, cfg, account, ttl, shadow, sessionId).state, ctx.now)
    ensures CtxInv(CreateNew(ks, ctx, cfg, account, ttl, shadow, sessionId).ctx)
  {
    var now := ctx.now;
    var key := SessionKey(sessionId);
    var mapped := if shadow then ks else Repoint(ks, now, account, key);
    var pairs := NewPairs(key, account, ctx.ip, shadow);
    var w := HSetAll(mapped, now, key, pairs);
    var e := Expire(w, now, key, Driver.ExpireTime(now, ttl, cfg));
    var s := CreateNew(ks, ctx, cfg, account, ttl, shadow, sessionId);
    assert s.state == e;
    assert Inv(e, now) by {
      KeyFamiliesDisjoint(sessionId, "");
      assert Inv(mapped, now) by {
        if !shadow {
          RepointKeepsInv(ks, now, account, key);
        }
      }
      WriteSessionKeepsInv(mapped, now, key, account, ctx.ip, shadow);
      InvFade(w, e, now, key);
    }
    CreateNewRemembersSession(ks, ctx, cfg, account, ttl, shadow, sessionId);
    KeyFamiliesDisjoint(sessionId, "");
  }

  /** `getSession` keeps the invariant: it only writes a live marker. */
  lemma {:induction false} GetSessionKeepsInv(ks: Store, ctx: Ctx, cfg: Driver.Config)
    requires Inv(ks, ctx.now) && CtxInv(ctx)
    ensures Inv(GetSession(ks, ctx, cfg).state, ctx.now)
    ensures CtxInv(GetSession(ks, ctx, cfg).ctx)
  {
    var now := ctx.now;
    var g := GetSession(ks, ctx, cfg);
    if !ctx.cached && g.out {
      var live := LiveKey(Str(HGet(ks, now, CookieKey(ctx), "auth_account_id")));
      KeyFamiliesDisjoint("", Str(HGet(ks, now, CookieKey(ctx), "auth_account_id")));
      assert SameExcept(ks, g.state, live);
      assert Inv(g.state, now) by {
        if !Alive(ks, now, live) {
          var set1 := SetNum(ks, live, 1);
          InvOtherKey(ks, set1, now, live);
          InvOtherKey(set1, Expire(set1, now, live, now + cfg.liveSessionTTL), now, live);
          GetSessionMarks(ks, ctx, cfg);
        }
      }
      GetSessionRemembersKey(ks, ctx, cfg);
    }
  }

  /** The store `getSession` leaves behind when it resolves a session: unchanged when the
      account's live marker exists, otherwise with a fresh marker. */
  lemma {:induction false} GetSessionMarks(ks: Store, ctx: Ctx, cfg: Driver.Config)
    requires !ctx.cached && GetSession(ks, ctx, cfg).out
    ensures var live := LiveKey(Str(HGet(ks, ctx.now, CookieKey(ctx), "auth_account_id")));
      GetSession(ks, ctx, cfg).state ==
        if Alive(ks, ctx.now, live) then ks else Expire(SetNum(ks, live, 1), ctx.now, live, ctx.now + cfg.liveSessionTTL)
  {
    var data := ReadFields(ks, ctx.now, CookieKey(ctx));
    assert Str(HGet(ks, ctx.now, CookieKey(ctx), "auth_account_id"))
        == Str(if "auth_account_id" in data then Some(data["auth_account_id"]) else None);
  }

  /** A session `getSession` resolves is remembered under its own key: the instance's `id`
      is the cookie's session key, or unset ("") when the hash has no `id` field. */
  lemma {:induction false} GetSessionRemembersKey(ks: Store, ctx: Ctx, cfg: Driver.Config)
    requires Inv(ks, ctx.now)
    requires !ctx.cached && GetSession(ks, ctx, cfg).out
    ensures Field(GetSession(ks, ctx, cfg).ctx, "id") in {CookieKey(ctx), ""}
    ensures CtxInv(GetSession(ks, ctx, cfg).ctx)
  {
    var key := CookieKey(ctx);
    var data := GetSession(ks, ctx, cfg).ctx.data;
    assert data == ReadFields(ks, ctx.now, key);
    assert IdIsKey(ks, ctx.now, key);
    KeyFamiliesDisjoint(if ctx.cookie.Some? then ctx.cookie.value.value else "", "");
  }

  /** Removing an account's map entry keeps the invariant when the account has none, or
      when it points at a session key that no longer exists. */
  lemma {:induction false} UnmapKeepsInv(ks: Store, now: int, account: string, id: string)
    requires Inv(ks, now) && !Alive(ks, now, id)
    requires HGet(ks, now, MAP_KEY, account) == None || HGet(ks, now, MAP_KEY, account) == Some(Payload.Text(id))
    ensures Inv(HDel(ks, now, MAP_KEY, account), now)
  {
    if IsHash(ks, now, MAP_KEY) {
      var r := HDel(ks, now, MAP_KEY, account);
      var rest := ks[MAP_KEY].value.fields - {account};
      KeyFamiliesDisjoint("", "");
      forall k, a | IsPrimary(r, now, k, a) ensures HGet(r, now, MAP_KEY, a) == Some(Payload.Text(k)) {
        assert IsPrimary(ks, now, k, a);
        assert a != account;
        assert a in rest;
      }
      forall k | k in r ensures IdIsKey(r, now, k) {
        if k != MAP_KEY {
          assert IdIsKey(ks, now, k);
        }
      }
    }
  }

  /** Writing the `data` field of any key but the map keeps the invariant. */
  lemma {:induction false} SaveFieldKeepsInv(ks: Store, now: int, id: string, data: Payload.Blob)
    requires Inv(ks, now) && id != MAP_KEY
    ensures Inv(HSet(ks, now, id, "data", data), now)
  {
    var r := HSet(ks, now, id, "data", data);
    forall k, a | IsPrimary(r, now, k, a) ensures HGet(r, now, MAP_KEY, a) == Some(Payload.Text(k)) {
      assert IsPrimary(ks, now, k, a);
    }
    forall k | k in r ensures IdIsKey(r, now, k) {
      if k != id {
        assert IdIsKey(ks, now, k);
      } else if Alive(ks, now, id) {
        assert IdIsKey(ks, now, k);
      }
    }
  }

  /** The corrected `destroy` keeps the invariant. */
  lemma {:induction false} DestroyCorrectedKeepsInv(ks: Store, ctx: Ctx, cfg: Driver.Config)
    requires Inv(ks, ctx.now) && CtxInv(ctx)
    ensures Inv(DestroyCorrected(ks, ctx, cfg).state, ctx.now)
    ensures CtxInv(DestroyCorrected(ks, ctx, cfg).ctx)
  {
    var now := ctx.now;
    GetSessionKeepsInv(ks, ctx, cfg);
    var g := GetSession(ks, ctx, cfg);
    if g.out {
      var id := Field(g.ctx, "id");
      var account := Field(g.ctx, "auth_account_id");
      RememberedKeyIsNoMarker(g.ctx);
      var dropped := Del(g.state, id);
      InvFade(g.state, dropped, now, id);
      var unmapped := if HGet(dropped, now, MAP_KEY, account) == Some(Payload.Text(id))
                      then HDel(dropped, now, MAP_KEY, account) else dropped;
      if HGet(dropped, now, MAP_KEY, account) == Some(Payload.Text(id)) {
        UnmapKeepsInv(dropped, now, account, id);
      }
      KeyFamiliesDisjoint("", account);
      InvFade(unmapped, Del(unmapped, LiveKey(account)), now, LiveKey(account));
      assert DestroyCorrected(ks, ctx, cfg).state == Del(unmapped, LiveKey(account));
    }
  }

  /** `destroy` as written keeps the invariant as long as the account's map entry, when
      there is one, names the destroyed session: the unconditional `HDEL` then removes
      nothing a live primary needs. */
  lemma {:induction false} DestroyKeepsInvUnlessMappedElsewhere(ks: Store, ctx: Ctx, cfg: Driver.Config)
    requires Inv(ks, ctx.now) && CtxInv(ctx)
    requires var g := GetSession(ks, ctx, cfg); var account := Field(g.ctx, "auth_account_id");
      || HGet(g.state, ctx.now, MAP_KEY, account) == None
      || HGet(g.state, ctx.now, MAP_KEY, account) == Some(Payload.Text(Field(g.ctx, "id")))
    ensures Inv(Destroy(ks, ctx, cfg).state, ctx.now)
    ensures CtxInv(Destroy(ks, ctx, cfg).ctx)
  {
    var now := ctx.now;
    GetSessionKeepsInv(ks, ctx, cfg);
    var g := GetSession(ks, ctx, cfg);
    if g.out {
      var id := Field(g.ctx, "id");
      var account := Field(g.ctx, "auth_account_id");
      RememberedKeyIsNoMarker(g.ctx);
      var dropped := Del(g.state, id);
      InvFade(g.state, dropped, now, id);
      assert HGet(dropped, now, MAP_KEY, account) == HGet(g.state, now, MAP_KEY, account);
      var unmapped := HDel(dropped, now, MAP_KEY, account);
      UnmapKeepsInv(dropped, now, account, id);
      KeyFamiliesDisjoint("", account);
      InvFade(unmapped, Del(unmapped, LiveKey(account)), now, LiveKey(account));
      assert Destroy(ks, ctx, cfg).state == Del(unmapped, LiveKey(account));
    }
  }

  /** `resetTTL` keeps the invariant. */
  lemma {:induction false} ResetTTLKeepsInv(ks: Store, ctx: Ctx, cfg: Driver.Config, ttl: Option<int>)
    requires Inv(ks, ctx.now) && CtxInv(ctx)
    ensures Inv(ResetTTL(ks, ctx, cfg, ttl).state, ctx.now)
    ensures CtxInv(ResetTTL(ks, ctx, cfg, ttl).ctx)
  {
    GetSessionKeepsInv(ks, ctx, cfg);
    var g := GetSession(ks, ctx, cfg);
    if g.out {
      var id := Field(g.ctx, "id");
      RememberedKeyIsNoMarker(g.ctx);
      var e := Expire(g.state, ctx.now, id, ctx.now + Driver.EffectiveTTL(ttl, cfg.sessionTTL));
      assert ResetTTL(ks, ctx, cfg, ttl).state == e;
      InvFade(g.state, e, ctx.now, id);
    }
  }

  /** `setData` keeps the invariant. */
  lemma {:induction false} SetDataKeepsInv(ks: Store, ctx: Ctx, cfg: Driver.Config, key: string, value: Payload.Value)
    requires Inv(ks, ctx.now) && CtxInv(ctx)
    ensures Inv(SetData(ks, ctx, cfg, key, value).state, ctx.now)
    ensures CtxInv(SetData(ks, ctx, cfg, key, value).ctx)
  {
    GetSessionKeepsInv(ks, ctx, cfg);
    var read := RetrieveData(ks, ctx, cfg);
    var blob := Payload.Updated(read.out, key, value);
    assert SetData(ks, ctx, cfg, key, value) == SaveData(read.state, read.ctx, cfg, blob);
    GetSessionKeepsInv(read.state, read.ctx, cfg);
    if read.ctx.cached {
      RememberedKeyIsNoMarker(read.ctx);
      SaveFieldKeepsInv(read.state, ctx.now, Field(read.ctx, "id"), blob);
    }
  }

  /** `destroyAll` keeps the invariant: with `all` no session and no map is left. */
  lemma {:induction false} DestroyAllKeepsInv(ks: Store, ctx: Ctx, all: bool)
    requires Inv(ks, ctx.now)
    ensures Inv(DestroyAll(ks, ctx, all).state, ctx.now)
  {
    var r := DestroyAll(ks, ctx, all).state;
    if all {
      KeyFamiliesDisjoint("", "");
      forall k, a | IsPrimary(r, ctx.now, k, a) ensures false {
        FamiliesUnderPrefix(k);
      }
      forall k | k in r ensures IdIsKey(r, ctx.now, k) {
        FamiliesUnderPrefix(k);
      }
    }
  }

  /** `createNew` with an id whose key does not exist: the new key holds exactly the five
      fields and expires at `now + (now + ttl')` — twice now plus the ttl, because the
      expiry instant is passed as a number of seconds — or is gone at once when that
      instant is not positive. A shadow session changes no other key; a primary one
      changes only the map and the key the map held for the account. */
  lemma {:induction false} CreateNewEffect(ks: Store, ctx: Ctx, cfg: Driver.Config, account: string,
                                          ttl: Option<int>, shadow: bool, sessionId: string)
    requires !Alive(ks, ctx.now, SessionKey(sessionId))
    ensures var r := CreateNew(ks, ctx, cfg, account, ttl, shadow, sessionId).state;
      var key := SessionKey(sessionId);
      var x := ctx.now + Driver.EffectiveTTL(ttl, cfg.sessionTTL);
      && (x > 0 ==> key in r && r[key] == Entry(Hash(ToMap(NewPairs(key, account, ctx.ip, shadow))), Some(2 * ctx.now + Driver.EffectiveTTL(ttl, cfg.sessionTTL))))
      && (x <= 0 ==> key !in r)
      && (shadow ==> SameExcept(ks, r, key))
      && (forall j :: j != key && j != MAP_KEY && j != Str(HGet(ks, ctx.now, MAP_KEY, account)) ==>
            (j in r <==> j in ks) && (j in r ==> r[j] == ks[j]))
  {
    var now := ctx.now;
    var key := SessionKey(sessionId);
    var mapped := if shadow then ks else Repoint(ks, now, account, key);
    assert !Alive(mapped, now, key) by {
      KeyFamiliesDisjoint(sessionId, "");
    }
    var w := HSetAll(mapped, now, key, NewPairs(key, account, ctx.ip, shadow));
    var e := Expire(w, now, key, Driver.ExpireTime(now, ttl, cfg));
    assert CreateNew(ks, ctx, cfg, account, ttl, shadow, sessionId).state == e;
    var x := Driver.ExpireTime(now, ttl, cfg);
    var pairs := NewPairs(key, account, ctx.ip, shadow);
    assert x == now + Driver.EffectiveTTL(ttl, cfg.sessionTTL);
    FreshKeyWritten(mapped, now, key, pairs, x);
    if x > 0 {
      assert e[key] == Entry(Hash(ToMap(pairs)), Some(now + x));
      assert now + x == 2 * now + Driver.EffectiveTTL(ttl, cfg.sessionTTL);
    }
  }

  /** Writing a non-empty list of fields to a missing key and then giving it an expiry of
      `x` seconds leaves a hash of exactly those fields expiring at `now + x` when `x` is
      positive, and no key at all otherwise. */
  lemma {:induction false} FreshKeyWritten(ks: Store, now: int, key: string, pairs: seq<(string, Payload.Blob)>, x: int)
    requires !Alive(ks, now, key) && |pairs| > 0
    ensures var e := Expire(HSetAll(ks, now, key, pairs), now, key, x);
      && (x > 0 ==> key in e && e[key] == Entry(Hash(ToMap(pairs)), Some(now + x)))
      && (x <= 0 ==> key !in e)
  {
    var w := HSetAll(ks, now, key, pairs);
    assert key in w && w[key] == Entry(Hash(ToMap(pairs)), None);
    assert Alive(w, now, key);
  }

  /** Read back right after `createNew` with an unused id and a positive expiry instant,
      the new key holds exactly the five fields: its own key, the account, the client
      address, the shadow flag as "1" or "0", and an empty payload. */
  lemma {:induction false} CreatedSessionFields(ks: Store, ctx: Ctx, cfg: Driver.Config, account: string,
                                               ttl: Option<int>, shadow: bool, sessionId: string)
    requires !Alive(ks, ctx.now, SessionKey(sessionId))
    requires ctx.now + Driver.EffectiveTTL(ttl, cfg.sessionTTL) > 0
    ensures var r := CreateNew(ks, ctx, cfg, account, ttl, shadow, sessionId).state;
      var key := SessionKey(sessionId);
      && IsHash(r, ctx.now, key)
      && r[key].value.fields.Keys == {"id", "auth_account_id", "ip", "shadow_session", "data"}
      && HGet(r, ctx.now, key, "id") == Some(Payload.Text(key))
      && HGet(r, ctx.now, key, "auth_account_id") == Some(Payload.Text(account))
      && HGet(r, ctx.now, key, "ip") == Some(Payload.Text(ctx.ip))
      && HGet(r, ctx.now, key, "shadow_session") == Some(Payload.Text(if shadow then "1" else "0"))
      && HGet(r, ctx.now, key, "data") == Some(Payload.Text(""))
  {
    var r := CreateNew(ks, ctx, cfg, account, ttl, shadow, sessionId).state;
    var key := SessionKey(sessionId);
    CreateNewEffect(ks, ctx, cfg, account, ttl, shadow, sessionId);
    NewFields(key, account, ctx.ip, shadow);
    var fs := r[key].value.fields;
    assert fs == ToMap(NewPairs(key, account, ctx.ip, shadow));
    assert fs["id"] == Payload.Text(key) && fs["auth_account_id"] == Payload.Text(account);
    assert fs["ip"] == Payload.Text(ctx.ip) && fs["data"] == Payload.Text("");
    assert fs["shadow_session"] == Payload.Text(if shadow then "1" else "0");
  }

  /** A primary `createNew` points the map at the new key for its account, leaves every
      other account's entry alone, and deletes the key the map held before. (Should the map
      name itself, it is deleted and rebuilt with the one entry; the invariant rules that
      out.) */
  lemma {:induction false} CreateNewRepoints(ks: Store, ctx: Ctx, cfg: Driver.Config, account: string,
                                            ttl: Option<int>, sessionId: string)
    requires !(Alive(ks, ctx.now, MAP_KEY) && ks[MAP_KEY].value.Num?)
    ensures var r := CreateNew(ks, ctx, cfg, account, ttl, false, sessionId).state;
      var prior := Str(HGet(ks, ctx.now, MAP_KEY, account));
      && HGet(r, ctx.now, MAP_KEY, account) == Some(Payload.Text(SessionKey(sessionId)))
      && (prior != MAP_KEY ==> forall b :: b != account ==> HGet(r, ctx.now, MAP_KEY, b) == HGet(ks, ctx.now, MAP_KEY, b))
      && (Text.Truthy(prior) && prior != SessionKey(sessionId) && prior != MAP_KEY ==> prior !in r)
  {
    var now := ctx.now;
    var key := SessionKey(sessionId);
    KeyFamiliesDisjoint(sessionId, "");
    var prior := Str(HGet(ks, now, MAP_KEY, account));
    var cleared := if Text.Truthy(prior) then Del(ks, prior) else ks;
    var mapped := Repoint(ks, now, account, key);
    assert !(Alive(cleared, now, MAP_KEY) && cleared[MAP_KEY].value.Num?);
    var w := HSetAll(mapped, now, key, NewPairs(key, account, ctx.ip, false));
    var e := Expire(w, now, key, Driver.ExpireTime(now, ttl, cfg));
    assert CreateNew(ks, ctx, cfg, account, ttl, false, sessionId).state == e;
  }

  /** `createNew` with an unused id, a positive expiry instant, and (for a primary
      session) no map entry for the account adds one session key and no live marker. */
  lemma {:induction false} CreateNewCountsOne(ks: Store, ctx: Ctx, cfg: Driver.Config, account: string,
                                             ttl: Option<int>, shadow: bool, sessionId: string)
    requires !Alive(ks, ctx.now, SessionKey(sessionId))
    requires ctx.now + Driver.EffectiveTTL(ttl, cfg.sessionTTL) > 0
    requires shadow || HGet(ks, ctx.now, MAP_KEY, account).None?
    ensures var r := CreateNew(ks, ctx, cfg, account, ttl, shadow, sessionId).state;
      && Keys(r, ctx.now, SESSION_PREFIX) == Keys(ks, ctx.now, SESSION_PREFIX) + {SessionKey(sessionId)}
      && Keys(r, ctx.now, LIVE_SESSION) == Keys(ks, ctx.now, LIVE_SESSION)
      && GetCount(r, ctx, true) == GetCount(ks, ctx, true) + 1
  {
    var r := CreateNew(ks, ctx, cfg, account, ttl, shadow, sessionId).state;
    var key := SessionKey(sessionId);
    CreateNewEffect(ks, ctx, cfg, account, ttl, shadow, sessionId);
    KeyFamiliesDisjoint(sessionId, "");
    assert Str(HGet(ks, ctx.now, MAP_KEY, account)) == "" || shadow;
    forall k ensures k in Keys(r, ctx.now, SESSION_PREFIX) <==> k in Keys(ks, ctx.now, SESSION_PREFIX) + {key} {
      if k != key && k != MAP_KEY && k != "" {
        assert k in r <==> k in ks;
      }
    }
    forall k ensures k in Keys(r, ctx.now, LIVE_SESSION) <==> k in Keys(ks, ctx.now, LIVE_SESSION) {
      if k != key && k != MAP_KEY && k != "" {
        assert k in r <==> k in ks;
      }
    }
  }

  /** Logging in again as a primary session trades the account's previous session key for
      the new one, so the session count does not grow. */
  lemma {:induction false} CreateNewReplacesPrimary(ks: Store, ctx: Ctx, cfg: Driver.Config, account: string,
                                                   ttl: Option<int>, sessionId: string)
    requires Inv(ks, ctx.now)
    requires !Alive(ks, ctx.now, SessionKey(sessionId))
    requires ctx.now + Driver.EffectiveTTL(ttl, cfg.sessionTTL) > 0
    requires HGet(ks, ctx.now, MAP_KEY, account).Some?
    ensures var r := CreateNew(ks, ctx, cfg, account, ttl, false, sessionId).state;
      var prior := Str(HGet(ks, ctx.now, MAP_KEY, account));
      && Keys(r, ctx.now, SESSION_PREFIX) == Keys(ks, ctx.now, SESSION_PREFIX) - {prior} + {SessionKey(sessionId)}
      && (Alive(ks, ctx.now, prior) ==> GetCount(r, ctx, true) == GetCount(ks, ctx, true))
  {
    var r := CreateNew(ks, ctx, cfg, account, ttl, false, sessionId).state;
    var key := SessionKey(sessionId);
    var prior := Str(HGet(ks, ctx.now, MAP_KEY, account));
    assert SESSION_PREFIX <= prior by {
      assert MapTargetsSessions(ks[MAP_KEY].value.fields);
    }
    KeyFamiliesDisjoint(sessionId, "");
    CreateNewEffect(ks, ctx, cfg, account, ttl, false, sessionId);
    CreateNewRepoints(ks, ctx, cfg, account, ttl, sessionId);
    forall k ensures k in Keys(r, ctx.now, SESSION_PREFIX) <==> k in Keys(ks, ctx.now, SESSION_PREFIX) - {prior} + {key} {
      if k != key && k != MAP_KEY && k != prior {
        assert k in r <==> k in ks;
      }
    }
    if Alive(ks, ctx.now, prior) {
      var before := Keys(ks, ctx.now, SESSION_PREFIX);
      assert prior in before && key !in before;
      assert |before - {prior}| == |before| - 1;
    }
  }

  /** A resolving `getSession` leaves the session keys alone and adds the account's live
      marker (when the marker's expiry instant is positive). */
  lemma {:induction false} GetSessionMarksLive(ks: Store, ctx: Ctx, cfg: Driver.Config)
    requires !ctx.cached && Alive(ks, ctx.now, CookieKey(ctx))
    requires ctx.now + cfg.liveSessionTTL > 0
    ensures var g := GetSession(ks, ctx, cfg);
      && Field(g.ctx, "auth_account_id") == Str(HGet(ks, ctx.now, CookieKey(ctx), "auth_account_id"))
      && Keys(g.state, ctx.now, SESSION_PREFIX) == Keys(ks, ctx.now, SESSION_PREFIX)
      && Keys(g.state, ctx.now, LIVE_SESSION) == Keys(ks, ctx.now, LIVE_SESSION) + {LiveKey(Field(g.ctx, "auth_account_id"))}
      && (MAP_KEY in g.state <==> MAP_KEY in ks) && (MAP_KEY in ks ==> g.state[MAP_KEY] == ks[MAP_KEY])
  {
    var g := GetSession(ks, ctx, cfg);
    var account := Str(HGet(ks, ctx.now, CookieKey(ctx), "auth_account_id"));
    assert g.ctx.data == ReadFields(ks, ctx.now, CookieKey(ctx));
    assert Field(g.ctx, "auth_account_id") == account;
    KeyFamiliesDisjoint("", account);
    var live := LiveKey(account);
    forall k ensures k in Keys(g.state, ctx.now, SESSION_PREFIX) <==> k in Keys(ks, ctx.now, SESSION_PREFIX) {
      if k != live {
        assert k in g.state <==> k in ks;
      }
    }
    forall k ensures k in Keys(g.state, ctx.now, LIVE_SESSION) <==> k in Keys(ks, ctx.now, LIVE_SESSION) + {live} {
      if k != live {
        assert k in g.state <==> k in ks;
      }
    }
  }

  /** `destroy` removes the session's key from the session count and the account's marker
      from the live count, and nothing else from either. */
  lemma {:induction false} DestroyCountsDown(ks: Store, ctx: Ctx, cfg: Driver.Config)
    requires CtxInv(GetSession(ks, ctx, cfg).ctx)
    requires Destroy(ks, ctx, cfg).out
    ensures var g := GetSession(ks, ctx, cfg);
      var r := Destroy(ks, ctx, cfg).state;
      && Keys(r, ctx.now, SESSION_PREFIX) == Keys(g.state, ctx.now, SESSION_PREFIX) - {Field(g.ctx, "id")}
      && Keys(r, ctx.now, LIVE_SESSION) == Keys(g.state, ctx.now, LIVE_SESSION) - {LiveKey(Field(g.ctx, "auth_account_id"))}
  {
    var g := GetSession(ks, ctx, cfg);
    var id := Field(g.ctx, "id");
    var account := Field(g.ctx, "auth_account_id");
    var r := Destroy(ks, ctx, cfg).state;
    RememberedKeyIsNoMarker(g.ctx);
    var d1 := Del(g.state, id);
    var d2 := HDel(d1, ctx.now, MAP_KEY, account);
    assert r == Del(d2, LiveKey(account));
    KeyFamiliesDisjoint("", account);
    var live := LiveKey(account);
    assert SameExcept(d1, d2, MAP_KEY);
    forall k ensures k in Keys(r, ctx.now, SESSION_PREFIX) <==> k in Keys(g.state, ctx.now, SESSION_PREFIX) - {id} {
      if k != id && k != MAP_KEY && k != live {
        assert k in r <==> k in g.state;
      }
    }
    forall k ensures k in Keys(r, ctx.now, LIVE_SESSION) <==> k in Keys(g.state, ctx.now, LIVE_SESSION) - {live} {
      if k != id && k != MAP_KEY && k != live {
        assert k in r <==> k in g.state;
      }
    }
  }

  /** After `destroyAll(true)` both counts are 0; `destroyAll(false)` changes neither. */
  lemma {:induction false} DestroyAllCounts(ks: Store, ctx: Ctx, all: bool)
    ensures GetCount(DestroyAll(ks, ctx, true).state, ctx, all) == 0
    ensures GetCount(DestroyAll(ks, ctx, false).state, ctx, all) == GetCount(ks, ctx, all)
  {
    var r := DestroyAll(ks, ctx, true).state;
    var p := if all then SESSION_PREFIX else LIVE_SESSION;
    forall k | k in Keys(r, ctx.now, p) ensures false {
      FamiliesUnderPrefix(k);
    }
    assert Keys(r, ctx.now, p) == {};
  }

  /** A primary login with session id `p`, from an empty store. */
  function FirstLogin(ctx: Ctx, cfg: Driver.Config, account: string, p: string): Step<()>
  {
    CreateNew(map[], ctx, cfg, account, None, false, p)
  }

  /** Then a shadow login for the same account with session id `sh`. */
  function PrimaryThenShadow(ctx: Ctx, cfg: Driver.Config, account: string, p: string, sh: string): Step<()>
  {
    var s1 := FirstLogin(ctx, cfg, account, p);
    CreateNew(s1.state, s1.ctx, cfg, account, None, true, sh)
  }

  /** Distinct ids give distinct session keys. */
  lemma SessionKeyInjective(x: string, y: string)
    requires x != y
    ensures SessionKey(x) != SessionKey(y)
  {
    assert SessionKey(x)[|SESSION_PREFIX|..] == x;
  }

  /** The state `FirstLogin` reaches: `p` is the account's primary session, and only its
      key and the map exist. */
  lemma {:induction false} FirstLoginState(ctx: Ctx, cfg: Driver.Config, account: string, p: string)
    requires !ctx.cached && ctx.now + cfg.sessionTTL > 0
    ensures var s := FirstLogin(ctx, cfg, account, p);
      && Inv(s.state, ctx.now) && CtxInv(s.ctx) && !s.ctx.cached && s.ctx.now == ctx.now
      && IsPrimary(s.state, ctx.now, SessionKey(p), account)
      && forall j :: j in s.state ==> j == SessionKey(p) || j == MAP_KEY
  {
    assert Inv(map[], ctx.now);
    CreateNewKeepsInv(map[], ctx, cfg, account, None, false, p);
    CreateNewEffect(map[], ctx, cfg, account, None, false, p);
    CreatedSessionFields(map[], ctx, cfg, account, None, false, p);
  }

  /** The state `PrimaryThenShadow` reaches: the invariant holds, `p` is the account's
      primary session, and the cookie resolves the shadow session `sh`. */
  lemma {:induction false} PrimaryThenShadowState(ctx: Ctx, cfg: Driver.Config, account: string, p: string, sh: string)
    requires !ctx.cached && ctx.now + cfg.sessionTTL > 0 && p != sh
    ensures var s := PrimaryThenShadow(ctx, cfg, account, p, sh);
      && Inv(s.state, ctx.now) && CtxInv(s.ctx) && !s.ctx.cached && s.ctx.now == ctx.now
      && IsPrimary(s.state, ctx.now, SessionKey(p), account)
      && CookieKey(s.ctx) == SessionKey(sh) && Alive(s.state, ctx.now, SessionKey(sh))
      && HGet(s.state, ctx.now, SessionKey(sh), "id") == Some(Payload.Text(SessionKey(sh)))
      && HGet(s.state, ctx.now, SessionKey(sh), "auth_account_id") == Some(Payload.Text(account))
      && forall j :: j in s.state ==> j == SessionKey(p) || j == SessionKey(sh) || j == MAP_KEY
  {
    var k1 := SessionKey(p);
    SessionKeyInjective(p, sh);
    var s1 := FirstLogin(ctx, cfg, account, p);
    FirstLoginState(ctx, cfg, account, p);
    var s2 := CreateNew(s1.state, s1.ctx, cfg, account, None, true, sh);
    assert s2 == PrimaryThenShadow(ctx, cfg, account, p, sh);
    CreateNewKeepsInv(s1.state, s1.ctx, cfg, account, None, true, sh);
    CreateNewEffect(s1.state, s1.ctx, cfg, account, None, true, sh);
    CreateNewRemembersSession(s1.state, s1.ctx, cfg, account, None, true, sh);
    CreatedSessionFields(s1.state, s1.ctx, cfg, account, None, true, sh);
    assert s2.state[k1] == s1.state[k1];
  }

  /** `destroy` with a current session changes only three keys: the session's own key,
      the map, and the account's live marker. */
  lemma {:induction false} DestroyEffect(ks: Store, ctx: Ctx, cfg: Driver.Config)
    requires Destroy(ks, ctx, cfg).out
    ensures var g := GetSession(ks, ctx, cfg);
      var r := Destroy(ks, ctx, cfg).state;
      var account := Field(g.ctx, "auth_account_id");
      forall j :: j != Field(g.ctx, "id") && j != MAP_KEY && j != LiveKey(account) ==>
        (j in r <==> j in g.state) && (j in r ==> r[j] == g.state[j])
  {
    var g := GetSession(ks, ctx, cfg);
    var account := Field(g.ctx, "auth_account_id");
    var d1 := Del(g.state, Field(g.ctx, "id"));
    var d2 := HDel(d1, ctx.now, MAP_KEY, account);
    assert Destroy(ks, ctx, cfg).state == Del(d2, LiveKey(account));
  }

  /** As written, `destroy` on the shadow session also removes the account's map entry, so
      the invariant breaks: `p` is still a primary session but the map no longer names
      it. */
  lemma {:induction false} DestroyShadowBreaksInv(ctx: Ctx, cfg: Driver.Config, account: string, p: string, sh: string)
    requires !ctx.cached && ctx.now + cfg.sessionTTL > 0 && p != sh
    ensures var s := PrimaryThenShadow(ctx, cfg, account, p, sh);
      var d := Destroy(s.state, s.ctx, cfg);
      && Inv(s.state, ctx.now) && d.out && !Inv(d.state, ctx.now)
      && IsPrimary(d.state, ctx.now, SessionKey(p), account)
      && HGet(d.state, ctx.now, MAP_KEY, account).None?
      && d.ctx.now == ctx.now
      && forall j :: j in d.state ==> j == SessionKey(p) || j == MAP_KEY || j == LiveKey(account)
  {
    var s := PrimaryThenShadow(ctx, cfg, account, p, sh);
    PrimaryThenShadowState(ctx, cfg, account, p, sh);
    var now := ctx.now;
    var k1 := SessionKey(p);
    var k2 := SessionKey(sh);
    SessionKeyInjective(p, sh);
    var g := GetSession(s.state, s.ctx, cfg);
    assert Field(g.ctx, "id") == k2 && Field(g.ctx, "auth_account_id") == account by {
      assert g.ctx.data == ReadFields(s.state, now, k2);
    }
    assert g.state[k1] == s.state[k1] && forall j :: j in g.state ==> j in s.state || j == LiveKey(account) by {
      KeyFamiliesDisjoint(p, account);
    }
    var d := Destroy(s.state, s.ctx, cfg);
    DestroyEffect(s.state, s.ctx, cfg);
    KeyFamiliesDisjoint(p, account);
    assert k1 in d.state && d.state[k1] == s.state[k1];
    assert IsPrimary(d.state, now, k1, account) by {
      assert HGet(d.state, now, k1, "auth_account_id") == HGet(s.state, now, k1, "auth_account_id");
      assert HGet(d.state, now, k1, "shadow_session") == HGet(s.state, now, k1, "shadow_session");
    }
  }

  /** A primary login for an account the map holds no entry for evicts nothing: a primary
      session the account already has stays, next to the new one. */
  lemma {:induction false} UnmappedLoginKeepsPrimary(ks: Store, ctx: Ctx, cfg: Driver.Config, account: string,
                                                    earlier: string, q: string)
    requires IsPrimary(ks, ctx.now, SessionKey(earlier), account) && HGet(ks, ctx.now, MAP_KEY, account).None?
    requires !Alive(ks, ctx.now, SessionKey(q)) && ctx.now + cfg.sessionTTL > 0
    ensures var again := CreateNew(ks, ctx, cfg, account, None, false, q);
      && IsPrimary(again.state, ctx.now, SessionKey(earlier), account)
      && IsPrimary(again.state, ctx.now, SessionKey(q), account)
  {
    var k1 := SessionKey(earlier);
    var again := CreateNew(ks, ctx, cfg, account, None, false, q);
    KeyFamiliesDisjoint(earlier, account);
    assert k1 != SessionKey(q);
    assert k1 in again.state && again.state[k1] == ks[k1] by {
      CreateNewEffect(ks, ctx, cfg, account, None, false, q);
    }
    assert IsPrimary(again.state, ctx.now, SessionKey(q), account) by {
      CreatedSessionFields(ks, ctx, cfg, account, None, false, q);
    }
  }

  /** The consequence of `DestroyShadowBreaksInv`: the next primary login for the account
      evicts nothing, and the account has two primary sessions. */
  lemma {:induction false} DestroyShadowOrphansPrimary(ctx: Ctx, cfg: Driver.Config, account: string,
                                                      p: string, sh: string, q: string)
    requires !ctx.cached && ctx.now + cfg.sessionTTL > 0 && p != sh && q != p && q != sh
    ensures var s := PrimaryThenShadow(ctx, cfg, account, p, sh);
      var d := Destroy(s.state, s.ctx, cfg);
      var again := CreateNew(d.state, d.ctx, cfg, account, None, false, q);
      && IsPrimary(again.state, ctx.now, SessionKey(p), account)
      && IsPrimary(again.state, ctx.now, SessionKey(q), account)
      && SessionKey(p) != SessionKey(q)
  {
    var s := PrimaryThenShadow(ctx, cfg, account, p, sh);
    var d := Destroy(s.state, s.ctx, cfg);
    DestroyShadowBreaksInv(ctx, cfg, account, p, sh);
    SessionKeyInjective(p, q);
    SessionKeyInjective(sh, q);
    KeyFamiliesDisjoint(q, account);
    assert SessionKey(q) !in d.state;
    UnmappedLoginKeepsPrimary(d.state, d.ctx, cfg, account, p, q);
  }

  /** A primary login under the invariant keeps it, and the new session is the account's
      only primary session. */
  lemma {:induction false} PrimaryLoginUnderInv(ks: Store, ctx: Ctx, cfg: Driver.Config, account: string,
                                               q: string, k: string)
    requires Inv(ks, ctx.now) && !Alive(ks, ctx.now, SessionKey(q)) && ctx.now + cfg.sessionTTL > 0
    requires k != SessionKey(q)
    ensures var again := CreateNew(ks, ctx, cfg, account, None, false, q);
      && Inv(again.state, ctx.now)
      && IsPrimary(again.state, ctx.now, SessionKey(q), account)
      && !IsPrimary(again.state, ctx.now, k, account)
  {
    var again := CreateNew(ks, ctx, cfg, account, None, false, q);
    CreateNewKeepsInv(ks, ctx, cfg, account, None, false, q);
    CreatedSessionFields(ks, ctx, cfg, account, None, false, q);
    if IsPrimary(again.state, ctx.now, k, account) {
      SinglePrimary(again.state, ctx.now, k, SessionKey(q), account);
    }
  }

  /** With the corrected `destroy`, destroying the shadow session keeps the invariant,
      leaves only `p`'s key and the map, and leaves `p` the account's primary with the map
      still naming it: the shadow login and its destruction never affect the primary. */
  lemma {:induction false} CorrectedShadowDestroyState(ctx: Ctx, cfg: Driver.Config, account: string,
                                                      p: string, sh: string)
    requires !ctx.cached && ctx.now + cfg.sessionTTL > 0 && p != sh
    ensures var s := PrimaryThenShadow(ctx, cfg, account, p, sh);
      var d := DestroyCorrected(s.state, s.ctx, cfg);
      && d.out && Inv(d.state, ctx.now) && d.ctx.now == ctx.now
      && (forall j :: j in d.state ==> j == SessionKey(p) || j == MAP_KEY)
      && IsPrimary(d.state, ctx.now, SessionKey(p), account)
      && HGet(d.state, ctx.now, MAP_KEY, account) == Some(Payload.Text(SessionKey(p)))
  {
    var s := PrimaryThenShadow(ctx, cfg, account, p, sh);
    PrimaryThenShadowState(ctx, cfg, account, p, sh);
    var now := ctx.now;
    var k1, k2 := SessionKey(p), SessionKey(sh);
    SessionKeyInjective(p, sh);
    KeyFamiliesDisjoint(p, account);
    KeyFamiliesDisjoint(sh, account);
    DestroyCorrectedKeepsInv(s.state, s.ctx, cfg);
    var g := GetSession(s.state, s.ctx, cfg);
    assert g.ctx.data == ReadFields(s.state, now, k2);
    assert Field(g.ctx, "id") == k2 && Field(g.ctx, "auth_account_id") == account;
    assert forall j :: j in g.state ==> j in s.state || j == LiveKey(account);
    assert HGet(s.state, now, MAP_KEY, account) == Some(Payload.Text(k1));
    var d := DestroyCorrected(s.state, s.ctx, cfg);
    assert d.state[k1] == s.state[k1];
    assert d.state[MAP_KEY] == s.state[MAP_KEY];
  }

  /** With the corrected `destroy`, the same sequence keeps the invariant: destroying the
      shadow session leaves the map naming `p`, and the next primary login evicts it, so
      the account keeps a single primary session. */
  lemma {:induction false} CorrectedDestroyKeepsSinglePrimary(ctx: Ctx, cfg: Driver.Config, account: string,
                                                             p: string, sh: string, q: string)
    requires !ctx.cached && ctx.now + cfg.sessionTTL > 0 && p != sh && q != p && q != sh
    ensures var s := PrimaryThenShadow(ctx, cfg, account, p, sh);
      var d := DestroyCorrected(s.state, s.ctx, cfg);
      var again := CreateNew(d.state, d.ctx, cfg, account, None, false, q);
      && Inv(d.state, ctx.now) && Inv(again.state, ctx.now)
      && IsPrimary(again.state, ctx.now, SessionKey(q), account)
      && !IsPrimary(again.state, ctx.now, SessionKey(p), account)
  {
    var s := PrimaryThenShadow(ctx, cfg, account, p, sh);
    var d := DestroyCorrected(s.state, s.ctx, cfg);
    CorrectedShadowDestroyState(ctx, cfg, account, p, sh);
    SessionKeyInjective(p, q);
    KeyFamiliesDisjoint(q, "");
    assert !Alive(d.state, ctx.now, SessionKey(q));
    PrimaryLoginUnderInv(d.state, d.ctx, cfg, account, q, SessionKey(p));
  }

  /** The session `createNew` binds to the cookie is the one the next request resolves,
      with the account it was created for, as long as its expiry instant is positive —
      even for a negative ttl, since the key lives until twice now plus the ttl. */
  lemma {:induction false} CreateThenResolve(ks: Store, ctx: Ctx, cfg: Driver.Config, account: string,
                                            ttl: Option<int>, shadow: bool, sessionId: string, next: Ctx)
    requires !Alive(ks, ctx.now, SessionKey(sessionId))
    requires ctx.now + Driver.EffectiveTTL(ttl, cfg.sessionTTL) > 0
    requires next == CreateNew(ks, ctx, cfg, account, ttl, shadow, sessionId).ctx.(cached := false)
    ensures var s := CreateNew(ks, ctx, cfg, account, ttl, shadow, sessionId);
      var g := GetSession(s.state, next, cfg);
      && g.out
      && Field(g.ctx, "id") == SessionKey(sessionId)
      && Field(g.ctx, "auth_account_id") == account
  {
    var s := CreateNew(ks, ctx, cfg, account, ttl, shadow, sessionId);
    var key := SessionKey(sessionId);
    CreatedSessionFields(ks, ctx, cfg, account, ttl, shadow, sessionId);
    assert CookieKey(next) == key;
    var g := GetSession(s.state, next, cfg);
    assert g.ctx.data == ReadFields(s.state, ctx.now, key);
  }

  /** A session created with ttl -1 is still resolved by the next request at any instant
      after 1, because its key expires at twice now minus one. */
  lemma {:induction false} NegativeTtlStillResolves(ks: Store, ctx: Ctx, cfg: Driver.Config, account: string,
                                                   sessionId: string)
    requires !Alive(ks, ctx.now, SessionKey(sessionId)) && ctx.now > 1
    ensures var s := CreateNew(ks, ctx, cfg, account, Some(-1), false, sessionId);
      && s.state[SessionKey(sessionId)].expireAt == Some(2 * ctx.now - 1)
      && GetSession(s.state, s.ctx.(cached := false), cfg).out
  {
    var s := CreateNew(ks, ctx, cfg, account, Some(-1), false, sessionId);
    assert Driver.TruthyInt(Some(-1));
    assert Driver.EffectiveTTL(Some(-1), cfg.sessionTTL) == -1;
    CreateNewEffect(ks, ctx, cfg, account, Some(-1), false, sessionId);
    CreateThenResolve(ks, ctx, cfg, account, Some(-1), false, sessionId, s.ctx.(cached := false));
  }

  /** `resetTTL` with a current session whose key exists only moves that key's expiry, to
      `now + (now + ttl')`; its fields, every other key, the cookie and the instance stay as
      `getSession` left them. */
  lemma {:induction false} ResetTTLOnlyMovesExpiry(ks: Store, ctx: Ctx, cfg: Driver.Config, ttl: Option<int>)
    requires GetSession(ks, ctx, cfg).out
    requires Alive(GetSession(ks, ctx, cfg).state, ctx.now, Field(GetSession(ks, ctx, cfg).ctx, "id"))
    requires ctx.now + Driver.EffectiveTTL(ttl, cfg.sessionTTL) > 0
    ensures var g := GetSession(ks, ctx, cfg);
      var id := Field(g.ctx, "id");
      var r := ResetTTL(ks, ctx, cfg, ttl);
      && r.ctx == g.ctx && r.ctx.cookie == ctx.cookie
      && SameExcept(g.state, r.state, id)
      && id in r.state && r.state[id].value == g.state[id].value
      && r.state[id].expireAt == Some(2 * ctx.now + Driver.EffectiveTTL(ttl, cfg.sessionTTL))
  {
  }

  /** Within one request with a current session whose key is not an integer, `getData(k)`
      after `setData(k, v)` yields `v` for a truthy key and a non-null value, and
      `getData()` yields the previous bag with `k` overridden. */
  lemma {:induction false} SetThenGetData(ks: Store, ctx: Ctx, cfg: Driver.Config, key: string, value: Payload.Value)
    requires GetSession(ks, ctx, cfg).out
    requires var g := GetSession(ks, ctx, cfg);
      !(Alive(g.state, ctx.now, Field(g.ctx, "id")) && g.state[Field(g.ctx, "id")].value.Num?)
    ensures var g := GetSession(ks, ctx, cfg);
      var prev := HGet(g.state, ctx.now, Field(g.ctx, "id"), "data");
      var s := SetData(ks, ctx, cfg, key, value);
      && (Text.Truthy(key) && value != Payload.Null ==> GetData(s.state, s.ctx, cfg, Some(key)).out == Payload.One(value))
      && GetData(s.state, s.ctx, cfg, None).out == Payload.Whole(Payload.Merge(Payload.Decode(prev), key, value))
  {
    var g := GetSession(ks, ctx, cfg);
    var id := Field(g.ctx, "id");
    var read := RetrieveData(ks, ctx, cfg);
    var blob := Payload.Updated(read.out, key, value);
    var s := SetData(ks, ctx, cfg, key, value);
    assert s == SaveData(read.state, read.ctx, cfg, blob);
    assert s.state == HSet(g.state, ctx.now, id, "data", blob) && s.ctx == g.ctx;
    assert HGet(s.state, ctx.now, id, "data") == Some(blob);
    Payload.DecodeEncode(Payload.Merge(Payload.Decode(read.out), key, value));
  }

  /** The memo outlives `destroy`: a second `destroy` in the same request finds the same
      session and returns true again. */
  lemma {:induction false} DestroyTwiceBothTrue(ks: Store, ctx: Ctx, cfg: Driver.Config)
    requires Destroy(ks, ctx, cfg).out
    ensures Destroy(Destroy(ks, ctx, cfg).state, Destroy(ks, ctx, cfg).ctx, cfg).out
  {
    assert Destroy(ks, ctx, cfg).ctx.cached;
  }

  /** What the counting scenario below keeps track of: the live session keys, the live
      markers, and the accounts the map may name (every other account has no entry). The
      scenario lemmas write these sets as the tracking lemmas grow them, one `+ {x}` per
      step from the empty set, so that each step's result matches the next step's
      precondition term for term. */
  ghost predicate Tracked(ks: Store, now: int, sessions: set<string>, lives: set<string>, mapped: set<string>)
  {
    && Keys(ks, now, SESSION_PREFIX) == sessions
    && Keys(ks, now, LIVE_SESSION) == lives
    && !(Alive(ks, now, MAP_KEY) && ks[MAP_KEY].value.Num?)
    && forall b :: b !in mapped ==> HGet(ks, now, MAP_KEY, b).None?
  }

  /** A primary login for an account the map does not name, with an unused id, adds its
      key to the sessions and its account to the mapped ones, and binds the cookie to it. */
  lemma {:induction false} TrackCreate(ks: Store, ctx: Ctx, cfg: Driver.Config, account: string, sessionId: string,
                                      sessions: set<string>, lives: set<string>, mapped: set<string>)
    requires Tracked(ks, ctx.now, sessions, lives, mapped)
    requires account !in mapped && SessionKey(sessionId) !in sessions && ctx.now + cfg.sessionTTL > 0
    ensures var c := CreateNew(ks, ctx, cfg, account, None, false, sessionId);
      && Tracked(c.state, ctx.now, sessions + {SessionKey(sessionId)}, lives, mapped + {account})
      && c.ctx.now == ctx.now && c.ctx.cached == ctx.cached
      && CookieKey(c.ctx) == SessionKey(sessionId) && Field(c.ctx, "id") == SessionKey(sessionId)
      && Alive(c.state, ctx.now, SessionKey(sessionId))
      && HGet(c.state, ctx.now, SessionKey(sessionId), "auth_account_id") == Some(Payload.Text(account))
  {
    var key := SessionKey(sessionId);
    KeyFamiliesDisjoint(sessionId, "");
    assert !Alive(ks, ctx.now, key);
    CreateNewCountsOne(ks, ctx, cfg, account, None, false, sessionId);
    CreateNewRepoints(ks, ctx, cfg, account, None, sessionId);
    CreatedSessionFields(ks, ctx, cfg, account, None, false, sessionId);
    CreateNewRemembersSession(ks, ctx, cfg, account, None, false, sessionId);
  }

  /** A request whose cookie names a live session of `account` resolves it, marks the
      account live and leaves the sessions and the map alone. */
  lemma {:induction false} TrackResolve(ks: Store, ctx: Ctx, cfg: Driver.Config, account: string,
                                       sessions: set<string>, lives: set<string>, mapped: set<string>)
    requires Tracked(ks, ctx.now, sessions, lives, mapped)
    requires !ctx.cached && Alive(ks, ctx.now, CookieKey(ctx)) && ctx.now + cfg.liveSessionTTL > 0
    requires HGet(ks, ctx.now, CookieKey(ctx), "auth_account_id") == Some(Payload.Text(account))
    ensures var g := GetSession(ks, ctx, cfg);
      && g.out && g.ctx.cached && g.ctx.now == ctx.now && g.ctx.cookie == ctx.cookie
      && Tracked(g.state, ctx.now, sessions, lives + {LiveKey(account)}, mapped)
      && Field(g.ctx, "id") == Str(HGet(ks, ctx.now, CookieKey(ctx), "id"))
      && Field(g.ctx, "auth_account_id") == account
  {
    var g := GetSession(ks, ctx, cfg);
    GetSessionMarksLive(ks, ctx, cfg);
    assert g.ctx.data == ReadFields(ks, ctx.now, CookieKey(ctx));
    assert forall b :: HGet(g.state, ctx.now, MAP_KEY, b) == HGet(ks, ctx.now, MAP_KEY, b);
  }

  /** A primary login followed by a request that resolves it: the session is counted, the
      account is marked live, and the memo holds the new session. */
  lemma {:induction false} TrackLoginResolve(ks: Store, ctx: Ctx, cfg: Driver.Config, account: string, sessionId: string,
                                            sessions: set<string>, lives: set<string>, mapped: set<string>)
    requires Tracked(ks, ctx.now, sessions, lives, mapped) && !ctx.cached
    requires account !in mapped && SessionKey(sessionId) !in sessions
    requires ctx.now + cfg.sessionTTL > 0 && ctx.now + cfg.liveSessionTTL > 0
    ensures var c := CreateNew(ks, ctx, cfg, account, None, false, sessionId);
      var g := GetSession(c.state, c.ctx, cfg);
      && Tracked(g.state, ctx.now, sessions + {SessionKey(sessionId)}, lives + {LiveKey(account)}, mapped + {account})
      && g.ctx.cached && g.ctx.now == ctx.now
      && Field(g.ctx, "id") == SessionKey(sessionId) && Field(g.ctx, "auth_account_id") == account
  {
    var key := SessionKey(sessionId);
    var c := CreateNew(ks, ctx, cfg, account, None, false, sessionId);
    assert Tracked(c.state, ctx.now, sessions + {key}, lives, mapped + {account})
        && c.ctx.now == ctx.now && !c.ctx.cached && CookieKey(c.ctx) == key && Alive(c.state, ctx.now, key)
        && HGet(c.state, ctx.now, key, "auth_account_id") == Some(Payload.Text(account))
        && HGet(c.state, ctx.now, key, "id") == Some(Payload.Text(key)) by {
      TrackCreate(ks, ctx, cfg, account, sessionId, sessions, lives, mapped);
      KeyFamiliesDisjoint(sessionId, "");
      CreatedSessionFields(ks, ctx, cfg, account, None, false, sessionId);
    }
    TrackResolve(c.state, c.ctx, cfg, account, sessions + {key}, lives, mapped + {account});
  }

  /** Distinct accounts have distinct live markers. */
  lemma LiveKeyInjective(x: string, y: string)
    requires x != y
    ensures LiveKey(x) != LiveKey(y)
  {
    assert LiveKey(x)[|LIVE_SESSION|..] == x;
  }

  /** The counting scenario's start: wipe every key and log in account `a1`. */
  function WipeThenLogin(ks: Store, ctx: Ctx, cfg: Driver.Config, a1: string, i1: string): Step<()>
  {
    var s0 := DestroyAll(ks, ctx, true);
    CreateNew(s0.state, s0.ctx, cfg, a1, None, false, i1)
  }

  /** Then log in account `a2` and resolve its session. */
  function TwoLogins(ks: Store, ctx: Ctx, cfg: Driver.Config, a1: string, a2: string, i1: string, i2: string): Step<bool>
  {
    var s1 := WipeThenLogin(ks, ctx, cfg, a1, i1);
    var s2 := CreateNew(s1.state, s1.ctx, cfg, a2, None, false, i2);
    GetSession(s2.state, s2.ctx, cfg)
  }

  /** A second driver instance starts with no memo and no data but shares the cookie; it
      logs in account `a3` and resolves that session. */
  function SecondInstance(g2: Step<bool>, cfg: Driver.Config, a3: string, i3: string): Step<bool>
  {
    var s3 := CreateNew(g2.state, g2.ctx.(data := map[], cached := false), cfg, a3, None, false, i3);
    GetSession(s3.state, s3.ctx, cfg)
  }

  /** Four pairwise distinct values, collected one by one, make a set of four, with each
      value missing from the set collected before it. */
  lemma Distinct4<T>(x1: T, x2: T, x3: T, x4: T)
    requires x1 != x2 && x1 != x3 && x1 != x4 && x2 != x3 && x2 != x4 && x3 != x4
    ensures x2 !in {} + {x1} && x3 !in {} + {x1} + {x2} && x4 !in {} + {x1} + {x2} + {x3}
    ensures |{} + {x1} + {x2} + {x3} + {x4}| == 4
    ensures |({} + {x1} + {x2} + {x3} + {x4}) - {x3}| == 3
  {
    assert ({} + {x1} + {x2} + {x3} + {x4}) - {x3} == {x1, x2, x4};
  }

  /** Two distinct live markers make a set of two, and one is left after removing the
      second. */
  lemma TwoMarkers(a2: string, a3: string)
    requires a2 != a3
    ensures LiveKey(a3) !in {} + {LiveKey(a2)}
    ensures |{} + {LiveKey(a2)} + {LiveKey(a3)}| == 2
    ensures |({} + {LiveKey(a2)} + {LiveKey(a3)}) - {LiveKey(a3)}| == 1
  {
    LiveKeyInjective(a2, a3);
    assert ({} + {LiveKey(a2)} + {LiveKey(a3)}) - {LiveKey(a3)} == {LiveKey(a2)};
  }

  /** Distinct ids give distinct session keys, in the shape `Distinct4` takes. */
  lemma FourKeys(i1: string, i2: string, i3: string, i4: string)
    requires i1 != i2 && i1 != i3 && i1 != i4 && i2 != i3 && i2 != i4 && i3 != i4
    ensures var k1, k2, k3, k4 := SessionKey(i1), SessionKey(i2), SessionKey(i3), SessionKey(i4);
      k1 != k2 && k1 != k3 && k1 != k4 && k2 != k3 && k2 != k4 && k3 != k4
  {
    SessionKeyInjective(i1, i2);
    SessionKeyInjective(i1, i3);
    SessionKeyInjective(i1, i4);
    SessionKeyInjective(i2, i3);
    SessionKeyInjective(i2, i4);
    SessionKeyInjective(i3, i4);
  }

  /** `destroyAll(true)` leaves nothing to track. */
  lemma {:induction false} WipedIsTracked(ks: Store, ctx: Ctx)
    ensures Tracked(DestroyAll(ks, ctx, true).state, ctx.now, {}, {}, {})
  {
    var r := DestroyAll(ks, ctx, true).state;
    KeyFamiliesDisjoint("", "");
    forall k ensures k !in Keys(r, ctx.now, SESSION_PREFIX) && k !in Keys(r, ctx.now, LIVE_SESSION) {
      FamiliesUnderPrefix(k);
    }
    assert !Alive(r, ctx.now, MAP_KEY);
  }

  /** The state after `WipeThenLogin`. */
  lemma {:induction false} WipeThenLoginState(ks: Store, ctx: Ctx, cfg: Driver.Config, a1: string, i1: string)
    requires !ctx.cached && ctx.now + cfg.sessionTTL > 0
    ensures var s1 := WipeThenLogin(ks, ctx, cfg, a1, i1);
      && Tracked(s1.state, ctx.now, {} + {SessionKey(i1)}, {}, {} + {a1}) && s1.ctx.now == ctx.now && !s1.ctx.cached
  {
    var s0 := DestroyAll(ks, ctx, true);
    WipedIsTracked(ks, ctx);
    TrackCreate(s0.state, s0.ctx, cfg, a1, i1, {}, {}, {});
  }

  /** The state after `TwoLogins`. */
  lemma {:induction false} TwoLoginsState(ks: Store, ctx: Ctx, cfg: Driver.Config, a1: string, a2: string,
                                         i1: string, i2: string)
    requires !ctx.cached && ctx.now + cfg.sessionTTL > 0 && ctx.now + cfg.liveSessionTTL > 0
    requires a2 != a1 && i2 != i1
    ensures var g2 := TwoLogins(ks, ctx, cfg, a1, a2, i1, i2);
      && g2.ctx.now == ctx.now
      && Tracked(g2.state, ctx.now, {} + {SessionKey(i1)} + {SessionKey(i2)}, {} + {LiveKey(a2)}, {} + {a1} + {a2})
  {
    var s1 := WipeThenLogin(ks, ctx, cfg, a1, i1);
    WipeThenLoginState(ks, ctx, cfg, a1, i1);
    SessionKeyInjective(i1, i2);
    TrackLoginResolve(s1.state, s1.ctx, cfg, a2, i2, {} + {SessionKey(i1)}, {}, {} + {a1});
  }

  /** The state after `SecondInstance` and a further login from the first instance. */
  lemma {:induction false} SecondInstanceState(g2: Step<bool>, now: int, cfg: Driver.Config,
                                              a3: string, i3: string, a4: string, i4: string,
                                              sessions: set<string>, lives: set<string>, mapped: set<string>)
    requires g2.ctx.now == now && now + cfg.sessionTTL > 0 && now + cfg.liveSessionTTL > 0
    requires Tracked(g2.state, now, sessions, lives, mapped)
    requires a3 !in mapped && a4 !in mapped + {a3}
    requires SessionKey(i3) !in sessions && SessionKey(i4) !in sessions + {SessionKey(i3)}
    ensures var g3 := SecondInstance(g2, cfg, a3, i3);
      var s4 := CreateNew(g3.state, g3.ctx, cfg, a4, None, false, i4);
      && g3.ctx.cached && g3.ctx.now == now && Field(g3.ctx, "id") == SessionKey(i3)
      && Field(g3.ctx, "auth_account_id") == a3
      && Tracked(s4.state, now, sessions + {SessionKey(i3)} + {SessionKey(i4)}, lives + {LiveKey(a3)},
                 mapped + {a3} + {a4})
  {
    var c3 := g2.ctx.(data := map[], cached := false);
    var g3 := SecondInstance(g2, cfg, a3, i3);
    TrackLoginResolve(g2.state, c3, cfg, a3, i3, sessions, lives, mapped);
    TrackCreate(g3.state, g3.ctx, cfg, a4, i4, sessions + {SessionKey(i3)}, lives + {LiveKey(a3)}, mapped + {a3});
  }

  /** The session-count scenario: after wiping every key, logging in `a1` and `a2`,
      resolving `a2`, logging in `a3` from a second instance and resolving it, then logging
      in `a4`, there are four sessions and two live accounts. The memo is static, so the
      last `destroy` acts on the session the second instance resolved (that of `a3`),
      after which three sessions and one live account remain. */
  lemma {:induction false} CountScenario(ks: Store, ctx: Ctx, cfg: Driver.Config,
                                        a1: string, a2: string, a3: string, a4: string,
                                        i1: string, i2: string, i3: string, i4: string)
    requires !ctx.cached && ctx.now + cfg.sessionTTL > 0 && ctx.now + cfg.liveSessionTTL > 0
    requires a1 != a2 && a1 != a3 && a1 != a4 && a2 != a3 && a2 != a4 && a3 != a4
    requires i1 != i2 && i1 != i3 && i1 != i4 && i2 != i3 && i2 != i4 && i3 != i4
    ensures var g3 := SecondInstance(TwoLogins(ks, ctx, cfg, a1, a2, i1, i2), cfg, a3, i3);
      var s4 := CreateNew(g3.state, g3.ctx, cfg, a4, None, false, i4);
      var d := Destroy(s4.state, g3.ctx, cfg);
      && GetCount(s4.state, ctx, true) == 4
      && GetCount(s4.state, ctx, false) == 2
      && d.out
      && GetCount(d.state, ctx, true) == 3
      && GetCount(d.state, ctx, false) == 1
  {
    var now := ctx.now;
    var k1, k2, k3, k4 := SessionKey(i1), SessionKey(i2), SessionKey(i3), SessionKey(i4);
    Distinct4(a1, a2, a3, a4);
    FourKeys(i1, i2, i3, i4);
    Distinct4(k1, k2, k3, k4);
    TwoMarkers(a2, a3);
    var g2 := TwoLogins(ks, ctx, cfg, a1, a2, i1, i2);
    TwoLoginsState(ks, ctx, cfg, a1, a2, i1, i2);
    var g3 := SecondInstance(g2, cfg, a3, i3);
    SecondInstanceState(g2, now, cfg, a3, i3, a4, i4, {} + {k1} + {k2}, {} + {LiveKey(a2)}, {} + {a1} + {a2});
    var s4 := CreateNew(g3.state, g3.ctx, cfg, a4, None, false, i4);
    KeyFamiliesDisjoint(i3, "");
    DestroyCountsDown(s4.state, g3.ctx, cfg);
  }
}
