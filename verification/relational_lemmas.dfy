/** Properties of the relational backend: the single-primary invariant and the shadow
    exemption, the expiry filter, the memo, counting, the payload round trip, and what each
    operation leaves alone. */
module RelationalLemmas {
  import opened Outcomes
  import Payload
  import Driver
  import Seqs
  import Text
  import opened RelationalStore

  /** The primary sessions of one account, in table order. */
  function PrimariesOf(rows: seq<Row>, account: int): seq<Row>
  {
    Seqs.Keep(rows, (r: Row) => IsPrimaryOf(r, account))
  }

  /** No row has its live marker set. */
  predicate NoLiveMarks(t: Table)
  {
    forall i :: 0 <= i < |t.rows| ==> t.rows[i].liveExpiredAt.None?
  }

  /** Deleting rows keeps the single-primary invariant. */
  lemma {:induction false} KeepKeepsSinglePrimary(rows: seq<Row>, p: Row -> bool)
    requires SinglePrimary(rows)
    ensures SinglePrimary(Seqs.Keep(rows, p))
  {
    Seqs.KeepKeepsOrder(rows, p, (a: Row, b: Row) => !a.shadow && !b.shadow ==> a.account != b.account);
  }

  /** Deleting rows keeps ids increasing. */
  lemma {:induction false} KeepKeepsIncreasing(rows: seq<Row>, p: Row -> bool, bound: nat)
    requires forall i, j :: 0 <= i < j < |rows| ==> rows[i].id < rows[j].id
    requires forall i :: 0 <= i < |rows| ==> rows[i].id < bound
    ensures WellFormed(Table(Seqs.Keep(rows, p), bound))
  {
    var kept := Seqs.Keep(rows, p);
    Seqs.KeepKeepsOrder(rows, p, (a: Row, b: Row) => a.id < b.id);
    forall i | 0 <= i < |kept| ensures kept[i].id < bound {
      var m :| 0 <= m < |rows| && rows[m] == kept[i];
    }
  }

  /** A primary `createNew` leaves exactly one primary session for the account: the new
      one. */
  lemma {:induction false} CreateNewLeavesOnePrimary(t: Table, ctx: Ctx, cfg: Driver.Config, account: int,
                                                    ttl: Option<int>, sessionId: string)
    ensures PrimariesOf(CreateNew(t, ctx, cfg, account, ttl, false, sessionId).state.rows, account)
            == [CreateNew(t, ctx, cfg, account, ttl, false, sessionId).out]
  {
    var s := CreateNew(t, ctx, cfg, account, ttl, false, sessionId);
    var p := (r: Row) => IsPrimaryOf(r, account);
    var kept := Seqs.Keep(t.rows, (r: Row) => !IsPrimaryOf(r, account));
    assert s.state.rows == kept + [s.out];
    Seqs.KeepAppend(kept, [s.out], p);
    Seqs.KeepNone(kept, p);
    assert Seqs.Keep([s.out], p) == [s.out] + Seqs.Keep([s.out][1..], p);
  }

  /** A shadow `createNew` deletes nothing and adds one row; the account's primary sessions
      are exactly the ones it had. */
  lemma {:induction false} ShadowCreateKeepsRows(t: Table, ctx: Ctx, cfg: Driver.Config, account: int,
                                                ttl: Option<int>, sessionId: string)
    ensures CreateNew(t, ctx, cfg, account, ttl, true, sessionId).state.rows
            == t.rows + [CreateNew(t, ctx, cfg, account, ttl, true, sessionId).out]
    ensures PrimariesOf(CreateNew(t, ctx, cfg, account, ttl, true, sessionId).state.rows, account)
            == PrimariesOf(t.rows, account)
  {
    var s := CreateNew(t, ctx, cfg, account, ttl, true, sessionId);
    var p := (r: Row) => IsPrimaryOf(r, account);
    Seqs.KeepAppend(t.rows, [s.out], p);
    assert Seqs.Keep([s.out], p) == Seqs.Keep([s.out][1..], p);
  }

  /** `createNew` for one account leaves every other account's primary sessions as they
      were. */
  lemma {:induction false} CreateNewLeavesOtherAccounts(t: Table, ctx: Ctx, cfg: Driver.Config, account: int,
                                                       ttl: Option<int>, shadow: bool, sessionId: string, other: int)
    requires other != account
    ensures PrimariesOf(CreateNew(t, ctx, cfg, account, ttl, shadow, sessionId).state.rows, other)
            == PrimariesOf(t.rows, other)
  {
    var s := CreateNew(t, ctx, cfg, account, ttl, shadow, sessionId);
    var p := (r: Row) => IsPrimaryOf(r, other);
    var q := (r: Row) => !IsPrimaryOf(r, account);
    var kept := if shadow then t.rows else Seqs.Keep(t.rows, q);
    assert s.state.rows == kept + [s.out];
    Seqs.KeepAppend(kept, [s.out], p);
    assert Seqs.Keep([s.out], p) == Seqs.Keep([s.out][1..], p);
    if !shadow {
      Seqs.KeepNarrow(t.rows, p, q);
    }
  }

  /** `createNew`, shadow or not, keeps the single-primary invariant and increasing ids. */
  lemma {:induction false} CreateNewKeepsInvariants(t: Table, ctx: Ctx, cfg: Driver.Config, account: int,
                                                   ttl: Option<int>, shadow: bool, sessionId: string)
    requires SinglePrimary(t.rows) && WellFormed(t)
    ensures SinglePrimary(CreateNew(t, ctx, cfg, account, ttl, shadow, sessionId).state.rows)
    ensures WellFormed(CreateNew(t, ctx, cfg, account, ttl, shadow, sessionId).state)
  {
    var s := CreateNew(t, ctx, cfg, account, ttl, shadow, sessionId);
    var q := (r: Row) => !IsPrimaryOf(r, account);
    var kept := if shadow then t.rows else Seqs.Keep(t.rows, q);
    assert s.state.rows == kept + [s.out];
    if !shadow {
      KeepKeepsSinglePrimary(t.rows, q);
      KeepKeepsIncreasing(t.rows, q, t.nextId);
    }
    var rows := s.state.rows;
    forall i, j | 0 <= i < j < |rows| && !rows[i].shadow && !rows[j].shadow
      ensures rows[i].account != rows[j].account
    {
      if j == |kept| {
        assert rows[i] == kept[i];
        if !shadow {
          assert q(kept[i]);
        }
      } else {
        assert rows[i] == kept[i] && rows[j] == kept[j];
      }
    }
    forall i, j | 0 <= i < j < |rows| ensures rows[i].id < rows[j].id {
      if j == |kept| {
        assert rows[i] == kept[i];
      } else {
        assert rows[i] == kept[i] && rows[j] == kept[j];
      }
    }
  }

  /** With a fresh session id and a positive ttl, the session `createNew` binds to the cookie
      is the one a new request resolves. */
  lemma {:induction false} CreateThenResolve(t: Table, ctx: Ctx, cfg: Driver.Config, account: int,
                                            ttl: Option<int>, shadow: bool, sessionId: string)
    requires forall i :: 0 <= i < |t.rows| ==> t.rows[i].sessionId != sessionId
    requires Driver.EffectiveTTL(ttl, cfg.sessionTTL) > 0
    ensures GetSession(CreateNew(t, ctx, cfg, account, ttl, shadow, sessionId).state,
                       CreateNew(t, ctx, cfg, account, ttl, shadow, sessionId).ctx.(cache := None)).cache
            == Some(CreateNew(t, ctx, cfg, account, ttl, shadow, sessionId).out)
  {
    var s := CreateNew(t, ctx, cfg, account, ttl, shadow, sessionId);
    var rows := s.state.rows;
    var n := |rows| - 1;
    var c := GetSession(s.state, s.ctx.(cache := None));
    forall i | 0 <= i < n ensures rows[i].sessionId != sessionId {
      assert rows[i] in Survivors(s.state);
    }
    var k :| 0 <= k < |rows| && rows[k] == c.cache.value && Resolves(rows[k], Some(sessionId), ctx.now);
    assert k == n;
  }

  /** A session created with a non-positive ttl (-1, say) is never resolved afterwards. */
  lemma {:induction false} ExpiredAtBirthNeverResolves(t: Table, ctx: Ctx, cfg: Driver.Config, account: int,
                                                      ttl: Option<int>, shadow: bool, sessionId: string, later: Ctx)
    requires Driver.EffectiveTTL(ttl, cfg.sessionTTL) <= 0
    requires later.now >= ctx.now && later.cache.None?
    ensures GetSession(CreateNew(t, ctx, cfg, account, ttl, shadow, sessionId).state, later).cache
            != Some(CreateNew(t, ctx, cfg, account, ttl, shadow, sessionId).out)
  {
  }

  /** Once a session is memoised, `getSession` returns it whatever storage holds. */
  lemma MemoIgnoresStorage(t1: Table, t2: Table, ctx: Ctx)
    requires ctx.cache.Some?
    ensures GetSession(t1, ctx) == GetSession(t2, ctx) == ctx
  {
  }

  /** The memo outlives `destroy`: a second `destroy` in the same request returns true
      again and deletes nothing more. */
  lemma {:induction false} DestroyTwiceBothTrue(t: Table, ctx: Ctx)
    requires Destroy(t, ctx).out
    ensures Destroy(Destroy(t, ctx).state, Destroy(t, ctx).ctx).out
    ensures Destroy(Destroy(t, ctx).state, Destroy(t, ctx).ctx).state == Destroy(t, ctx).state
  {
    var s1 := Destroy(t, ctx);
    var gone := s1.ctx.cache.value.id;
    var rows := s1.state.rows;
    forall i | 0 <= i < |rows| ensures rows[i].id != gone {
      assert rows[i] in t.rows;
    }
    Seqs.KeepAll(rows, (r: Row) => r.id != gone);
  }

  /** In the next request (no memo), after `destroy` the cleared cookie resolves nothing,
      provided no row carries an empty session id. */
  lemma {:induction false} DestroyThenNextRequestResolvesNothing(t: Table, ctx: Ctx)
    requires Destroy(t, ctx).out
    requires forall i :: 0 <= i < |t.rows| ==> t.rows[i].sessionId != ""
    ensures GetSession(Destroy(t, ctx).state, Destroy(t, ctx).ctx.(cache := None)).cache.None?
  {
    var s := Destroy(t, ctx);
    forall i | 0 <= i < |s.state.rows| ensures s.state.rows[i].sessionId != "" {
      assert s.state.rows[i] in t.rows;
    }
  }

  /** `destroy` and `destroyAll` only delete rows, so they keep the single-primary invariant
      and increasing ids. */
  lemma {:induction false} DeletesKeepInvariants(t: Table, ctx: Ctx, all: bool)
    requires SinglePrimary(t.rows) && WellFormed(t)
    ensures SinglePrimary(Destroy(t, ctx).state.rows) && WellFormed(Destroy(t, ctx).state)
    ensures SinglePrimary(DestroyAll(t, ctx, all).state.rows) && WellFormed(DestroyAll(t, ctx, all).state)
  {
    var c := GetSession(t, ctx);
    if c.cache.Some? {
      var gone := c.cache.value.id;
      KeepKeepsSinglePrimary(t.rows, (r: Row) => r.id != gone);
      KeepKeepsIncreasing(t.rows, (r: Row) => r.id != gone, t.nextId);
    }
    if !all {
      KeepKeepsSinglePrimary(t.rows, (r: Row) => !(r.expiredAt < ctx.now));
      KeepKeepsIncreasing(t.rows, (r: Row) => !(r.expiredAt < ctx.now), t.nextId);
    }
  }

  /** `resetTTL` rewrites the expiry and address of one row in place, so it keeps the
      single-primary invariant and increasing ids. */
  lemma {:induction false} ResetTTLKeepsInvariants(t: Table, ctx: Ctx, cfg: Driver.Config, ttl: Option<int>)
    requires SinglePrimary(t.rows) && WellFormed(t)
    ensures SinglePrimary(ResetTTL(t, ctx, cfg, ttl).state.rows) && WellFormed(ResetTTL(t, ctx, cfg, ttl).state)
  {
    var r := ResetTTL(t, ctx, cfg, ttl).state;
    assert forall i :: 0 <= i < |r.rows| ==> SameKey(r.rows[i], t.rows[i]);
    SameKeysKeepInvariants(t, r);
  }

  /** `setData` rewrites the data column of one row in place, so it keeps the single-primary
      invariant and increasing ids. */
  lemma {:induction false} SetDataKeepsInvariants(t: Table, ctx: Ctx, key: string, value: Payload.Value)
    requires SinglePrimary(t.rows) && WellFormed(t)
    ensures SinglePrimary(SetData(t, ctx, key, value).state.rows) && WellFormed(SetData(t, ctx, key, value).state)
  {
    var read := RetrieveData(t, ctx);
    var r := SaveData(t, read.ctx, Payload.Updated(read.out, key, value)).state;
    assert SetData(t, ctx, key, value).state == r;
    assert forall i :: 0 <= i < |r.rows| ==> SameKey(r.rows[i], t.rows[i]);
    SameKeysKeepInvariants(t, r);
  }

  /** Two rows agree on the columns the invariants mention. */
  predicate SameKey(a: Row, b: Row)
  {
    a.id == b.id && a.account == b.account && a.shadow == b.shadow
  }

  /** A table whose rows agree position by position with `t` on id, account and shadow flag
      keeps `t`'s invariants. */
  lemma SameKeysKeepInvariants(t: Table, u: Table)
    requires SinglePrimary(t.rows) && WellFormed(t)
    requires u.nextId == t.nextId && |u.rows| == |t.rows|
    requires forall i :: 0 <= i < |u.rows| ==> SameKey(u.rows[i], t.rows[i])
    ensures SinglePrimary(u.rows) && WellFormed(u)
  {
  }

  /** Nothing in the backend writes `live_session_expired_at`, so a table without live
      markers counts 0 live sessions, and `createNew` keeps it without markers. */
  lemma {:induction false} LiveCountStaysZero(t: Table, ctx: Ctx, cfg: Driver.Config, account: int, ttl: Option<int>,
                                             shadow: bool, sessionId: string)
    requires NoLiveMarks(t)
    ensures GetCount(t, ctx, false) == 0
    ensures NoLiveMarks(CreateNew(t, ctx, cfg, account, ttl, shadow, sessionId).state)
  {
    var s := CreateNew(t, ctx, cfg, account, ttl, shadow, sessionId);
    forall i | 0 <= i < |s.state.rows| ensures s.state.rows[i].liveExpiredAt.None? {
      if i < |s.state.rows| - 1 {
        assert s.state.rows[i] in Survivors(s.state);
      }
    }
  }

  /** `destroy` and `destroyAll` only delete rows, so they add no live marker. */
  lemma {:induction false} DeletesKeepNoLiveMarks(t: Table, ctx: Ctx, all: bool)
    requires NoLiveMarks(t)
    ensures NoLiveMarks(Destroy(t, ctx).state)
    ensures NoLiveMarks(DestroyAll(t, ctx, all).state)
  {
    var d := Destroy(t, ctx).state.rows;
    forall i | 0 <= i < |d| ensures d[i].liveExpiredAt.None? {
      assert d[i] in t.rows;
    }
    var e := DestroyAll(t, ctx, all).state.rows;
    forall i | 0 <= i < |e| ensures e[i].liveExpiredAt.None? {
      assert e[i] in t.rows;
    }
  }

  /** `resetTTL` and `setData` rewrite other columns, so they add no live marker. */
  lemma {:induction false} UpdatesKeepNoLiveMarks(t: Table, ctx: Ctx, cfg: Driver.Config, ttl: Option<int>,
                                                 key: string, value: Payload.Value)
    requires NoLiveMarks(t)
    ensures NoLiveMarks(ResetTTL(t, ctx, cfg, ttl).state)
    ensures NoLiveMarks(SetData(t, ctx, key, value).state)
  {
    var read := RetrieveData(t, ctx);
    assert SetData(t, ctx, key, value) == SaveData(t, read.ctx, Payload.Updated(read.out, key, value));
  }

  /** `createNew` for an account without a primary session adds exactly one row; in
      particular four creates for four distinct accounts on an empty table count 4. */
  lemma {:induction false} CreateNewFreshAccountAddsRow(t: Table, ctx: Ctx, cfg: Driver.Config, account: int,
                                                       ttl: Option<int>, shadow: bool, sessionId: string)
    requires forall i :: 0 <= i < |t.rows| ==> !IsPrimaryOf(t.rows[i], account)
    ensures CreateNew(t, ctx, cfg, account, ttl, shadow, sessionId).state.rows
            == t.rows + [CreateNew(t, ctx, cfg, account, ttl, shadow, sessionId).out]
    ensures GetCount(CreateNew(t, ctx, cfg, account, ttl, shadow, sessionId).state, ctx, true) == |t.rows| + 1
  {
    if !shadow {
      Seqs.KeepAll(t.rows, (r: Row) => !IsPrimaryOf(r, account));
    }
  }

  /** The relational count test: four primary logins for distinct accounts, starting from
      an empty table, leave four rows. */
  lemma {:induction false} FourAccountsCountFour(ctx: Ctx, cfg: Driver.Config, a1: int, a2: int, a3: int, a4: int,
                                                id1: string, id2: string, id3: string, id4: string)
    requires a1 != a2 && a1 != a3 && a1 != a4 && a2 != a3 && a2 != a4 && a3 != a4
    ensures
      var s1 := CreateNew(Table([], 0), ctx, cfg, a1, None, false, id1);
      var s2 := CreateNew(s1.state, s1.ctx, cfg, a2, None, false, id2);
      var s3 := CreateNew(s2.state, s2.ctx, cfg, a3, None, false, id3);
      var s4 := CreateNew(s3.state, s3.ctx, cfg, a4, None, false, id4);
      GetCount(s4.state, s4.ctx, true) == 4
  {
    var s1 := CreateNew(Table([], 0), ctx, cfg, a1, None, false, id1);
    CreateNewFreshAccountAddsRow(Table([], 0), ctx, cfg, a1, None, false, id1);
    var s2 := CreateNew(s1.state, s1.ctx, cfg, a2, None, false, id2);
    CreateNewFreshAccountAddsRow(s1.state, s1.ctx, cfg, a2, None, false, id2);
    var s3 := CreateNew(s2.state, s2.ctx, cfg, a3, None, false, id3);
    assert s2.state.rows == [s1.out, s2.out];
    CreateNewFreshAccountAddsRow(s2.state, s2.ctx, cfg, a3, None, false, id3);
    assert s3.state.rows == [s1.out, s2.out, s3.out];
    CreateNewFreshAccountAddsRow(s3.state, s3.ctx, cfg, a4, None, false, id4);
  }

  /** The relational shadow test: a primary login and then a shadow login for the same
      account leave two rows for it, one of them primary. */
  lemma {:induction false} PrimaryThenShadow(ctx: Ctx, cfg: Driver.Config, account: int, id1: string, id2: string)
    ensures
      var s1 := CreateNew(Table([], 0), ctx, cfg, account, None, false, id1);
      var s2 := CreateNew(s1.state, s1.ctx, cfg, account, None, true, id2);
      && |Seqs.Keep(s1.state.rows, (r: Row) => r.account == account)| == 1
      && |Seqs.Keep(s2.state.rows, (r: Row) => r.account == account)| == 2
      && PrimariesOf(s2.state.rows, account) == [s1.out]
  {
    var s1 := CreateNew(Table([], 0), ctx, cfg, account, None, false, id1);
    CreateNewFreshAccountAddsRow(Table([], 0), ctx, cfg, account, None, false, id1);
    var s2 := CreateNew(s1.state, s1.ctx, cfg, account, None, true, id2);
    ShadowCreateKeepsRows(s1.state, s1.ctx, cfg, account, None, id2);
    CreateNewLeavesOnePrimary(Table([], 0), ctx, cfg, account, None, id1);
    var p := (r: Row) => r.account == account;
    assert s2.state.rows == [s1.out, s2.out];
    Seqs.KeepAll(s2.state.rows, p);
    Seqs.KeepAll(s1.state.rows, p);
  }

  /** `setData` saves once: the current session's row (and the memo) now hold the whole
      previous bag with one key overridden; every other row is untouched. */
  lemma {:induction false} SetDataWritesMergedBag(t: Table, ctx: Ctx, key: string, value: Payload.Value)
    requires GetSession(t, ctx).cache.Some?
    ensures
      var session := GetSession(t, ctx).cache.value;
      var merged := Payload.Encode(Payload.Merge(Payload.Decode(Some(session.data)), key, value));
      var s := SetData(t, ctx, key, value);
      && s.ctx.cache == Some(session.(data := merged))
      && |s.state.rows| == |t.rows|
      && forall i :: 0 <= i < |t.rows| ==>
           s.state.rows[i] == if t.rows[i].id == session.id then t.rows[i].(data := merged) else t.rows[i]
  {
    var read := RetrieveData(t, ctx);
    assert SetData(t, ctx, key, value) == SaveData(t, read.ctx, Payload.Updated(read.out, key, value));
  }

  /** Within one request, `getData(k)` after `setData(k, v)` yields `v` for a truthy key and
      a non-null value, and `getData()` yields the previous bag with `k` overridden. */
  lemma {:induction false} SetThenGetData(t: Table, ctx: Ctx, key: string, value: Payload.Value)
    requires GetSession(t, ctx).cache.Some?
    ensures Text.Truthy(key) && value != Payload.Null ==>
      GetData(SetData(t, ctx, key, value).state, SetData(t, ctx, key, value).ctx, Some(key)).out == Payload.One(value)
    ensures GetData(SetData(t, ctx, key, value).state, SetData(t, ctx, key, value).ctx, None).out
            == Payload.Whole(Payload.Merge(Payload.Decode(Some(GetSession(t, ctx).cache.value.data)), key, value))
  {
    SetDataWritesMergedBag(t, ctx, key, value);
  }

  /** Without a current session, `setData` changes nothing and `getData` reads the empty
      bag. */
  lemma {:induction false} NoSessionNoData(t: Table, ctx: Ctx, key: string, value: Payload.Value, k: Option<string>)
    requires GetSession(t, ctx).cache.None?
    ensures SetData(t, ctx, key, value).state == t && SetData(t, ctx, key, value).ctx == ctx
    ensures GetData(t, ctx, k).out == Payload.Whole(map[])
  {
    var read := RetrieveData(t, ctx);
    assert SetData(t, ctx, key, value) == SaveData(t, read.ctx, Payload.Updated(read.out, key, value));
  }
}
