/** The key-value store the Redis backend talks to, reduced to the commands it issues:
    `EXISTS`, `HGET`, `HSET`, `HDEL`, `DEL`, `SET`, `EXPIRE` and `KEYS prefix*`. Every key
    carries an optional absolute expiry; a key whose expiry is not after now is gone for
    every command, as the server treats it. */
module Keyspace {
  import opened Outcomes
  import Payload

  /** The value under a key: a hash of fields, or the integer a `SET` stored. Field values
      are stored strings; an encoded payload bag is kept as `Payload.Encoded`. */
  datatype Value = Hash(fields: map<string, Payload.Blob>) | Num(n: int)

  /** A value and the instant it expires, if any. */
  datatype Entry = Entry(value: Value, expireAt: Option<int>)

  type Store = map<string, Entry>

  /** The key exists at `now`: present and not expired. */
  predicate Alive(ks: Store, now: int, k: string)
  {
    k in ks && (ks[k].expireAt.None? || now < ks[k].expireAt.value)
  }

  /** The key holds a live hash. */
  predicate IsHash(ks: Store, now: int, k: string)
  {
    Alive(ks, now, k) && ks[k].value.Hash?
  }

  /** The two stores agree on every key but `k`. */
  ghost predicate SameExcept(a: Store, b: Store, k: string)
  {
    forall j :: j != k ==> (j in a <==> j in b) && (j in a ==> a[j] == b[j])
  }

  /** `HGET k f`: the field of a live hash, null otherwise. */
  function HGet(ks: Store, now: int, k: string, f: string): (r: Option<Payload.Blob>)
    ensures r.Some? <==> IsHash(ks, now, k) && f in ks[k].value.fields
    ensures r.Some? ==> r.value == ks[k].value.fields[f]
  {
    if IsHash(ks, now, k) && f in ks[k].value.fields then Some(ks[k].value.fields[f]) else None
  }

  /** A stored field read as a PHP string: null reads as "". An encoded bag is never used
      as a key name or an account id by the backend, and reads as "" too. */
  function Str(v: Option<Payload.Blob>): (s: string)
    ensures v.Some? && v.value.Text? ==> s == v.value.s
    ensures v.None? ==> s == ""
  {
    if v.Some? && v.value.Text? then v.value.s else ""
  }

  /** `HSET k f v`: a missing or expired key becomes a fresh hash without expiry; a live
      hash gets the field and keeps its expiry; a live integer is left alone (the server
      refuses the command). Nothing else changes. */
  function HSet(ks: Store, now: int, k: string, f: string, v: Payload.Blob): (r: Store)
    ensures SameExcept(ks, r, k)
    ensures Alive(ks, now, k) && ks[k].value.Num? ==> r == ks
    ensures IsHash(ks, now, k) ==> k in r && r[k] == ks[k].(value := Hash(ks[k].value.fields[f := v]))
    ensures !Alive(ks, now, k) ==> k in r && r[k] == Entry(Hash(map[f := v]), None)
  {
    if Alive(ks, now, k) then
      match ks[k].value
      case Hash(fs) => ks[k := ks[k].(value := Hash(fs[f := v]))]
      case Num(_) => ks
    else ks[k := Entry(Hash(map[f := v]), None)]
  }

  /** `HDEL k f`: remove the field from a live hash; a hash left without fields is removed
      with it. Anything else is left alone. */
  function HDel(ks: Store, now: int, k: string, f: string): (r: Store)
    ensures SameExcept(ks, r, k)
    ensures !IsHash(ks, now, k) ==> r == ks
    ensures IsHash(ks, now, k) ==>
      var rest := ks[k].value.fields - {f};
      if rest.Keys == {} then k !in r else k in r && r[k] == ks[k].(value := Hash(rest))
  {
    if IsHash(ks, now, k) then
      var rest := ks[k].value.fields - {f};
      if rest.Keys == {} then ks - {k} else ks[k := ks[k].(value := Hash(rest))]
    else ks
  }

  /** `DEL k`. */
  function Del(ks: Store, k: string): (r: Store)
    ensures k !in r && SameExcept(ks, r, k)
  {
    ks - {k}
  }

  /** `SET k n`: an integer without expiry, whatever was there before. */
  function SetNum(ks: Store, k: string, n: int): (r: Store)
    ensures k in r && r[k] == Entry(Num(n), None) && SameExcept(ks, r, k)
  {
    ks[k := Entry(Num(n), None)]
  }

  /** `EXPIRE k seconds`: the key expires `seconds` after now; a non-positive count removes
      it at once; a key that does not exist is left alone. */
  function Expire(ks: Store, now: int, k: string, seconds: int): (r: Store)
    ensures SameExcept(ks, r, k)
    ensures !Alive(ks, now, k) ==> r == ks
    ensures Alive(ks, now, k) && seconds <= 0 ==> k !in r
    ensures Alive(ks, now, k) && seconds > 0 ==> k in r && r[k] == ks[k].(expireAt := Some(now + seconds))
  {
    if !Alive(ks, now, k) then ks
    else if seconds <= 0 then ks - {k}
    else ks[k := ks[k].(expireAt := Some(now + seconds))]
  }

  /** `KEYS prefix*`: the live keys starting with `prefix`. */
  function Keys(ks: Store, now: int, prefix: string): (r: set<string>)
    ensures forall k :: k in r <==> Alive(ks, now, k) && prefix <= k
  {
    set k | k in ks && Alive(ks, now, k) && prefix <= k
  }

  /** The map a sequence of field/value pairs builds when written in order: a later pair
      wins over an earlier one with the same field. */
  function ToMap(pairs: seq<(string, Payload.Blob)>): (m: map<string, Payload.Blob>)
    ensures forall i :: 0 <= i < |pairs| ==> pairs[i].0 in m
    ensures |pairs| > 0 ==> m[pairs[|pairs| - 1].0] == pairs[|pairs| - 1].1
  {
    if |pairs| == 0 then map[]
    else
      var last := pairs[|pairs| - 1];
      var m := ToMap(pairs[..|pairs| - 1]);
      assert forall i :: 0 <= i < |pairs| - 1 ==> pairs[i] == pairs[..|pairs| - 1][i];
      m[last.0 := last.1]
  }

  /** One `HSET` per pair, in order. A live hash gains the fields and keeps its expiry; a
      missing or expired key becomes a hash of exactly these fields, without expiry; a live
      integer is left alone; no other key changes. */
  function HSetAll(ks: Store, now: int, k: string, pairs: seq<(string, Payload.Blob)>): (r: Store)
    ensures SameExcept(ks, r, k)
    ensures Alive(ks, now, k) && ks[k].value.Num? ==> r == ks
    ensures IsHash(ks, now, k) ==> k in r && r[k] == ks[k].(value := Hash(ks[k].value.fields + ToMap(pairs)))
    ensures !Alive(ks, now, k) && |pairs| > 0 ==> k in r && r[k] == Entry(Hash(ToMap(pairs)), None)
    ensures !Alive(ks, now, k) && |pairs| == 0 ==> r == ks
    decreases |pairs|
  {
    if |pairs| == 0 then ks
    else
      var last := pairs[|pairs| - 1];
      var init := pairs[..|pairs| - 1];
      var prev := HSetAll(ks, now, k, init);
      assert ToMap(pairs) == ToMap(init)[last.0 := last.1];
      if IsHash(ks, now, k) then
        MergeUpdate(ks[k].value.fields, ToMap(init), last.0, last.1);
        HSet(prev, now, k, last.0, last.1)
      else if Alive(ks, now, k) then
        HSet(prev, now, k, last.0, last.1)
      else if |init| == 0 then
        assert ToMap(pairs) == map[last.0 := last.1];
        HSet(prev, now, k, last.0, last.1)
      else
        assert IsHash(prev, now, k);
        HSet(prev, now, k, last.0, last.1)
  }

  /** Overriding one field after a merge is merging the overridden map. */
  lemma MergeUpdate(a: map<string, Payload.Blob>, b: map<string, Payload.Blob>, f: string, v: Payload.Blob)
    ensures (a + b)[f := v] == a + b[f := v]
  {
  }
}
