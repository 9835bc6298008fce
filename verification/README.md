# voodoo-doll-auth session store, modelled in Dafny

This project models the authentication session store of voodoo-doll-auth. A session ties a
browser cookie to an account id. The store has two interchangeable backends behind one
driver contract:

- a relational backend: the `auth_session` table (`SessionDriver/DB.php`);
- a key-value backend: the `USER_SESSION*` keys of a Redis server (`SessionDriver/Redis.php`).

Both backends share the payload and cookie helpers of `SessionDriver/TDriver.php`. They
resolve accounts through the account table of `Account.php`.

Every operation is a pure function. It takes the store state and a request context, and
returns a `Driver.Step` holding the new state, the new context and the result. The
context holds:

- the clock;
- the client address;
- the cookie jar;
- the per-request memo of the resolved session (`self::$session`).

Modules:

| module | file | what it holds |
|---|---|---|
| `Outcomes` | outcomes.dfy | `Option` and `Result` |
| `Text` | text.dfy | PHP truthiness, `strtolower`, `trim` |
| `Payload` | payload.dfy | the session payload bag: `json_encode`/`json_decode`, `getData`'s lookup, `arrayExtend` |
| `Driver` | driver.dfy | the cookie helpers, the effective ttl |
| `Seqs` | seqs.dfy | filters, first match and replacement on sequences (the table's `where`, `findOne`, `update`) |
| `Account` | account.dfy | the account table and its rules |
| `RelationalStore`, `RelationalLemmas` | relational.dfy, relational_lemmas.dfy | the relational backend and its properties |
| `Keyspace` | keyspace.dfy | the Redis commands the backend issues, on an expiry-aware keyspace |
| `KeyValueStore`, `KeyValueLemmas` | keyvalue.dfy, keyvalue_lemmas.dfy | the Redis backend and its properties |

Invariants:

- The relational invariant is `SinglePrimary`: at most one non-shadow row per account.
  `WellFormed` adds that row ids increase and stay below the auto-increment counter.
- The key-value invariant is `KeyValueLemmas.Inv`. It has three parts:
  - `USER_SESSION_MAP` is a hash without expiry whose values are session keys;
  - every live non-shadow session hash is the one the map names for its account;
  - every session hash's `id` field, when it has one, is its own key. A hash without an
    `id` arises when `saveData` writes to a session key that has expired or been removed.

  The second part makes the primary session of an account unique (`SinglePrimary`).
  `Inv` holds after `createNew`, `getSession`, `resetTTL`, `setData`, `destroyAll`, the
  corrected `destroy`, and the `destroy` as written whenever the account's map entry is
  absent or names the destroyed session. When the entry names another session that is
  still a live primary, the `destroy` as written removes the entry and so breaks `Inv`.
  Destroying a shadow session does exactly this (see Findings).

Where the code and its design description disagree, the model follows the code:

- Redis `resetTTL` only moves the key's expiry. It does not rebind the cookie, as the DB
  backend does.
- DB `getSession` never writes the live-session column. Its update is commented out, so
  the DB backend's live count stays at zero.
- Every Redis `expire` call passes an absolute instant (`time() + ttl`) where the server
  expects a number of seconds. The keys therefore live until `2*now + ttl`, and a negative
  ttl does not end a session.
- `getData($key)` with a missing, falsy or null-valued key returns the whole payload bag,
  not null.
- The memo (`self::$session`) is cleared by neither `destroy` nor `createNew`. A second
  `destroy` in the same request still sees the session and returns true.

## Model

| member | source | states |
|---|---|---|
| Driver.SetCookie | src/Voodoo/Doll/Auth/SessionDriver/TDriver.php:90-93 | the cookie holds exactly the given session id and expiry; its path is always "/" |
| Driver.ClearedCookie | src/Voodoo/Doll/Auth/SessionDriver/TDriver.php:90-93 | with its default arguments setCookie clears the cookie: empty value, expiry 0, path "/" |
| Driver.GetCookie | src/Voodoo/Doll/Auth/SessionDriver/TDriver.php:81-83 | a session id is read exactly when the client sent the cookie, and it is the cookie's value |
| Driver.EffectiveTTL | src/Voodoo/Doll/Auth/SessionDriver/DB.php:81 | `$ttl ?: sessionTTL`: a null or zero ttl falls back to the configured one; any other ttl, negative included, is used unchanged |
| Payload.Decode | src/Voodoo/Doll/Auth/SessionDriver/TDriver.php:57 | `json_decode(...) ?: []`: an encoded bag decodes to itself; a missing payload or plain text decodes to the empty bag |
| Payload.Get | src/Voodoo/Doll/Auth/SessionDriver/TDriver.php:55-63 | a single value is returned iff the key is truthy and present with a non-null value; in every other case the whole bag comes back, never null |
| Payload.Merge | src/Voodoo/Doll/Auth/SessionDriver/TDriver.php:43-45 | the merged bag has the old keys plus the new one; the new key holds the new value; every other key keeps its value |
| Payload.DecodeEncode | src/Voodoo/Doll/Auth/SessionDriver/TDriver.php:46-57 | decoding what setData encoded gives back the same bag |
| Payload.GetUpdated | src/Voodoo/Doll/Auth/SessionDriver/TDriver.php:41-63 | reading a key right after setData wrote it gives the written value when the key is truthy and the value non-null, and otherwise the merged bag |
| Payload.MergeOrder | src/Voodoo/Doll/Auth/SessionDriver/TDriver.php:43-45 | of two writes to one key the later wins; writes to different keys commute |
| Text.Lower | src/Voodoo/Doll/Auth/Account.php:630 | strtolower keeps the length, maps each character on its own and leaves no ASCII capital |
| Text.TrimLeft | src/Voodoo/Doll/Auth/Account.php:630 | the result is a suffix of the input; exactly the dropped characters are trim characters, and the result does not start with one |
| Text.TrimRight | src/Voodoo/Doll/Auth/Account.php:630 | the result is a prefix of the input; exactly the dropped characters are trim characters, and the result does not end with one |
| Text.TrimDropsTrimmed | src/Voodoo/Doll/Auth/Account.php:630 | trim drops exactly trim characters, and only at the two ends |
| Text.TrimIsSlice | src/Voodoo/Doll/Auth/Account.php:630 | trim returns a contiguous slice of its input |
| Text.TrimIdempotent | src/Voodoo/Doll/Auth/Account.php:630 | trimming a trimmed string changes nothing |
| Text.TrimLowerIdempotent | src/Voodoo/Doll/Auth/Account.php:628-631 | trim(strtolower(x)) is a fixed point of trim(strtolower(.)) |
| Account.Insert | src/Voodoo/Doll/Auth/Account.php:210 | an insert appends exactly one row, with the next auto-increment id, and advances the counter |
| Account.UpdateLastLogin | src/Voodoo/Doll/Auth/Account.php:243-249 | the row with that id gets now as its last login; every other row and the counter stay as they were |
| Account.IsActive | src/Voodoo/Doll/Auth/Account.php:351-354 | active exactly when the status is strictly "ACTIVE" |
| Account.Modify | src/Voodoo/Doll/Auth/Account.php:246-248 | an update through the bound entity changes the row with that id and no other row |
| Account.FormatEmail | src/Voodoo/Doll/Auth/Account.php:628-631 | the result is the lower-cased email with exactly its leading and trailing trim characters dropped: a contiguous slice of it, with only trim characters before and after, that neither starts nor ends with one and has no capital letter |
| Account.FormatEmailIdempotent | src/Voodoo/Doll/Auth/Account.php:628-631 | formatting an already formatted email changes nothing |
| Account.EmailExists | src/Voodoo/Doll/Auth/Account.php:482-491 | fails with "Invalid email" iff the normalised email is invalid; otherwise true iff some account holds exactly the normalised email |
| Account.FindById | src/Voodoo/Doll/Auth/SessionDriver/DB.php:102 | returns the row with that primary key, and nothing exactly when no row has it |
| Account.FindByEmail | src/Voodoo/Doll/Auth/Account.php:118-124 | fails iff the email is invalid; otherwise finds a row iff some row holds exactly that email, and the row found holds it |
| Account.FindByOAuth | src/Voodoo/Doll/Auth/Account.php:132-136 | finds a row iff some row holds that provider uid, and the row found holds it |
| Account.CreateWithEmail | src/Voodoo/Doll/Auth/Account.php:187-214 | each refusal carries its message in the source's order (invalid email, invalid password, invalid normalised email, email taken); it succeeds iff none applies, and then appends one row with the normalised email, the trimmed stripped name, the status and the hash of the trimmed password (no hash for a falsy password) |
| Account.CreateWithOAuth | src/Voodoo/Doll/Auth/Account.php:224-236 | refused with "Login exists already" iff the provider uid is taken; otherwise one appended row holding only that uid and the status |
| Account.LoginWithEmail | src/Voodoo/Doll/Auth/Account.php:147-160 | "Invalid email" for an invalid email, "Invalid Login" for an unknown one, "Invalid password" otherwise on failure; it succeeds iff the email is valid and held and the hash of the first row holding it verifies the trimmed password; a success stamps that row's last login with now, in the table and in the row it returns |
| Account.LoginWithOAuth | src/Voodoo/Doll/Auth/Account.php:170-178 | succeeds iff the provider uid is known; a success stamps the first row holding it with now as last login, in the table and in the row it returns |
| Account.ResetPassword | src/Voodoo/Doll/Auth/Account.php:257-269 | without a bound account nothing happens; otherwise the password returned is the generated one trimmed and lower-cased (no capital, no trim character at either end), and only the bound row gets its hash and the must-change flag set |
| Account.ChangePassword | src/Voodoo/Doll/Auth/Account.php:279-293 | refused iff the password is invalid; otherwise only the bound row gets the hash of the trimmed password and the must-change flag cleared |
| Account.ChangeEmail | src/Voodoo/Doll/Auth/Account.php:302-315 | "Invalid email" when the email or its normalised form is invalid, "Email exists already" when an account holds the normalised form; it succeeds iff neither applies, and then only the bound row's email changes, to the normalised form |
| Account.SetHistory | src/Voodoo/Doll/Auth/Account.php:594-608 | the bound row's history becomes its prior entries (none when the column is not an array) plus one new entry at the end; nothing else changes |
| Account.SetStatus | src/Voodoo/Doll/Auth/Account.php:374-382 | the bound row gets the new status, and the description only when it is truthy; nothing else changes |
| Account.SetStatusDecidesActive | src/Voodoo/Doll/Auth/Account.php:351-382 | after setStatus the account is active exactly when the new status is "ACTIVE" |
| Account.SetHistoryTwice | src/Voodoo/Doll/Auth/Account.php:594-608 | two history writes append their two entries in order after the prior history |
| Account.NormalisedEmailsDistinct | src/Voodoo/Doll/Auth/Account.php:196-198 | under the email-uniqueness invariant no two accounts share a normalised email |
| Account.CreatesKeepWellFormed | src/Voodoo/Doll/Auth/Account.php:187-236 | both creates keep ids increasing and below the counter |
| Account.LoginsKeepWellFormed | src/Voodoo/Doll/Auth/Account.php:147-178 | both logins keep ids increasing and below the counter |
| Account.CredentialChangesKeepWellFormed | src/Voodoo/Doll/Auth/Account.php:257-315 | password reset, password change and email change keep ids increasing and below the counter |
| Account.RecordUpdatesKeepWellFormed | src/Voodoo/Doll/Auth/Account.php:374-608 | setStatus and setHistory keep ids increasing and below the counter |
| Account.CreateWithEmailKeepsEmailsUnique | src/Voodoo/Doll/Auth/Account.php:187-214 | a successful email create keeps normalised emails unique across accounts |
| Account.ChangeEmailKeepsEmailsUnique | src/Voodoo/Doll/Auth/Account.php:302-315 | a successful email change keeps normalised emails unique across accounts |
| Account.CreateWithOAuthKeepsUidsUnique | src/Voodoo/Doll/Auth/Account.php:224-236 | a successful OAuth create keeps each provider uid on at most one account |
| Account.CreateWithEmailRefusesDuplicate | src/Voodoo/Doll/Auth/Account.php:196-213 | creating a second account whose email normalises to the same address fails with "Email exists already" |
| Account.CreatedAccountCanLogIn | src/Voodoo/Doll/Auth/Account.php:147-214 | an account created with a password can log in with the normalised email and that password, and the login returns the created row with its last login stamped |
| Account.CreatedOAuthAccountCanLogIn | src/Voodoo/Doll/Auth/Account.php:170-236 | an account created by OAuth can log in with its uid, and a second create with the same uid is refused |
| Account.ResetThenChangeClearsFlag | src/Voodoo/Doll/Auth/Account.php:257-293 | a reset sets the must-change flag, and a valid password change afterwards clears it |
| RelationalStore.CreateNew | src/Voodoo/Doll/Auth/SessionDriver/DB.php:74-91 | the new row gets the next id, the account, the client address, the shadow flag, an empty payload and expiry now + effective ttl; it is appended last; a primary create deletes exactly that account's earlier primary rows and nothing else; the cookie carries the id and the expiry |
| RelationalStore.GetSession | src/Voodoo/Doll/Auth/SessionDriver/DB.php:114-133 | a memoised session is returned as is; otherwise a session is found iff some row matches the cookie and has not expired, and the row found is such a row; only the memo changes |
| RelationalStore.GetCount | src/Voodoo/Doll/Auth/SessionDriver/DB.php:140-149 | with `all` every row counts, expired ones included; otherwise the count is zero iff no row's live marker is ahead of now |
| RelationalStore.Destroy | src/Voodoo/Doll/Auth/SessionDriver/DB.php:156-165 | true iff a session is current; then exactly its row is deleted and the cookie cleared; without one nothing changes |
| RelationalStore.DestroyAll | src/Voodoo/Doll/Auth/SessionDriver/DB.php:173-183 | `all` empties the table; otherwise a row survives iff its expiry is not before now; always true |
| RelationalStore.ResetTTL | src/Voodoo/Doll/Auth/SessionDriver/DB.php:191-202 | with a current session only its row changes: new expiry now + effective ttl and the current client address; the memo matches and the cookie is rebound to the same id with the new expiry |
| RelationalStore.SaveData | src/Voodoo/Doll/Auth/SessionDriver/DB.php:208-214 | with a current session only its row's payload changes, and the memo matches; without one nothing changes |
| RelationalStore.RetrieveData | src/Voodoo/Doll/Auth/SessionDriver/DB.php:220-227 | a payload is returned iff a session is current, and it is that session's payload |
| RelationalStore.GetData | src/Voodoo/Doll/Auth/SessionDriver/TDriver.php:55-63 | reading data changes nothing in the table and only resolves the session |
| RelationalStore.GetAccount | src/Voodoo/Doll/Auth/SessionDriver/DB.php:98-106 | an account is returned iff a session is current and its account id exists, and it is that account |
| RelationalLemmas.KeepKeepsSinglePrimary | src/Voodoo/Doll/Auth/SessionDriver/DB.php:173-183 | deleting any rows keeps at most one primary per account |
| RelationalLemmas.KeepKeepsIncreasing | src/Voodoo/Doll/Auth/SessionDriver/DB.php:173-183 | deleting any rows keeps ids increasing and below the counter |
| RelationalLemmas.CreateNewLeavesOnePrimary | src/Voodoo/Doll/Auth/SessionDriver/DB.php:76-88 | after a primary create the new row is the account's only primary |
| RelationalLemmas.ShadowCreateKeepsRows | src/Voodoo/Doll/Auth/SessionDriver/DB.php:76-88 | a shadow create deletes nothing and leaves the account's primaries as they were |
| RelationalLemmas.CreateNewLeavesOtherAccounts | src/Voodoo/Doll/Auth/SessionDriver/DB.php:76-88 | a create never changes the primaries of another account |
| RelationalLemmas.CreateNewKeepsInvariants | src/Voodoo/Doll/Auth/SessionDriver/DB.php:74-91 | createNew keeps one primary per account and increasing ids |
| RelationalLemmas.CreateThenResolve | src/Voodoo/Doll/Auth/SessionDriver/DB.php:74-121 | with a fresh session id and a positive ttl, the next request carrying the new cookie resolves to the created row |
| RelationalLemmas.ExpiredAtBirthNeverResolves | src/Voodoo/Doll/Auth/SessionDriver/DB.php:80-121 | with a ttl that is not positive, the created row never resolves in a later request |
| RelationalLemmas.MemoIgnoresStorage | src/Voodoo/Doll/Auth/SessionDriver/DB.php:116-132 | once memoised, getSession no longer looks at the table |
| RelationalLemmas.DestroyTwiceBothTrue | src/Voodoo/Doll/Auth/SessionDriver/DB.php:156-165 | because the memo survives destroy, a second destroy in the same request is true again and deletes nothing more |
| RelationalLemmas.DestroyThenNextRequestResolvesNothing | src/Voodoo/Doll/Auth/SessionDriver/DB.php:156-165 | after destroy, a fresh request with the cleared cookie resolves no session |
| RelationalLemmas.DeletesKeepInvariants | src/Voodoo/Doll/Auth/SessionDriver/DB.php:156-183 | destroy and destroyAll keep one primary per account and increasing ids |
| RelationalLemmas.ResetTTLKeepsInvariants | src/Voodoo/Doll/Auth/SessionDriver/DB.php:191-202 | resetTTL keeps one primary per account and increasing ids |
| RelationalLemmas.SetDataKeepsInvariants | src/Voodoo/Doll/Auth/SessionDriver/TDriver.php:41-47 | setData keeps one primary per account and increasing ids |
| RelationalLemmas.SameKeysKeepInvariants | src/Voodoo/Doll/Auth/SessionDriver/DB.php:191-214 | an update that keeps each row's id, account and shadow flag keeps both invariants |
| RelationalLemmas.LiveCountStaysZero | src/Voodoo/Doll/Auth/SessionDriver/DB.php:124-147 | with the live update commented out, a table without live marks counts zero live sessions, and createNew adds no mark |
| RelationalLemmas.DeletesKeepNoLiveMarks | src/Voodoo/Doll/Auth/SessionDriver/DB.php:156-183 | deletes add no live mark |
| RelationalLemmas.UpdatesKeepNoLiveMarks | src/Voodoo/Doll/Auth/SessionDriver/DB.php:191-214 | resetTTL and setData add no live mark |
| RelationalLemmas.CreateNewFreshAccountAddsRow | src/Voodoo/Doll/Auth/SessionDriver/DB.php:76-88 | for an account without a primary, createNew only appends, and the total count grows by one |
| RelationalLemmas.FourAccountsCountFour | tests/Voodoo/Doll/Auth/SessionDriver/DBTest.php:111-117 | four primary logins of four distinct accounts from an empty table count four sessions |
| RelationalLemmas.PrimaryThenShadow | tests/Voodoo/Doll/Auth/SessionDriver/DBTest.php:95-101 | a shadow login after a primary one leaves the account two sessions and the primary unchanged |
| RelationalLemmas.SetDataWritesMergedBag | src/Voodoo/Doll/Auth/SessionDriver/TDriver.php:41-47 | setData stores the encoding of the old bag merged with the new key, in the session's row and in the memo only |
| RelationalLemmas.SetThenGetData | tests/Voodoo/Doll/Auth/SessionDriver/DBTest.php:104-108 | after setData, getData of a truthy key returns the non-null value written, and getData without a key returns the merged bag |
| RelationalLemmas.NoSessionNoData | src/Voodoo/Doll/Auth/SessionDriver/DB.php:208-227 | without a session setData changes nothing and getData returns an empty bag |
| Keyspace.HGet | src/Voodoo/Doll/Auth/SessionDriver/Redis.php:97-100 | a field is returned iff the key is a live hash holding it, and it is the stored value |
| Keyspace.HSet | src/Voodoo/Doll/Auth/SessionDriver/Redis.php:65 | only the key changes: a live hash gains the field and keeps its expiry, a missing or expired key becomes a one-field hash without expiry, a live integer is left alone |
| Keyspace.HSetAll | src/Voodoo/Doll/Auth/SessionDriver/Redis.php:76-79 | writing the pairs in order merges them into a live hash, with a later pair winning; a missing key becomes a hash of exactly the pairs; no other key changes |
| Keyspace.HDel | src/Voodoo/Doll/Auth/SessionDriver/Redis.php:145 | only the key changes: a live hash loses the field, and is removed when no field remains; anything else is untouched |
| Keyspace.Del | src/Voodoo/Doll/Auth/SessionDriver/Redis.php:63 | the key is gone and no other key changes |
| Keyspace.SetNum | src/Voodoo/Doll/Auth/SessionDriver/Redis.php:106 | the key holds the integer without expiry, and no other key changes |
| Keyspace.Expire | src/Voodoo/Doll/Auth/SessionDriver/Redis.php:80 | a missing key is untouched; a live key is removed when the count is not positive, and otherwise keeps its value and expires that many seconds after now (so at 2*now + ttl for the instant the backend passes); no other key changes |
| Keyspace.Keys | src/Voodoo/Doll/Auth/SessionDriver/Redis.php:129 | exactly the live keys that start with the prefix |
| KeyValueStore.SessionKey | src/Voodoo/Doll/Auth/SessionDriver/Redis.php:56-57 | a session key is the session prefix followed by the bare id, which can be read back from it |
| KeyValueStore.CookieKey | src/Voodoo/Doll/Auth/SessionDriver/Redis.php:96 | the key looked up is the session key of the cookie's id, or the bare prefix without a cookie |
| KeyValueStore.LiveKey | src/Voodoo/Doll/Auth/SessionDriver/Redis.php:104 | a live-marker key is the live prefix followed by the account id, which can be read back from it |
| KeyValueStore.Field | src/Voodoo/Doll/Auth/SessionDriver/Redis.php:236-239 | a remembered field reads as its string, and a missing one as "" |
| KeyValueStore.NewPairs | src/Voodoo/Doll/Auth/SessionDriver/Redis.php:68-74 | createNew writes exactly the five session fields, in the order getSession reads them |
| KeyValueStore.Repoint | src/Voodoo/Doll/Auth/SessionDriver/Redis.php:60-66 | the key the map held for the account is deleted when truthy, the map then points the account at the new key, and every other key is untouched |
| KeyValueStore.CreateNew | src/Voodoo/Doll/Auth/SessionDriver/Redis.php:54-86 | the cookie carries the bare id and expiry now + effective ttl, and the instance remembers the five written fields |
| KeyValueStore.ReadFields | src/Voodoo/Doll/Auth/SessionDriver/Redis.php:98-100 | the remembered fields are exactly the set session fields of the key, with their stored values |
| KeyValueStore.GetSession | src/Voodoo/Doll/Auth/SessionDriver/Redis.php:93-115 | memoised: nothing changes; otherwise true iff the cookie's key is live, and then the fields are remembered and only the account's live marker may change, becoming live unless its ttl instant is not positive |
| KeyValueStore.GetCount | src/Voodoo/Doll/Auth/SessionDriver/Redis.php:122-131 | the number of live keys under the session prefix (`all`) or the live-marker prefix |
| KeyValueStore.Destroy | src/Voodoo/Doll/Auth/SessionDriver/Redis.php:139-152 | true iff a session is current; then its key and its account's live marker are gone, the account has no map entry, and the cookie is cleared; otherwise nothing changes |
| KeyValueStore.DestroyCorrected | src/Voodoo/Doll/Auth/SessionDriver/Redis.php:139-152 | as destroy, but without the unconditional map removal |
| KeyValueStore.DestroyAll | src/Voodoo/Doll/Auth/SessionDriver/Redis.php:174-185 | with `all` no live key under the prefix remains and every other key is untouched; without it nothing changes; always true |
| KeyValueStore.ResetTTL | src/Voodoo/Doll/Auth/SessionDriver/Redis.php:193-200 | with a current session no key but the session's changes; a live session key keeps its fields and expires at 2*now + effective ttl, or is removed when now + effective ttl is not positive; a key that is gone stays gone; the cookie is not touched |
| KeyValueStore.SaveData | src/Voodoo/Doll/Auth/SessionDriver/Redis.php:206-212 | with a current session only its key changes, and its data field then holds the payload |
| KeyValueStore.RetrieveData | src/Voodoo/Doll/Auth/SessionDriver/Redis.php:218-225 | the data field of the current session's key, nothing without a session |
| KeyValueStore.GetData | src/Voodoo/Doll/Auth/SessionDriver/TDriver.php:55-63 | reading data has exactly the effect of resolving the session |
| KeyValueStore.GetAccount | src/Voodoo/Doll/Auth/SessionDriver/Redis.php:159-166 | an account is returned iff a session is current and its account id exists, and it is that account |
| KeyValueLemmas.KeyFamiliesDisjoint | src/Voodoo/Doll/Auth/SessionDriver/Redis.php:23-26 | session keys, live markers and the map never collide, and all lie under `USER_SESSION` |
| KeyValueLemmas.SinglePrimary | src/Voodoo/Doll/Auth/SessionDriver/Redis.php:60-66 | under the invariant an account has at most one live primary session |
| KeyValueLemmas.InvLater | src/Voodoo/Doll/Auth/SessionDriver/Redis.php:58-80 | the passage of time alone keeps the invariant |
| KeyValueLemmas.RepointKeepsInv | src/Voodoo/Doll/Auth/SessionDriver/Redis.php:60-66 | the map step keeps the invariant, points the account at the new key and leaves the account no other primary |
| KeyValueLemmas.WrittenSession | src/Voodoo/Doll/Auth/SessionDriver/Redis.php:68-79 | the written hash holds the key, the account, the shadow flag and an empty payload |
| KeyValueLemmas.CreateNewRemembersSession | src/Voodoo/Doll/Auth/SessionDriver/Redis.php:77-84 | after createNew the instance knows the new key, the account and the shadow flag, and the cookie carries the id and the expiry |
| KeyValueLemmas.CreateNewKeepsInv | src/Voodoo/Doll/Auth/SessionDriver/Redis.php:54-86 | createNew, primary or shadow, keeps the map consistent and the primary unique |
| KeyValueLemmas.GetSessionKeepsInv | src/Voodoo/Doll/Auth/SessionDriver/Redis.php:93-115 | getSession keeps the invariant |
| KeyValueLemmas.GetSessionMarks | src/Voodoo/Doll/Auth/SessionDriver/Redis.php:102-108 | resolving a session sets the account's live marker to 1 with an expiry unless the marker is already live |
| KeyValueLemmas.GetSessionRemembersKey | src/Voodoo/Doll/Auth/SessionDriver/Redis.php:96-111 | under the invariant the remembered id is the cookie's key, or unset ("") when the hash has no `id` field |
| KeyValueLemmas.DestroyKeepsInvUnlessMappedElsewhere | src/Voodoo/Doll/Auth/SessionDriver/Redis.php:139-152 | destroy as written keeps the invariant when the account's map entry is absent or names the destroyed session |
| KeyValueLemmas.DestroyCorrectedKeepsInv | src/Voodoo/Doll/Auth/SessionDriver/Redis.php:139-152 | the corrected destroy keeps the invariant |
| KeyValueLemmas.ResetTTLKeepsInv | src/Voodoo/Doll/Auth/SessionDriver/Redis.php:193-200 | resetTTL keeps the invariant |
| KeyValueLemmas.SetDataKeepsInv | src/Voodoo/Doll/Auth/SessionDriver/Redis.php:206-212 | setData keeps the invariant |
| KeyValueLemmas.DestroyAllKeepsInv | src/Voodoo/Doll/Auth/SessionDriver/Redis.php:174-185 | destroyAll keeps the invariant |
| KeyValueLemmas.CreateNewEffect | src/Voodoo/Doll/Auth/SessionDriver/Redis.php:54-86 | the new key holds the five fields and expires at 2*now + ttl, or is gone at once when now + ttl is not positive; a shadow create touches no other key; a primary one touches only the map and the evicted key |
| KeyValueLemmas.FreshKeyWritten | src/Voodoo/Doll/Auth/SessionDriver/Redis.php:77-80 | a fresh hash given an expire of x lives until now + x, or is deleted when x is not positive |
| KeyValueLemmas.CreatedSessionFields | src/Voodoo/Doll/Auth/SessionDriver/Redis.php:68-79 | the created hash holds exactly the five fields with the written values |
| KeyValueLemmas.CreateNewRepoints | src/Voodoo/Doll/Auth/SessionDriver/Redis.php:60-66 | a primary create points the map at the new key, leaves other accounts' entries alone and deletes the previous primary |
| KeyValueLemmas.CreateNewCountsOne | src/Voodoo/Doll/Auth/SessionDriver/Redis.php:54-131 | a create that evicts nothing adds exactly one session key and no live marker |
| KeyValueLemmas.CreateNewReplacesPrimary | src/Voodoo/Doll/Auth/SessionDriver/Redis.php:60-80 | a primary create for a mapped account swaps the old session key for the new one, so a live old primary leaves the count unchanged |
| KeyValueLemmas.GetSessionMarksLive | src/Voodoo/Doll/Auth/SessionDriver/Redis.php:93-131 | resolving a session adds its account's live marker to the live count and leaves the session keys and the map alone |
| KeyValueLemmas.DestroyCountsDown | src/Voodoo/Doll/Auth/SessionDriver/Redis.php:139-152 | destroy removes exactly the session's key from the session count and its account's marker from the live count |
| KeyValueLemmas.DestroyAllCounts | src/Voodoo/Doll/Auth/SessionDriver/Redis.php:174-185 | after destroyAll(true) both counts are zero; destroyAll(false) changes neither |
| KeyValueLemmas.DestroyEffect | src/Voodoo/Doll/Auth/SessionDriver/Redis.php:143-147 | destroy touches only the session key, the map and the account's live marker |
| KeyValueLemmas.DestroyShadowBreaksInv | src/Voodoo/Doll/Auth/SessionDriver/Redis.php:145 | destroying a shadow session leaves the primary live but removes the map entry for it, which breaks the invariant |
| KeyValueLemmas.UnmappedLoginKeepsPrimary | src/Voodoo/Doll/Auth/SessionDriver/Redis.php:60-66 | a primary login for an account whose map entry is gone evicts nothing, so its earlier primary survives beside the new one |
| KeyValueLemmas.DestroyShadowOrphansPrimary | src/Voodoo/Doll/Auth/SessionDriver/Redis.php:145 | primary login, shadow login, destroy, primary login: the account ends with two primary sessions |
| KeyValueLemmas.PrimaryLoginUnderInv | src/Voodoo/Doll/Auth/SessionDriver/Redis.php:60-66 | under the invariant a primary login leaves the new session as the account's only primary |
| KeyValueLemmas.CorrectedShadowDestroyState | src/Voodoo/Doll/Auth/SessionDriver/Redis.php:139-152 | the corrected destroy of the shadow keeps the invariant, leaves only the primary's key and the map, and leaves the primary in place with the map still naming it |
| KeyValueLemmas.CorrectedDestroyKeepsSinglePrimary | src/Voodoo/Doll/Auth/SessionDriver/Redis.php:139-152 | with the corrected destroy the same sequence leaves only the new primary |
| KeyValueLemmas.CreateThenResolve | src/Voodoo/Doll/Auth/SessionDriver/Redis.php:54-115 | with a fresh id and now + ttl positive, the next request carrying the cookie resolves the created key and account |
| KeyValueLemmas.NegativeTtlStillResolves | src/Voodoo/Doll/Auth/SessionDriver/Redis.php:58-80 | a ttl of -1 gives the key the expiry 2*now - 1, so the session still resolves |
| KeyValueLemmas.ResetTTLOnlyMovesExpiry | src/Voodoo/Doll/Auth/SessionDriver/Redis.php:193-200 | resetTTL keeps the cookie, the fields and every other key, and sets the expiry to 2*now + ttl |
| KeyValueLemmas.SetThenGetData | tests/Voodoo/Doll/Auth/SessionDriver/RedisTest.php:92-96 | after setData, getData of a truthy key returns the non-null value written, and getData without a key returns the merged bag |
| KeyValueLemmas.DestroyTwiceBothTrue | src/Voodoo/Doll/Auth/SessionDriver/Redis.php:93-152 | because the memo survives destroy, a second destroy in the same request is true again |
| KeyValueLemmas.TrackCreate | src/Voodoo/Doll/Auth/SessionDriver/Redis.php:54-86 | a primary login of an unmapped account adds one session key and one map entry to the tracked keyspace |
| KeyValueLemmas.TrackResolve | src/Voodoo/Doll/Auth/SessionDriver/Redis.php:93-115 | resolving a tracked session adds its account's live marker to the tracked keyspace |
| KeyValueLemmas.TrackLoginResolve | src/Voodoo/Doll/Auth/SessionDriver/Redis.php:54-115 | a login followed by getSession adds one session key, one live marker and one map entry |
| KeyValueLemmas.WipedIsTracked | src/Voodoo/Doll/Auth/SessionDriver/Redis.php:174-185 | after destroyAll(true) the tracked keyspace is empty |
| KeyValueLemmas.CountScenario | tests/Voodoo/Doll/Auth/SessionDriver/RedisTest.php:98-110 | wipe, four logins with two resolves (one from a second instance): four sessions and two live markers; destroying through the memoised session leaves three sessions and one marker |

## Left out

- I/O: the cookie is a field of the request context. The server clock and the client address are parameters.
- Cookie jar: both backends read and write one cookie, as the test doubles do (`Cookie2` and `MockRedis`, tests/Voodoo/Doll/Auth/SessionDriver/RedisTest.php:6-47). A cookie that `setCookie` writes is read back by `getCookie` in the same request. The real driver reads the cookie the browser sent (TDriver.php:81-83), so a real `createNew` is not visible to `getSession` until the next request. The scenario lemmas that resolve a session in the request that created it rely on this: `KeyValueLemmas.TrackLoginResolve`, `TwoLoginsState`, `SecondInstanceState` and `CountScenario` (and the `TwoLogins` and `SecondInstance` steps they describe). `KeyValueLemmas.CreateThenResolve` and `RelationalLemmas.CreateThenResolve` instead resolve in a fresh request carrying the new cookie, as the real driver would.
- Session ids: `createSessionId` (TDriver.php:99-102 and Redis.php:231-234) draws a nonce, so the model takes the new session id as a parameter.
- Hashing and validation (`validEmail`, `validPassword`, the password hash and its check, `strip_tags`) are foreign calls, so they are parameters in `Account.Helpers`.
- Redis pipelining and connections are left out. Concurrency between requests is left out: each request is one function call.
- Payloads are modelled as a flat bag of scalars. The JSON text format, nested arrays and `json_decode` of malformed text are left out; a malformed or empty payload reads as an empty bag.
- One driver instance per request is modelled. The test's second instance appears only as the memo reset its constructor performs (`KeyValueLemmas.SecondInstance`).
- `Session.php`, `Base.php` and `Controller.php` are not part of this model. Neither are the other account setters and getters: OAuth tokens, names, pictures, newsletter, access level, `enableAuthLogin`, dates and ages.
- `Account.CreateWithOAuth`: the `has_auth_login` column it sets is not modelled.
- Account ids in the Redis backend are the strings stored in the hash. `KeyValueStore.GetAccount` takes the string-to-id conversion as a parameter.
- The test files also assert things about members the drivers do not have (`user_id`, `getUser`). Those assertions are not modelled.
- DB `destroy` calls `$this->delete()` on the driver. It is modelled as deleting the current session's row.
- `Keyspace.Str`: an encoded payload read where a string is expected reads as "". The backend never does this.
- `RelationalStore.GetData` and `KeyValueStore.GetData`: their contracts state only the effect on the store. The value returned is stated by `Payload.Get` and by the `SetThenGetData` lemmas.
- `RelationalStore.SetData` and `KeyValueStore.SetData` have no contract of their own. Their effect is stated by `RelationalLemmas.SetDataWritesMergedBag`, `RelationalLemmas.SetThenGetData` and `KeyValueLemmas.SetThenGetData`, and the invariant lemmas.
- `KeyValueStore.CreateNew`: its contract states only the cookie and the remembered fields. Its effect on the keyspace is stated by `KeyValueLemmas.CreateNewEffect`, `CreateNewRepoints` and `CreatedSessionFields`.
- `KeyValueStore.DestroyCorrected`: its contract does not state the map, because the map entry is kept or removed depending on what it points at. `KeyValueLemmas.DestroyCorrectedKeepsInv` states the map property.
- `RelationalStore.GetCount` (non-`all`): it is stated as "zero iff no live mark", not as an exact count.

## Findings

| source | as written | input that shows it | evidently intended | confidence | as-written member | corrected member |
|---|---|---|---|---|---|---|
| src/Voodoo/Doll/Auth/SessionDriver/Redis.php:145 | `destroy` deletes the account's `USER_SESSION_MAP` entry for every destroyed session, shadow sessions included | a primary login, a shadow login for the same account, `destroy` from the shadow's cookie, then another primary login: the map entry is gone, so the second primary login evicts nothing and the account has two primary sessions | remove the map entry only when it points at the destroyed session, so that a shadow login never affects the primary | not executed | KeyValueLemmas.DestroyShadowOrphansPrimary | KeyValueLemmas.CorrectedDestroyKeepsSinglePrimary |
