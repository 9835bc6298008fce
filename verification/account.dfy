/** The account table (`Account.php`): email normalisation, email and OAuth-uid uniqueness,
    the login error cases, the require-password-change flag, the history log and the status.
    An account instance bound to one row is modelled by that row's id; the table by its rows
    in primary-key order, so `findOne` is the first match. */
module Account {
  import opened Outcomes
  import Text
  import Payload
  import Seqs

  const STATUS_ACTIVE := "ACTIVE"

  /** The four OAuth providers with a `<provider>_uid` column. */
  datatype Provider = Facebook | Twitter | Google | Github

  datatype HistoryEntry = HistoryEntry(datetime: int, title: string, data: Payload.Bag)

  /** The decoded `history` column: a list of entries, or anything that is not a JSON
      array (including the initial null). */
  datatype History = Entries(items: seq<HistoryEntry>) | NotArray

  /** The columns of `auth_account` the core reads or writes. An unset `password_hash`
      reads as the empty string. */
  datatype AccountRow = AccountRow(
    id: nat,
    name: string,
    email: Option<string>,
    passwordHash: string,
    requirePasswordChange: bool,
    status: string,
    statusDescription: string,
    history: History,
    uids: map<Provider, string>,
    lastLogin: Option<int>)

  datatype Table = Table(rows: seq<AccountRow>, nextId: nat)

  /** The collaborators the account table calls but does not define: `validEmail`,
      `validPassword`, `strip_tags`, and the password hasher's `hash` and `verify`. */
  datatype Helpers = Helpers(
    validEmail: string -> bool,
    validPassword: string -> bool,
    stripTags: string -> string,
    hash: string -> string,
    verify: (string, string) -> bool)

  /** A new table state together with an operation's return value. */
  datatype Changed<T> = Changed(table: Table, out: T)

  /** Row ids are strictly increasing and below the auto-increment counter. */
  predicate WellFormed(t: Table)
  {
    && (forall i, j :: 0 <= i < j < |t.rows| ==> t.rows[i].id < t.rows[j].id)
    && (forall i :: 0 <= i < |t.rows| ==> t.rows[i].id < t.nextId)
  }

  /** A freshly inserted row: every column at its schema default. */
  function NewRow(id: nat): AccountRow
  {
    AccountRow(id, "", None, "", false, STATUS_ACTIVE, "", NotArray, map[], None)
  }

  /** `insert`: append a row under the next auto-increment id. */
  function Insert(t: Table, row: AccountRow): (r: Changed<AccountRow>)
    ensures r.out == row.(id := t.nextId)
    ensures r.table == Table(t.rows + [r.out], t.nextId + 1)
  {
    var stored := row.(id := t.nextId);
    Changed(Table(t.rows + [stored], t.nextId + 1), stored)
  }

  /** `update` on the instance bound to row `id`: `f` is applied to that row only. */
  function Modify(t: Table, id: nat, f: AccountRow -> AccountRow): (r: Table)
    ensures |r.rows| == |t.rows| && r.nextId == t.nextId
    ensures forall i :: 0 <= i < |t.rows| ==>
      r.rows[i] == (if t.rows[i].id == id then f(t.rows[i]) else t.rows[i])
  {
    Table(Seqs.Replace(t.rows, (row: AccountRow) => row.id == id, f), t.nextId)
  }

  /** `formatEmail`: `trim(strtolower($email))`. The result is the lower-cased email with
      exactly its leading and trailing trim characters dropped. */
  function FormatEmail(email: string): (r: string)
    ensures Text.TrimmedFrom(r, Text.Lower(email))
    ensures forall i :: 0 <= i < |r| ==> Text.IsLowerChar(r[i])
    ensures |r| > 0 ==> !Text.IsTrimmed(r[0]) && !Text.IsTrimmed(r[|r| - 1])
  {
    Text.TrimLowerIsLower(email);
    Text.TrimDropsTrimmed(Text.Lower(email));
    Text.Trim(Text.Lower(email))
  }

  /** Some row holds exactly this email. */
  predicate EmailTaken(t: Table, email: string)
  {
    exists i :: 0 <= i < |t.rows| && t.rows[i].email == Some(email)
  }

  /** Some row holds this uid for this provider. */
  predicate HasUid(row: AccountRow, provider: Provider, uid: string)
  {
    provider in row.uids && row.uids[provider] == uid
  }

  predicate UidTaken(t: Table, provider: Provider, uid: string)
  {
    exists i :: 0 <= i < |t.rows| && HasUid(t.rows[i], provider, uid)
  }

  /** `emailExists`: the email is normalised first and must still be valid; the lookup is
      on the exact normalised text. */
  function EmailExists(t: Table, h: Helpers, email: string): (r: Result<bool>)
    ensures r.Err? <==> !h.validEmail(FormatEmail(email))
    ensures r.Err? ==> r.message == "Invalid email"
    ensures r.Ok? ==> (r.value <==> EmailTaken(t, FormatEmail(email)))
  {
    var f := FormatEmail(email);
    if !h.validEmail(f) then Err("Invalid email")
    else Ok(EmailTaken(t, f))
  }

  /** `findOne($id)`: the row with this primary key, if any. */
  function FindById(t: Table, id: int): (r: Option<AccountRow>)
    ensures r.Some? ==> r.value in t.rows && r.value.id == id
    ensures r.None? ==> forall i :: 0 <= i < |t.rows| ==> t.rows[i].id != id
  {
    Seqs.First(t.rows, (row: AccountRow) => row.id == id)
  }

  /** The `WHERE email = ?` condition. */
  function EmailIs(email: string): AccountRow -> bool
  {
    (row: AccountRow) => row.email == Some(email)
  }

  /** `findByEmail`: the email must be valid and is matched exactly as given, without
      normalisation. */
  function FindByEmail(t: Table, h: Helpers, email: string): (r: Result<Option<AccountRow>>)
    ensures r.Err? <==> !h.validEmail(email)
    ensures r.Err? ==> r.message == "Invalid email"
    ensures r.Ok? ==> (r.value.Some? <==> EmailTaken(t, email))
    ensures r.Ok? && r.value.Some? ==> r.value.value in t.rows && r.value.value.email == Some(email)
  {
    if !h.validEmail(email) then Err("Invalid email")
    else Ok(Seqs.First(t.rows, EmailIs(email)))
  }

  /** `findByOAuth`: the first row whose `<provider>_uid` column holds `uid`. */
  function FindByOAuth(t: Table, provider: Provider, uid: string): (r: Option<AccountRow>)
    ensures r.Some? <==> UidTaken(t, provider, uid)
    ensures r.Some? ==> r.value in t.rows && HasUid(r.value, provider, uid)
  {
    Seqs.First(t.rows, (row: AccountRow) => HasUid(row, provider, uid))
  }

  /** `updateLastLogin` on a row loaded by a lookup: only that row changes, and only its
      `last_login`. */
  function UpdateLastLogin(t: Table, id: nat, now: int): (r: Table)
    ensures |r.rows| == |t.rows| && r.nextId == t.nextId
    ensures forall i :: 0 <= i < |t.rows| ==>
      r.rows[i] == (if t.rows[i].id == id then t.rows[i].(lastLogin := Some(now)) else t.rows[i])
  {
    Modify(t, id, (row: AccountRow) => row.(lastLogin := Some(now)))
  }

  /** A password argument passes `createWithEmail`'s check: it is falsy (no password is
      set) or `validPassword` accepts it. */
  predicate PasswordAccepted(h: Helpers, password: Option<string>)
  {
    password.Some? && Text.Truthy(password.value) ==> h.validPassword(password.value)
  }

  /** `createWithEmail`: validate, normalise, refuse a taken email, insert one row. */
  function CreateWithEmail(t: Table, h: Helpers, email: string, password: Option<string>,
                           name: string, status: string): (r: Result<Changed<AccountRow>>)
    ensures !h.validEmail(email) ==> r == Err("Invalid Email")
    ensures h.validEmail(email) && !PasswordAccepted(h, password) ==> r == Err("Invalid password")
    ensures (h.validEmail(email) && PasswordAccepted(h, password)
             && !h.validEmail(FormatEmail(email))) ==> r == Err("Invalid email")
    ensures (h.validEmail(email) && PasswordAccepted(h, password) && h.validEmail(FormatEmail(email))
             && EmailTaken(t, FormatEmail(email))) ==> r == Err("Email exists already")
    ensures r.Ok? <==>
      && h.validEmail(email)
      && PasswordAccepted(h, password)
      && h.validEmail(FormatEmail(email))
      && !EmailTaken(t, FormatEmail(email))
    ensures r.Ok? ==>
      && r.value.table.rows == t.rows + [r.value.out]
      && r.value.table.nextId == t.nextId + 1
      && r.value.out.id == t.nextId
      && r.value.out.email == Some(FormatEmail(email))
      && r.value.out.name == Text.Trim(h.stripTags(name))
      && r.value.out.status == status
      && !r.value.out.requirePasswordChange
      && r.value.out.passwordHash ==
           (if password.Some? && Text.Truthy(password.value) then h.hash(Text.Trim(password.value)) else "")
  {
    if !h.validEmail(email) then Err("Invalid Email")
    else if password.Some? && Text.Truthy(password.value) && !h.validPassword(password.value) then
      Err("Invalid password")
    else
      var f := FormatEmail(email);
      Text.TrimLowerIdempotent(email);
      match EmailExists(t, h, f)
      case Err(msg) => Err(msg)
      case Ok(true) => Err("Email exists already")
      case Ok(false) =>
        // the source trims the password twice; trim is idempotent
        var hash := if password.Some? && Text.Truthy(password.value) then h.hash(Text.Trim(password.value)) else "";
        Ok(Insert(t, NewRow(0).(name := Text.Trim(h.stripTags(name)), email := Some(f), status := status,
                                passwordHash := hash)))
  }

  /** `createWithOAuth`: refuse a uid already linked for this provider, otherwise insert one
      row holding only the uid and the status. */
  function CreateWithOAuth(t: Table, provider: Provider, uid: string, status: string): (r: Result<Changed<AccountRow>>)
    ensures r.Err? <==> UidTaken(t, provider, uid)
    ensures r.Err? ==> r.message == "Login exists already"
    ensures r.Ok? ==>
      && r.value.table.rows == t.rows + [r.value.out]
      && r.value.table.nextId == t.nextId + 1
      && r.value.out.id == t.nextId
      && r.value.out.uids == map[provider := uid]
      && r.value.out.email.None?
      && r.value.out.status == status
  {
    if FindByOAuth(t, provider, uid).Some? then Err("Login exists already")
    else Ok(Insert(t, NewRow(0).(uids := map[provider := uid], status := status)))
  }

  /** `loginWithEmail`: an invalid email, an email no row holds exactly, and a password that
      does not verify against the first row holding the email are the three failures. A
      success stamps `last_login` on that row and returns the stamped entity. */
  function LoginWithEmail(t: Table, h: Helpers, email: string, password: string, now: int): (r: Result<Changed<AccountRow>>)
    ensures !h.validEmail(email) ==> r == Err("Invalid email")
    ensures h.validEmail(email) && !EmailTaken(t, email) ==> r == Err("Invalid Login")
    ensures r.Err? && h.validEmail(email) && EmailTaken(t, email) ==> r.message == "Invalid password"
    ensures r.Ok? <==>
      && h.validEmail(email)
      && EmailTaken(t, email)
      && h.verify(Text.Trim(password), FindByEmail(t, h, email).value.value.passwordHash)
    ensures r.Ok? ==>
      && r.value.out == FindByEmail(t, h, email).value.value.(lastLogin := Some(now))
      && r.value.out.email == Some(email)
      && h.verify(Text.Trim(password), r.value.out.passwordHash)
      && r.value.table == UpdateLastLogin(t, r.value.out.id, now)
  {
    match FindByEmail(t, h, email)
    case Err(msg) => Err(msg)
    case Ok(None) => Err("Invalid Login")
    case Ok(Some(user)) =>
      // `passwordMatch` trims the already trimmed password again; trim is idempotent
      if !h.verify(Text.Trim(password), user.passwordHash) then Err("Invalid password")
      else Ok(Changed(UpdateLastLogin(t, user.id, now), user.(lastLogin := Some(now))))
  }

  /** `loginWithOAuth`: fails when no row holds the uid, otherwise stamps `last_login` on
      the first row holding it and returns the stamped entity. */
  function LoginWithOAuth(t: Table, provider: Provider, uid: string, now: int): (r: Result<Changed<AccountRow>>)
    ensures r.Err? <==> !UidTaken(t, provider, uid)
    ensures r.Err? ==> r.message == "Invalid Login"
    ensures r.Ok? ==>
      && r.value.out == FindByOAuth(t, provider, uid).value.(lastLogin := Some(now))
      && HasUid(r.value.out, provider, uid)
      && r.value.table == UpdateLastLogin(t, r.value.out.id, now)
  {
    match FindByOAuth(t, provider, uid)
    case None => Err("Invalid Login")
    case Some(user) => Ok(Changed(UpdateLastLogin(t, user.id, now), user.(lastLogin := Some(now))))
  }

  /** `resetPassword`: on an instance bound to one row, store the hash of a fresh password
      (the generated string, trimmed and lower-cased), raise the require-password-change
      flag and hand the password back; otherwise return null. */
  function ResetPassword(t: Table, h: Helpers, self: Option<nat>, generated: string): (r: Changed<Option<string>>)
    ensures self.None? ==> r == Changed(t, None)
    ensures self.Some? ==> r.out == Some(Text.Lower(Text.Trim(generated)))
    ensures r.out.Some? ==>
      && (forall i :: 0 <= i < |r.out.value| ==> Text.IsLowerChar(r.out.value[i]))
      && (|r.out.value| > 0 ==> !Text.IsTrimmed(r.out.value[0]) && !Text.IsTrimmed(r.out.value[|r.out.value| - 1]))
    ensures self.Some? ==> |r.table.rows| == |t.rows| && r.table.nextId == t.nextId
    ensures self.Some? ==> forall i :: 0 <= i < |t.rows| ==>
      if t.rows[i].id == self.value then
        r.table.rows[i] == t.rows[i].(passwordHash := h.hash(r.out.value), requirePasswordChange := true)
      else r.table.rows[i] == t.rows[i]
  {
    if self.None? then Changed(t, None)
    else
      var password := Text.Lower(Text.Trim(generated));
      Changed(Modify(t, self.value, (row: AccountRow) => row.(passwordHash := h.hash(password), requirePasswordChange := true)),
              Some(password))
  }

  /** `changePassword`: refuse an invalid password, otherwise store the hash of the trimmed
      password and clear the require-password-change flag. */
  function ChangePassword(t: Table, h: Helpers, self: nat, password: string): (r: Result<Table>)
    ensures r.Err? <==> !h.validPassword(password)
    ensures r.Err? ==> r.message == "Invalid password"
    ensures r.Ok? ==> |r.value.rows| == |t.rows| && r.value.nextId == t.nextId
    ensures r.Ok? ==> forall i :: 0 <= i < |t.rows| ==>
      if t.rows[i].id == self then
        r.value.rows[i] == t.rows[i].(passwordHash := h.hash(Text.Trim(password)), requirePasswordChange := false)
      else r.value.rows[i] == t.rows[i]
  {
    if !h.validPassword(password) then Err("Invalid password")
    else
      var hashed := Modify(t, self, (row: AccountRow) => row.(passwordHash := h.hash(Text.Trim(password))));
      // the flag is cleared only when it is set; either way it ends up false
      Ok(Modify(hashed, self, (row: AccountRow) => if row.requirePasswordChange then row.(requirePasswordChange := false) else row))
  }

  /** `changeEmail`: refuse an invalid email or a normalised email some row already holds
      (this account's own included), otherwise store the normalised email. */
  function ChangeEmail(t: Table, h: Helpers, self: nat, email: string): (r: Result<Table>)
    ensures !h.validEmail(email) ==> r == Err("Invalid email")
    ensures h.validEmail(email) && !h.validEmail(FormatEmail(email)) ==> r == Err("Invalid email")
    ensures h.validEmail(email) && h.validEmail(FormatEmail(email)) && EmailTaken(t, FormatEmail(email)) ==>
      r == Err("Email exists already")
    ensures r.Ok? <==> h.validEmail(email) && h.validEmail(FormatEmail(email)) && !EmailTaken(t, FormatEmail(email))
    ensures r.Ok? ==> r.value == Modify(t, self, (row: AccountRow) => row.(email := Some(FormatEmail(email))))
  {
    if !h.validEmail(email) then Err("Invalid email")
    else
      var f := FormatEmail(email);
      Text.TrimLowerIdempotent(email);
      match EmailExists(t, h, f)
      case Err(msg) => Err(msg)
      case Ok(true) => Err("Email exists already")
      case Ok(false) => Ok(Modify(t, self, (row: AccountRow) => row.(email := Some(f))))
  }

  /** The entries a stored history decodes to; anything that is not an array counts as none. */
  function Prior(history: History): seq<HistoryEntry>
  {
    match history
    case Entries(items) => items
    case NotArray => []
  }

  /** `setHistory`: append one entry stamped with the current time. */
  function SetHistory(t: Table, self: nat, title: string, data: Payload.Bag, now: int): (r: Table)
    ensures |r.rows| == |t.rows| && r.nextId == t.nextId
    ensures forall i :: 0 <= i < |t.rows| && t.rows[i].id == self ==>
      && r.rows[i].history.Entries?
      && |r.rows[i].history.items| == |Prior(t.rows[i].history)| + 1
      && r.rows[i].history.items[..|Prior(t.rows[i].history)|] == Prior(t.rows[i].history)
      && r.rows[i].history.items[|Prior(t.rows[i].history)|] == HistoryEntry(now, title, data)
      && r.rows[i] == t.rows[i].(history := r.rows[i].history)
    ensures forall i :: 0 <= i < |t.rows| && t.rows[i].id != self ==> r.rows[i] == t.rows[i]
  {
    Modify(t, self, (row: AccountRow) => row.(history := Entries(Prior(row.history) + [HistoryEntry(now, title, data)])))
  }

  /** `isActive`: strictly the "ACTIVE" status; every other status, known or not, is inactive. */
  function IsActive(row: AccountRow): (r: bool)
    ensures r <==> row.status == "ACTIVE"
  {
    row.status == STATUS_ACTIVE
  }

  /** `setStatus`: the status is always written, the description only when it is truthy. */
  function SetStatus(t: Table, self: nat, status: string, description: string): (r: Table)
    ensures |r.rows| == |t.rows| && r.nextId == t.nextId
    ensures forall i :: 0 <= i < |t.rows| && t.rows[i].id == self ==>
      && r.rows[i].status == status
      && r.rows[i].statusDescription == (if Text.Truthy(description) then description else t.rows[i].statusDescription)
      && r.rows[i] == t.rows[i].(status := r.rows[i].status, statusDescription := r.rows[i].statusDescription)
    ensures forall i :: 0 <= i < |t.rows| && t.rows[i].id != self ==> r.rows[i] == t.rows[i]
  {
    Modify(t, self, (row: AccountRow) => row.(status := status,
                                statusDescription := if Text.Truthy(description) then description else row.statusDescription))
  }

  /** No two rows hold the same email, and every stored email is already normalised, so no
      two accounts share a normalised email either. */
  predicate EmailsNormalisedUnique(t: Table)
  {
    && (forall i :: 0 <= i < |t.rows| && t.rows[i].email.Some? ==>
          FormatEmail(t.rows[i].email.value) == t.rows[i].email.value)
    && (forall i, j :: 0 <= i < j < |t.rows| && t.rows[i].email.Some? ==> t.rows[i].email != t.rows[j].email)
  }

  /** No two rows hold the same uid for the same provider. */
  predicate UidsUnique(t: Table)
  {
    forall i, j, p :: 0 <= i < j < |t.rows| && p in t.rows[i].uids && p in t.rows[j].uids ==>
      t.rows[i].uids[p] != t.rows[j].uids[p]
  }

  /** Normalising an email twice is normalising it once. */
  lemma FormatEmailIdempotent(email: string)
    ensures FormatEmail(FormatEmail(email)) == FormatEmail(email)
  {
    Text.TrimLowerIdempotent(email);
  }

  /** Under the invariant, distinct accounts never share a normalised email. */
  lemma {:induction false} NormalisedEmailsDistinct(t: Table, i: int, j: int)
    requires EmailsNormalisedUnique(t)
    requires 0 <= i < j < |t.rows| && t.rows[i].email.Some? && t.rows[j].email.Some?
    ensures FormatEmail(t.rows[i].email.value) != FormatEmail(t.rows[j].email.value)
  {
  }

  /** Appending a row under the next id keeps ids increasing. */
  lemma AppendKeepsWellFormed(t: Table, row: AccountRow)
    requires WellFormed(t) && row.id == t.nextId
    ensures WellFormed(Table(t.rows + [row], t.nextId + 1))
  {
  }

  /** A table whose rows carry the same ids, in the same places, as a well-formed one is
      well-formed. */
  lemma SameIdsKeepWellFormed(t: Table, t': Table)
    requires WellFormed(t)
    requires |t'.rows| == |t.rows| && t'.nextId == t.nextId
    requires forall i :: 0 <= i < |t.rows| ==> t'.rows[i].id == t.rows[i].id
    ensures WellFormed(t')
  {
  }

  /** The two account-creating operations keep ids increasing. */
  lemma CreatesKeepWellFormed(t: Table, h: Helpers, email: string, password: Option<string>,
                              name: string, status: string, provider: Provider, uid: string)
    requires WellFormed(t)
    ensures CreateWithEmail(t, h, email, password, name, status).Ok? ==>
              WellFormed(CreateWithEmail(t, h, email, password, name, status).value.table)
    ensures CreateWithOAuth(t, provider, uid, status).Ok? ==> WellFormed(CreateWithOAuth(t, provider, uid, status).value.table)
  {
    var r1 := CreateWithEmail(t, h, email, password, name, status);
    if r1.Ok? {
      assert r1.value.table == Table(t.rows + [r1.value.out], t.nextId + 1);
      AppendKeepsWellFormed(t, r1.value.out);
    }
    var r2 := CreateWithOAuth(t, provider, uid, status);
    if r2.Ok? {
      assert r2.value.table == Table(t.rows + [r2.value.out], t.nextId + 1);
      AppendKeepsWellFormed(t, r2.value.out);
    }
  }

  /** The two logins keep ids increasing. */
  lemma LoginsKeepWellFormed(t: Table, h: Helpers, email: string, secret: string, provider: Provider, uid: string, now: int)
    requires WellFormed(t)
    ensures LoginWithEmail(t, h, email, secret, now).Ok? ==> WellFormed(LoginWithEmail(t, h, email, secret, now).value.table)
    ensures LoginWithOAuth(t, provider, uid, now).Ok? ==> WellFormed(LoginWithOAuth(t, provider, uid, now).value.table)
  {
    var r1 := LoginWithEmail(t, h, email, secret, now);
    if r1.Ok? {
      SameIdsKeepWellFormed(t, r1.value.table);
    }
    var r2 := LoginWithOAuth(t, provider, uid, now);
    if r2.Ok? {
      SameIdsKeepWellFormed(t, r2.value.table);
    }
  }

  /** The email and password changes keep ids increasing. */
  lemma CredentialChangesKeepWellFormed(t: Table, h: Helpers, self: nat, email: string, secret: string, generated: string)
    requires WellFormed(t)
    ensures ChangeEmail(t, h, self, email).Ok? ==> WellFormed(ChangeEmail(t, h, self, email).value)
    ensures ChangePassword(t, h, self, secret).Ok? ==> WellFormed(ChangePassword(t, h, self, secret).value)
    ensures WellFormed(ResetPassword(t, h, Some(self), generated).table)
  {
    var r3 := ChangeEmail(t, h, self, email);
    if r3.Ok? {
      SameIdsKeepWellFormed(t, r3.value);
    }
    var r4 := ChangePassword(t, h, self, secret);
    if r4.Ok? {
      SameIdsKeepWellFormed(t, r4.value);
    }
    SameIdsKeepWellFormed(t, ResetPassword(t, h, Some(self), generated).table);
  }

  /** The status and history updates keep ids increasing. */
  lemma RecordUpdatesKeepWellFormed(t: Table, self: nat, status: string, description: string,
                                    title: string, data: Payload.Bag, now: int)
    requires WellFormed(t)
    ensures WellFormed(SetStatus(t, self, status, description))
    ensures WellFormed(SetHistory(t, self, title, data, now))
  {
    SameIdsKeepWellFormed(t, SetStatus(t, self, status, description));
    SameIdsKeepWellFormed(t, SetHistory(t, self, title, data, now));
  }

  /** `createWithEmail` keeps stored emails normalised and unique. */
  lemma {:induction false} CreateWithEmailKeepsEmailsUnique(t: Table, h: Helpers, email: string,
                                                           password: Option<string>, name: string, status: string)
    requires EmailsNormalisedUnique(t)
    ensures CreateWithEmail(t, h, email, password, name, status).Ok? ==>
              EmailsNormalisedUnique(CreateWithEmail(t, h, email, password, name, status).value.table)
  {
    var r := CreateWithEmail(t, h, email, password, name, status);
    if r.Ok? {
      FormatEmailIdempotent(email);
      var rows := r.value.table.rows;
      assert rows == t.rows + [r.value.out];
      forall i | 0 <= i < |rows| && rows[i].email.Some?
        ensures FormatEmail(rows[i].email.value) == rows[i].email.value
      {
        if i < |t.rows| {
          assert rows[i] == t.rows[i];
        }
      }
      forall i, j | 0 <= i < j < |rows| && rows[i].email.Some?
        ensures rows[i].email != rows[j].email
      {
        if j == |t.rows| {
          assert rows[i] == t.rows[i];
        }
      }
    }
  }

  /** `changeEmail` keeps stored emails normalised and unique. */
  lemma {:induction false} ChangeEmailKeepsEmailsUnique(t: Table, h: Helpers, self: nat, email: string)
    requires WellFormed(t) && EmailsNormalisedUnique(t)
    ensures ChangeEmail(t, h, self, email).Ok? ==> EmailsNormalisedUnique(ChangeEmail(t, h, self, email).value)
  {
    var r := ChangeEmail(t, h, self, email);
    if r.Ok? {
      FormatEmailIdempotent(email);
      var rows := r.value.rows;
      forall i, j | 0 <= i < j < |rows| && rows[i].email.Some?
        ensures rows[i].email != rows[j].email
      {
        if t.rows[i].id == self {
          assert t.rows[j].id != self;
          assert rows[j] == t.rows[j];
        } else if t.rows[j].id == self {
          assert rows[i] == t.rows[i];
        }
      }
    }
  }

  /** `createWithOAuth` keeps every provider's uids unique. */
  lemma {:induction false} CreateWithOAuthKeepsUidsUnique(t: Table, provider: Provider, uid: string, status: string)
    requires UidsUnique(t)
    ensures CreateWithOAuth(t, provider, uid, status).Ok? ==> UidsUnique(CreateWithOAuth(t, provider, uid, status).value.table)
  {
    var r := CreateWithOAuth(t, provider, uid, status);
    if r.Ok? {
      var rows := r.value.table.rows;
      forall i, j, p | 0 <= i < j < |rows| && p in rows[i].uids && p in rows[j].uids
        ensures rows[i].uids[p] != rows[j].uids[p]
      {
        if j == |t.rows| {
          assert rows[i] == t.rows[i];
          assert p == provider;
          assert !HasUid(t.rows[i], provider, uid);
        }
      }
    }
  }

  /** Once `createWithEmail` succeeds, a second call with an email that normalises to the
      same address is refused as a duplicate. */
  lemma {:induction false} CreateWithEmailRefusesDuplicate(t: Table, h: Helpers, email: string, password: Option<string>,
                                                          name: string, status: string, again: string)
    requires CreateWithEmail(t, h, email, password, name, status).Ok?
    requires FormatEmail(again) == FormatEmail(email)
    requires h.validEmail(again) && PasswordAccepted(h, password)
    ensures CreateWithEmail(CreateWithEmail(t, h, email, password, name, status).value.table, h, again, password, name, status)
            == Err("Email exists already")
  {
    var t' := CreateWithEmail(t, h, email, password, name, status).value.table;
    assert t'.rows[|t.rows|].email == Some(FormatEmail(again));
  }

  /** An account created with an email and a password can log in with the normalised email
      and that password, provided the hasher verifies its own hashes; the login returns the
      created account with its `last_login` stamped. */
  lemma {:induction false} CreatedAccountCanLogIn(t: Table, h: Helpers, email: string, password: string,
                                                 name: string, status: string, now: int)
    requires h.validEmail(email) && h.validEmail(FormatEmail(email)) && !EmailTaken(t, FormatEmail(email))
    requires Text.Truthy(password) && h.validPassword(password)
    requires h.verify(Text.Trim(password), h.hash(Text.Trim(password)))
    ensures LoginWithEmail(CreateWithEmail(t, h, email, Some(password), name, status).value.table,
                           h, FormatEmail(email), password, now).Ok?
    ensures LoginWithEmail(CreateWithEmail(t, h, email, Some(password), name, status).value.table,
                           h, FormatEmail(email), password, now).value.out
            == CreateWithEmail(t, h, email, Some(password), name, status).value.out.(lastLogin := Some(now))
  {
    var c := CreateWithEmail(t, h, email, Some(password), name, status).value;
    var f := FormatEmail(email);
    assert forall i :: 0 <= i < |t.rows| ==> !EmailIs(f)(t.rows[i]);
    Seqs.FirstAppended(t.rows, c.out, EmailIs(f));
    assert FindByEmail(c.table, h, f) == Ok(Some(c.out));
  }

  /** An OAuth account can log in with the uid it was created with. */
  lemma {:induction false} CreatedOAuthAccountCanLogIn(t: Table, provider: Provider, uid: string, status: string, now: int)
    requires CreateWithOAuth(t, provider, uid, status).Ok?
    ensures LoginWithOAuth(CreateWithOAuth(t, provider, uid, status).value.table, provider, uid, now).Ok?
    ensures CreateWithOAuth(CreateWithOAuth(t, provider, uid, status).value.table, provider, uid, status)
            == Err("Login exists already")
  {
    var t' := CreateWithOAuth(t, provider, uid, status).value.table;
    assert HasUid(t'.rows[|t.rows|], provider, uid);
  }

  /** `resetPassword` raises the require-password-change flag and a later successful
      `changePassword` lowers it again. */
  lemma {:induction false} ResetThenChangeClearsFlag(t: Table, h: Helpers, self: nat, generated: string, password: string, i: int)
    requires h.validPassword(password)
    requires 0 <= i < |t.rows| && t.rows[i].id == self
    ensures ResetPassword(t, h, Some(self), generated).table.rows[i].requirePasswordChange
    ensures !ChangePassword(ResetPassword(t, h, Some(self), generated).table, h, self, password).value.rows[i].requirePasswordChange
  {
    var t' := ResetPassword(t, h, Some(self), generated).table;
    assert t'.rows[i].id == self;
  }

  /** Two `setHistory` calls append their entries in call order after the earlier ones. */
  lemma {:induction false} SetHistoryTwice(t: Table, self: nat, title1: string, data1: Payload.Bag, now1: int,
                                          title2: string, data2: Payload.Bag, now2: int, i: int)
    requires 0 <= i < |t.rows| && t.rows[i].id == self
    ensures SetHistory(SetHistory(t, self, title1, data1, now1), self, title2, data2, now2).rows[i].history
            == Entries(Prior(t.rows[i].history) + [HistoryEntry(now1, title1, data1), HistoryEntry(now2, title2, data2)])
  {
    var t1 := SetHistory(t, self, title1, data1, now1);
    var t2 := SetHistory(t1, self, title2, data2, now2);
    var p := Prior(t.rows[i].history);
    assert t1.rows[i].history.items == p + [HistoryEntry(now1, title1, data1)];
    assert t1.rows[i].id == self;
    assert t2.rows[i].history.items == t1.rows[i].history.items + [HistoryEntry(now2, title2, data2)];
  }

  /** After `setStatus(s)` the account is active exactly when `s` is "ACTIVE". */
  lemma {:induction false} SetStatusDecidesActive(t: Table, self: nat, status: string, description: string, i: int)
    requires 0 <= i < |t.rows| && t.rows[i].id == self
    ensures IsActive(SetStatus(t, self, status, description).rows[i]) <==> status == "ACTIVE"
  {
  }
}
