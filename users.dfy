/** The `User` model's `save` (users/models.py): the password is replaced
    by its hash on a first save or when `update_fields` names it, the whole
    record is validated (`full_clean`), and only then is it written. The
    user table is the `users` database table, keyed by primary key. */
module Users {
  import opened Strings
  import opened UserFields

  /** A password value. `make_password` is modelled as an uninterpreted,
      injective hash: `Hashed(s)` is the hash of whatever `s` held. */
  datatype Secret = Plain(text: string) | Hashed(of: Secret)

  /** `check_password(raw, stored)`: the stored value is the hash of `raw`. */
  function CheckPassword(raw: string, stored: Secret): (ok: bool)
    ensures ok ==> stored.Hashed? && stored.of == Plain(raw)
    ensures stored == Hashed(Plain(raw)) ==> ok
  {
    stored == Hashed(Plain(raw))
  }

  /** The columns of one `users` row. */
  datatype UserRow = UserRow(
    username: string,
    email: string,
    password: Secret,
    firstName: string,
    lastName: string,
    phone: string,
    isActive: bool,
    isVerified: bool)

  /** Errors of the password column: a hash always fits the 128
      characters; a raw value must be non-blank and fit. */
  function PasswordProblems(p: Secret): (ps: seq<Problem>)
    ensures p.Hashed? ==> ps == []
    ensures p.Plain? ==> (ps == [] <==> p.text != "" && |p.text| <= PASSWORD_MAX_LENGTH)
  {
    match p
    case Hashed(_) => []
    case Plain(t) => TextProblems(t, PASSWORD_MAX_LENGTH, false)
  }

  /** Every field rule and the domain rule of `clean` hold. */
  predicate RowValid(row: UserRow) {
    UsernameProblems(row.username) == [] &&
    TextProblems(row.email, EMAIL_MAX_LENGTH, false) == [] &&
    PasswordProblems(row.password) == [] &&
    TextProblems(row.firstName, NAME_MAX_LENGTH, true) == [] &&
    TextProblems(row.lastName, NAME_MAX_LENGTH, true) == [] &&
    PhoneProblems(row.phone) == [] &&
    CleanEmail(row.email).None?
  }

  /** `full_clean`: the field checks in declaration order, then `clean`;
      all errors are gathered and raised together. */
  function FullCleanErrors(row: UserRow): (es: seq<FieldError>)
    ensures es == [] <==> RowValid(row)
  {
    Tag("username", UsernameProblems(row.username)) +
    Tag("email", TextProblems(row.email, EMAIL_MAX_LENGTH, false)) +
    Tag("password", PasswordProblems(row.password)) +
    Tag("first_name", TextProblems(row.firstName, NAME_MAX_LENGTH, true)) +
    Tag("last_name", TextProblems(row.lastName, NAME_MAX_LENGTH, true)) +
    Tag("phone", PhoneProblems(row.phone)) +
    (match CleanEmail(row.email) case None => [] case Some(p) => [FieldError("email", p)])
  }

  /** The `update_fields` keyword of `save`: not passed, passed as `None`,
      or passed as a collection of field names. */
  datatype UpdateFields = Omitted | NoneGiven | Names(names: seq<string>)

  datatype SaveOutcome =
    | Saved
    | Rejected(errors: seq<FieldError>)  // ValidationError from full_clean
    | TypeErrorRaised                    // `'password' in None`

  /** Python truthiness of the primary key: None and 0 are false. */
  predicate PkTruthy(pk: Option<int>) {
    pk.Some? && pk.value != 0
  }

  /** Whether line 56 hashes the password; `None` when evaluating the
      condition raises TypeError. */
  function HashDecision(pk: Option<int>, updateFields: UpdateFields): (d: Option<bool>)
    ensures d.None? <==> PkTruthy(pk) && updateFields.NoneGiven?
    ensures d == Some(true) <==>
      !PkTruthy(pk) || (updateFields.Names? && "password" in updateFields.names)
  {
    if !PkTruthy(pk) then Some(true)
    else match updateFields
      case Omitted => Some(false)
      case NoneGiven => None
      case Names(ns) => Some("password" in ns)
  }

  /** The state `save` leaves: the outcome, the object's password and
      primary key, and the table. */
  datatype SaveResult = SaveResult(
    outcome: SaveOutcome,
    password: Secret,
    pk: Option<int>,
    rows: map<int, UserRow>,
    nextId: int)

  /** What `super().save()` does with a validated row: a row without a
      primary key gets the next id, one with a key is written at it. */
  function Persist(rows: map<int, UserRow>, nextId: int, pk: Option<int>, row: UserRow): (r: (int, map<int, UserRow>, int))
    ensures r.1 == rows[r.0 := row]
    ensures pk.Some? ==> r.0 == pk.value
    ensures pk.None? ==> r.0 == nextId
    ensures r.2 > r.0 && r.2 >= nextId
  {
    match pk
    case None => (nextId, rows[nextId := row], nextId + 1)
    case Some(id) => (id, rows[id := row], if id >= nextId then id + 1 else nextId)
  }

  /** `User.save` on an object with columns `row` and primary key `pk`. */
  function SaveStep(row: UserRow, pk: Option<int>, updateFields: UpdateFields,
                    rows: map<int, UserRow>, nextId: int): (r: SaveResult)
    ensures r.outcome.Saved? ==> RowValid(row.(password := r.password))
    ensures r.outcome.Saved? ==> r.pk.Some? && r.rows == rows[r.pk.value := row.(password := r.password)]
    ensures !r.outcome.Saved? ==> r.pk == pk && r.rows == rows && r.nextId == nextId
    ensures r.outcome.Saved? ==> r.pk == (if pk.Some? then pk else Some(nextId))
    ensures r.outcome.Saved? <==>
      HashDecision(pk, updateFields).Some? &&
      RowValid(row.(password := if HashDecision(pk, updateFields).value then Hashed(row.password) else row.password))
  {
    match HashDecision(pk, updateFields)
    case None => SaveResult(TypeErrorRaised, row.password, pk, rows, nextId)
    case Some(hash) =>
      var password := if hash then Hashed(row.password) else row.password;
      var cleaned := row.(password := password);
      var errors := FullCleanErrors(cleaned);
      if errors != [] then SaveResult(Rejected(errors), password, pk, rows, nextId)
      else
        var (id, rows', nextId') := Persist(rows, nextId, pk, cleaned);
        SaveResult(Saved, password, Some(id), rows', nextId')
  }

  /** The password is hashed exactly on a first save (no truthy key) or
      when `update_fields` names it; otherwise it is left as it was, also
      when the condition itself raises. */
  lemma HashOnlyWhenRequired(row: UserRow, pk: Option<int>, updateFields: UpdateFields,
                             rows: map<int, UserRow>, nextId: int)
    ensures var r := SaveStep(row, pk, updateFields, rows, nextId);
      r.password == (if !PkTruthy(pk) || (updateFields.Names? && "password" in updateFields.names)
                     then Hashed(row.password) else row.password)
  {
  }

  /** A first save of a valid user stores the hash of the raw password,
      which `check_password` then accepts, and no other raw value. */
  lemma FirstSaveStoresHash(row: UserRow, raw: string, other: string,
                            rows: map<int, UserRow>, nextId: int)
    requires row.password == Plain(raw) && raw != other
    requires RowValid(row.(password := Hashed(Plain(raw))))
    ensures var r := SaveStep(row, None, Omitted, rows, nextId);
      r.outcome.Saved? && r.pk == Some(nextId) && nextId in r.rows &&
      CheckPassword(raw, r.rows[nextId].password) &&
      !CheckPassword(other, r.rows[nextId].password)
  {
  }

  /** Assigning a new raw password to a stored user and saving without
      `update_fields` writes the raw text: it is not hashed, and
      `check_password` refuses it. */
  lemma PlainPasswordKeptOnUpdate(row: UserRow, id: int, raw: string,
                                  rows: map<int, UserRow>, nextId: int)
    requires id != 0 && row.password == Plain(raw) && RowValid(row)
    ensures var r := SaveStep(row, Some(id), Omitted, rows, nextId);
      r.outcome.Saved? && r.rows[id].password == Plain(raw) &&
      !CheckPassword(raw, r.rows[id].password)
  {
  }

  /** Saving a stored user with `update_fields=['password']` hashes the
      new raw password and writes the row at the user's own key, where
      `check_password` then accepts the raw password. */
  lemma PasswordUpdateStoresHash(row: UserRow, id: int, raw: string,
                                 rows: map<int, UserRow>, nextId: int)
    requires id != 0 && row.password == Plain(raw)
    requires RowValid(row.(password := Hashed(Plain(raw))))
    ensures var r := SaveStep(row, Some(id), Names(["password"]), rows, nextId);
      r.outcome.Saved? && r.pk == Some(id) && id in r.rows &&
      r.rows[id] == row.(password := Hashed(Plain(raw))) &&
      CheckPassword(raw, r.rows[id].password)
  {
  }

  /** Passing `update_fields=None` to a stored user raises before anything
      is hashed, validated or written. */
  lemma NoneUpdateFieldsRaises(row: UserRow, id: int, rows: map<int, UserRow>, nextId: int)
    requires id != 0
    ensures SaveStep(row, Some(id), NoneGiven, rows, nextId) ==
      SaveResult(TypeErrorRaised, row.password, Some(id), rows, nextId)
  {
  }

  /** The password is hashed before validation, and a refused save leaves
      the object's password hashed; a second attempt on the same unsaved
      object hashes that hash, so `check_password` refuses the original
      raw password. */
  lemma RetryAfterRejectionHashesTwice(row: UserRow, fixed: UserRow, raw: string,
                                       rows: map<int, UserRow>, nextId: int)
    requires row.password == Plain(raw)
    requires !RowValid(row.(password := Hashed(Plain(raw))))
    requires RowValid(fixed) && fixed.password == Hashed(Hashed(Plain(raw)))
    ensures var first := SaveStep(row, None, Omitted, rows, nextId);
      first.outcome.Rejected? && first.password == Hashed(Plain(raw)) &&
      var second := SaveStep(fixed.(password := first.password), first.pk, Omitted, first.rows, first.nextId);
      second.outcome.Saved? &&
      second.rows[nextId].password == Hashed(Hashed(Plain(raw))) &&
      !CheckPassword(raw, second.rows[nextId].password)
  {
    var first := SaveStep(row, None, Omitted, rows, nextId);
    assert fixed.(password := first.password).(password := Hashed(first.password)) == fixed;
  }

  /** The `users` table. Ids handed out for new rows come from `nextId`. */
  class UserTable {
    var rows: map<int, UserRow>
    var nextId: int

    /** Every stored id lies below the next id to hand out. */
    predicate Valid()
      reads this
    {
      forall id | id in rows :: id < nextId
    }

    constructor ()
      ensures Valid() && rows == map[] && nextId == 1
    {
      rows := map[];
      nextId := 1;
    }

    /** `Model.save` of the base class: insert or overwrite one row. */
    method Write(pk: Option<int>, row: UserRow) returns (id: int)
      requires Valid()
      modifies this
      ensures Valid()
      ensures (id, rows, nextId) == Persist(old(rows), old(nextId), pk, row)
      ensures pk.None? ==> id !in old(rows)
    {
      match pk {
        case None =>
          id := nextId;
          nextId := nextId + 1;
        case Some(p) =>
          id := p;
          if p >= nextId {
            nextId := p + 1;
          }
      }
      rows := rows[id := row];
    }
  }

  /** A `User` object in memory, as the service code holds it. */
  class User {
    var pk: Option<int>
    var username: string
    var email: string
    var password: Secret
    var firstName: string
    var lastName: string
    var phone: string
    var isActive: bool
    var isVerified: bool

    /** `User(username=..., email=..., password=..., ...)`: not yet stored,
        the password as given, active and not verified. */
    constructor (username: string, email: string, password: string,
                 firstName: string, lastName: string, phone: string)
      ensures this.pk.None? && this.password == Plain(password)
      ensures Row() == UserRow(username, email, Plain(password), firstName, lastName, phone, true, false)
    {
      this.pk := None;
      this.username := username;
      this.email := email;
      this.password := Plain(password);
      this.firstName := firstName;
      this.lastName := lastName;
      this.phone := phone;
      this.isActive := true;
      this.isVerified := false;
    }

    function Row(): (row: UserRow)
      reads this
      ensures row.password == password && row.username == username && row.email == email
    {
      UserRow(username, email, password, firstName, lastName, phone, isActive, isVerified)
    }

    /** `save(update_fields=...)`: hash when required, validate, write. */
    method Save(table: UserTable, updateFields: UpdateFields) returns (outcome: SaveOutcome)
      requires table.Valid()
      modifies this, table
      ensures table.Valid()
      ensures var r := SaveStep(old(Row()), old(pk), updateFields, old(table.rows), old(table.nextId));
        outcome == r.outcome && password == r.password && pk == r.pk &&
        table.rows == r.rows && table.nextId == r.nextId
      ensures Row() == old(Row()).(password := password)
    {
      ghost var before := Row();
      var decision := HashDecision(pk, updateFields);
      if decision.None? {
        outcome := TypeErrorRaised;
        return;
      }
      if decision.value {
        password := Hashed(password);
      }
      var row := Row();
      assert row == before.(password := password);
      var errors := FullCleanErrors(row);
      if errors != [] {
        outcome := Rejected(errors);
        return;
      }
      ghost var oldRows, oldNextId := table.rows, table.nextId;
      var id := table.Write(pk, row);
      assert SaveStep(before, pk, updateFields, oldRows, oldNextId) ==
        SaveResult(Saved, password, Some(id), table.rows, table.nextId);
      pk := Some(id);
      outcome := Saved;
    }

    /** `check_password(raw_password)` against the object's password. */
    function CheckRawPassword(raw: string): (ok: bool)
      reads this
      ensures ok <==> password.Hashed? && password.of == Plain(raw)
    {
      CheckPassword(raw, password)
    }
  }
}
