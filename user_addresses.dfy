/** The `UserAddress` model (users/models.py): a user may keep several
    addresses, but at most one default address per address type. `save`
    runs `full_clean`, whose `clean` looks the table up for another default
    of the same user and type, and only then writes the row. The table is
    the `user_addresses` database table in row order. */
module UserAddresses {
  import opened Strings
  import opened UserFields

  const ADDRESS_TYPES: seq<string> := ["shipping", "billing", "both"]
  const ADDRESS_TYPE_MAX_LENGTH: nat := 20
  const STREET_MAX_LENGTH: nat := 255
  const APARTMENT_MAX_LENGTH: nat := 100
  const CITY_MAX_LENGTH: nat := 100
  const STATE_MAX_LENGTH: nat := 100
  const POSTAL_CODE_MAX_LENGTH: nat := 20
  const COUNTRY_MAX_LENGTH: nat := 100

  /** The columns of an address; `user` is the owning user's id. */
  datatype Address = Address(
    user: int,
    addressType: string,
    streetAddress: string,
    apartment: string,
    city: string,
    state: string,
    postalCode: string,
    country: string,
    isDefault: bool)

  /** A stored row: its primary key and its columns. */
  datatype StoredAddress = StoredAddress(pk: int, address: Address)

  /** Two addresses that are both the default for the same user and type. */
  predicate SameDefaultSlot(a: Address, b: Address) {
    a.isDefault && b.isDefault && a.user == b.user && a.addressType == b.addressType
  }

  /** The rule the unique constraint `unique_default_address_per_type`
      states: no two rows are defaults for the same user and type. */
  predicate AtMostOneDefault(rows: seq<StoredAddress>) {
    forall i, j | 0 <= i < j < |rows| :: !SameDefaultSlot(rows[i].address, rows[j].address)
  }

  predicate UniquePks(rows: seq<StoredAddress>) {
    forall i, j | 0 <= i < j < |rows| :: rows[i].pk != rows[j].pk
  }

  /** A stored row that `clean` holds against saving `a` under `pk`: a
      default of the same user and type with another key. Excluding
      `pk=None` excludes nothing, so for an unsaved address every such
      default counts. */
  predicate Conflicts(row: StoredAddress, a: Address, pk: Option<int>) {
    row.address.isDefault && row.address.user == a.user &&
    row.address.addressType == a.addressType &&
    (pk.None? || row.pk != pk.value)
  }

  /** `UserAddress.objects.filter(user=..., address_type=..., is_default=True)`. */
  function FilterDefaults(rows: seq<StoredAddress>, user: int, addressType: string): (r: seq<StoredAddress>)
    ensures forall x :: x in r <==>
      x in rows && x.address.user == user && x.address.addressType == addressType && x.address.isDefault
  {
    if rows == [] then []
    else
      var rest := FilterDefaults(rows[1..], user, addressType);
      var head := rows[0];
      assert forall x :: x in rows <==> x == head || x in rows[1..];
      if head.address.user == user && head.address.addressType == addressType && head.address.isDefault
      then [head] + rest else rest
  }

  /** `.exclude(pk=pk)`; `pk` is None for an unsaved object, and a
      comparison with None matches no row. */
  function ExcludePk(rows: seq<StoredAddress>, pk: Option<int>): (r: seq<StoredAddress>)
    ensures forall x :: x in r <==> x in rows && (pk.None? || x.pk != pk.value)
  {
    if rows == [] then []
    else
      var rest := ExcludePk(rows[1..], pk);
      var head := rows[0];
      assert forall x :: x in rows <==> x == head || x in rows[1..];
      if pk.Some? && head.pk == pk.value then rest else [head] + rest
  }

  /** `UserAddress.clean` against the table `rows`. */
  function CleanAddress(rows: seq<StoredAddress>, a: Address, pk: Option<int>): (p: Option<Problem>)
    ensures p.Some? ==> p.value == DuplicateDefault
    ensures p.Some? <==> a.isDefault && exists i | 0 <= i < |rows| :: Conflicts(rows[i], a, pk)
  {
    if a.isDefault then
      var existing := ExcludePk(FilterDefaults(rows, a.user, a.addressType), pk);
      if |existing| > 0 then
        assert existing[0] in existing;
        Some(DuplicateDefault)
      else
        assert forall i | 0 <= i < |rows| :: rows[i] in rows;
        None
    else None
  }

  /** Errors of the address columns, in declaration order. */
  function FieldErrors(a: Address): (es: seq<FieldError>)
    ensures es == [] <==>
      a.addressType in ADDRESS_TYPES &&
      a.streetAddress != "" && |a.streetAddress| <= STREET_MAX_LENGTH &&
      |a.apartment| <= APARTMENT_MAX_LENGTH &&
      a.city != "" && |a.city| <= CITY_MAX_LENGTH &&
      |a.state| <= STATE_MAX_LENGTH &&
      a.postalCode != "" && |a.postalCode| <= POSTAL_CODE_MAX_LENGTH &&
      a.country != "" && |a.country| <= COUNTRY_MAX_LENGTH
  {
    Tag("address_type", ChoiceProblems(a.addressType, ADDRESS_TYPES, ADDRESS_TYPE_MAX_LENGTH)) +
    Tag("street_address", TextProblems(a.streetAddress, STREET_MAX_LENGTH, false)) +
    Tag("apartment", TextProblems(a.apartment, APARTMENT_MAX_LENGTH, true)) +
    Tag("city", TextProblems(a.city, CITY_MAX_LENGTH, false)) +
    Tag("state", TextProblems(a.state, STATE_MAX_LENGTH, true)) +
    Tag("postal_code", TextProblems(a.postalCode, POSTAL_CODE_MAX_LENGTH, false)) +
    Tag("country", TextProblems(a.country, COUNTRY_MAX_LENGTH, false))
  }

  /** `full_clean`: the field checks, then `clean`, all errors together. */
  function FullCleanErrors(rows: seq<StoredAddress>, a: Address, pk: Option<int>): (es: seq<FieldError>)
    ensures es == [] <==> FieldErrors(a) == [] && CleanAddress(rows, a, pk).None?
  {
    FieldErrors(a) +
    (match CleanAddress(rows, a, pk) case None => [] case Some(p) => [FieldError("__all__", p)])
  }

  /** The position of the row with key `pk`, if there is one. */
  function IndexOfPk(rows: seq<StoredAddress>, pk: int): (r: Option<nat>)
    ensures r.Some? ==> r.value < |rows| && rows[r.value].pk == pk
    ensures r.None? ==> forall i | 0 <= i < |rows| :: rows[i].pk != pk
  {
    if rows == [] then None
    else if rows[0].pk == pk then Some(0)
    else match IndexOfPk(rows[1..], pk)
      case None => None
      case Some(i) => Some(i + 1)
  }

  datatype AddressSave = AddressSave(
    errors: seq<FieldError>,
    pk: Option<int>,
    rows: seq<StoredAddress>,
    nextPk: int)

  /** The base `Model.save` for a validated address: an unsaved address is
      appended under the next key; a saved one overwrites the row with its
      key, or is appended under that key if no row has it. */
  function Write(rows: seq<StoredAddress>, nextPk: int, a: Address, pk: Option<int>): (r: (int, seq<StoredAddress>, int))
    ensures r.2 > r.0 && r.2 >= nextPk
    ensures pk.Some? ==> r.0 == pk.value
    ensures pk.None? ==> r.0 == nextPk
    ensures StoredAddress(r.0, a) in r.1
    ensures forall i | 0 <= i < |rows| && rows[i].pk != r.0 :: rows[i] in r.1
    ensures forall x | x in r.1 :: x in rows || x == StoredAddress(r.0, a)
    ensures |rows| <= |r.1| <= |rows| + 1
  {
    match pk
    case None => Append(rows, StoredAddress(nextPk, a), nextPk + 1)
    case Some(p) =>
      var nextPk' := if p >= nextPk then p + 1 else nextPk;
      match IndexOfPk(rows, p)
      case Some(i) => Overwrite(rows, i, StoredAddress(p, a), nextPk')
      case None => Append(rows, StoredAddress(p, a), nextPk')
  }

  /** The insert half of Write. */
  function Append(rows: seq<StoredAddress>, row: StoredAddress, nextPk: int): (r: (int, seq<StoredAddress>, int))
    ensures r.0 == row.pk && r.2 == nextPk && row in r.1 && |r.1| == |rows| + 1
    ensures forall i | 0 <= i < |rows| :: rows[i] in r.1
    ensures forall x | x in r.1 :: x in rows || x == row
  {
    var rows' := rows + [row];
    assert rows'[|rows|] == row;
    assert forall i | 0 <= i < |rows| :: rows'[i] == rows[i];
    (row.pk, rows', nextPk)
  }

  /** The update half of Write: the row at `i` holds the same key. */
  function Overwrite(rows: seq<StoredAddress>, i: nat, row: StoredAddress, nextPk: int): (r: (int, seq<StoredAddress>, int))
    requires i < |rows| && rows[i].pk == row.pk
    ensures r.0 == row.pk && r.2 == nextPk && row in r.1 && |r.1| == |rows|
    ensures forall j | 0 <= j < |rows| && rows[j].pk != row.pk :: rows[j] in r.1
    ensures forall x | x in r.1 :: x in rows || x == row
  {
    var rows' := rows[i := row];
    assert rows'[i] == row;
    assert forall j | 0 <= j < |rows| && j != i :: rows'[j] == rows[j];
    assert forall j | 0 <= j < |rows'| && j != i :: rows'[j] in rows;
    (row.pk, rows', nextPk)
  }

  /** `UserAddress.save`: validate against the table, then write. */
  function SaveStep(rows: seq<StoredAddress>, nextPk: int, a: Address, pk: Option<int>): (r: AddressSave)
    ensures r.errors != [] ==> r.rows == rows && r.nextPk == nextPk && r.pk == pk
    ensures r.errors == [] <==> FieldErrors(a) == [] && CleanAddress(rows, a, pk).None?
    ensures r.errors == [] ==> r.pk.Some? && StoredAddress(r.pk.value, a) in r.rows
    ensures r.errors == [] ==> r.pk == (if pk.Some? then pk else Some(nextPk))
    ensures r.errors == [] ==>
      forall i | 0 <= i < |rows| && rows[i].pk != r.pk.value :: rows[i] in r.rows
    ensures r.errors == [] ==> forall x | x in r.rows :: x in rows || x == StoredAddress(r.pk.value, a)
    ensures |rows| <= |r.rows| <= |rows| + 1
  {
    var errors := FullCleanErrors(rows, a, pk);
    if errors != [] then AddressSave(errors, pk, rows, nextPk)
    else
      var (id, rows', nextPk') := Write(rows, nextPk, a, pk);
      AddressSave([], Some(id), rows', nextPk')
  }

  /** The table invariant: keys are unique and below the next key to hand
      out, and each user has at most one default address per type. */
  predicate TableValid(rows: seq<StoredAddress>, nextPk: int) {
    UniquePks(rows) && AtMostOneDefault(rows) &&
    forall i | 0 <= i < |rows| :: rows[i].pk < nextPk
  }

  /** Overwriting the row at `i` with a non-default address or with a
      default no other row competes with keeps the rule. */
  lemma ReplaceKeepsOneDefault(rows: seq<StoredAddress>, i: nat, row: StoredAddress)
    requires i < |rows| && AtMostOneDefault(rows)
    requires forall j | 0 <= j < |rows| && j != i :: !SameDefaultSlot(rows[j].address, row.address)
    ensures AtMostOneDefault(rows[i := row])
  {
    var rows' := rows[i := row];
    forall j, k | 0 <= j < k < |rows'|
      ensures !SameDefaultSlot(rows'[j].address, rows'[k].address)
    {
      if j != i && k != i {
        assert rows'[j] == rows[j] && rows'[k] == rows[k];
      } else if j == i {
        assert !SameDefaultSlot(rows[k].address, row.address);
      } else {
        assert !SameDefaultSlot(rows[j].address, row.address);
      }
    }
  }

  /** Appending a non-default address, or a default no row competes with,
      keeps the rule. */
  lemma AppendKeepsOneDefault(rows: seq<StoredAddress>, row: StoredAddress)
    requires AtMostOneDefault(rows)
    requires forall j | 0 <= j < |rows| :: !SameDefaultSlot(rows[j].address, row.address)
    ensures AtMostOneDefault(rows + [row])
  {
    var rows' := rows + [row];
    forall j, k | 0 <= j < k < |rows'|
      ensures !SameDefaultSlot(rows'[j].address, rows'[k].address)
    {
      if k < |rows| {
        assert rows'[j] == rows[j] && rows'[k] == rows[k];
      } else {
        assert rows'[k] == row && rows'[j] == rows[j];
      }
    }
  }

  /** Appending a row under a key no row holds keeps the invariant when
      no stored default competes with it. */
  lemma AppendKeepsTableValid(rows: seq<StoredAddress>, nextPk: int, row: StoredAddress, nextPk': int)
    requires TableValid(rows, nextPk) && nextPk' >= nextPk && nextPk' > row.pk
    requires forall j | 0 <= j < |rows| :: rows[j].pk != row.pk
    requires forall j | 0 <= j < |rows| :: !SameDefaultSlot(rows[j].address, row.address)
    ensures TableValid(rows + [row], nextPk')
  {
    AppendKeepsOneDefault(rows, row);
    var rows' := rows + [row];
    assert forall j | 0 <= j < |rows| :: rows'[j] == rows[j];
  }

  /** Overwriting the row that holds key `p` keeps the invariant when no
      other stored default competes with the new columns. */
  lemma OverwriteKeepsTableValid(rows: seq<StoredAddress>, nextPk: int, i: nat, a: Address, nextPk': int)
    requires TableValid(rows, nextPk) && i < |rows| && nextPk' >= nextPk
    requires a.isDefault ==> forall j | 0 <= j < |rows| :: !Conflicts(rows[j], a, Some(rows[i].pk))
    ensures TableValid(rows[i := StoredAddress(rows[i].pk, a)], nextPk')
  {
    var p := rows[i].pk;
    forall j | 0 <= j < |rows| && j != i
      ensures !SameDefaultSlot(rows[j].address, a)
    {
      assert rows[j].pk != p by {
        if j < i { assert rows[j].pk != rows[i].pk; } else { assert rows[i].pk != rows[j].pk; }
      }
    }
    ReplaceKeepsOneDefault(rows, i, StoredAddress(p, a));
    var rows' := rows[i := StoredAddress(p, a)];
    assert forall j | 0 <= j < |rows'| :: rows'[j].pk == rows[j].pk;
  }

  /** Every save keeps the table invariant: `clean` admits a default only
      when no other row is the default for its user and type. */
  lemma SaveKeepsTableValid(rows: seq<StoredAddress>, nextPk: int, a: Address, pk: Option<int>)
    requires TableValid(rows, nextPk)
    ensures var r := SaveStep(rows, nextPk, a, pk); TableValid(r.rows, r.nextPk)
  {
    var r := SaveStep(rows, nextPk, a, pk);
    if r.errors == [] {
      assert CleanAddress(rows, a, pk).None?;
      assert a.isDefault ==> forall j | 0 <= j < |rows| :: !Conflicts(rows[j], a, pk);
      var (id, rows', nextPk') := Write(rows, nextPk, a, pk);
      match pk {
        case None =>
          AppendKeepsTableValid(rows, nextPk, StoredAddress(nextPk, a), nextPk');
        case Some(p) =>
          match IndexOfPk(rows, p) {
            case Some(i) =>
              OverwriteKeepsTableValid(rows, nextPk, i, a, nextPk');
            case None =>
              AppendKeepsTableValid(rows, nextPk, StoredAddress(p, a), nextPk');
          }
      }
    }
  }

  /** A save request: the address and the key the object holds. */
  datatype SaveRequest = SaveRequest(address: Address, pk: Option<int>)

  /** The table after a series of saves, each validated against the
      table the previous ones left. */
  function SaveAll(rows: seq<StoredAddress>, nextPk: int, requests: seq<SaveRequest>): (r: (seq<StoredAddress>, int))
    ensures |rows| <= |r.0| <= |rows| + |requests|
    ensures r.1 >= nextPk
    decreases |requests|
  {
    if requests == [] then (rows, nextPk)
    else
      var s := SaveStep(rows, nextPk, requests[0].address, requests[0].pk);
      SaveAll(s.rows, s.nextPk, requests[1..])
  }

  /** After any series of saves on an empty table, each user has at most
      one default address per type. */
  lemma {:induction false} SavesKeepOneDefault(rows: seq<StoredAddress>, nextPk: int, requests: seq<SaveRequest>)
    requires TableValid(rows, nextPk)
    ensures TableValid(SaveAll(rows, nextPk, requests).0, SaveAll(rows, nextPk, requests).1)
    ensures rows == [] ==> AtMostOneDefault(SaveAll(rows, nextPk, requests).0)
    decreases |requests|
  {
    if requests != [] {
      var s := SaveStep(rows, nextPk, requests[0].address, requests[0].pk);
      SaveKeepsTableValid(rows, nextPk, requests[0].address, requests[0].pk);
      SavesKeepOneDefault(s.rows, s.nextPk, requests[1..]);
    }
  }

  /** `clean` never refuses an address that is not a default. */
  lemma NonDefaultNeverRefused(rows: seq<StoredAddress>, a: Address, pk: Option<int>)
    requires !a.isDefault
    ensures CleanAddress(rows, a, pk).None?
  {
  }

  /** Re-saving the stored default under its own key passes `clean`. */
  lemma ResaveDefaultAllowed(rows: seq<StoredAddress>, nextPk: int, i: nat, a: Address)
    requires TableValid(rows, nextPk) && i < |rows| && rows[i].address.isDefault
    requires a.isDefault && a.user == rows[i].address.user && a.addressType == rows[i].address.addressType
    ensures CleanAddress(rows, a, Some(rows[i].pk)).None?
  {
    forall j | 0 <= j < |rows|
      ensures !Conflicts(rows[j], a, Some(rows[i].pk))
    {
      if j < i {
        assert !SameDefaultSlot(rows[j].address, rows[i].address);
      } else if j > i {
        assert !SameDefaultSlot(rows[i].address, rows[j].address);
      }
    }
  }

  /** A second unsaved default for the same user and type is refused, and
      the table stays as it was. */
  lemma SecondDefaultRefused(rows: seq<StoredAddress>, nextPk: int, i: nat, a: Address)
    requires i < |rows| && SameDefaultSlot(rows[i].address, a)
    ensures var r := SaveStep(rows, nextPk, a, None);
      r.errors != [] && r.rows == rows && r.nextPk == nextPk
  {
    assert Conflicts(rows[i], a, None);
  }

  /** The `user_addresses` table. */
  class AddressTable {
    var rows: seq<StoredAddress>
    var nextPk: int

    predicate Valid()
      reads this
    {
      TableValid(rows, nextPk)
    }

    constructor ()
      ensures Valid() && rows == [] && nextPk == 1
    {
      rows := [];
      nextPk := 1;
    }

    /** `save`: `full_clean` first; a refused address changes nothing,
        an accepted one is written and the object receives its key. */
    method Save(a: Address, pk: Option<int>) returns (errors: seq<FieldError>, newPk: Option<int>)
      requires Valid()
      modifies this
      ensures Valid()
      ensures var r := SaveStep(old(rows), old(nextPk), a, pk);
        errors == r.errors && newPk == r.pk && rows == r.rows && nextPk == r.nextPk
    {
      SaveKeepsTableValid(rows, nextPk, a, pk);
      errors := FullCleanErrors(rows, a, pk);
      if errors != [] {
        newPk := pk;
        return;
      }
      var (id, rows', nextPk') := Write(rows, nextPk, a, pk);
      rows, nextPk := rows', nextPk';
      newPk := Some(id);
    }
  }
}
