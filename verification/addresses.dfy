/**
 * The address book: AddressServiceImpl over the address table, with the
 * bulk updates of AddressRepository written out as functions on the table.
 * The table is a sequence in insertion order, which is also the order
 * findByUserId returns rows in.
 */
module Addresses {
  import opened Wrappers
  import opened JavaLists
  import opened ResultCodes

  /** The columns BeanUtils.copyProperties carries between entity and DTO. */
  datatype AddressFields = AddressFields(
    receiverName: Option<string>,
    receiverPhone: Option<string>,
    province: Option<string>,
    city: Option<string>,
    district: Option<string>,
    detailedAddress: Option<string>,
    postalCode: Option<string>,
    tag: Option<string>)

  /** An address row; `isDefault` is a NOT NULL column. */
  datatype Address = Address(id: nat, userId: nat, fields: AddressFields, isDefault: bool)

  /** AddressDto: the id and isDefault are nullable boxed values. */
  datatype AddressDto = AddressDto(id: Option<nat>, fields: AddressFields, isDefault: Option<bool>)

  /** The user ids that exist, the address table, and the next identity value. */
  datatype AddressBook = AddressBook(users: set<nat>, addresses: seq<Address>, nextId: nat)

  function ToDto(a: Address): AddressDto {
    AddressDto(Some(a.id), a.fields, Some(a.isDefault))
  }

  // ---------------------------------------------------------------------
  // Invariants of the table

  /** Any two default addresses of the same user are the same row. */
  predicate AtMostOneDefault(addrs: seq<Address>) {
    forall i, j ::
      0 <= i < |addrs| && 0 <= j < |addrs| && addrs[i].isDefault && addrs[j].isDefault && addrs[i].userId == addrs[j].userId
      ==> i == j
  }

  predicate IdsUnique(addrs: seq<Address>) {
    forall i, j :: 0 <= i < |addrs| && 0 <= j < |addrs| && addrs[i].id == addrs[j].id ==> i == j
  }

  /** Ids are unique and below the identity counter, owners exist, and each user has at most one default. */
  predicate Valid(b: AddressBook) {
    IdsUnique(b.addresses)
    && (forall i :: 0 <= i < |b.addresses| ==> b.addresses[i].id < b.nextId && b.addresses[i].userId in b.users)
    && AtMostOneDefault(b.addresses)
  }

  // ---------------------------------------------------------------------
  // AddressRepository

  /** findById: the position of the row with that id. */
  function FindById(addrs: seq<Address>, id: nat): (r: Option<nat>)
    ensures r.Some? ==> r.value < |addrs| && addrs[r.value].id == id
    ensures r.None? <==> forall j :: 0 <= j < |addrs| ==> addrs[j].id != id
  {
    IndexWhere(addrs, (a: Address) => a.id == id)
  }

  /** findByUserId: the user's rows, in table order. */
  function FindByUserId(addrs: seq<Address>, userId: nat): (r: seq<Address>)
    ensures forall a :: a in r <==> a in addrs && a.userId == userId
  {
    if |addrs| == 0 then []
    else (if addrs[0].userId == userId then [addrs[0]] else []) + FindByUserId(addrs[1..], userId)
  }

  /** countByUserId: zero exactly when the user owns no row. */
  function CountByUserId(addrs: seq<Address>, userId: nat): (n: nat)
    ensures n == 0 <==> forall i :: 0 <= i < |addrs| ==> addrs[i].userId != userId
  {
    var rows := FindByUserId(addrs, userId);
    assert rows != [] ==> rows[0] in rows;
    assert forall i :: 0 <= i < |addrs| && addrs[i].userId == userId ==> addrs[i] in rows;
    |rows|
  }

  /** The rows findByUserIdAndIsDefaultTrue selects, in table order. */
  function Defaults(addrs: seq<Address>, userId: nat): (r: seq<Address>)
    ensures forall a :: a in r <==> a in addrs && a.userId == userId && a.isDefault
  {
    if |addrs| == 0 then []
    else (if addrs[0].userId == userId && addrs[0].isDefault then [addrs[0]] else []) + Defaults(addrs[1..], userId)
  }

  /**
   * findByUserIdAndIsDefaultTrue: an Optional, so a second match is an
   * IncorrectResultSizeDataAccessException.
   */
  function FindDefault(addrs: seq<Address>, userId: nat): (r: Result<Option<Address>, Failure>)
    ensures r.Ok? && r.value.None? <==> forall i :: 0 <= i < |addrs| ==> !(addrs[i].userId == userId && addrs[i].isDefault)
    ensures r.Ok? && r.value.Some? ==> r.value.value in addrs && r.value.value.userId == userId && r.value.value.isDefault
    ensures r.Err? ==> r.error == Runtime && |Defaults(addrs, userId)| >= 2
  {
    var ds := Defaults(addrs, userId);
    assert ds != [] ==> ds[0] in ds;
    assert forall i :: 0 <= i < |addrs| && addrs[i].userId == userId && addrs[i].isDefault ==> addrs[i] in ds;
    if |ds| == 0 then Ok(None)
    else if |ds| == 1 then Ok(Some(ds[0]))
    else Err(Runtime)
  }

  /** Under the invariant the single-result finder never fails. */
  lemma {:induction false} AtMostOneDefaultFindsOne(addrs: seq<Address>, userId: nat)
    requires AtMostOneDefault(addrs)
    ensures |Defaults(addrs, userId)| <= 1
    ensures FindDefault(addrs, userId).Ok?
  {
    if |addrs| > 0 {
      var t := addrs[1..];
      assert AtMostOneDefault(t) by {
        forall i, j | 0 <= i < |t| && 0 <= j < |t| && t[i].isDefault && t[j].isDefault && t[i].userId == t[j].userId
          ensures i == j
        {
          assert t[i] == addrs[i + 1] && t[j] == addrs[j + 1];
        }
      }
      AtMostOneDefaultFindsOne(t, userId);
    }
  }

  /** The bulk update clearDefaultAddressForUser. */
  function ClearDefaultForUser(addrs: seq<Address>, userId: nat): (r: seq<Address>)
    ensures |r| == |addrs|
    ensures forall i :: 0 <= i < |r| ==> r[i] == addrs[i].(isDefault := r[i].isDefault)
    ensures forall i :: 0 <= i < |r| && addrs[i].userId == userId ==> !r[i].isDefault
    ensures forall i :: 0 <= i < |r| && addrs[i].userId != userId ==> r[i] == addrs[i]
  {
    seq(|addrs|, i requires 0 <= i < |addrs| =>
      if addrs[i].userId == userId && addrs[i].isDefault then addrs[i].(isDefault := false) else addrs[i])
  }

  /** The bulk update unsetDefaultAddressesExcept. */
  function UnsetDefaultsExcept(addrs: seq<Address>, userId: nat, addressId: nat): (r: seq<Address>)
    ensures |r| == |addrs|
    ensures forall i :: 0 <= i < |r| ==> r[i] == addrs[i].(isDefault := r[i].isDefault)
    ensures forall i :: 0 <= i < |r| && addrs[i].userId == userId && addrs[i].id != addressId ==> !r[i].isDefault
    ensures forall i :: 0 <= i < |r| && (addrs[i].userId != userId || addrs[i].id == addressId) ==> r[i] == addrs[i]
  {
    seq(|addrs|, i requires 0 <= i < |addrs| =>
      if addrs[i].userId == userId && addrs[i].id != addressId then addrs[i].(isDefault := false) else addrs[i])
  }

  /** The bulk update setDefaultAddress: one row turned on, nothing turned off. */
  function SetDefaultRow(addrs: seq<Address>, addressId: nat): (r: seq<Address>)
    ensures |r| == |addrs|
    ensures forall i :: 0 <= i < |r| && addrs[i].id == addressId ==> r[i] == addrs[i].(isDefault := true)
    ensures forall i :: 0 <= i < |r| && addrs[i].id != addressId ==> r[i] == addrs[i]
  {
    seq(|addrs|, i requires 0 <= i < |addrs| =>
      if addrs[i].id == addressId then addrs[i].(isDefault := true) else addrs[i])
  }

  /** The repository's own setDefaultAddress can leave two defaults: it clears nothing. */
  lemma SetDefaultRowAloneBreaksInvariant()
    ensures var a0 := Address(0, 7, AddressFields(None, None, None, None, None, None, None, None), true);
      var addrs := [a0, a0.(id := 1, isDefault := false)];
      AtMostOneDefault(addrs) && !AtMostOneDefault(SetDefaultRow(addrs, 1))
  {
    var a0 := Address(0, 7, AddressFields(None, None, None, None, None, None, None, None), true);
    var addrs := [a0, a0.(id := 1, isDefault := false)];
    var r := SetDefaultRow(addrs, 1);
    assert r[0].isDefault && r[1].isDefault && r[0].userId == r[1].userId;
  }

  /** deleteById: every row with that id is gone, every other row stays in order. */
  function DeleteById(addrs: seq<Address>, id: nat): (r: seq<Address>)
    ensures forall i :: 0 <= i < |r| ==> r[i].id != id
    ensures |r| <= |addrs|
  {
    if |addrs| == 0 then []
    else (if addrs[0].id == id then [] else [addrs[0]]) + DeleteById(addrs[1..], id)
  }

  /** deleteById keeps exactly the rows with another id. */
  lemma {:induction false} DeleteByIdMembers(addrs: seq<Address>, id: nat, a: Address)
    ensures a in DeleteById(addrs, id) <==> a in addrs && a.id != id
  {
    if |addrs| > 0 {
      DeleteByIdMembers(addrs[1..], id, a);
      assert addrs == [addrs[0]] + addrs[1..];
    }
  }

  /** When no other row shares row k's id, deleteById removes exactly row k. */
  lemma DeleteByIdAt(addrs: seq<Address>, k: nat)
    requires k < |addrs|
    requires forall j :: 0 <= j < |addrs| && j != k ==> addrs[j].id != addrs[k].id
    ensures DeleteById(addrs, addrs[k].id) == addrs[..k] + addrs[k + 1..]
  {
    var before, after := addrs[..k], addrs[k + 1..];
    assert addrs == before + [addrs[k]] + after;
    forall j | 0 <= j < |after| ensures after[j].id != addrs[k].id {
      assert after[j] == addrs[k + 1 + j];
    }
    DeleteByIdAround(before, addrs[k], after);
  }

  /** A row whose id no neighbour shares is the only row deleteById removes. */
  lemma DeleteByIdAround(before: seq<Address>, x: Address, after: seq<Address>)
    requires forall j :: 0 <= j < |before| ==> before[j].id != x.id
    requires forall j :: 0 <= j < |after| ==> after[j].id != x.id
    ensures DeleteById(before + [x] + after, x.id) == before + after
  {
    var mid := [x] + after;
    assert before + [x] + after == before + mid;
    DeleteByIdConcat(before, mid, x.id);
    DeleteByIdAbsent(before, x.id);
    assert DeleteById(mid, x.id) == DeleteById(after, x.id) by {
      assert mid[1..] == after;
    }
    DeleteByIdAbsent(after, x.id);
  }

  /** With unique ids no other row shares a row's id. */
  lemma UniqueIdElsewhere(addrs: seq<Address>, k: nat)
    requires k < |addrs| && IdsUnique(addrs)
    ensures forall j :: 0 <= j < |addrs| && j != k ==> addrs[j].id != addrs[k].id
  {
  }

  /** deleteById works row by row: on a concatenation it deletes from each part. */
  lemma {:induction false} DeleteByIdConcat(a: seq<Address>, b: seq<Address>, id: nat)
    ensures DeleteById(a + b, id) == DeleteById(a, id) + DeleteById(b, id)
  {
    if |a| > 0 {
      DeleteByIdConcat(a[1..], b, id);
      assert (a + b)[1..] == a[1..] + b;
    } else {
      assert a + b == b;
    }
  }

  lemma {:induction false} DeleteByIdAbsent(addrs: seq<Address>, id: nat)
    requires forall j :: 0 <= j < |addrs| ==> addrs[j].id != id
    ensures DeleteById(addrs, id) == addrs
  {
    if |addrs| > 0 {
      DeleteByIdAbsent(addrs[1..], id);
    }
  }

  // ---------------------------------------------------------------------
  // AddressServiceImpl

  /** The ownership check shared by the by-id operations: the row's position, or the failure. */
  function OwnedAddress(addrs: seq<Address>, userId: nat, addressId: nat): (r: Result<nat, Failure>)
    ensures r.Ok? ==> r.value < |addrs| && addrs[r.value].id == addressId && addrs[r.value].userId == userId
    ensures r.Err? && r.error == EntityNotFound <==> forall j :: 0 <= j < |addrs| ==> addrs[j].id != addressId
    ensures r.Err? ==> r.error == EntityNotFound || r.error == AccessDenied
  {
    match FindById(addrs, addressId)
    case None => Err(EntityNotFound)
    case Some(k) => if addrs[k].userId != userId then Err(AccessDenied) else Ok(k)
  }

  /**
   * createAddress: the new row is the default when the DTO asks for it or
   * the user had no address, and in that case the user's other rows are
   * cleared first; otherwise no existing row changes.
   */
  function CreateAddress(b: AddressBook, userId: nat, dto: AddressDto): (r: Result<(AddressBook, AddressDto), Failure>)
    ensures r.Err? <==> userId !in b.users
    ensures r.Err? ==> r.error == EntityNotFound
    ensures r.Ok? ==> var (b2, out) := r.value;
      var n := |b.addresses|;
      b2.users == b.users && b2.nextId == b.nextId + 1 && |b2.addresses| == n + 1
      && b2.addresses[n].id == b.nextId && b2.addresses[n].userId == userId && b2.addresses[n].fields == dto.fields
      && (b2.addresses[n].isDefault <==> dto.isDefault == Some(true) || CountByUserId(b.addresses, userId) == 0)
      && out == ToDto(b2.addresses[n])
    ensures r.Ok? ==> var b2 := r.value.0;
      forall i :: 0 <= i < |b.addresses| ==>
        b2.addresses[i] == b.addresses[i].(isDefault := b2.addresses[i].isDefault)
        && (b.addresses[i].userId != userId || !b2.addresses[|b.addresses|].isDefault ==> b2.addresses[i] == b.addresses[i])
        && (b.addresses[i].userId == userId && b2.addresses[|b.addresses|].isDefault ==> !b2.addresses[i].isDefault)
  {
    if userId !in b.users then Err(EntityNotFound)
    else
      var isFirst := CountByUserId(b.addresses, userId) == 0;
      var makeDefault := dto.isDefault == Some(true) || isFirst;
      var rows := if makeDefault then ClearDefaultForUser(b.addresses, userId) else b.addresses;
      var saved := Address(b.nextId, userId, dto.fields, makeDefault);
      Ok((b.(addresses := rows + [saved], nextId := b.nextId + 1), ToDto(saved)))
  }

  /**
   * updateAddress as written: the DTO's isDefault is copied onto the row
   * before the test `dto.isDefault && !address.isDefault`, so the test is
   * always false and the other rows are never cleared. A null isDefault is
   * copied and then unboxed, which throws.
   */
  function UpdateAddress(b: AddressBook, userId: nat, addressId: nat, dto: AddressDto): (r: Result<(AddressBook, AddressDto), Failure>)
    ensures r.Err? ==> r == Err(EntityNotFound) || r == Err(AccessDenied) || r == Err(NullPointer)
    ensures OwnedAddress(b.addresses, userId, addressId).Err? ==> r == Err(OwnedAddress(b.addresses, userId, addressId).error)
    ensures OwnedAddress(b.addresses, userId, addressId).Ok? ==> (r.Err? <==> dto.isDefault.None?)
    ensures r.Ok? ==> var k := OwnedAddress(b.addresses, userId, addressId).value;
      var b2 := r.value.0;
      b2.users == b.users && b2.nextId == b.nextId && |b2.addresses| == |b.addresses|
      && b2.addresses[k] == b.addresses[k].(fields := dto.fields, isDefault := dto.isDefault.value)
      && (forall i :: 0 <= i < |b.addresses| && i != k ==> b2.addresses[i] == b.addresses[i])
      && r.value.1 == ToDto(b2.addresses[k])
  {
    var k :- OwnedAddress(b.addresses, userId, addressId);
    if dto.isDefault.None? then Err(NullPointer)
    else
      var copied := b.addresses[k].(fields := dto.fields, isDefault := dto.isDefault.value);
      var rows := if dto.isDefault.value && !copied.isDefault
        then UnsetDefaultsExcept(b.addresses, userId, addressId) else b.addresses;
      var saved := rows[k := copied];
      Ok((b.(addresses := saved), ToDto(copied)))
  }

  /** The one concrete update that turns a second address into a default. */
  lemma UpdateAddressLeavesTwoDefaults()
    ensures var f := AddressFields(None, None, None, None, None, None, None, None);
      var b := AddressBook({7}, [Address(0, 7, f, true), Address(1, 7, f, false)], 2);
      var r := UpdateAddress(b, 7, 1, AddressDto(None, f, Some(true)));
      Valid(b) && r.Ok? && !AtMostOneDefault(r.value.0.addresses)
      && FindDefault(r.value.0.addresses, 7).Err?
  {
    var f := AddressFields(None, None, None, None, None, None, None, None);
    var b := AddressBook({7}, [Address(0, 7, f, true), Address(1, 7, f, false)], 2);
    assert b.addresses[1].id == 1;
    assert FindById(b.addresses, 1) == Some(1);
    var r := UpdateAddress(b, 7, 1, AddressDto(None, f, Some(true)));
    var rows := r.value.0.addresses;
    assert rows == [Address(0, 7, f, true), Address(1, 7, f, true)];
    assert Defaults(rows, 7) == [rows[0], rows[1]] by {
      assert rows[1..] == [rows[1]];
      assert Defaults(rows[1..], 7) == [rows[1]] by {
        assert rows[1..][1..] == [];
      }
    }
  }

  /**
   * updateAddress as evidently intended: the test reads the row's isDefault
   * before the copy, so making an address the default clears the user's
   * other defaults.
   */
  function UpdateAddressFixed(b: AddressBook, userId: nat, addressId: nat, dto: AddressDto): (r: Result<(AddressBook, AddressDto), Failure>)
    ensures OwnedAddress(b.addresses, userId, addressId).Err? ==> r == Err(OwnedAddress(b.addresses, userId, addressId).error)
    ensures OwnedAddress(b.addresses, userId, addressId).Ok? ==> (r.Err? <==> dto.isDefault.None?)
    ensures r.Err? ==> r == Err(EntityNotFound) || r == Err(AccessDenied) || r == Err(NullPointer)
    ensures r.Ok? ==> var k := OwnedAddress(b.addresses, userId, addressId).value;
      var b2 := r.value.0;
      b2.users == b.users && b2.nextId == b.nextId && |b2.addresses| == |b.addresses|
      && b2.addresses[k] == b.addresses[k].(fields := dto.fields, isDefault := dto.isDefault.value)
      && r.value.1 == ToDto(b2.addresses[k])
  {
    var k :- OwnedAddress(b.addresses, userId, addressId);
    if dto.isDefault.None? then Err(NullPointer)
    else
      var wasDefault := b.addresses[k].isDefault;
      var copied := b.addresses[k].(fields := dto.fields, isDefault := dto.isDefault.value);
      var rows := if dto.isDefault.value && !wasDefault
        then UnsetDefaultsExcept(b.addresses, userId, addressId) else b.addresses;
      Ok((b.(addresses := rows[k := copied]), ToDto(copied)))
  }

  /** The corrected update keeps every invariant of the table. */
  lemma UpdateAddressFixedKeepsValid(b: AddressBook, userId: nat, addressId: nat, dto: AddressDto)
    requires Valid(b)
    ensures var r := UpdateAddressFixed(b, userId, addressId, dto);
      r.Ok? ==> Valid(r.value.0)
  {
    var r := UpdateAddressFixed(b, userId, addressId, dto);
    if r.Ok? {
      var k := OwnedAddress(b.addresses, userId, addressId).value;
      var a := b.addresses;
      var a2 := r.value.0.addresses;
      var wasDefault := a[k].isDefault;
      var rows := if dto.isDefault.value && !wasDefault then UnsetDefaultsExcept(a, userId, addressId) else a;
      assert a2 == rows[k := a[k].(fields := dto.fields, isDefault := dto.isDefault.value)];
      assert forall i :: 0 <= i < |a| && i != k ==> a2[i] == a[i].(isDefault := a2[i].isDefault);
      assert forall i :: 0 <= i < |a| && i != k && a2[i].isDefault ==> a[i].isDefault;
      assert IdsUnique(a2) by {
        assert forall i :: 0 <= i < |a| ==> a2[i].id == a[i].id;
      }
      assert forall i :: 0 <= i < |a| ==> a2[i].userId == a[i].userId;
      forall i, j | 0 <= i < |a2| && 0 <= j < |a2| && a2[i].isDefault && a2[j].isDefault && a2[i].userId == a2[j].userId
        ensures i == j
      {
        if i != k && j != k {
          assert a[i].isDefault && a[j].isDefault;
        } else if dto.isDefault.value && !wasDefault {
          assert a[k].userId == userId;
        }
      }
    }
  }

  /** A row of the user other than the one being deleted: a candidate to inherit the default. */
  predicate Heir(a: Address, userId: nat, addressId: nat) {
    a.userId == userId && a.id != addressId
  }

  /**
   * The promotion step of deleteAddress: the first of the user's other rows
   * becomes the default; nothing else changes.
   */
  function PassDefault(addrs: seq<Address>, userId: nat, addressId: nat): (r: seq<Address>)
    ensures |r| == |addrs|
    ensures forall i :: 0 <= i < |r| ==> r[i] == addrs[i].(isDefault := r[i].isDefault)
    ensures forall i :: 0 <= i < |r| && r[i].isDefault != addrs[i].isDefault ==>
      Heir(addrs[i], userId, addressId) && r[i].isDefault
      && forall j :: 0 <= j < i ==> !Heir(addrs[j], userId, addressId)
    ensures (exists i :: 0 <= i < |addrs| && Heir(addrs[i], userId, addressId)) ==>
      exists i :: 0 <= i < |r| && Heir(r[i], userId, addressId) && r[i].isDefault
  {
    match IndexWhere(addrs, (a: Address) => Heir(a, userId, addressId))
    case None => addrs
    case Some(j) => addrs[j := addrs[j].(isDefault := true)]
  }

  /** deleteAddress: when the default goes, the user's first other address becomes the default. */
  function DeleteAddress(b: AddressBook, userId: nat, addressId: nat): (r: Result<AddressBook, Failure>)
    ensures OwnedAddress(b.addresses, userId, addressId).Err? <==> r.Err?
    ensures r.Err? ==> r.error == OwnedAddress(b.addresses, userId, addressId).error
    ensures r.Ok? ==> r.value.users == b.users && r.value.nextId == b.nextId
    ensures r.Ok? ==> forall a :: a in r.value.addresses ==> a.id != addressId
  {
    var k :- OwnedAddress(b.addresses, userId, addressId);
    var rows := if b.addresses[k].isDefault then PassDefault(b.addresses, userId, addressId) else b.addresses;
    Ok(b.(addresses := DeleteById(rows, addressId)))
  }

  /**
   * With unique ids, deleting an address removes exactly its row, after
   * the promotion step when the row was the default.
   */
  lemma DeleteAddressEffect(b: AddressBook, userId: nat, addressId: nat)
    requires IdsUnique(b.addresses)
    requires OwnedAddress(b.addresses, userId, addressId).Ok?
    ensures var k := OwnedAddress(b.addresses, userId, addressId).value;
      var rows := if b.addresses[k].isDefault then PassDefault(b.addresses, userId, addressId) else b.addresses;
      DeleteAddress(b, userId, addressId) == Ok(b.(addresses := rows[..k] + rows[k + 1..]))
  {
    var k := OwnedAddress(b.addresses, userId, addressId).value;
    var rows := if b.addresses[k].isDefault then PassDefault(b.addresses, userId, addressId) else b.addresses;
    assert IdsUnique(rows) by {
      assert forall i :: 0 <= i < |rows| ==> rows[i].id == b.addresses[i].id;
    }
    UniqueIdElsewhere(rows, k);
    DeleteByIdAt(rows, k);
  }

  /** Dropping one row keeps ids unique and keeps defaults unique when they were unique among the other rows. */
  lemma DropRowKeeps(rows: seq<Address>, k: nat, out: seq<Address>)
    requires k < |rows| && IdsUnique(rows) && out == rows[..k] + rows[k + 1..]
    requires forall i, j ::
      (0 <= i < |rows| && 0 <= j < |rows| && i != k && j != k
       && rows[i].isDefault && rows[j].isDefault && rows[i].userId == rows[j].userId) ==> i == j
    ensures IdsUnique(out) && AtMostOneDefault(out)
    ensures forall i :: 0 <= i < |out| ==> out[i] == rows[if i < k then i else i + 1]
  {
    assert forall i :: 0 <= i < |out| ==> out[i] == rows[if i < k then i else i + 1];
  }

  /** After the promotion step, defaults are unique among the rows other than the deleted default. */
  lemma PassDefaultKeepsOneDefault(a: seq<Address>, k: nat)
    requires AtMostOneDefault(a) && k < |a| && a[k].isDefault
    ensures var rows := PassDefault(a, a[k].userId, a[k].id);
      forall i, j ::
        (0 <= i < |rows| && 0 <= j < |rows| && i != k && j != k
         && rows[i].isDefault && rows[j].isDefault && rows[i].userId == rows[j].userId) ==> i == j
  {
    var u := a[k].userId;
    var rows := PassDefault(a, u, a[k].id);
    forall i, j | 0 <= i < |rows| && 0 <= j < |rows| && i != k && j != k
      && rows[i].isDefault && rows[j].isDefault && rows[i].userId == rows[j].userId
      ensures i == j
    {
      var pi := rows[i].isDefault != a[i].isDefault;
      var pj := rows[j].isDefault != a[j].isDefault;
      if !pi && !pj {
        assert a[i].isDefault && a[j].isDefault;
      } else if pi && pj {
        assert Heir(a[i], u, a[k].id) && Heir(a[j], u, a[k].id);
      }
    }
  }

  /** Dropping one row from a valid table whose defaults differ only in their isDefault flags. */
  lemma DropRowValid(b: AddressBook, rows: seq<Address>, k: nat)
    requires Valid(b) && k < |rows| == |b.addresses|
    requires forall i :: 0 <= i < |rows| ==> rows[i] == b.addresses[i].(isDefault := rows[i].isDefault)
    requires forall i, j ::
      (0 <= i < |rows| && 0 <= j < |rows| && i != k && j != k
       && rows[i].isDefault && rows[j].isDefault && rows[i].userId == rows[j].userId) ==> i == j
    ensures Valid(b.(addresses := rows[..k] + rows[k + 1..]))
  {
    var a := b.addresses;
    assert IdsUnique(rows) by {
      assert forall i :: 0 <= i < |rows| ==> rows[i].id == a[i].id;
    }
    var out := rows[..k] + rows[k + 1..];
    DropRowKeeps(rows, k, out);
    forall i | 0 <= i < |out| ensures out[i].id < b.nextId && out[i].userId in b.users {
      var ii := if i < k then i else i + 1;
      assert out[i] == rows[ii];
      assert rows[ii].id == a[ii].id && rows[ii].userId == a[ii].userId;
    }
  }

  /** Deleting keeps the table valid. */
  lemma DeleteAddressKeepsValid(b: AddressBook, userId: nat, addressId: nat)
    requires Valid(b)
    ensures var r := DeleteAddress(b, userId, addressId);
      r.Ok? ==> Valid(r.value)
  {
    if OwnedAddress(b.addresses, userId, addressId).Ok? {
      var k := OwnedAddress(b.addresses, userId, addressId).value;
      var a := b.addresses;
      DeleteAddressEffect(b, userId, addressId);
      if a[k].isDefault {
        DeleteDefaultRowValid(b, k);
        assert DeleteAddress(b, userId, addressId)
          == Ok(b.(addresses := PassDefault(a, userId, addressId)[..k] + PassDefault(a, userId, addressId)[k + 1..]));
      } else {
        DropRowValid(b, a, k);
        assert DeleteAddress(b, userId, addressId) == Ok(b.(addresses := a[..k] + a[k + 1..]));
      }
    }
  }

  /** Deleting a default row after the promotion step keeps the table valid. */
  lemma DeleteDefaultRowValid(b: AddressBook, k: nat)
    requires Valid(b) && k < |b.addresses| && b.addresses[k].isDefault
    ensures var rows := PassDefault(b.addresses, b.addresses[k].userId, b.addresses[k].id);
      Valid(b.(addresses := rows[..k] + rows[k + 1..]))
  {
    var a := b.addresses;
    PassDefaultKeepsOneDefault(a, k);
    DropRowValid(b, PassDefault(a, a[k].userId, a[k].id), k);
  }

  /** Deleting the default address of a user who has others leaves them with a default. */
  lemma DeleteDefaultPassesItOn(b: AddressBook, userId: nat, addressId: nat)
    requires Valid(b)
    requires OwnedAddress(b.addresses, userId, addressId).Ok?
    requires b.addresses[OwnedAddress(b.addresses, userId, addressId).value].isDefault
    requires exists i :: 0 <= i < |b.addresses| && Heir(b.addresses[i], userId, addressId)
    ensures var r := DeleteAddress(b, userId, addressId);
      r.Ok? && exists a :: a in r.value.addresses && a.userId == userId && a.isDefault
  {
    DeleteAddressEffect(b, userId, addressId);
    var k := OwnedAddress(b.addresses, userId, addressId).value;
    var rows := PassDefault(b.addresses, userId, addressId);
    var p := HeirPromoted(b.addresses, userId, addressId);
    assert b.addresses[k].id == addressId;
    DropOtherRowKept(rows, k, p);
  }

  /** The index of the row the promotion step made the default. */
  lemma HeirPromoted(addrs: seq<Address>, userId: nat, addressId: nat) returns (p: nat)
    requires exists i :: 0 <= i < |addrs| && Heir(addrs[i], userId, addressId)
    ensures var rows := PassDefault(addrs, userId, addressId);
      p < |rows| && Heir(rows[p], userId, addressId) && rows[p].isDefault
  {
    var rows := PassDefault(addrs, userId, addressId);
    p :| 0 <= p < |rows| && Heir(rows[p], userId, addressId) && rows[p].isDefault;
  }

  /** Dropping row k keeps every other row. */
  lemma DropOtherRowKept(rows: seq<Address>, k: nat, p: nat)
    requires k < |rows| && p < |rows| && p != k
    ensures rows[p] in rows[..k] + rows[k + 1..]
  {
    var out := rows[..k] + rows[k + 1..];
    assert out[if p < k then p else p - 1] == rows[p];
  }

  /** getAddressById: the owner's own address, as a DTO. */
  function GetAddressById(b: AddressBook, userId: nat, addressId: nat): (r: Result<AddressDto, Failure>)
    ensures r.Err? <==> OwnedAddress(b.addresses, userId, addressId).Err?
    ensures r.Ok? ==> exists a :: a in b.addresses && a.id == addressId && a.userId == userId && r.value == ToDto(a)
  {
    var k :- OwnedAddress(b.addresses, userId, addressId);
    Ok(ToDto(b.addresses[k]))
  }

  /** getUserAddresses: the user must exist; the rows come back in table order. */
  function GetUserAddresses(b: AddressBook, userId: nat): (r: Result<seq<AddressDto>, Failure>)
    ensures r.Err? <==> userId !in b.users
    ensures r.Ok? ==> |r.value| == |FindByUserId(b.addresses, userId)|
    ensures r.Ok? ==> forall a :: a in b.addresses && a.userId == userId ==> ToDto(a) in r.value
  {
    if userId !in b.users then Err(EntityNotFound)
    else
      var rows := FindByUserId(b.addresses, userId);
      var out := seq(|rows|, i requires 0 <= i < |rows| => ToDto(rows[i]));
      assert forall a :: a in rows ==> ToDto(a) in out by {
        forall a | a in rows ensures ToDto(a) in out {
          var i :| 0 <= i < |rows| && rows[i] == a;
          assert out[i] == ToDto(a);
        }
      }
      Ok(out)
  }

  /** getUserDefaultAddress: null when the user has no default; an unknown user is not an error. */
  function GetUserDefaultAddress(b: AddressBook, userId: nat): (r: Result<Option<AddressDto>, Failure>)
    ensures r.Ok? && r.value.None? <==> forall i :: 0 <= i < |b.addresses| ==> !(b.addresses[i].userId == userId && b.addresses[i].isDefault)
    ensures r.Ok? && r.value.Some? ==> exists a :: a in b.addresses && a.userId == userId && a.isDefault && r.value.value == ToDto(a)
    ensures r.Err? ==> |Defaults(b.addresses, userId)| >= 2
  {
    var d :- FindDefault(b.addresses, userId);
    match d
    case None => Ok(None)
    case Some(a) => Ok(Some(ToDto(a)))
  }

  /** setDefaultAddress: the target becomes the user's only default; other users' rows are untouched. */
  function SetDefaultAddress(b: AddressBook, userId: nat, addressId: nat): (r: Result<AddressBook, Failure>)
    ensures r.Err? <==> OwnedAddress(b.addresses, userId, addressId).Err?
    ensures r.Err? ==> r.error == OwnedAddress(b.addresses, userId, addressId).error
    ensures r.Ok? ==> var k := OwnedAddress(b.addresses, userId, addressId).value;
      var a2 := r.value.addresses;
      r.value.users == b.users && r.value.nextId == b.nextId && |a2| == |b.addresses|
      && a2[k] == b.addresses[k].(isDefault := true)
      && (forall i :: 0 <= i < |a2| ==> a2[i] == b.addresses[i].(isDefault := a2[i].isDefault))
      && (forall i :: 0 <= i < |a2| && b.addresses[i].userId != userId ==> a2[i] == b.addresses[i])
      && (forall i :: 0 <= i < |a2| && a2[i].isDefault && a2[i].userId == userId ==> a2[i].id == addressId)
  {
    var k :- OwnedAddress(b.addresses, userId, addressId);
    var rows := UnsetDefaultsExcept(b.addresses, userId, addressId);
    Ok(b.(addresses := rows[k := b.addresses[k].(isDefault := true)]))
  }

  /** After setDefaultAddress the single-default finder returns exactly the chosen address. */
  lemma SetDefaultThenGetDefault(b: AddressBook, userId: nat, addressId: nat)
    requires Valid(b)
    ensures var r := SetDefaultAddress(b, userId, addressId);
      r.Ok? ==> (Valid(r.value)
        && GetUserDefaultAddress(r.value, userId) == Ok(Some(ToDto(b.addresses[OwnedAddress(b.addresses, userId, addressId).value].(isDefault := true)))))
  {
    var r := SetDefaultAddress(b, userId, addressId);
    if r.Ok? {
      var k := OwnedAddress(b.addresses, userId, addressId).value;
      var a2 := r.value.addresses;
      assert forall i :: 0 <= i < |a2| ==> a2[i].id == b.addresses[i].id && a2[i].userId == b.addresses[i].userId;
      assert IdsUnique(a2);
      forall i, j | 0 <= i < |a2| && 0 <= j < |a2| && a2[i].isDefault && a2[j].isDefault && a2[i].userId == a2[j].userId
        ensures i == j
      {
        if a2[i].userId != userId {
          assert b.addresses[i].isDefault && b.addresses[j].isDefault;
        } else {
          assert a2[i].id == addressId == a2[j].id;
        }
      }
      assert Valid(r.value);
      AtMostOneDefaultFindsOne(a2, userId);
      var g := GetUserDefaultAddress(r.value, userId);
      assert g.Ok? && g.value.Some?;
      var a :| a in a2 && a.userId == userId && a.isDefault && g.value.value == ToDto(a);
      var i :| 0 <= i < |a2| && a2[i] == a;
      assert a2[i].id == addressId;
      assert i == k;
    }
  }

  /** createAddress keeps the table valid; a new default is the one the finder returns. */
  lemma CreateAddressKeepsValid(b: AddressBook, userId: nat, dto: AddressDto)
    requires Valid(b)
    ensures var r := CreateAddress(b, userId, dto);
      r.Ok? ==> (Valid(r.value.0)
        && (r.value.1.isDefault == Some(true) ==> GetUserDefaultAddress(r.value.0, userId) == Ok(Some(r.value.1))))
  {
    var r := CreateAddress(b, userId, dto);
    if r.Ok? {
      var a := b.addresses;
      var a2 := r.value.0.addresses;
      var n := |a|;
      var isDef := a2[n].isDefault;
      forall i, j | 0 <= i < |a2| && 0 <= j < |a2| && a2[i].id == a2[j].id ensures i == j {
        if i < n && j < n {
          assert a[i].id == a2[i].id && a[j].id == a2[j].id;
        }
      }
      forall i, j | 0 <= i < |a2| && 0 <= j < |a2| && a2[i].isDefault && a2[j].isDefault && a2[i].userId == a2[j].userId
        ensures i == j
      {
        if i < n && j < n {
          assert a[i].isDefault && a[j].isDefault;
        }
      }
      assert Valid(r.value.0);
      if isDef {
        AtMostOneDefaultFindsOne(a2, userId);
        var g := GetUserDefaultAddress(r.value.0, userId);
        var x :| x in a2 && x.userId == userId && x.isDefault && g.value.value == ToDto(x);
        var i :| 0 <= i < |a2| && a2[i] == x;
        assert i == n;
      }
    }
  }

  /** A user's first address becomes their default whatever the DTO says. */
  lemma FirstAddressIsDefault(b: AddressBook, userId: nat, dto: AddressDto)
    requires userId in b.users
    requires forall i :: 0 <= i < |b.addresses| ==> b.addresses[i].userId != userId
    ensures CreateAddress(b, userId, dto).Ok? && CreateAddress(b, userId, dto).value.1.isDefault == Some(true)
  {
  }
}
