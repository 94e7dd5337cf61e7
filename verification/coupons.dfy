/**
 * Coupons: CouponServiceImpl, the availability predicates of the four
 * CouponRepository queries, and User.addCoupon/removeCoupon. The
 * user_coupons join table is a set of (user id, coupon id) pairs; times are
 * instants on one integer clock.
 */
module Coupons {
  import opened Wrappers
  import opened ResultCodes

  datatype CouponType = Percentage | FixedAmount | FreeShipping

  /** The columns createCoupon and updateCoupon copy from the DTO; money in cents. */
  datatype CouponTerms = CouponTerms(
    name: string,
    code: string,
    description: Option<string>,
    kind: CouponType,
    discountValue: int,
    minPurchaseAmount: int,
    maxDiscountAmount: Option<int>,
    startTime: int,
    endTime: int,
    totalCount: int)

  datatype Coupon = Coupon(id: nat, terms: CouponTerms, usedCount: int, isActive: bool)

  /** CouponDto: usedCount and isActive are nullable and normally left out by clients. */
  datatype CouponDto = CouponDto(id: Option<nat>, terms: CouponTerms, usedCount: Option<int>, isActive: Option<bool>)

  /** Existing user ids, the coupon table by id, the join table, and the next identity value. */
  datatype CouponState = CouponState(users: set<nat>, coupons: map<nat, Coupon>, held: set<(nat, nat)>, nextId: nat)

  function ToDto(c: Coupon): CouponDto {
    CouponDto(Some(c.id), c.terms, Some(c.usedCount), Some(c.isActive))
  }

  /** Rows are stored under their ids, codes are unique, and join rows reference existing rows. */
  predicate Valid(st: CouponState) {
    (forall id :: id in st.coupons ==> st.coupons[id].id == id && id < st.nextId)
    && (forall a, b :: a in st.coupons && b in st.coupons && st.coupons[a].terms.code == st.coupons[b].terms.code ==> a == b)
    && (forall p :: p in st.held ==> p.0 in st.users && p.1 in st.coupons)
  }

  // ---------------------------------------------------------------------
  // CouponRepository predicates

  /** The validity window, inclusive at both ends. */
  predicate InWindow(c: Coupon, now: int) {
    c.terms.startTime <= now <= c.terms.endTime
  }

  /** findAvailableCoupons: active, in window, and not all claimed. */
  predicate Available(c: Coupon, now: int) {
    c.isActive && InWindow(c, now) && c.usedCount < c.terms.totalCount
  }

  /** findAvailableCouponsByAmount: available and the order reaches the minimum purchase. */
  predicate AvailableForAmount(c: Coupon, now: int, amount: int) {
    Available(c, now) && c.terms.minPurchaseAmount <= amount
  }

  /** findUserCoupons: held by the user, active and in window; usedCount is not consulted. */
  predicate UsableBy(st: CouponState, userId: nat, c: Coupon, now: int) {
    (userId, c.id) in st.held && c.isActive && InWindow(c, now)
  }

  /** findUserCouponsByAmount: usable by the user and the order reaches the minimum purchase. */
  predicate UsableForAmount(st: CouponState, userId: nat, c: Coupon, now: int, amount: int) {
    UsableBy(st, userId, c, now) && c.terms.minPurchaseAmount <= amount
  }

  /** The amount filter only narrows: every coupon for an amount is available at all. */
  lemma AmountQueriesNarrow(st: CouponState, userId: nat, c: Coupon, now: int, amount: int)
    ensures AvailableForAmount(c, now, amount) ==> Available(c, now)
    ensures UsableForAmount(st, userId, c, now, amount) ==> UsableBy(st, userId, c, now)
    ensures Available(c, now) && c.terms.minPurchaseAmount <= amount ==> AvailableForAmount(c, now, amount)
  {
  }

  // ---------------------------------------------------------------------
  // User.addCoupon / removeCoupon on the in-memory entities

  /**
   * User.addCoupon: the coupon joins the user's set, and the user joins the
   * coupon's inverse set when that set is not null.
   */
  function AddCoupon(mine: set<Coupon>, couponUsers: Option<set<nat>>, me: nat, c: Coupon): (r: (set<Coupon>, Option<set<nat>>))
    ensures c in r.0 && r.0 - {c} == mine - {c}
    ensures r.1.None? <==> couponUsers.None?
    ensures r.1.Some? ==> me in r.1.value && r.1.value - {me} == couponUsers.value - {me}
  {
    (mine + {c}, if couponUsers.Some? then Some(couponUsers.value + {me}) else None)
  }

  /** User.removeCoupon: both sides drop the link; a null inverse set is left alone. */
  function RemoveCoupon(mine: set<Coupon>, couponUsers: Option<set<nat>>, me: nat, c: Coupon): (r: (set<Coupon>, Option<set<nat>>))
    ensures c !in r.0 && r.0 + {c} == mine + {c}
    ensures r.1.None? <==> couponUsers.None?
    ensures r.1.Some? ==> me !in r.1.value && r.1.value + {me} == couponUsers.value + {me}
  {
    (mine - {c}, if couponUsers.Some? then Some(couponUsers.value - {me}) else None)
  }

  /** Adding a coupon twice is the same as adding it once; removing a fresh one undoes the add. */
  lemma AddRemoveCouponLaws(mine: set<Coupon>, couponUsers: Option<set<nat>>, me: nat, c: Coupon)
    ensures var (m1, u1) := AddCoupon(mine, couponUsers, me, c);
      AddCoupon(m1, u1, me, c) == (m1, u1)
    ensures c !in mine && (couponUsers.Some? ==> me !in couponUsers.value) ==>
      var (m1, u1) := AddCoupon(mine, couponUsers, me, c);
      RemoveCoupon(m1, u1, me, c) == (mine, couponUsers)
  {
    var (m1, u1) := AddCoupon(mine, couponUsers, me, c);
    if c !in mine && (couponUsers.Some? ==> me !in couponUsers.value) {
      assert m1 - {c} == mine;
      if couponUsers.Some? {
        assert u1.value - {me} == couponUsers.value;
      }
    }
  }

  // ---------------------------------------------------------------------
  // CouponServiceImpl

  /** The code column is unique; another row with this code makes the insert or update fail. */
  predicate CodeTaken(st: CouponState, code: string, except: Option<nat>) {
    exists id :: id in st.coupons && st.coupons[id].terms.code == code && Some(id) != except
  }

  /**
   * The row save() writes. BeanUtils.copyProperties copies the DTO's id as
   * well, and an id naming a stored row turns the save into a merge onto
   * that row; a null or unknown id is inserted under the next identity value.
   */
  function SaveTarget(st: CouponState, dto: CouponDto): (id: nat)
    ensures id != st.nextId ==> dto.id == Some(id) && id in st.coupons
    ensures dto.id.Some? && dto.id.value in st.coupons ==> id == dto.id.value
  {
    if dto.id.Some? && dto.id.value in st.coupons then dto.id.value else st.nextId
  }

  /**
   * createCoupon: the written row starts unused and active, whatever the DTO
   * says. Merged onto a stored coupon it keeps that coupon's holders but
   * resets its used count; a code another row holds violates the unique index.
   */
  function CreateCoupon(st: CouponState, dto: CouponDto): (r: Result<(CouponState, CouponDto), Failure>)
    ensures var id := SaveTarget(st, dto);
      r.Err? <==> CodeTaken(st, dto.terms.code, if id in st.coupons then Some(id) else None)
    ensures r.Err? ==> r.error == ConstraintViolation
    ensures r.Ok? ==> var (st2, out) := r.value; var id := SaveTarget(st, dto);
      id in st2.coupons
      && st2.coupons == st.coupons[id := Coupon(id, dto.terms, 0, true)]
      && st2.held == st.held && st2.users == st.users
      && st2.nextId == (if id in st.coupons then st.nextId else st.nextId + 1)
      && out == ToDto(st2.coupons[id])
    ensures r.Ok? && (dto.id.None? || dto.id.value !in st.coupons) ==>
      r.value.0.coupons.Keys == st.coupons.Keys + {st.nextId}
  {
    var id := SaveTarget(st, dto);
    if CodeTaken(st, dto.terms.code, if id in st.coupons then Some(id) else None) then Err(ConstraintViolation)
    else
      var c := Coupon(id, dto.terms, 0, true);
      Ok((st.(coupons := st.coupons[id := c], nextId := if id in st.coupons then st.nextId else st.nextId + 1), ToDto(c)))
  }

  /**
   * A create request carrying a used coupon's id and code rewrites that
   * coupon: its used count drops back to 0 while its holders keep it.
   */
  lemma CreateWithStoredIdResetsUsage(st: CouponState, dto: CouponDto)
    requires Valid(st) && dto.id.Some? && dto.id.value in st.coupons
    requires dto.terms.code == st.coupons[dto.id.value].terms.code
    requires st.coupons[dto.id.value].usedCount > 0
    ensures CreateCoupon(st, dto).Ok?
    ensures var st2 := CreateCoupon(st, dto).value.0;
      st2.coupons.Keys == st.coupons.Keys && st2.held == st.held
      && st2.coupons[dto.id.value].usedCount == 0
  {
  }

  /**
   * updateCoupon: everything the DTO carries is copied except id and
   * usedCount, and the holders are kept. A null isActive reaches the NOT
   * NULL column and the save fails.
   */
  function UpdateCoupon(st: CouponState, id: nat, dto: CouponDto): (r: Result<(CouponState, CouponDto), Failure>)
    ensures id !in st.coupons ==> r == Err(EntityNotFound)
    ensures id in st.coupons ==> (r.Err? <==> dto.isActive.None? || CodeTaken(st, dto.terms.code, Some(id)))
    ensures r.Ok? ==> var (st2, out) := r.value;
      id in st2.coupons && st2.coupons.Keys == st.coupons.Keys
      && st2.coupons[id].id == st.coupons[id].id && st2.coupons[id].usedCount == st.coupons[id].usedCount
      && st2.coupons[id].terms == dto.terms && st2.coupons[id].isActive == dto.isActive.value
      && (forall other :: other in st.coupons && other != id ==> st2.coupons[other] == st.coupons[other])
      && st2.held == st.held && st2.users == st.users && st2.nextId == st.nextId
      && out == ToDto(st2.coupons[id])
  {
    if id !in st.coupons then Err(EntityNotFound)
    else if dto.isActive.None? || CodeTaken(st, dto.terms.code, Some(id)) then Err(ConstraintViolation)
    else
      var c := st.coupons[id].(terms := dto.terms, isActive := dto.isActive.value);
      Ok((st.(coupons := st.coupons[id := c]), ToDto(c)))
  }

  /**
   * deleteCoupon: an unknown id fails. Coupon is the inverse side of the
   * join table, so a coupon some user still holds violates the join
   * table's foreign key.
   */
  function DeleteCoupon(st: CouponState, id: nat): (r: Result<CouponState, Failure>)
    ensures id !in st.coupons ==> r == Err(EntityNotFound)
    ensures id in st.coupons ==> (r.Err? <==> exists p :: p in st.held && p.1 == id)
    ensures r.Ok? ==> r.value.coupons == st.coupons - {id} && r.value.held == st.held && r.value.users == st.users
  {
    if id !in st.coupons then Err(EntityNotFound)
    else if exists p :: p in st.held && p.1 == id then Err(ConstraintViolation)
    else Ok(st.(coupons := st.coupons - {id}))
  }

  /** createCoupon keeps codes unique and join rows pointing at stored rows. */
  lemma CreateKeepsValid(st: CouponState, dto: CouponDto)
    requires Valid(st)
    ensures CreateCoupon(st, dto).Ok? ==> Valid(CreateCoupon(st, dto).value.0)
  {
    if CreateCoupon(st, dto).Ok? {
      var target := SaveTarget(st, dto);
      var st2 := CreateCoupon(st, dto).value.0;
      forall a, b | a in st2.coupons && b in st2.coupons && st2.coupons[a].terms.code == st2.coupons[b].terms.code
        ensures a == b
      {
        if a != target && b != target {
          assert st2.coupons[a] == st.coupons[a];
        }
      }
    }
  }

  /** updateCoupon keeps codes unique and join rows pointing at stored rows. */
  lemma UpdateKeepsValid(st: CouponState, id: nat, dto: CouponDto)
    requires Valid(st)
    ensures UpdateCoupon(st, id, dto).Ok? ==> Valid(UpdateCoupon(st, id, dto).value.0)
  {
    if UpdateCoupon(st, id, dto).Ok? {
      var st2 := UpdateCoupon(st, id, dto).value.0;
      forall a, b | a in st2.coupons && b in st2.coupons && st2.coupons[a].terms.code == st2.coupons[b].terms.code
        ensures a == b
      {
        if a != id && b != id {
          assert st2.coupons[a] == st.coupons[a];
        }
      }
    }
  }

  /** createCoupon, updateCoupon and deleteCoupon keep codes unique and join rows pointing at stored rows. */
  lemma WritesKeepValid(st: CouponState, dto: CouponDto, id: nat)
    requires Valid(st)
    ensures CreateCoupon(st, dto).Ok? ==> Valid(CreateCoupon(st, dto).value.0)
    ensures UpdateCoupon(st, id, dto).Ok? ==> Valid(UpdateCoupon(st, id, dto).value.0)
    ensures DeleteCoupon(st, id).Ok? ==> Valid(DeleteCoupon(st, id).value)
  {
    CreateKeepsValid(st, dto);
    UpdateKeepsValid(st, id, dto);
  }

  function GetCouponById(st: CouponState, id: nat): (r: Result<CouponDto, Failure>)
    ensures r.Err? <==> id !in st.coupons
    ensures r.Ok? ==> r.value == ToDto(st.coupons[id])
    ensures r.Ok? && Valid(st) ==> r.value.id == Some(id)
  {
    if id !in st.coupons then Err(EntityNotFound) else Ok(ToDto(st.coupons[id]))
  }

  /** The amount filter of the ...ByAmount queries; None is the unfiltered query. */
  predicate ReachesMinimum(c: Coupon, amount: Option<int>) {
    amount.None? || c.terms.minPurchaseAmount <= amount.value
  }

  /** getAvailableCoupons and getAvailableCouponsByAmount (None for the unfiltered query). */
  function GetAvailableCoupons(st: CouponState, now: int, amount: Option<int>): (r: set<CouponDto>)
    ensures forall id ::
      (id in st.coupons && Available(st.coupons[id], now) && ReachesMinimum(st.coupons[id], amount))
      ==> ToDto(st.coupons[id]) in r
    ensures forall d :: d in r ==>
      exists id :: id in st.coupons && d == ToDto(st.coupons[id])
                   && Available(st.coupons[id], now) && ReachesMinimum(st.coupons[id], amount)
    ensures amount.Some? ==> forall d :: d in r ==>
      exists id :: id in st.coupons && d == ToDto(st.coupons[id])
                   && AvailableForAmount(st.coupons[id], now, amount.value)
  {
    set id | id in st.coupons && Available(st.coupons[id], now) && ReachesMinimum(st.coupons[id], amount)
      :: ToDto(st.coupons[id])
  }

  /** getUserCoupons and getUserAvailableCouponsByAmount: the user must exist. */
  function GetUserCoupons(st: CouponState, userId: nat, now: int, amount: Option<int>): (r: Result<set<CouponDto>, Failure>)
    ensures r.Err? <==> userId !in st.users
    ensures r.Err? ==> r.error == EntityNotFound
    ensures r.Ok? ==> forall id ::
      (id in st.coupons && UsableBy(st, userId, st.coupons[id], now) && ReachesMinimum(st.coupons[id], amount))
      ==> ToDto(st.coupons[id]) in r.value
    ensures r.Ok? ==> forall d :: d in r.value ==>
      exists id :: id in st.coupons && d == ToDto(st.coupons[id])
                   && UsableBy(st, userId, st.coupons[id], now) && ReachesMinimum(st.coupons[id], amount)
    ensures r.Ok? && amount.Some? ==> forall d :: d in r.value ==>
      exists id :: id in st.coupons && d == ToDto(st.coupons[id])
                   && UsableForAmount(st, userId, st.coupons[id], now, amount.value)
  {
    if userId !in st.users then Err(EntityNotFound)
    else Ok(set id | id in st.coupons && UsableBy(st, userId, st.coupons[id], now) && ReachesMinimum(st.coupons[id], amount)
      :: ToDto(st.coupons[id]))
  }

  /**
   * assignCouponToUser: the coupon must be active, in its window and not
   * used up. Success adds the pair to the join table and leaves usedCount alone.
   */
  function AssignCouponToUser(st: CouponState, couponId: nat, userId: nat, now: int): (r: Result<CouponState, Failure>)
    ensures couponId !in st.coupons || userId !in st.users ==> r == Err(EntityNotFound)
    ensures r.Ok? ==> r.value == st.(held := st.held + {(userId, couponId)})
  {
    if couponId !in st.coupons || userId !in st.users then Err(EntityNotFound)
    else
      var c := st.coupons[couponId];
      if !c.isActive || now < c.terms.startTime || now > c.terms.endTime then Err(IllegalState)
      else if c.usedCount >= c.terms.totalCount then Err(IllegalState)
      else Ok(st.(held := st.held + {(userId, couponId)}))
  }

  /** Assignment succeeds exactly for coupons the available-coupons query lists, and is idempotent. */
  lemma AssignSucceedsIffAvailable(st: CouponState, couponId: nat, userId: nat, now: int)
    requires couponId in st.coupons && userId in st.users
    ensures AssignCouponToUser(st, couponId, userId, now).Ok? <==> Available(st.coupons[couponId], now)
    ensures AssignCouponToUser(st, couponId, userId, now).Err? ==> AssignCouponToUser(st, couponId, userId, now).error == IllegalState
    ensures var r := AssignCouponToUser(st, couponId, userId, now);
      r.Ok? ==> AssignCouponToUser(r.value, couponId, userId, now) == r
  {
  }

  /** The coupon rows the user's loaded set holds, as snapshots of their column values. */
  function Loaded(st: CouponState, userId: nat): set<Coupon> {
    set id | id in st.coupons && (userId, id) in st.held :: st.coupons[id]
  }

  /** The join rows written back for the user from the set they end the transaction with. */
  function WriteBack(held: set<(nat, nat)>, userId: nat, mine: set<Coupon>): set<(nat, nat)> {
    (set p | p in held && p.0 != userId) + (set c | c in mine :: (userId, c.id))
  }

  /** The checks useCoupon makes before changing anything. */
  function UseCouponCheck(st: CouponState, couponId: nat, userId: nat, now: int): (r: Result<Coupon, Failure>)
    ensures r.Ok? <==> (couponId in st.coupons && userId in st.users
      && (exists c :: c in Loaded(st, userId) && c.id == couponId)
      && st.coupons[couponId].isActive && InWindow(st.coupons[couponId], now))
    ensures r.Ok? ==> r.value == st.coupons[couponId]
    ensures couponId !in st.coupons || userId !in st.users ==> r == Err(EntityNotFound)
    ensures couponId in st.coupons && userId in st.users ==> (r.Err? ==> r.error == IllegalState)
  {
    if couponId !in st.coupons || userId !in st.users then Err(EntityNotFound)
    else if !(exists c :: c in Loaded(st, userId) && c.id == couponId) then Err(IllegalState)
    else
      var c := st.coupons[couponId];
      if !c.isActive || now < c.terms.startTime || now > c.terms.endTime then Err(IllegalState)
      else Ok(c)
  }

  /**
   * useCoupon as written. usedCount is incremented before removeCoupon, and
   * Coupon's Lombok hashCode covers usedCount, so the loaded HashSet no
   * longer finds the coupon it holds: nothing is removed and the join row
   * survives.
   */
  function UseCouponAsWritten(st: CouponState, couponId: nat, userId: nat, now: int): (r: Result<CouponState, Failure>)
    ensures r.Err? <==> UseCouponCheck(st, couponId, userId, now).Err?
    ensures r.Ok? ==> (couponId in r.value.coupons
      && r.value.coupons == st.coupons[couponId := st.coupons[couponId].(usedCount := st.coupons[couponId].usedCount + 1)])
  {
    var c :- UseCouponCheck(st, couponId, userId, now);
    var bumped := c.(usedCount := c.usedCount + 1);
    var mine := Loaded(st, userId) - {bumped};
    Ok(st.(coupons := st.coupons[couponId := bumped], held := WriteBack(st.held, userId, mine)))
  }

  /** In a valid state the as-written use leaves the join table as it was. */
  lemma UseCouponAsWrittenKeepsHolding(st: CouponState, couponId: nat, userId: nat, now: int)
    requires Valid(st)
    ensures var r := UseCouponAsWritten(st, couponId, userId, now);
      r.Ok? ==> r.value.held == st.held && (userId, couponId) in r.value.held && Valid(r.value)
  {
    var r := UseCouponAsWritten(st, couponId, userId, now);
    if r.Ok? {
      var c := st.coupons[couponId];
      var bumped := c.(usedCount := c.usedCount + 1);
      var loaded := Loaded(st, userId);
      assert bumped !in loaded;
      assert loaded - {bumped} == loaded;
      var w := WriteBack(st.held, userId, loaded);
      forall p | p in st.held ensures p in w {
        if p.0 == userId {
          assert st.coupons[p.1] in loaded;
        }
      }
      assert r.value.held == w;
      var x :| x in loaded && x.id == couponId;
    }
  }

  /**
   * The consequence: after one use the same user can use the coupon again
   * without a new assignment, and usedCount grows by two.
   */
  lemma UseCouponAsWrittenRepeats(st: CouponState, couponId: nat, userId: nat, now: int)
    requires Valid(st)
    requires UseCouponAsWritten(st, couponId, userId, now).Ok?
    ensures var st1 := UseCouponAsWritten(st, couponId, userId, now).value;
      UseCouponAsWritten(st1, couponId, userId, now).Ok?
      && UseCouponAsWritten(st1, couponId, userId, now).value.coupons[couponId].usedCount == st.coupons[couponId].usedCount + 2
  {
    UseCouponAsWrittenKeepsHolding(st, couponId, userId, now);
    var st1 := UseCouponAsWritten(st, couponId, userId, now).value;
    assert st1.coupons[couponId] in Loaded(st1, userId);
  }

  /**
   * useCoupon as evidently intended: the user must hold the coupon and it
   * must be active and in its window; usedCount grows by one and the user's
   * join row is removed.
   */
  function UseCoupon(st: CouponState, couponId: nat, userId: nat, now: int): (r: Result<CouponState, Failure>)
    ensures r.Err? <==> UseCouponCheck(st, couponId, userId, now).Err?
    ensures r.Ok? ==> (couponId in r.value.coupons
      && r.value.coupons == st.coupons[couponId := st.coupons[couponId].(usedCount := st.coupons[couponId].usedCount + 1)]
      && r.value.held == st.held - {(userId, couponId)}
      && r.value.users == st.users && r.value.nextId == st.nextId)
  {
    var c :- UseCouponCheck(st, couponId, userId, now);
    Ok(st.(coupons := st.coupons[couponId := c.(usedCount := c.usedCount + 1)], held := st.held - {(userId, couponId)}))
  }

  /** In a valid state, holding the coupon is exactly the membership test useCoupon makes. */
  lemma HoldingIsLoaded(st: CouponState, couponId: nat, userId: nat)
    requires Valid(st)
    ensures (exists c :: c in Loaded(st, userId) && c.id == couponId) <==> (userId, couponId) in st.held
  {
    if (userId, couponId) in st.held {
      assert st.coupons[couponId] in Loaded(st, userId);
    }
  }

  /** The corrected use keeps the state valid and cannot be repeated without a new assignment. */
  lemma UseCouponOnce(st: CouponState, couponId: nat, userId: nat, now: int)
    requires Valid(st)
    requires UseCoupon(st, couponId, userId, now).Ok?
    ensures Valid(UseCoupon(st, couponId, userId, now).value)
    ensures UseCoupon(UseCoupon(st, couponId, userId, now).value, couponId, userId, now) == Err(IllegalState)
  {
    var st1 := UseCoupon(st, couponId, userId, now).value;
    assert Valid(st1);
    HoldingIsLoaded(st1, couponId, userId);
  }

  /** A coupon assigned now can be used now, and use undoes the assignment's join row. */
  lemma AssignThenUse(st: CouponState, couponId: nat, userId: nat, now: int)
    requires Valid(st)
    requires AssignCouponToUser(st, couponId, userId, now).Ok?
    requires (userId, couponId) !in st.held
    ensures var st1 := AssignCouponToUser(st, couponId, userId, now).value;
      UseCoupon(st1, couponId, userId, now).Ok? && UseCoupon(st1, couponId, userId, now).value.held == st.held
  {
    var st1 := AssignCouponToUser(st, couponId, userId, now).value;
    assert Valid(st1);
    HoldingIsLoaded(st1, couponId, userId);
  }

  /**
   * Assignment checks usedCount < totalCount but does not count, and use
   * counts but does not check: two users assigned a single-issue coupon can
   * both use it.
   */
  lemma UsedCountCanExceedTotal()
    ensures var t := CouponTerms("c", "C", None, FixedAmount, 100, 0, None, 0, 10, 1);
      var st := CouponState({1, 2}, map[5 := Coupon(5, t, 0, true)], {}, 6);
      var a1 := AssignCouponToUser(st, 5, 1, 3);
      a1.Ok? && AssignCouponToUser(a1.value, 5, 2, 3).Ok?
      && var a2 := AssignCouponToUser(a1.value, 5, 2, 3).value;
      UseCoupon(a2, 5, 1, 3).Ok? && UseCoupon(UseCoupon(a2, 5, 1, 3).value, 5, 2, 3).Ok?
      && UseCoupon(UseCoupon(a2, 5, 1, 3).value, 5, 2, 3).value.coupons[5].usedCount == 2 > t.totalCount
  {
    var t := CouponTerms("c", "C", None, FixedAmount, 100, 0, None, 0, 10, 1);
    var st := CouponState({1, 2}, map[5 := Coupon(5, t, 0, true)], {}, 6);
    var a2 := st.(held := {(1, 5), (2, 5)});
    assert Valid(a2);
    HoldingIsLoaded(a2, 5, 1);
    var u1 := UseCoupon(a2, 5, 1, 3).value;
    assert Valid(u1);
    HoldingIsLoaded(u1, 5, 2);
  }
}
