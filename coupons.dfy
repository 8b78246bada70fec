/**
 * CouponsService: percentage coupons, unique by name when created, valid
 * through the last instant of their expiration day.
 */
module Coupons {
  import opened Wrappers
  import opened Entities
  import opened Calendar
  import opened Text
  import opened Ordering
  import opened Store
  import opened CouponRequests

  /** The fields an update request may carry; `None` is a field the request leaves out. */
  datatype CouponPatch = CouponPatch(name: Option<string>, porcentaje: Option<int>, expirationDate: Option<string>)

  /** What a successful removal answers: a confirmation naming the coupon, and the removed coupon. */
  datatype CouponRemoval = CouponRemoval(message: string, coupon: Coupon)

  /** What a successful application answers: a confirmation, and the stored coupon. */
  datatype AppliedCoupon = AppliedCoupon(message: string, coupon: Coupon)

  const COUPON_APPLIED := "Cupón aplicado correctamente"

  /** The ids of the coupons stored under exactly this name. */
  function CouponsNamed(coupons: map<int, Coupon>, name: string): (ids: set<int>)
    ensures forall id :: id in ids <==> id in coupons && coupons[id].name == name
  {
    set id | id in coupons && coupons[id].name == name
  }

  /**
   * Stores a coupon under a name not used yet, with its expiration moved to
   * the start of the supplied day. `parseDate` stands for the date library's
   * reading of the request's date text; a date it cannot read makes the
   * insert fail, which surfaces as the generic processing error.
   */
  method Create(db: Database, dto: CreateCouponDto, parseDate: string -> Option<Millis>)
      returns (r: Result<Coupon, HttpError>)
    requires Consistent(db.tables)
    modifies db
    ensures Consistent(db.tables)
    ensures CouponsNamed(old(db.tables).coupons, dto.name) != {} ==>
      r == Failure(BadRequest(["Ya existe un cupón con este nombre"])) && db.tables == old(db.tables)
    ensures CouponsNamed(old(db.tables).coupons, dto.name) == {} && parseDate(dto.expirationDate).None? ==>
      r == Failure(BadRequest(["Error al procesar el cupón"])) && db.tables == old(db.tables)
    ensures CouponsNamed(old(db.tables).coupons, dto.name) == {} && parseDate(dto.expirationDate).Some? ==>
      var id := old(db.tables).nextCouponId;
      var coupon := Coupon(id, dto.name, dto.porcentaje, StartOfDay(parseDate(dto.expirationDate).value));
      && r == Success(coupon)
      && id !in old(db.tables).coupons
      && db.tables == old(db.tables).(coupons := old(db.tables).coupons[id := coupon], nextCouponId := id + 1)
  {
    var t := db.tables;
    if CouponsNamed(t.coupons, dto.name) != {} {
      return Failure(BadRequest(["Ya existe un cupón con este nombre"]));
    }
    var parsed := parseDate(dto.expirationDate);
    if parsed.None? {
      return Failure(BadRequest(["Error al procesar el cupón"]));
    }
    var id := t.nextCouponId;
    var coupon := Coupon(id, dto.name, dto.porcentaje, StartOfDay(parsed.value));
    db.tables := t.(coupons := t.coupons[id := coupon], nextCouponId := id + 1);
    r := Success(coupon);
  }

  function FindOne(t: Tables, id: int): (r: Result<Coupon, HttpError>)
    requires Consistent(t)
    ensures r.Success? <==> id in t.coupons
    ensures r.Success? ==> r.value == t.coupons[id] && r.value.id == id
    ensures r.Failure? ==> r.error == NotFound(["El cupón con el ID: " + IntToString(id) + " no fue encontrado"])
  {
    if id in t.coupons then Success(t.coupons[id])
    else Failure(NotFound(["El cupón con el ID: " + IntToString(id) + " no fue encontrado"]))
  }

  /**
   * Copies the supplied fields onto the stored coupon. The name is not
   * checked for uniqueness and the date is stored as read, not moved to the
   * start of its day; a date text the database cannot read makes the save fail.
   */
  method Update(db: Database, id: int, patch: CouponPatch, parseDate: string -> Option<Millis>)
      returns (r: Result<Coupon, HttpError>)
    requires Consistent(db.tables)
    modifies db
    ensures Consistent(db.tables)
    ensures id !in old(db.tables).coupons ==>
      r == FindOne(old(db.tables), id) && r.Failure? && db.tables == old(db.tables)
    ensures id in old(db.tables).coupons && patch.expirationDate.Some? && parseDate(patch.expirationDate.value).None? ==>
      r == Failure(InternalServerError) && db.tables == old(db.tables)
    ensures r.Success? ==>
      var before := old(db.tables).coupons[id];
      && id in old(db.tables).coupons
      && r.value.id == id
      && r.value.name == (if patch.name.Some? then patch.name.value else before.name)
      && r.value.porcentaje == (if patch.porcentaje.Some? then patch.porcentaje.value else before.porcentaje)
      && r.value.expirationDate ==
           (if patch.expirationDate.Some? then parseDate(patch.expirationDate.value).value else before.expirationDate)
      && db.tables == old(db.tables).(coupons := old(db.tables).coupons[id := r.value])
    ensures id in old(db.tables).coupons && (patch.expirationDate.None? || parseDate(patch.expirationDate.value).Some?) ==>
      r.Success?
  {
    var found := FindOne(db.tables, id);
    if found.Failure? {
      return found;
    }
    var coupon := found.value;
    if patch.name.Some? {
      coupon := coupon.(name := patch.name.value);
    }
    if patch.porcentaje.Some? {
      coupon := coupon.(porcentaje := patch.porcentaje.value);
    }
    if patch.expirationDate.Some? {
      var parsed := parseDate(patch.expirationDate.value);
      if parsed.None? {
        return Failure(InternalServerError);
      }
      coupon := coupon.(expirationDate := parsed.value);
    }
    db.tables := db.tables.(coupons := db.tables.coupons[id := coupon]);
    r := Success(coupon);
  }

  /** Deletes the coupon and answers with it; nothing refers to a coupon row, so the delete itself cannot fail. */
  method Remove(db: Database, id: int) returns (r: Result<CouponRemoval, HttpError>)
    requires Consistent(db.tables)
    modifies db
    ensures Consistent(db.tables)
    ensures id !in old(db.tables).coupons ==>
      r == Failure(NotFound(["El cupón con el ID: " + IntToString(id) + " no fue encontrado"])) && db.tables == old(db.tables)
    ensures id in old(db.tables).coupons ==>
      var coupon := old(db.tables).coupons[id];
      && r == Success(CouponRemoval("El cupón " + coupon.name + " fue eliminado correctamente", coupon))
      && db.tables == old(db.tables).(coupons := old(db.tables).coupons - {id})
  {
    var found := FindOne(db.tables, id);
    if found.Failure? {
      return Failure(found.error);
    }
    var coupon := found.value;
    db.tables := db.tables.(coupons := db.tables.coupons - {id});
    r := Success(CouponRemoval("El cupón " + coupon.name + " fue eliminado correctamente", coupon));
  }

  /**
   * Looks a coupon up by its exact name (the lowest id when several share
   * it) and accepts it at every instant up to and including the end of its
   * expiration day.
   */
  function ApplyCoupon(coupons: map<int, Coupon>, name: string, now: Millis): (r: Result<AppliedCoupon, HttpError>)
    ensures r.Success? ==>
      && r.value.message == COUPON_APPLIED
      && r.value.coupon in coupons.Values && r.value.coupon.name == name
      && now <= EndOfDay(r.value.coupon.expirationDate)
    ensures r.Failure? ==> r.error.NotFound? || r.error.UnprocessableEntity?
    ensures r == Failure(NotFound(["El cupón con el nombre: " + name + " no fue encontrado"])) <==>
      CouponsNamed(coupons, name) == {}
    ensures r.Failure? && r.error.UnprocessableEntity? ==>
      r.error.messages == ["El cupón ha expirado"]
      && exists id :: id in coupons && coupons[id].name == name && now > EndOfDay(coupons[id].expirationDate)
  {
    var named := CouponsNamed(coupons, name);
    if named == {} then
      Failure(NotFound(["El cupón con el nombre: " + name + " no fue encontrado"]))
    else
      var coupon := coupons[Least(named)];
      if now > EndOfDay(coupon.expirationDate) then Failure(UnprocessableEntity(["El cupón ha expirado"]))
      else Success(AppliedCoupon(COUPON_APPLIED, coupon))
  }

  /**
   * For a coupon whose name no other coupon shares, applying it succeeds
   * exactly up to the end of its expiration day and answers the confirmation
   * with the stored coupon.
   */
  lemma ApplyUniqueCoupon(coupons: map<int, Coupon>, id: int, now: Millis)
    requires id in coupons
    requires CouponsNamed(coupons, coupons[id].name) == {id}
    ensures var c := coupons[id];
      ApplyCoupon(coupons, c.name, now) ==
        if now <= EndOfDay(c.expirationDate) then Success(AppliedCoupon(COUPON_APPLIED, c)) else Failure(UnprocessableEntity(["El cupón ha expirado"]))
  {
    LeastIs({id}, id);
  }

  /** The last millisecond of the expiration day is still valid; the next one is not. */
  lemma ExpiryBoundary(coupons: map<int, Coupon>, id: int)
    requires id in coupons
    requires CouponsNamed(coupons, coupons[id].name) == {id}
    ensures var c := coupons[id];
      && ApplyCoupon(coupons, c.name, EndOfDay(c.expirationDate)) == Success(AppliedCoupon(COUPON_APPLIED, c))
      && ApplyCoupon(coupons, c.name, EndOfDay(c.expirationDate) + 1).Failure?
  {
    var c := coupons[id];
    ApplyUniqueCoupon(coupons, id, EndOfDay(c.expirationDate));
    ApplyUniqueCoupon(coupons, id, EndOfDay(c.expirationDate) + 1);
  }

  /** Only the day of the expiration date matters: moving it within its day changes no answer. */
  lemma {:induction false} ApplyDependsOnlyOnDay(coupons: map<int, Coupon>, id: int, other: Millis, name: string, now: Millis)
    requires id in coupons
    requires StartOfDay(other) == StartOfDay(coupons[id].expirationDate)
    ensures var moved := coupons[id := coupons[id].(expirationDate := other)];
      ApplyCoupon(moved, name, now).Success? == ApplyCoupon(coupons, name, now).Success?
  {
    var moved := coupons[id := coupons[id].(expirationDate := other)];
    assert CouponsNamed(moved, name) == CouponsNamed(coupons, name);
    assert EndOfDay(other) == EndOfDay(coupons[id].expirationDate);
  }

  /**
   * A coupon just created answers to its name at once, until the end of the
   * day of the supplied date: creation and application agree on the day.
   */
  lemma {:induction false} CreatedCouponApplies(before: map<int, Coupon>, id: int, dto: CreateCouponDto, d: Millis, now: Millis)
    requires CouponsNamed(before, dto.name) == {}
    ensures var coupon := Coupon(id, dto.name, dto.porcentaje, StartOfDay(d));
      ApplyCoupon(before[id := coupon], dto.name, now) ==
        if now <= EndOfDay(d) then Success(AppliedCoupon(COUPON_APPLIED, coupon)) else Failure(UnprocessableEntity(["El cupón ha expirado"]))
  {
    var coupon := Coupon(id, dto.name, dto.porcentaje, StartOfDay(d));
    var after := before[id := coupon];
    assert CouponsNamed(after, dto.name) == {id};
    ApplyUniqueCoupon(after, id, now);
    DayBoundsOnSameDay(d);
  }
}
