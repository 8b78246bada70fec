/**
 * CreateCouponDto: the body of a coupon creation request, its name
 * normalisation and its validation rules.
 */
module CouponRequests {
  import opened Wrappers
  import opened Entities
  import opened Text
  import opened Validation

  /** A coupon request after transformation and validation; the date is still the text the client sent. */
  datatype CreateCouponDto = CreateCouponDto(name: string, porcentaje: int, expirationDate: string)

  /** The longest coupon name accepted. */
  const MAX_NAME_LENGTH: nat := 30

  /** A character matched by the class [a-zA-Z0-9\s]. */
  predicate IsNameChar(c: char)
  {
    IsAsciiLetter(c) || IsAsciiDigit(c) || IsWhitespace(c)
  }

  /** The pattern ^[a-zA-Z0-9\s]+$. */
  predicate MatchesNamePattern(s: string)
  {
    |s| >= 1 && forall k :: 0 <= k < |s| ==> IsNameChar(s[k])
  }

  /** The rules of the (already normalised) name. */
  predicate ValidName(v: Value)
  {
    IsNotEmpty(v) && IsString(v) && 1 <= |v.s| <= MAX_NAME_LENGTH && MatchesNamePattern(v.s)
  }

  function NameErrors(v: Value): (r: seq<string>)
    ensures r == [] <==> ValidName(v)
  {
    Rule(IsNotEmpty(v), "El nombre es requerido")
    + Rule(IsString(v), "El nombre debe ser un texto")
    + Rule(v.Str? && 1 <= |v.s| <= MAX_NAME_LENGTH, "El nombre debe tener entre 1 y 30 caracteres")
    + Rule(v.Str? && MatchesNamePattern(v.s), "El nombre solo puede contener letras, números y espacios")
  }

  /** The rules of the percentage: a present integer from 1 to 100. */
  predicate ValidPorcentaje(v: Value)
  {
    IsNotEmpty(v) && IsInt(v) && 1.0 <= v.n <= 100.0
  }

  function PorcentajeErrors(v: Value): (r: seq<string>)
    ensures r == [] <==> ValidPorcentaje(v)
  {
    Rule(IsNotEmpty(v), "El porcentaje es requerido")
    + Rule(IsInt(v), "El porcentaje debe ser un número entero")
    + Rule(v.Num? && v.n >= 1.0, "El descuento mínimo es 1%")
    + Rule(v.Num? && v.n <= 100.0, "El descuento máximo es 100%")
  }

  /**
   * The rules of the expiration date: present, and an ISO 8601 date string
   * as decided by `isIsoDate`, which stands for the validator library's check.
   */
  predicate ValidExpiration(v: Value, isIsoDate: string -> bool)
  {
    IsNotEmpty(v) && v.Str? && isIsoDate(v.s)
  }

  function ExpirationErrors(v: Value, isIsoDate: string -> bool): (r: seq<string>)
    ensures r == [] <==> ValidExpiration(v, isIsoDate)
  {
    Rule(IsNotEmpty(v), "La fecha de expiración es requerida")
    + Rule(v.Str? && isIsoDate(v.s), "La fecha de expiración debe ser una fecha válida, Ej: Año-Mes-Dia")
  }

  /**
   * The validation pipe on a coupon body: the name is trimmed and upper-cased
   * first (a name that is present but not a string makes the transform throw),
   * then every rule is checked on the transformed body.
   */
  function ValidateCreateCoupon(body: Value, isIsoDate: string -> bool): (r: Result<CreateCouponDto, HttpError>)
    ensures TrimUpper(Property(body, "name")).Failure? ==> r == Failure(InternalServerError)
    ensures r.Success? <==>
      && Property(body, "name").Str?
      && ValidName(Str(Normalize(Property(body, "name").s)))
      && ValidPorcentaje(Property(body, "porcentaje"))
      && ValidExpiration(Property(body, "expirationDate"), isIsoDate)
    ensures r.Failure? && r.error != InternalServerError ==> r.error.BadRequest? && r.error.messages != []
    ensures r.Success? ==>
      && r.value.name == Normalize(Property(body, "name").s)
      && 1 <= |r.value.name| <= MAX_NAME_LENGTH
      && (forall k :: 0 <= k < |r.value.name| ==> IsNameChar(r.value.name[k]))
      && 1 <= r.value.porcentaje <= 100
      && r.value.porcentaje as real == Property(body, "porcentaje").n
      && r.value.expirationDate == Property(body, "expirationDate").s
      && isIsoDate(r.value.expirationDate)
  {
    match TrimUpper(Property(body, "name"))
    case Failure(e) => Failure(e)
    case Success(name) =>
      var porcentaje, expiration := Property(body, "porcentaje"), Property(body, "expirationDate");
      var errors := NameErrors(name) + PorcentajeErrors(porcentaje) + ExpirationErrors(expiration, isIsoDate);
      if errors != [] then Failure(BadRequest(errors))
      else Success(CreateCouponDto(name.s, porcentaje.n.Floor, expiration.s))
  }

  /**
   * An accepted name is in normal form: it has no white space at either
   * end, no lower-case ASCII letter, and normalising it again changes nothing.
   */
  lemma {:induction false} AcceptedNameIsNormal(body: Value, isIsoDate: string -> bool, dto: CreateCouponDto)
    requires ValidateCreateCoupon(body, isIsoDate) == Success(dto)
    ensures |dto.name| >= 1 && IsNormalForm(dto.name)
    ensures Normalize(dto.name) == dto.name
  {
    var s := Property(body, "name").s;
    NormalFormFixed(s, dto.name);
  }

  /** Padding and case do not matter: a name and its normalised form give the same request. */
  lemma {:induction false} NameNormalizationAbsorbed(body: Value, isIsoDate: string -> bool)
    requires body.Obj? && "name" in body.fields && body.fields["name"].Str?
    ensures var normalized := Obj(body.fields["name" := Str(Normalize(body.fields["name"].s))]);
      ValidateCreateCoupon(normalized, isIsoDate) == ValidateCreateCoupon(body, isIsoDate)
  {
    var s := body.fields["name"].s;
    var normalized := Obj(body.fields["name" := Str(Normalize(s))]);
    NormalizeIdempotent(s);
    assert Property(normalized, "porcentaje") == Property(body, "porcentaje");
    assert Property(normalized, "expirationDate") == Property(body, "expirationDate");
    assert TrimUpper(Property(normalized, "name")) == TrimUpper(Property(body, "name"));
  }

  /** A name made only of blanks is refused: it is empty once trimmed. */
  lemma BlankNameRefused(body: Value, isIsoDate: string -> bool)
    requires body.Obj? && "name" in body.fields
    requires body.fields["name"] == Str("   ")
    ensures ValidateCreateCoupon(body, isIsoDate).Failure?
  {
    var s := "   ";
    assert IsWhitespace(s[0]) && IsWhitespace(s[1]) && IsWhitespace(s[2]);
    assert Normalize(s) == [];
  }
}
