/** ApplyCouponDto: the body of a coupon check, reduced to a normalised coupon name. */
module ApplyCouponRequests {
  import opened Wrappers
  import opened Entities
  import opened Text
  import opened Validation

  datatype ApplyCouponDto = ApplyCouponDto(coupon_name: string)

  /** The rules of the transformed coupon name: a present, non-empty string. */
  predicate ValidCouponName(v: Value)
  {
    IsNotEmpty(v) && IsString(v)
  }

  function CouponNameErrors(v: Value): (r: seq<string>)
    ensures r == [] <==> ValidCouponName(v)
  {
    Rule(IsNotEmpty(v), "El nombre del cupón es requerido")
    + Rule(IsString(v), "El nombre debe ser una cadena de texto")
  }

  /**
   * The validation pipe on the body: trim and upper-case the name (throwing
   * on a name that is present but not a string), then check it.
   */
  function ValidateApplyCoupon(body: Value): (r: Result<ApplyCouponDto, HttpError>)
    ensures TrimUpper(Property(body, "coupon_name")).Failure? ==> r == Failure(InternalServerError)
    ensures r.Success? <==>
      Property(body, "coupon_name").Str? && Normalize(Property(body, "coupon_name").s) != ""
    ensures r.Success? ==> r.value.coupon_name == Normalize(Property(body, "coupon_name").s)
    ensures r.Failure? && r.error != InternalServerError ==> r.error.BadRequest? && r.error.messages != []
  {
    match TrimUpper(Property(body, "coupon_name"))
    case Failure(e) => Failure(e)
    case Success(name) =>
      var errors := CouponNameErrors(name);
      if errors != [] then Failure(BadRequest(errors)) else Success(ApplyCouponDto(name.s))
  }

  /**
   * The accepted name has no white space at either end and no lower-case
   * ASCII letter, so normalising it again, as a second pass of the transform
   * would, changes nothing.
   */
  lemma {:induction false} AcceptedCouponNameIsNormal(body: Value, dto: ApplyCouponDto)
    requires ValidateApplyCoupon(body) == Success(dto)
    ensures |dto.coupon_name| >= 1 && IsNormalForm(dto.coupon_name)
    ensures Normalize(dto.coupon_name) == dto.coupon_name
  {
    var s := Property(body, "coupon_name").s;
    NormalFormFixed(s, dto.coupon_name);
  }

  /** A name padded with a space on each side reaches the service without the padding, upper-cased. */
  lemma PaddedNameTrimmed(word: string)
    requires word != [] && !IsWhitespace(word[0]) && !IsWhitespace(word[|word| - 1])
    ensures ValidateApplyCoupon(Obj(map["coupon_name" := Str(" " + word + " ")])) == Success(ApplyCouponDto(Upper(word)))
  {
    TrimPadding(word);
    assert |Upper(word)| == |word|;
  }
}
