/**
 * The part of class-transformer and class-validator that the request DTOs
 * rely on, stated over decoded JSON request bodies.
 */
module Validation {
  import opened Wrappers
  import opened Entities
  import opened Text

  /** A decoded JSON value; `Undefined` stands for a property that is not there. */
  datatype Value =
    | Undefined
    | Null
    | Bool(b: bool)
    | Num(n: real)
    | Str(s: string)
    | Arr(items: seq<Value>)
    | Obj(fields: map<string, Value>)

  /** `body[key]`, undefined when the body is not an object or lacks the key. */
  function Property(body: Value, key: string): Value
  {
    if body.Obj? && key in body.fields then body.fields[key] else Undefined
  }

  /** @IsNotEmpty: anything but '', null and undefined. */
  predicate IsNotEmpty(v: Value)
  {
    v != Str("") && v != Null && v != Undefined
  }

  predicate IsWhole(x: real)
  {
    x.Floor as real == x
  }

  /** @IsInt: a number without fractional part. */
  predicate IsInt(v: Value)
  {
    v.Num? && IsWhole(v.n)
  }

  function Pow10(d: nat): (p: nat)
    ensures p >= 1
  {
    if d == 0 then 1 else 10 * Pow10(d - 1)
  }

  /** `x` written in decimal has at most `d` digits after the point. */
  predicate HasAtMostDecimals(x: real, d: nat)
  {
    IsWhole(x * Pow10(d) as real)
  }

  /** @IsNumber({ maxDecimalPlaces }): a number, with at most that many decimals when a bound is given. */
  predicate IsNumber(v: Value, maxDecimalPlaces: Option<nat>)
  {
    v.Num? && (maxDecimalPlaces.Some? ==> HasAtMostDecimals(v.n, maxDecimalPlaces.value))
  }

  /** @IsString */
  predicate IsString(v: Value)
  {
    v.Str?
  }

  /** @IsOptional: a null or undefined property skips every other rule of that property. */
  predicate IsAbsent(v: Value)
  {
    v == Null || v == Undefined
  }

  /**
   * @Transform(({ value }) => value.trim().toUpperCase()) as class-transformer
   * runs it on a property present in the body: a string is normalised, any
   * other value has no `trim` method and the call throws.
   */
  function TrimUpper(v: Value): (r: Result<Value, HttpError>)
    ensures r.Success? <==> v.Str? || v == Undefined
    ensures v.Str? ==> r == Success(Str(Normalize(v.s)))
    ensures v == Undefined ==> r == Success(Undefined)
    ensures r.Failure? ==> r.error == InternalServerError
  {
    match v
    case Undefined => Success(Undefined)
    case Str(s) => Success(Str(Normalize(s)))
    case _ => Failure(InternalServerError)
  }

  /** Transforming a transformed value again gives the same value. */
  lemma TrimUpperIdempotent(v: Value)
    requires TrimUpper(v).Success?
    ensures TrimUpper(TrimUpper(v).value) == TrimUpper(v)
  {
    if v.Str? {
      NormalizeIdempotent(v.s);
    }
  }

  /** The message list of one rule: empty when the rule holds, else its message. */
  function Rule(holds: bool, message: string): (r: seq<string>)
    ensures r == [] <==> holds
  {
    if holds then [] else [message]
  }

  /** With no decimal places allowed, @IsNumber accepts exactly the whole numbers. */
  lemma WholeIsZeroDecimals(x: real)
    ensures HasAtMostDecimals(x, 0) <==> IsWhole(x)
  {
    assert Pow10(0) == 1;
    assert x * Pow10(0) as real == x;
  }

  /** A price such as 999.99 has two decimals; 0.125 has three. */
  lemma DecimalExamples()
    ensures HasAtMostDecimals(999.99, 2)
    ensures !HasAtMostDecimals(0.125, 2)
    ensures HasAtMostDecimals(0.125, 3)
  {
    assert Pow10(2) == 100 && Pow10(3) == 1000;
  }
}
