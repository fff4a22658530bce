/** The static `Exceptor` helper: guard functions whose only effect is to throw.
    A thrown exception is a `Fail` outcome; the run-time type of a value is its `TypeCode`. */
module Exceptor {
  import opened SpawnTypes

  /** .NET's `TypeCode`. */
  datatype TypeCode =
    | Empty | Object | DBNull | Boolean | Char | SByte | Byte | Int16 | UInt16
    | Int32 | UInt32 | Int64 | UInt64 | Single | Double | Decimal | DateTime | String

  /** An argument of type `object`: null, or an instance of a type with the given code. */
  datatype Value = Null | Instance(code: TypeCode)

  /** The eleven numeric type codes. */
  const NumericCodes: set<TypeCode> :=
    {Byte, SByte, UInt16, UInt32, UInt64, Int16, Int32, Int64, Decimal, Double, Single}

  /** A reference-typed argument (a GameObject, a SpawnPoint, a list, a Type):
      null, or an instance whose type code is `Object`. */
  function Ref(present: bool): (v: Value)
    ensures v.Null? <==> !present
    ensures v.Instance? ==> v.code !in NumericCodes
  {
    if present then Instance(Object) else Null
  }

  /** `IsNumericType`: calling `GetType()` on null throws NullReferenceException. */
  function IsNumericType(v: Value): (r: Result<bool>)
    ensures v.Null? <==> r == Err(NullReference)
    ensures v.Instance? ==> r == Ok(v.code in NumericCodes)
  {
    match v
    case Null => Err(NullReference)
    case Instance(code) =>
      Ok(match code
         case Byte => true
         case SByte => true
         case UInt16 => true
         case UInt32 => true
         case UInt64 => true
         case Int16 => true
         case Int32 => true
         case Int64 => true
         case Decimal => true
         case Double => true
         case Single => true
         case _ => false)
  }

  /** `IsNull`: throws ArgumentException for a numeric value. A null value never gets
      as far as the comparison, so `IsNull` can never answer true. */
  function IsNull(v: Value): (r: Result<bool>)
    ensures r != Ok(true)
    ensures v.Null? ==> r == Err(NullReference)
    ensures v.Instance? ==> (r == Err(Argument) <==> v.code in NumericCodes)
    ensures v.Instance? ==> (r == Ok(false) <==> v.code !in NumericCodes)
  {
    var numeric := IsNumericType(v);
    if numeric.Err? then Err(numeric.error)
    else if numeric.value then Err(Argument)
    else Ok(v == Null)
  }

  /** `ThrowException`: throws the given exception, or ArgumentNullException when it is null. */
  function ThrowException(e: Option<Exception>): (r: Outcome)
    ensures r == Fail(if e.None? then ArgumentNull else e.value)
    decreases if e.None? then 3 else 1
  {
    var guard := ThrowExceptionIfExceptionNull(e);
    if guard.Fail? then guard else Fail(e.value)
  }

  /** `ThrowExceptionIfExceptionNull`: passes for a non-null exception. */
  function ThrowExceptionIfExceptionNull(e: Option<Exception>): (r: Outcome)
    ensures r.Pass? <==> e.Some?
    ensures e.None? ==> r == Fail(ArgumentNull)
    decreases if e.None? then 2 else 0
  {
    if e.None? then ThrowException(Some(ArgumentNull)) else Pass
  }

  /** `ThrowIfNull`: passes exactly for a non-null, non-numeric value. Because `IsNull`
      never answers true, the supplied exception is never the one raised: null raises
      NullReferenceException and a number raises ArgumentException. */
  function ThrowIfNull(v: Value, e: Option<Exception>): (r: Outcome)
    ensures r.Pass? <==> v.Instance? && v.code !in NumericCodes
    ensures v.Null? ==> r == Fail(NullReference)
    ensures v.Instance? && v.code in NumericCodes ==> r == Fail(Argument)
  {
    var isNull := IsNull(v);
    if isNull.Err? then Fail(isNull.error)
    else if isNull.value then ThrowException(e)
    else Pass
  }

  /** `ThrowIfFalse`: raises the supplied exception exactly when the condition is false. */
  function ThrowIfFalse(condition: bool, e: Option<Exception>): (r: Outcome)
    ensures r.Fail? <==> !condition
    ensures r.Fail? ==> r.error == (if e.None? then ArgumentNull else e.value)
  {
    if !condition then ThrowException(e) else Pass
  }

  /** `ThrowIfTrue`: raises the supplied exception exactly when the condition is true. */
  function ThrowIfTrue(condition: bool, e: Option<Exception>): (r: Outcome)
    ensures r.Fail? <==> condition
    ensures r.Fail? ==> r.error == (if e.None? then ArgumentNull else e.value)
  {
    if condition then ThrowException(e) else Pass
  }
}
