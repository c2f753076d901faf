/** Typed values and the text-to-value converter that InternalOption and
    InternalOptionState share (their convertValue methods are the same code). */
module Conversion {
  import opened Lang
  import opened Text

  /** A Java value an option can hold. Null is the null reference. Integers
      and longs are kept apart because Integer.equals(Long) is false. */
  datatype Value = Null | IntVal(i: int) | LongVal(l: int) | BoolVal(b: bool) | StrVal(s: string)

  /** The Archaius wrapper class backing an option; UnknownProperty is a
      PropertyWrapper of any class convertValue does not recognise. */
  datatype PropertyKind = IntProperty | LongProperty | BooleanProperty | StringProperty | UnknownProperty

  /** A property: its wrapper class and the value it currently holds. */
  datatype Property = Property(kind: PropertyKind, value: Value)

  /** A value a property of the given kind can produce by conversion. */
  predicate Fits(kind: PropertyKind, v: Value) {
    match kind
    case IntProperty => v.IntVal? && INT_MIN <= v.i <= INT_MAX
    case LongProperty => v.LongVal? && LONG_MIN <= v.l <= LONG_MAX
    case BooleanProperty => v.BoolVal?
    case StringProperty => v.StrVal? || v.Null?
    case UnknownProperty => false
  }

  /** convertValue(text): a string property takes the text verbatim (null
      included); every other kind rejects null with a NullPointerException
      and then parses with Integer.parseInt, Boolean.parseBoolean or
      Long.parseLong; an unrecognised kind throws IllegalArgumentException. */
  function ConvertValue(kind: PropertyKind, value: Option<string>): (r: Result<Value>)
    ensures r.Ok? ==> Fits(kind, r.value)
    ensures r.Thrown? ==> kind != StringProperty
    ensures r.Thrown? && value.None? ==> r.exception == NullPointerException
    ensures r.Thrown? && value.Some? ==>
              r.exception == (if kind == UnknownProperty then IllegalArgumentException else NumberFormatException)
  {
    if kind == StringProperty then
      Ok(if value.None? then Null else StrVal(value.value))
    else if value.None? then
      Thrown(NullPointerException)
    else
      var text := value.value;
      match kind
      case IntProperty =>
        (match ParseInt(text)
         case Some(n) => Ok(IntVal(n))
         case None => Thrown(NumberFormatException))
      case BooleanProperty => Ok(BoolVal(ParseBoolean(value)))
      case LongProperty =>
        (match ParseLong(text)
         case Some(n) => Ok(LongVal(n))
         case None => Thrown(NumberFormatException))
      case UnknownProperty => Thrown(IllegalArgumentException)
  }

  /** A string property hands back exactly the text it was given, null or not. */
  lemma ConvertStringVerbatim(value: Option<string>)
    ensures ConvertValue(StringProperty, value) == Ok(if value.None? then Null else StrVal(value.value))
  {
  }

  /** Every non-string kind rejects a null text before looking at its kind. */
  lemma ConvertRejectsNull(kind: PropertyKind)
    requires kind != StringProperty
    ensures ConvertValue(kind, None) == Thrown(NullPointerException)
  {
  }

  /** An unrecognised property kind cannot convert any text. */
  lemma ConvertUnknownThrows(text: string)
    ensures ConvertValue(UnknownProperty, Some(text)) == Thrown(IllegalArgumentException)
  {
  }

  /** The decimal rendering of any int converts back to that int. */
  lemma ConvertIntRoundTrip(n: int)
    requires INT_MIN <= n <= INT_MAX
    ensures ConvertValue(IntProperty, Some(FormatDecimal(n))) == Ok(IntVal(n))
  {
    IntRoundTrip(n);
  }

  /** The decimal rendering of any long converts back to that long. */
  lemma ConvertLongRoundTrip(n: int)
    requires LONG_MIN <= n <= LONG_MAX
    ensures ConvertValue(LongProperty, Some(FormatDecimal(n))) == Ok(LongVal(n))
  {
    LongRoundTrip(n);
  }

  /** The decimal rendering of a number outside the 32-bit range makes an
      int property throw NumberFormatException. */
  lemma ConvertIntOutOfRange(n: int)
    requires !(INT_MIN <= n <= INT_MAX)
    ensures ConvertValue(IntProperty, Some(FormatDecimal(n))) == Thrown(NumberFormatException)
  {
    IntOutOfRangeRejected(n);
  }

  /** The same for a long property and the 64-bit range. */
  lemma ConvertLongOutOfRange(n: int)
    requires !(LONG_MIN <= n <= LONG_MAX)
    ensures ConvertValue(LongProperty, Some(FormatDecimal(n))) == Thrown(NumberFormatException)
  {
    LongOutOfRangeRejected(n);
  }

  /** An int property accepts exactly the texts the ASCII-decimal
      Integer.parseInt of Text.ParseInt accepts. */
  lemma ConvertIntExactly(text: string)
    ensures ConvertValue(IntProperty, Some(text)).Ok? <==> ParseInt(text).Some?
    ensures ParseInt(text).Some? ==> ConvertValue(IntProperty, Some(text)) == Ok(IntVal(ParseInt(text).value))
  {
  }

  /** A boolean property never fails on a text: it is true exactly for
      "true" in any case, and false for everything else. */
  lemma ConvertBoolean(text: string)
    ensures ConvertValue(BooleanProperty, Some(text)) == Ok(BoolVal(EqualsIgnoreCase(text, "true")))
  {
  }
}
