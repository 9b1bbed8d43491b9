/**
  Host values and the scalar copy.

  A gawk extension sees every value as a tagged record (`awk_value_t`): the
  tag says which payload is meaningful. `AwkValue<A>` has one constructor per
  tag; `A` is the type of the array cookie, so that values read from the
  source trees (whose arrays are `SrcArray` values) and values written into
  destination arrays (whose arrays are host handles) share one definition.
*/
module Values {

  datatype Option<+T> = None | Some(value: T)

  /** The value-type tags of the extension API, each with its payload. */
  datatype AwkValue<A> =
    | Str(s: string)        // AWK_STRING
    | Regex(s: string)      // AWK_REGEX
    | StrNum(s: string)     // AWK_STRNUM: user input that looks like a number
    | Number(n: real)       // AWK_NUMBER (a C double, modelled as a real)
    | Arr(cookie: A)        // AWK_ARRAY
    | Bool(b: bool)         // AWK_BOOL
    | Undefined             // AWK_UNDEFINED: also what make_null_string builds
    | ScalarCookie          // AWK_SCALAR
    | ValueCookie           // AWK_VALUE_COOKIE
    | Unknown(tag: int)     // any other tag number

  /** The tags copy_element knows how to rebuild. */
  predicate IsScalar<A>(v: AwkValue<A>) {
    v.Str? || v.Regex? || v.StrNum? || v.Number? || v.Bool? || v.Undefined?
  }

  /**
    copy_element: rebuild a scalar value for the destination side, or fail.
    Strings, regexes and strnums keep their text, numbers their number,
    booleans their truth value; an undefined value becomes the null string
    (make_null_string, the host's undefined value). Arrays, scalar cookies,
    value cookies and unknown tags are refused.
  */
  function CopyElement<A, B>(v: AwkValue<A>): (r: Option<AwkValue<B>>)
    ensures r.Some? <==> IsScalar(v)
    ensures r.Some? ==> IsScalar(r.value)
    ensures r.None? <==> v.Arr? || v.ScalarCookie? || v.ValueCookie? || v.Unknown?
    ensures v.Str? ==> r == Some(Str(v.s))
    ensures v.Regex? ==> r == Some(Regex(v.s))
    ensures v.StrNum? ==> r == Some(StrNum(v.s))
    ensures v.Number? ==> r == Some(Number(v.n))
    ensures v.Bool? ==> r == Some(Bool(v.b))
    ensures v.Undefined? ==> r == Some(Undefined)
  {
    match v
    case Str(s) => Some(Str(s))
    case Regex(s) => Some(Regex(s))
    case StrNum(s) => Some(StrNum(s))
    case Number(n) => Some(Number(n))
    case Arr(_) => None
    case Bool(b) => Some(Bool(b))
    case Undefined => Some(Undefined)
    case ScalarCookie => None
    case ValueCookie => None
    case Unknown(_) => None
  }

  /** A copy is again a scalar, and copying it once more changes nothing. */
  lemma CopyIdempotent<A, B>(v: AwkValue<A>)
    requires IsScalar(v)
    ensures IsScalar(CopyElement<A, B>(v).value)
    ensures CopyElement<B, B>(CopyElement<A, B>(v).value) == CopyElement<A, B>(v)
  {
  }

  /** Two scalars with the same copy are the same scalar: copying never merges keys. */
  lemma CopyInjective<A, B>(v: AwkValue<A>, w: AwkValue<A>)
    requires CopyElement<A, B>(v).Some? && CopyElement<A, B>(v) == CopyElement<A, B>(w)
    ensures v == w
  {
  }
}
