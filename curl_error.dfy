/** The curl error codes and their std::error_category (code/net/error.h). */
module CurlErrors {

  /** enum class CurlError, in declaration order. */
  datatype CurlError = EasyInit | UrlInit | EasySetOpt | EasyGetInfo | UrlGet | UrlSet

  /** static_cast<int>: the declaration index. */
  function Ordinal(e: CurlError): (n: int)
    ensures 0 <= n < 6
  {
    match e
    case EasyInit => 0
    case UrlInit => 1
    case EasySetOpt => 2
    case EasyGetInfo => 3
    case UrlGet => 4
    case UrlSet => 5
  }

  /** static_cast<CurlError>(ec) for the values that name an enumerator. */
  function FromOrdinal(n: int): (e: CurlError)
    requires 0 <= n < 6
    ensures Ordinal(e) == n
  {
    if n == 0 then EasyInit
    else if n == 1 then UrlInit
    else if n == 2 then EasySetOpt
    else if n == 3 then EasyGetInfo
    else if n == 4 then UrlGet
    else UrlSet
  }

  const CategoryName := "curl-error"

  const Unrecognized := "(unrecognized error)"

  /** CurlErrorCategory::message: the text of each enumerator, and a fixed
      text for every other integer. */
  function Message(ec: int): (m: string)
    ensures m == Unrecognized <==> ec < 0 || ec >= 6
  {
    if 0 <= ec < 6 then
      match FromOrdinal(ec)
      case EasyInit => "failed to init easy handle"
      case UrlInit => "failed to init url handle"
      case EasySetOpt => "failed to set easy opt"
      case EasyGetInfo => "failed to get easy info"
      case UrlGet => "failed to get url part"
      case UrlSet => "failed to set url part"
    else Unrecognized
  }

  /** A std::error_code: its value and the name of its category. */
  datatype ErrorCode = ErrorCode(value: int, category: string) {
    function MessageText(): string
      requires category == CategoryName
    {
      Message(value)
    }
  }

  /** make_error_code: the enumerator's ordinal in the curl category. */
  function MakeErrorCode(e: CurlError): (c: ErrorCode)
    ensures c.category == CategoryName
    ensures 0 <= c.value < 6 && FromOrdinal(c.value) == e
  {
    ErrorCode(Ordinal(e), CategoryName)
  }

  /** FromOrdinal and Ordinal are inverse, so the enumerators have distinct
      ordinals and an error code names its enumerator. */
  lemma OrdinalRoundTrip(e: CurlError, n: int)
    ensures FromOrdinal(Ordinal(e)) == e
    ensures 0 <= n < 6 ==> Ordinal(FromOrdinal(n)) == n
  {
  }

  /** Every enumerator has its own message, none of which is the text for
      an unknown code. */
  lemma MessagesDistinct(a: CurlError, b: CurlError)
    ensures Message(Ordinal(a)) != Unrecognized
    ensures a != b ==> Message(Ordinal(a)) != Message(Ordinal(b))
  {
    OrdinalRoundTrip(a, 0);
    OrdinalRoundTrip(b, 0);
  }

  /** The error test: the code made from UrlInit reads "failed to init url
      handle". */
  lemma UrlInitMessage()
    ensures MakeErrorCode(UrlInit).MessageText() == "failed to init url handle"
  {
  }
}
