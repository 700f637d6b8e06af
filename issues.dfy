/** Messages of the validation library's built-in checks (English locale), used where a schema
    does not give its own message. Only the first issue's message ever reaches a caller. */
module Issues {
  import opened Wrappers

  const TooSmallString := "Too small: expected string to have >=1 characters"
  const TooSmallNumber := "Too small: expected number to be >=0"
  const NotAnInteger := "Invalid input: expected int, received number"
  const TooSmallInt := "Too small: expected int to be >0"
  const TooBigInt := "Too big: expected int to be <5"
  /** The integer check also bounds the value to the integers a double holds exactly,
      +-(2^53 - 1), and reports a value beyond them before any later check. */
  const MaxSafeInteger := 9007199254740991
  const UnsafeIntTooBig := "Too big: expected int to be <=9007199254740991"
  const UnsafeIntTooSmall := "Too small: expected int to be >=-9007199254740991"
  const InvalidUrl := "Invalid URL"
  const InvalidVariantType :=
    "Invalid option: expected one of \"GROUP_ONLINE\"|\"GROUP_ONSITE\"|\"PRIVATE_ONLINE\"|\"PRIVATE_ONSITE\""
  const InvalidContentType := "Invalid option: expected one of \"FILE\"|\"LINK\"|\"WHATSAPP\""

  /** The library's integer check on a number. */
  predicate IsInteger(x: real)
  {
    x.Floor as real == x
  }

  /** The range part of the integer check on a value that passed `IsInteger`: `None` when the
      value is a safe integer, the library's issue otherwise. */
  function SafeIntegerIssue(x: real): (r: Option<string>)
    ensures r.None? <==> -MaxSafeInteger as real <= x <= MaxSafeInteger as real
    ensures r == Some(UnsafeIntTooBig) <==> x > MaxSafeInteger as real
    ensures r == Some(UnsafeIntTooSmall) <==> x < -MaxSafeInteger as real
  {
    if x > MaxSafeInteger as real then Some(UnsafeIntTooBig)
    else if x < -MaxSafeInteger as real then Some(UnsafeIntTooSmall)
    else None
  }
}
