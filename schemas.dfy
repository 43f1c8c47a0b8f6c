/**
 * The request validators of the API schemas: the password of `UserCreate`
 * and the page and limit of `PaginationParams`. Each either returns its
 * argument unchanged or raises a `ValueError`, modelled as `Err` with the
 * error's message.
 */
module Schemas {
  import opened Wrappers

  const MinPasswordLength: nat := 6
  const MaxLimit: int := 100

  /** The declared defaults of `PaginationParams`. */
  const DefaultPage: int := 1
  const DefaultLimit: int := 20

  const PasswordTooShort := "Password must be at least 6 characters long"
  const PageTooSmall := "Page must be greater than 0"
  const LimitOutOfRange := "Limit must be between 1 and 100"

  /** `UserCreate.validate_password`: at least 6 characters, returned unchanged. */
  function ValidatePassword(v: string): (r: Result<string, string>)
    ensures r.Ok? <==> |v| >= MinPasswordLength
    ensures r.Ok? ==> r.value == v
    ensures r.Err? ==> r.error == PasswordTooShort
  {
    if |v| < 6 then Err(PasswordTooShort) else Ok(v)
  }

  /** `PaginationParams.validate_page`: any page from 1 up, returned unchanged. */
  function ValidatePage(v: int): (r: Result<int, string>)
    ensures r.Ok? <==> v >= 1
    ensures r.Ok? ==> r.value == v
    ensures r.Err? ==> r.error == PageTooSmall
  {
    if v < 1 then Err(PageTooSmall) else Ok(v)
  }

  /** `PaginationParams.validate_limit`: exactly the limits 1 to 100, returned unchanged. */
  function ValidateLimit(v: int): (r: Result<int, string>)
    ensures r.Ok? <==> 1 <= v <= MaxLimit
    ensures r.Ok? ==> r.value == v
    ensures r.Err? ==> r.error == LimitOutOfRange
  {
    if v < 1 || v > 100 then Err(LimitOutOfRange) else Ok(v)
  }

  /** The declared defaults pass their own validators. */
  lemma DefaultsAreValid()
    ensures ValidatePage(DefaultPage) == Ok(DefaultPage)
    ensures ValidateLimit(DefaultLimit) == Ok(DefaultLimit)
  {
  }
}
