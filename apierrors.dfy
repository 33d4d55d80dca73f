/** formatAPIErrors: the text of the error a failed API call returns. */
module ApiErrors {
  import opened Wrappers
  import opened GoStrings
  import opened GoStrconv

  /** One entry of the "errors" array of an API response. */
  datatype ApiError = ApiError(code: int, message: string)

  const StatusPrefix: string := "Cloudflare API request failed (HTTP "

  /** One error rendered as "%d: %s". */
  function ErrorPart(e: ApiError): string
  {
    FormatInt(e.code) + ": " + e.message
  }

  /** The rendered errors, one per entry, in order. */
  function ErrorParts(errs: seq<ApiError>): (parts: seq<string>)
    ensures |parts| == |errs|
    ensures forall i :: 0 <= i < |errs| ==> parts[i] == ErrorPart(errs[i])
  {
    seq(|errs|, i requires 0 <= i < |errs| => ErrorPart(errs[i]))
  }

  /**
   * The message: the HTTP status when the response carried no errors,
   * otherwise the rendered errors joined by "; ".
   */
  function ApiErrorsMessage(errs: seq<ApiError>, status: int): string
  {
    if |errs| == 0 then StatusPrefix + FormatInt(status) + ")"
    else Join(ErrorParts(errs), "; ")
  }

  /** formatAPIErrors, appending one part per error. */
  method FormatAPIErrors(errs: seq<ApiError>, status: int) returns (msg: string)
    ensures msg == ApiErrorsMessage(errs, status)
  {
    if |errs| == 0 {
      return StatusPrefix + FormatInt(status) + ")";
    }
    var parts: seq<string> := [];
    var i := 0;
    while i < |errs|
      invariant 0 <= i <= |errs|
      invariant |parts| == i
      invariant forall j :: 0 <= j < i ==> parts[j] == ErrorPart(errs[j])
    {
      parts := parts + [ErrorPart(errs[i])];
      i := i + 1;
    }
    assert parts == ErrorParts(errs);
    msg := Join(parts, "; ");
  }

  /** With no errors, the status can be read back from the message. */
  lemma StatusInMessage(status: int)
    requires MinInt64 <= status <= MaxInt64
    ensures var msg := ApiErrorsMessage([], status);
      && HasPrefix(msg, StatusPrefix) && msg[|msg| - 1] == ')'
      && Atoi(msg[|StatusPrefix|..|msg| - 1]) == Success(status)
  {
    var msg := ApiErrorsMessage([], status);
    assert msg[|StatusPrefix|..|msg| - 1] == FormatInt(status);
    AtoiFormatInt(status);
  }

  /** Every error's "code: message" occurs in the message. */
  lemma EveryErrorInMessage(errs: seq<ApiError>, status: int, i: nat)
    requires i < |errs|
    ensures IsInfix(ErrorPart(errs[i]), ApiErrorsMessage(errs, status))
  {
    JoinContainsPart(ErrorParts(errs), "; ", i);
  }

  /** A single error is the whole message. */
  lemma SingleErrorMessage(e: ApiError, status: int)
    ensures ApiErrorsMessage([e], status) == ErrorPart(e)
  {
  }

  /** The parts follow the input order: one more error adds its part at the end. */
  lemma MessageAppend(errs: seq<ApiError>, e: ApiError, status: int)
    requires |errs| > 0
    ensures ApiErrorsMessage(errs + [e], status) == ApiErrorsMessage(errs, status) + "; " + ErrorPart(e)
  {
    assert ErrorParts(errs + [e]) == ErrorParts(errs) + [ErrorPart(e)];
    JoinSnoc(ErrorParts(errs), ErrorPart(e), "; ");
  }
}
