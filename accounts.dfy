/**
 * The decision inferAccountIDFromMemberships makes once the memberships
 * request has been sent and its response decoded.
 */
module Accounts {
  import opened Wrappers
  import opened GoStrings
  import opened ApiErrors

  /** The account of one membership. */
  datatype Membership = Membership(id: string, name: string)

  /**
   * What the memberships request produced: a transport or decoding error
   * (its text), or a decoded response with its HTTP status.
   */
  datatype MembershipsResponse =
    | TransportFailure(err: string)
    | Response(status: int, success: bool, errors: seq<ApiError>, result: seq<Membership>)

  const NoMemberships: string := "no Cloudflare account memberships found for token"
  const MultiplePrefix: string := "multiple accounts found; set CF_ACCOUNT_ID. available: "

  /** One candidate listed as "Name (ID)". */
  function Choice(m: Membership): string
  {
    m.name + " (" + m.id + ")"
  }

  /** All candidates, listed in input order. */
  function Choices(items: seq<Membership>): (r: seq<string>)
    ensures |r| == |items|
    ensures forall i :: 0 <= i < |items| ==> r[i] == Choice(items[i])
  {
    seq(|items|, i requires 0 <= i < |items| => Choice(items[i]))
  }

  /** No membership is an error, one gives its account, several are listed in the error. */
  function Selection(items: seq<Membership>): Result<string, string>
  {
    if |items| == 0 then Failure(NoMemberships)
    else if |items| == 1 then Success(items[0].id)
    else Failure(MultiplePrefix + Join(Choices(items), ", "))
  }

  /** The selection tail of inferAccountIDFromMemberships, with its listing loop. */
  method SelectAccount(items: seq<Membership>) returns (r: Result<string, string>)
    ensures r == Selection(items)
  {
    if |items| == 0 {
      return Failure(NoMemberships);
    }
    if |items| == 1 {
      return Success(items[0].id);
    }
    var choices: seq<string> := [];
    var i := 0;
    while i < |items|
      invariant 0 <= i <= |items|
      invariant |choices| == i
      invariant forall j :: 0 <= j < i ==> choices[j] == Choice(items[j])
    {
      choices := choices + [Choice(items[i])];
      i := i + 1;
    }
    assert choices == Choices(items);
    r := Failure(MultiplePrefix + Join(choices, ", "));
  }

  /**
   * The account a decoded memberships response names: a failed request
   * reports its API errors, a successful one goes through the selection.
   */
  function Inference(resp: MembershipsResponse): Result<string, string>
  {
    match resp
    case TransportFailure(err) => Failure(err)
    case Response(status, success, errors, result) =>
      if status >= 400 || !success then Failure(ApiErrorsMessage(errors, status))
      else Selection(result)
  }

  /** inferAccountIDFromMemberships after the HTTP exchange. */
  method InferAccountID(resp: MembershipsResponse) returns (r: Result<string, string>)
    ensures r == Inference(resp)
  {
    if resp.TransportFailure? {
      return Failure(resp.err);
    }
    if resp.status >= 400 || !resp.success {
      var msg := FormatAPIErrors(resp.errors, resp.status);
      return Failure(msg);
    }
    r := SelectAccount(resp.result);
  }

  /**
   * Zero candidates give the "no memberships" error, exactly one gives its
   * ID, and two or more give an error listing every candidate.
   */
  lemma SelectionCases(items: seq<Membership>)
    ensures |items| == 0 <==> Selection(items) == Failure(NoMemberships)
    ensures |items| == 1 <==> Selection(items).Success?
    ensures |items| == 1 ==> Selection(items).value == items[0].id
    ensures |items| >= 2 ==> Selection(items).Failure? && HasPrefix(Selection(items).error, MultiplePrefix)
  {
    if |items| >= 2 {
      var e := Selection(items).error;
      assert e[..|MultiplePrefix|] == MultiplePrefix;
      assert e != NoMemberships by {
        assert |e| >= |MultiplePrefix| > |NoMemberships|;
      }
    }
  }

  /** With several candidates, the error names each one's name and ID. */
  lemma EveryCandidateListed(items: seq<Membership>, i: nat)
    requires |items| >= 2 && i < |items|
    ensures IsInfix(Choice(items[i]), Selection(items).error)
    ensures IsInfix(items[i].name, Selection(items).error)
    ensures IsInfix(items[i].id, Selection(items).error)
  {
    var list := Join(Choices(items), ", ");
    var e := Selection(items).error;
    JoinContainsPart(Choices(items), ", ", i);
    assert InfixAt(list, e, |MultiplePrefix|) by {
      assert e[|MultiplePrefix|..|MultiplePrefix| + |list|] == list;
    }
    InfixTransitive(Choice(items[i]), list, e);
    var c := Choice(items[i]);
    assert InfixAt(items[i].name, c, 0) by {
      assert c[0..|items[i].name|] == items[i].name;
    }
    assert InfixAt(items[i].id, c, |items[i].name| + 2) by {
      assert c[|items[i].name| + 2..|items[i].name| + 2 + |items[i].id|] == items[i].id;
    }
    InfixTransitive(items[i].name, c, e);
    InfixTransitive(items[i].id, c, e);
  }

  /** A failed request reports its API errors, whatever memberships it carried. */
  lemma FailedRequestReportsErrors(status: int, success: bool, errors: seq<ApiError>, result: seq<Membership>)
    requires status >= 400 || !success
    ensures Inference(Response(status, success, errors, result)) == Failure(ApiErrorsMessage(errors, status))
  {
  }
}
