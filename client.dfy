/** `callChiefAI`: one request per attempt, retried while attempts are left.

    The network is not modelled. What the script can observe of an attempt
    (whether the response was ok, the fields of its body, or that something
    was thrown) is an `Outcome`, and the transport is a function giving the
    outcome of each attempt of a prompt, numbered from 0. */
module ChiefAIClient {
  import opened Wrappers
  import opened Text

  /** What one attempt comes to. */
  datatype Outcome =
      /** `response.ok`; the `reply` field of the body, when it is a string. */
    | Ok(reply: Option<string>)
      /** Not `response.ok`: the status and the body's `error` and `message`
          fields (absent, too, when the body is not JSON). */
    | NotOk(status: nat, error: Option<string>, message: Option<string>)
      /** `fetch` rejected, or an ok body was not JSON: the message of what was thrown. */
    | Thrown(reason: string)

  /** The default of the `retries` parameter. */
  const DefaultRetries: nat := 3

  const EmptyReplyMessage := "Received empty response from the server"

  const StatusLead := "Request failed with status "

  /** A field that JavaScript treats as true: present and not the empty string. */
  predicate Truthy(field: Option<string>)
  {
    field.Some? && field.value != ""
  }

  function Digit(n: nat): char
    requires n < 10
  {
    "0123456789"[n]
  }

  /** The decimal digits of `n`, as a template literal prints a status. */
  function NatToString(n: nat): (s: string)
    ensures |s| >= 1
    decreases n
  {
    if n < 10 then [Digit(n)] else NatToString(n / 10) + [Digit(n % 10)]
  }

  /** The message of the error thrown for a response that is not ok:
      `errorData.error || errorData.message || "Request failed with status " + status`. */
  function ErrorText(status: nat, error: Option<string>, message: Option<string>): (text: string)
    ensures text != ""
  {
    if Truthy(error) then error.value
    else if Truthy(message) then message.value
    else StatusLead + NatToString(status)
  }

  /** What one attempt gives: the reply, or the message of the error it throws. */
  function AttemptResult(o: Outcome): (r: Result<string, string>)
    ensures r.Success? <==> o.Ok? && Truthy(o.reply)
    ensures r.Success? ==> r.value == o.reply.value
  {
    match o
    case Ok(reply) => if Truthy(reply) then Success(reply.value) else Failure(EmptyReplyMessage)
    case NotOk(status, error, message) => Failure(ErrorText(status, error, message))
    case Thrown(reason) => Failure(reason)
  }

  /** `callChiefAI(prompt, retries)` as the script writes it, recursively:
      attempt `k`, and on failure try again with one retry fewer while any
      are left; when none are left the last failure is thrown. */
  function Call(prompt: string, retries: nat, transport: (string, nat) -> Outcome, k: nat): (r: Result<string, string>)
    ensures r.Success? ==> r.value != ""
    ensures r.Failure? ==> r == AttemptResult(transport(prompt, k + retries))
    decreases retries
  {
    match AttemptResult(transport(prompt, k))
    case Success(reply) => Success(reply)
    case Failure(e) => if retries > 0 then Call(prompt, retries - 1, transport, k + 1) else Failure(e)
  }

  /** The retry recursion as a bounded loop. `attempts` is how many requests were made. */
  method CallChiefAI(prompt: string, retries: nat, transport: (string, nat) -> Outcome)
      returns (result: Result<string, string>, attempts: nat)
    ensures result == Call(prompt, retries, transport, 0)
    ensures 1 <= attempts <= retries + 1
    ensures forall k :: 0 <= k < attempts - 1 ==> AttemptResult(transport(prompt, k)).Failure?
    ensures result == AttemptResult(transport(prompt, attempts - 1))
    ensures result.Failure? ==> attempts == retries + 1
  {
    result := AttemptResult(transport(prompt, 0));
    attempts := 1;
    var left: nat := retries;
    while result.Failure? && left > 0
      invariant 1 <= attempts && left + attempts == retries + 1
      invariant forall k :: 0 <= k < attempts - 1 ==> AttemptResult(transport(prompt, k)).Failure?
      invariant result == AttemptResult(transport(prompt, attempts - 1))
      invariant Call(prompt, retries, transport, 0) == Call(prompt, left, transport, attempts - 1)
      decreases left
    {
      left := left - 1;
      result := AttemptResult(transport(prompt, attempts));
      attempts := attempts + 1;
    }
  }

  /** The message of a failed attempt is never empty. */
  lemma FailureMessageNonEmpty(o: Outcome)
    requires AttemptResult(o).Failure? && (o.Thrown? ==> o.reason != "")
    ensures AttemptResult(o).error != ""
  {
  }

  /** The error text falls back in order: `error`, then `message`, then the status. */
  lemma ErrorTextFallback(status: nat, error: Option<string>, message: Option<string>)
    ensures Truthy(error) ==> ErrorText(status, error, message) == error.value
    ensures !Truthy(error) && Truthy(message) ==> ErrorText(status, error, message) == message.value
    ensures !Truthy(error) && !Truthy(message) ==> ErrorText(status, error, message) == StatusLead + NatToString(status)
  {
  }

  /** The first attempt that succeeds decides the call: its reply is returned. */
  lemma {:induction false} CallFirstSuccess(prompt: string, retries: nat, transport: (string, nat) -> Outcome, k: nat, j: nat)
    requires k <= j <= k + retries
    requires AttemptResult(transport(prompt, j)).Success?
    requires forall i :: k <= i < j ==> AttemptResult(transport(prompt, i)).Failure?
    ensures Call(prompt, retries, transport, k) == AttemptResult(transport(prompt, j))
    decreases retries
  {
    if k < j {
      CallFirstSuccess(prompt, retries - 1, transport, k + 1, j);
    }
  }

  /** When every attempt fails, the call fails with the last attempt's error. */
  lemma {:induction false} CallAllFail(prompt: string, retries: nat, transport: (string, nat) -> Outcome, k: nat)
    requires forall i :: k <= i <= k + retries ==> AttemptResult(transport(prompt, i)).Failure?
    ensures Call(prompt, retries, transport, k) == AttemptResult(transport(prompt, k + retries))
    decreases retries
  {
    if retries > 0 {
      CallAllFail(prompt, retries - 1, transport, k + 1);
    }
  }

  /** The call's result is that of one attempt among the first `retries + 1`,
      every earlier one failed, and a failure comes from the last one. */
  lemma {:induction false} CallIsOneAttempt(prompt: string, retries: nat, transport: (string, nat) -> Outcome, k: nat)
    ensures exists j :: (k <= j <= k + retries
      && Call(prompt, retries, transport, k) == AttemptResult(transport(prompt, j))
      && (forall i :: k <= i < j ==> AttemptResult(transport(prompt, i)).Failure?)
      && (Call(prompt, retries, transport, k).Failure? ==> j == k + retries))
    decreases retries
  {
    if AttemptResult(transport(prompt, k)).Success? || retries == 0 {
      assert k <= k <= k + retries && Call(prompt, retries, transport, k) == AttemptResult(transport(prompt, k));
    } else {
      CallIsOneAttempt(prompt, retries - 1, transport, k + 1);
      var j :| k + 1 <= j <= k + 1 + (retries - 1)
        && Call(prompt, retries - 1, transport, k + 1) == AttemptResult(transport(prompt, j))
        && (forall i :: k + 1 <= i < j ==> AttemptResult(transport(prompt, i)).Failure?)
        && (Call(prompt, retries - 1, transport, k + 1).Failure? ==> j == k + 1 + (retries - 1));
      assert forall i :: k <= i < j ==> AttemptResult(transport(prompt, i)).Failure?;
    }
  }

  /** The call fails exactly when every one of its `retries + 1` attempts fails. */
  lemma CallFailsIff(prompt: string, retries: nat, transport: (string, nat) -> Outcome)
    ensures Call(prompt, retries, transport, 0).Failure?
        <==> forall k :: 0 <= k <= retries ==> AttemptResult(transport(prompt, k)).Failure?
  {
    CallIsOneAttempt(prompt, retries, transport, 0);
    if forall k :: 0 <= k <= retries ==> AttemptResult(transport(prompt, k)).Failure? {
      CallAllFail(prompt, retries, transport, 0);
    }
  }

  /** With the default of three retries the script makes at most four requests. */
  lemma DefaultAttemptBound(prompt: string, transport: (string, nat) -> Outcome)
    ensures exists j :: 0 <= j < 4 && Call(prompt, DefaultRetries, transport, 0) == AttemptResult(transport(prompt, j))
  {
    CallIsOneAttempt(prompt, DefaultRetries, transport, 0);
  }

  /** The decimal text of a status from 100 to 999 is its three digits. */
  lemma ThreeDigits(n: nat)
    requires 100 <= n <= 999
    ensures NatToString(n) == [Digit(n / 100), Digit(n / 10 % 10), Digit(n % 10)]
  {
    var m := n / 10;
    assert 10 <= m < 100 && m / 10 == n / 100 && m % 10 == n / 10 % 10;
    assert NatToString(m / 10) == [Digit(n / 100)];
    assert NatToString(m) == [Digit(n / 100), Digit(n / 10 % 10)];
  }
}
