/** `showErrorMessage`: the message shown to the user for the message of an
    error that ended a request, chosen by substring tests in a fixed order. */
module ErrorMessages {
  import opened Wrappers
  import opened Text
  import opened ChiefAIClient

  /** The four messages the user can see. */
  datatype Notice = NetworkNotice | ServerNotice | RateLimitNotice | GenericNotice

  const NetworkText := "Network error. Please check your internet connection."
  const ServerText := "Server is temporarily unavailable. Please try again later."
  const RateLimitText := "Too many requests. Please wait a moment before trying again."
  const GenericText := "Oops! Something went wrong. Please try again."

  /** The text of each notice. */
  function NoticeText(n: Notice): string
  {
    match n
    case NetworkNotice => NetworkText
    case ServerNotice => ServerText
    case RateLimitNotice => RateLimitText
    case GenericNotice => GenericText
  }

  /** The notice for an error message: the first of the tests that holds. */
  function Classify(error: string): Notice
  {
    if Contains(error, "Failed to fetch") then NetworkNotice
    else if Contains(error, "500") || Contains(error, "Internal Server Error") then ServerNotice
    else if Contains(error, StatusLead + "429") then RateLimitNotice
    else GenericNotice
  }

  /** The script's branch chain: `userMessage` starts as the generic text and
      the first test that holds replaces it. */
  method ShowErrorMessage(error: string) returns (userMessage: string)
    ensures userMessage == NoticeText(Classify(error))
  {
    userMessage := GenericText;
    if Contains(error, "Failed to fetch") {
      userMessage := NetworkText;
    } else if Contains(error, "500") || Contains(error, "Internal Server Error") {
      userMessage := ServerText;
    } else if Contains(error, StatusLead + "429") {
      userMessage := RateLimitText;
    }
  }

  /** Each test decides only when the ones before it did not hold. */
  lemma ClassifyPriority(error: string)
    ensures Classify(error) == NetworkNotice <==> Contains(error, "Failed to fetch")
    ensures Classify(error) == ServerNotice
        <==> !Contains(error, "Failed to fetch") && (Contains(error, "500") || Contains(error, "Internal Server Error"))
    ensures Classify(error) == RateLimitNotice
        <==> (!Contains(error, "Failed to fetch") && !Contains(error, "500")
              && !Contains(error, "Internal Server Error") && Contains(error, StatusLead + "429"))
    ensures Classify(error) == GenericNotice
        <==> (!Contains(error, "Failed to fetch") && !Contains(error, "500")
              && !Contains(error, "Internal Server Error") && !Contains(error, StatusLead + "429"))
  {
  }

  /** The four texts differ, so the text shown tells which notice was chosen. */
  lemma NoticeTextInjective(m: Notice, n: Notice)
    ensures NoticeText(m) == NoticeText(n) <==> m == n
  {
    assert |NetworkText| == 53 && |ServerText| == 58;
    assert |RateLimitText| == 60 && |GenericText| == 45;
  }

  /** A string contains a pattern of its own length only by being it. */
  lemma ContainsSameLength(s: string, p: string)
    requires |s| == |p|
    ensures Contains(s, p) <==> s == p
  {
    ContainsIff(s, p);
    if s == p {
      assert s[0..|p|] == s;
      assert OccursAt(s, p, 0);
    }
  }

  /** After a lead without the pattern's first character, a tail of the
      pattern's length contains it only by being it. */
  lemma ContainsInTail(lead: string, tail: string, p: string)
    requires |p| > 0 && |tail| == |p| && p[0] !in lead
    ensures Contains(lead + tail, p) <==> tail == p
  {
    var s := lead + tail;
    ContainsIff(s, p);
    if Contains(s, p) {
      var j :| 0 <= j <= |s| && OccursAt(s, p, j);
      assert s[j..j + |p|][0] == s[j];
      assert j == |lead|;
      assert s[|lead|..] == tail;
    }
    if tail == p {
      assert s[|lead|..|lead| + |p|] == tail;
      assert OccursAt(s, p, |lead|);
    }
  }

  /** The text of a status, for a status of three digits. */
  lemma StatusTextDigits(status: nat)
    requires 100 <= status <= 999
    ensures ErrorText(status, None, None) == StatusLead + [Digit(status / 100), Digit(status / 10 % 10), Digit(status % 10)]
  {
    ThreeDigits(status);
  }

  lemma DigitInjective(a: nat, b: nat)
    requires a < 10 && b < 10 && Digit(a) == Digit(b)
    ensures a == b
  {
  }

  /** A capital `R` followed by lower-case letters and spaces. */
  predicate CapitalROnly(s: string)
  {
    s != [] && s[0] == 'R' && forall i :: 0 < i < |s| ==> ('a' <= s[i] <= 'z' || s[i] == ' ')
  }

  /** Such a text holds none of the characters the tests look for. */
  lemma CapitalROnlyLacks(s: string)
    requires CapitalROnly(s)
    ensures 'F' !in s && 'I' !in s && '5' !in s && '4' !in s
  {
  }

  /** The status lead holds none of the characters the tests start with. */
  lemma StatusLeadChars()
    ensures 'F' !in StatusLead && 'I' !in StatusLead && '5' !in StatusLead
  {
    assert CapitalROnly(StatusLead);
    CapitalROnlyLacks(StatusLead);
  }

  /** No digit is `F` or `I`. */
  lemma DigitChars(n: nat)
    requires n < 10
    ensures Digit(n) != 'F' && Digit(n) != 'I'
  {
  }

  /** A string that lacks one character of a pattern does not contain the pattern. */
  lemma CharOfPatternAbsent(s: string, p: string, k: nat)
    requires k < |p| && p[k] !in s
    ensures !Contains(s, p)
  {
    forall j | 0 <= j <= |s|
      ensures !OccursAt(s, p, j)
    {
      if j + |p| <= |s| { assert s[j..j + |p|][k] == s[j + k]; }
    }
    ContainsIff(s, p);
  }

  /** An error message without `F`, `5`, `I` and `4` gets the generic text. */
  lemma GenericWithout(error: string)
    requires 'F' !in error && '5' !in error && 'I' !in error && '4' !in error
    ensures Classify(error) == GenericNotice
  {
    FirstCharAbsent(error, "Failed to fetch");
    FirstCharAbsent(error, "500");
    FirstCharAbsent(error, "Internal Server Error");
    CharOfPatternAbsent(error, StatusLead + "429", |StatusLead|);
  }

  /** The message for a status holds neither `Failed to fetch` nor `Internal Server Error`. */
  lemma StatusTextNoNames(status: nat)
    requires 100 <= status <= 999
    ensures !Contains(ErrorText(status, None, None), "Failed to fetch")
    ensures !Contains(ErrorText(status, None, None), "Internal Server Error")
  {
    var e := ErrorText(status, None, None);
    StatusTextDigits(status);
    StatusLeadChars();
    DigitChars(status / 100);
    DigitChars(status / 10 % 10);
    DigitChars(status % 10);
    assert 'F' !in e && 'I' !in e;
    FirstCharAbsent(e, "Failed to fetch");
    FirstCharAbsent(e, "Internal Server Error");
  }

  /** The message for a status holds `500` only for status 500. */
  lemma StatusText500(status: nat)
    requires 100 <= status <= 999
    ensures Contains(ErrorText(status, None, None), "500") <==> status == 500
  {
    var ds := [Digit(status / 100), Digit(status / 10 % 10), Digit(status % 10)];
    StatusTextDigits(status);
    StatusLeadChars();
    ContainsInTail(StatusLead, ds, "500");
    if ds == "500" {
      DigitInjective(status / 100, 5);
      DigitInjective(status / 10 % 10, 0);
      DigitInjective(status % 10, 0);
    }
  }

  /** The message for a status is the rate-limit message only for status 429. */
  lemma StatusText429(status: nat)
    requires 100 <= status <= 999
    ensures Contains(ErrorText(status, None, None), StatusLead + "429") <==> status == 429
  {
    var ds := [Digit(status / 100), Digit(status / 10 % 10), Digit(status % 10)];
    StatusTextDigits(status);
    ContainsSameLength(StatusLead + ds, StatusLead + "429");
    if StatusLead + ds == StatusLead + "429" {
      AppendCancel(StatusLead, ds, "429");
      DigitInjective(status / 100, 4);
      DigitInjective(status / 10 % 10, 2);
      DigitInjective(status % 10, 9);
    }
  }

  lemma AppendCancel(a: string, x: string, y: string)
    requires a + x == a + y
    ensures x == y
  {
    assert x == (a + x)[|a|..];
    assert y == (a + y)[|a|..];
  }

  /** A response that is not ok and whose body names no error is shown as a
      server problem for status 500, as too many requests for 429, and with
      the generic text for every other status of three digits. */
  lemma StatusNotice(status: nat)
    requires 100 <= status <= 999
    ensures Classify(ErrorText(status, None, None))
         == (if status == 500 then ServerNotice
             else if status == 429 then RateLimitNotice
             else GenericNotice)
  {
    StatusTextNoNames(status);
    StatusText500(status);
    StatusText429(status);
  }

  /** A browser's `fetch` rejects a failed connection with "Failed to fetch":
      that is shown as a network problem, whatever else the message holds. */
  lemma NetworkFailureNotice(error: string)
    requires StartsWith(error, "Failed to fetch")
    ensures Classify(error) == NetworkNotice
  {
    assert OccursAt(error, "Failed to fetch", 0);
    ContainsIff(error, "Failed to fetch");
  }

  /** The empty-reply message holds none of `F`, `5`, `I` and `4`. */
  lemma EmptyReplyChars()
    ensures 'F' !in EmptyReplyMessage && '5' !in EmptyReplyMessage
    ensures 'I' !in EmptyReplyMessage && '4' !in EmptyReplyMessage
  {
    assert CapitalROnly(EmptyReplyMessage);
    CapitalROnlyLacks(EmptyReplyMessage);
  }

  /** An ok response with an empty reply is shown with the generic text. */
  lemma EmptyReplyNotice()
    ensures Classify(EmptyReplyMessage) == GenericNotice
  {
    EmptyReplyChars();
    GenericWithout(EmptyReplyMessage);
  }
}
