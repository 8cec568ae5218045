/** The test-call form (frontend/src/pages/TestCall.js): US phone-number
    formatting as the user types, the form check before a call is placed, and
    the shaping of the number and questions sent to the backend. The question
    list itself is the one of `QuestionList`. */
module TestCall {
  import opened Common
  import opened Text
  import opened QuestionList

  const BlankPhoneMessage: string := "Please enter a phone number"
  const InvalidPhoneMessage: string := "Please enter a valid US phone number"
  const NoQuestionMessage: string := "Please add at least one question"

  /** The last ten of at least ten digits. */
  function LastTen(digits: string): (r: string)
    requires |digits| >= 10
    ensures |r| == 10
  {
    digits[|digits| - 10..]
  }

  /** `formatPhoneNumber`: with at least ten digits, the last ten as
      `+1 (AAA) BBB-CCCC`; otherwise the input exactly as typed. */
  function FormatPhoneNumber(value: string): string
  {
    var digits := Digits(value);
    if |digits| >= 10 then
      var n := |digits|;
      "+1 (" + digits[n - 10..n - 7] + ") " + digits[n - 7..n - 4] + "-" + digits[n - 4..]
    else value
  }

  lemma PunctuationDigits()
    ensures Digits("+1 (") == "1" && Digits(") ") == "" && Digits("-") == ""
  {
    assert "+1 ("[1..] == "1 (" && "1 ("[1..] == " (" && " ("[1..] == "(";
    assert ") "[1..] == " ";
  }

  /** The digits of `p + q` when those of `q` are known. */
  lemma DigitsAppend(p: string, q: string, dq: string)
    requires Digits(q) == dq
    ensures Digits(p + q) == Digits(p) + dq
  {
    DigitsConcat(p, q);
  }

  /** The digits of the `+1 (AAA) BBB-CCCC` layout are those of its prefix
      and the groups; the separators are parameters so that their digits are
      computed once. */
  lemma {:induction false} LayoutDigits(p1: string, a: string, p2: string, b: string, p3: string, c: string, lead: string)
    requires Digits(p1) == lead && Digits(p2) == "" && Digits(p3) == ""
    requires AllDigits(a) && AllDigits(b) && AllDigits(c)
    ensures Digits(p1 + a + p2 + b + p3 + c) == lead + a + b + c
  {
    DigitsOfDigits(a);
    DigitsOfDigits(b);
    DigitsOfDigits(c);
    var s1 := p1 + a;
    DigitsAppend(p1, a, a);
    var s2 := s1 + p2;
    DigitsAppend(s1, p2, "");
    assert Digits(s2) == lead + a;
    var s3 := s2 + b;
    DigitsAppend(s2, b, b);
    var s4 := s3 + p3;
    DigitsAppend(s3, p3, "");
    assert Digits(s4) == lead + a + b;
    DigitsAppend(s4, c, c);
  }

  /** The digits of a formatted number are a '1' followed by the last ten
      digits of the input; every earlier digit is dropped. */
  lemma FormattedDigits(value: string)
    requires |Digits(value)| >= 10
    ensures Digits(FormatPhoneNumber(value)) == "1" + LastTen(Digits(value))
  {
    var d := Digits(value);
    var n := |d|;
    var a, b, c := d[n - 10..n - 7], d[n - 7..n - 4], d[n - 4..];
    GroupsDigits(d, a, b, c);
  }

  lemma GroupsDigits(d: string, a: string, b: string, c: string)
    requires |d| >= 10 && AllDigits(d)
    requires a == d[|d| - 10..|d| - 7] && b == d[|d| - 7..|d| - 4] && c == d[|d| - 4..]
    ensures Digits("+1 (" + a + ") " + b + "-" + c) == "1" + LastTen(d)
  {
    assert AllDigits(a) && AllDigits(b) && AllDigits(c);
    PunctuationDigits();
    LayoutDigits("+1 (", a, ") ", b, "-", c, "1");
    assert LastTen(d) == a + b + c;
  }

  /** `formatPhoneNumber` leaves a number of fewer than ten digits as typed,
      and formats a longer one from its last ten digits alone. */
  lemma FormatPhoneNumberSpec(value: string, other: string)
    ensures |Digits(value)| < 10 ==> FormatPhoneNumber(value) == value
    ensures |Digits(value)| >= 10 && |Digits(other)| >= 10 && LastTen(Digits(value)) == LastTen(Digits(other)) ==>
      FormatPhoneNumber(value) == FormatPhoneNumber(other)
  {
    if |Digits(value)| >= 10 && |Digits(other)| >= 10 && LastTen(Digits(value)) == LastTen(Digits(other)) {
      GroupsOfLastTen(Digits(value));
      GroupsOfLastTen(Digits(other));
    }
  }

  /** The three groups `slice(-10, -7)`, `slice(-7, -4)` and `slice(-4)` are
      cut from the last ten digits. */
  lemma GroupsOfLastTen(d: string)
    requires |d| >= 10
    ensures var n := |d|;
      && d[n - 10..n - 7] == LastTen(d)[0..3]
      && d[n - 7..n - 4] == LastTen(d)[3..6]
      && d[n - 4..] == LastTen(d)[6..]
  {
  }

  /** Formatting a formatted number changes nothing. */
  lemma FormatPhoneNumberIdempotent(value: string)
    ensures FormatPhoneNumber(FormatPhoneNumber(value)) == FormatPhoneNumber(value)
  {
    if |Digits(value)| >= 10 {
      var formatted := FormatPhoneNumber(value);
      FormattedDigits(value);
      assert LastTen(Digits(formatted)) == LastTen(Digits(value));
      FormatPhoneNumberSpec(formatted, value);
    }
  }

  /** Eleven digits starting with '1': the phone check of `validateForm`. */
  predicate IsUsPhone(phoneNumber: string)
  {
    var digits := Digits(phoneNumber);
    |digits| == 11 && digits[0] == '1'
  }

  /** `validateForm`: the guards in order, each with its own message. */
  function ValidateForm(phoneNumber: string, questions: seq<string>): Verdict
  {
    if Trim(phoneNumber) == "" then Refused(BlankPhoneMessage)
    else if !IsUsPhone(phoneNumber) then Refused(InvalidPhoneMessage)
    else if NonBlank(questions) == [] then Refused(NoQuestionMessage)
    else Accepted
  }

  lemma {:induction false} BlankHasNoDigits(s: string)
    requires IsBlank(s)
    ensures Digits(s) == []
  {
    if s != [] {
      BlankHasNoDigits(s[1..]);
    }
  }

  /** The form is accepted exactly when the number has eleven digits starting
      with '1' and some question is not blank; a blank number is reported as
      missing, before the digit check, and a valid number with only blank
      questions asks for a question. */
  lemma ValidateFormSpec(phoneNumber: string, questions: seq<string>)
    ensures ValidateForm(phoneNumber, questions) == Accepted <==>
      IsUsPhone(phoneNumber) && exists i :: 0 <= i < |questions| && !IsBlank(questions[i])
    ensures IsBlank(phoneNumber) ==> ValidateForm(phoneNumber, questions) == Refused(BlankPhoneMessage)
    ensures !IsBlank(phoneNumber) && !IsUsPhone(phoneNumber) ==> ValidateForm(phoneNumber, questions) == Refused(InvalidPhoneMessage)
    ensures IsUsPhone(phoneNumber) && NonBlank(questions) == [] ==> ValidateForm(phoneNumber, questions) == Refused(NoQuestionMessage)
  {
    TrimEmptyIffBlank(phoneNumber);
    NonBlankEmpty(questions);
    if IsBlank(phoneNumber) {
      BlankHasNoDigits(phoneNumber);
    }
  }

  /** Every number the formatter produces passes the phone checks, so only
      the questions can still reject the form. */
  lemma FormattedNumberIsValid(value: string, questions: seq<string>)
    requires |Digits(value)| >= 10
    ensures IsUsPhone(FormatPhoneNumber(value))
    ensures ValidateForm(FormatPhoneNumber(value), questions) ==
      (if NonBlank(questions) == [] then Refused(NoQuestionMessage) else Accepted)
  {
    FormattedDigits(value);
    var formatted := FormatPhoneNumber(value);
    assert formatted[0] == '+' && !IsSpace(formatted[0]);
    TrimEmptyIffBlank(formatted);
  }

  /** `phoneNumber.replace(/\D/g, '').replace(/^1/, '+1')`. */
  function BackendPhone(phoneNumber: string): string
  {
    var digits := Digits(phoneNumber);
    if |digits| > 0 && digits[0] == '1' then "+1" + digits[1..] else digits
  }

  /** The body of the `/api/calls/initiate` request. */
  datatype CallRequest = CallRequest(phoneNumber: string, campaignId: string, questions: seq<string>)

  function InitiatePayload(phoneNumber: string, campaignId: string, questions: seq<string>): CallRequest
  {
    CallRequest(BackendPhone(phoneNumber), campaignId, NonBlank(questions))
  }

  /** The backend keeps every digit of the number and gains only a '+' when
      it starts with '1'. */
  lemma BackendPhoneDigits(phoneNumber: string)
    ensures Digits(BackendPhone(phoneNumber)) == Digits(phoneNumber)
    ensures IsUsPhone(phoneNumber) ==> BackendPhone(phoneNumber) == "+" + Digits(phoneNumber)
  {
    var d := Digits(phoneNumber);
    if |d| > 0 && d[0] == '1' {
      assert "+1" + d[1..] == "+" + d;
      DigitsConcat("+", d);
      assert Digits("+") == "";
      DigitsOfDigits(d);
    } else {
      DigitsOfDigits(d);
    }
  }

  /** For an accepted form, the backend receives '+' and the eleven digits,
      and the non-blank questions in their original order; for a formatted
      number that is "+1" and its last ten digits. */
  lemma InitiatePayloadSpec(phoneNumber: string, campaignId: string, questions: seq<string>)
    requires ValidateForm(phoneNumber, questions) == Accepted
    ensures var request := InitiatePayload(phoneNumber, campaignId, questions);
      && request.phoneNumber == "+" + Digits(phoneNumber) && |request.phoneNumber| == 12
      && request.campaignId == campaignId
      && request.questions != [] && IsSubsequence(request.questions, questions)
      && forall i :: 0 <= i < |request.questions| ==> !IsBlank(request.questions[i])
  {
    BackendPhoneDigits(phoneNumber);
  }

  lemma FormattedPayloadPhone(value: string)
    requires |Digits(value)| >= 10
    ensures BackendPhone(FormatPhoneNumber(value)) == "+1" + LastTen(Digits(value))
  {
    FormattedDigits(value);
    FormattedNumberIsValid(value, []);
    BackendPhoneDigits(FormatPhoneNumber(value));
  }
}
