/**
 * The reply the application sends back to the gateway after a
 * notification: a status, the URL the customer is redirected to and, for
 * every status but OK, a detail line. Which status is sent is decided by
 * six rules tried in order, the first that applies winning.
 */
module Acknowledgement {
  import opened Optional
  import opened RubyString
  import ResponseBody

  /** The status symbols passed to `format_response`. */
  datatype AckStatus = Ok | Invalid | Error

  /** `status.to_s` for those symbols. */
  function SymbolName(s: AckStatus): string
  {
    match s
    case Ok => "ok"
    case Invalid => "invalid"
    case Error => "error"
  }

  /** The word on the `Status=` line: `status.to_s.upcase`. */
  function StatusWord(s: AckStatus): string
  {
    Upcase(SymbolName(s))
  }

  /** The three status words are the upper-case OK, INVALID and ERROR, so they are told apart. */
  lemma StatusWords()
    ensures StatusWord(Ok) == "OK"
    ensures StatusWord(Invalid) == "INVALID"
    ensures StatusWord(Error) == "ERROR"
  {
    UpcaseOk();
    UpcaseInvalid();
    UpcaseError();
  }

  // One lemma per status word, only to keep each proof small.

  lemma UpcaseOk()
    ensures Upcase("ok") == "OK"
  {
    var r := Upcase("ok");
    assert r[0] == UpChar('o') && r[1] == UpChar('k');
  }

  lemma UpcaseInvalid()
    ensures Upcase("invalid") == "INVALID"
  {
    var r := Upcase("invalid");
    assert r[0] == UpChar('i') && r[1] == UpChar('n') && r[2] == UpChar('v');
    assert r[3] == UpChar('a') && r[4] == UpChar('l') && r[5] == UpChar('i') && r[6] == UpChar('d');
  }

  lemma UpcaseError()
    ensures Upcase("error") == "ERROR"
  {
    var r := Upcase("error");
    assert r[0] == UpChar('e') && r[1] == UpChar('r') && r[2] == UpChar('r');
    assert r[3] == UpChar('o') && r[4] == UpChar('r');
  }

  /** A decided acknowledgement: its status and, unless nil, its detail. */
  datatype Ack = Ack(status: AckStatus, details: Option<string>)

  /** Gateway statuses acknowledged as OK. */
  const OkStatuses: set<string> := {"OK", "NOTAUTHED", "ABORT", "REJECTED"}

  /** Gateway statuses that are valid but not expected in a notification. */
  const UnexpectedStatuses: set<string> := {"AUTHENTICATED", "REGISTERED"}

  /** status is one of the given strings (`%w{...}.include?(status)`); nil is in none. */
  predicate OneOf(status: Option<string>, words: set<string>)
  {
    status.Some? && status.value in words
  }

  /** The rules of `response`, tried in order. */
  function Decide(found: bool, signatureOk: bool, status: Option<string>): (a: Ack)
    ensures a.status == Ok <==> found && signatureOk && OneOf(status, OkStatuses)
    ensures a.status == Error <==> found && signatureOk && status == Some("ERROR")
    ensures a.details.None? <==> a.status == Ok
  {
    if !found then Ack(Invalid, Some("Transaction not found"))
    else if !signatureOk then Ack(Invalid, Some("Security check failed"))
    else if status == Some("ERROR") then Ack(Error, Some("Sage Pay reported an error"))
    else if OneOf(status, UnexpectedStatuses) then Ack(Invalid, Some("Unexpected status"))
    else if !OneOf(status, OkStatuses) then Ack(Invalid, Some("Invalid status: " + Interpolate(status)))
    else Ack(Ok, None)
  }

  /** An earlier rule wins over every later one. */
  lemma RulePriority(found: bool, signatureOk: bool, status: Option<string>)
    ensures !found ==> Decide(found, signatureOk, status) == Ack(Invalid, Some("Transaction not found"))
    ensures found && !signatureOk ==>
      Decide(found, signatureOk, status) == Ack(Invalid, Some("Security check failed"))
    ensures found && signatureOk && status == Some("ERROR") ==>
      Decide(found, signatureOk, status) == Ack(Error, Some("Sage Pay reported an error"))
    ensures found && signatureOk && OneOf(status, UnexpectedStatuses) ==>
      Decide(found, signatureOk, status) == Ack(Invalid, Some("Unexpected status"))
  {
  }

  /** Any status outside the eight known words, nil and "" included, is echoed back as invalid. */
  lemma UnknownStatusEchoed(status: Option<string>)
    requires status != Some("ERROR") && !OneOf(status, UnexpectedStatuses) && !OneOf(status, OkStatuses)
    ensures Decide(true, true, status) == Ack(Invalid, Some("Invalid status: " + Interpolate(status)))
  {
  }

  /** The entries the reply carries, in order. */
  function AckEntries(status: AckStatus, notificationUrl: string, details: Option<string>): seq<(string, string)>
  {
    [("Status", StatusWord(status)), ("RedirectURL", notificationUrl)]
    + (if details.Some? then [("StatusDetail", details.value)] else [])
  }

  /**
   * `format_response`: the `Status=` and `RedirectURL=` lines and, unless
   * the detail is nil, a `StatusDetail=` line, which is the reply format's
   * rendering of those entries.
   */
  function FormatResponse(status: AckStatus, notificationUrl: string, details: Option<string>): (r: string)
    ensures r == ResponseBody.Render(AckEntries(status, notificationUrl, details))
  {
    var w := StatusWord(status);
    var e0, e1 := ("Status", w), ("RedirectURL", notificationUrl);
    var str := "Status=" + w + "\r\nRedirectURL=" + notificationUrl;
    HeadLines(w, notificationUrl);
    if details.Some? then
      var e2 := ("StatusDetail", details.value);
      DetailLine(str, details.value);
      RenderThree(e0, e1, e2);
      assert AckEntries(status, notificationUrl, details) == [e0, e1, e2];
      str + "\r\nStatusDetail=" + details.value
    else
      RenderTwo(e0, e1);
      assert AckEntries(status, notificationUrl, details) == [e0, e1];
      str
  }

  /** The Status and RedirectURL part of the reply is their two lines. */
  lemma HeadLines(w: string, url: string)
    ensures "Status=" + w + "\r\nRedirectURL=" + url
         == ResponseBody.Line(("Status", w)) + [CR, LF] + ResponseBody.Line(("RedirectURL", url))
  {
    assert "Status=" == "Status" + "=";
    assert "\r\nRedirectURL=" == [CR, LF] + "RedirectURL" + "=";
  }

  /** The StatusDetail part of the reply is a line break and its line. */
  lemma DetailLine(head: string, d: string)
    ensures head + "\r\nStatusDetail=" + d == head + [CR, LF] + ResponseBody.Line(("StatusDetail", d))
  {
    assert "\r\nStatusDetail=" == [CR, LF] + "StatusDetail" + "=";
  }

  /** Two entries are written as two lines. */
  lemma RenderTwo(e0: (string, string), e1: (string, string))
    ensures ResponseBody.Render([e0, e1]) == ResponseBody.Line(e0) + [CR, LF] + ResponseBody.Line(e1)
  {
    var es := [e0, e1];
    var ls := seq(|es|, i requires 0 <= i < |es| => ResponseBody.Line(es[i]));
    assert ls == [ResponseBody.Line(e0), ResponseBody.Line(e1)];
    assert JoinCrlf(ls) == ls[0] + [CR, LF] + JoinCrlf(ls[1..]);
  }

  /** Three entries are written as three lines. */
  lemma RenderThree(e0: (string, string), e1: (string, string), e2: (string, string))
    ensures ResponseBody.Render([e0, e1, e2])
         == ResponseBody.Line(e0) + [CR, LF] + ResponseBody.Line(e1) + [CR, LF] + ResponseBody.Line(e2)
  {
    var es := [e0, e1, e2];
    var ls := seq(|es|, i requires 0 <= i < |es| => ResponseBody.Line(es[i]));
    assert ls == [ResponseBody.Line(e0), ResponseBody.Line(e1), ResponseBody.Line(e2)];
    assert ls[1..] == [ResponseBody.Line(e1), ResponseBody.Line(e2)];
    assert JoinCrlf(ls[1..]) == ls[1] + [CR, LF] + JoinCrlf(ls[2..]);
    assert JoinCrlf(ls) == ls[0] + [CR, LF] + JoinCrlf(ls[1..]);
  }

  /**
   * Round trip: read back in the gateway's own `Key=Value` format, the
   * reply gives the status word, the redirect URL and, exactly when there
   * is one, the detail, provided neither the URL nor the detail holds a
   * line break.
   */
  lemma ReadBack(status: AckStatus, notificationUrl: string, details: Option<string>)
    requires !ContainsCrlf(notificationUrl)
    requires details.Some? ==> !ContainsCrlf(details.value)
    ensures var reply := ResponseBody.Parsed(FormatResponse(status, notificationUrl, details));
      && "Status" in reply && reply["Status"] == StatusWord(status)
      && "RedirectURL" in reply && reply["RedirectURL"] == notificationUrl
      && ("StatusDetail" in reply <==> details.Some?)
      && (details.Some? ==> reply["StatusDetail"] == details.value)
  {
    StatusWordHasNoCrlf(status);
    var es := AckEntries(status, notificationUrl, details);
    assert forall i :: 0 <= i < |es| ==> !ContainsCrlf(es[i].1);
    ReadBackEntries(es);
  }

  lemma StatusWordHasNoCrlf(status: AckStatus)
    ensures !ContainsCrlf(StatusWord(status))
  {
    StatusWords();
    NoCrNoCrlf(StatusWord(status));
  }

  /** The reading-back step of ReadBack, on the entries alone. */
  lemma ReadBackEntries(es: seq<(string, string)>)
    requires |es| == 2 || |es| == 3
    requires es[0].0 == "Status" && es[1].0 == "RedirectURL" && (|es| == 3 ==> es[2].0 == "StatusDetail")
    requires forall i :: 0 <= i < |es| ==> !ContainsCrlf(es[i].1)
    ensures var reply := ResponseBody.Parsed(ResponseBody.Render(es));
      && "Status" in reply && reply["Status"] == es[0].1
      && "RedirectURL" in reply && reply["RedirectURL"] == es[1].1
      && ("StatusDetail" in reply <==> |es| == 3)
      && (|es| == 3 ==> reply["StatusDetail"] == es[2].1)
  {
    EntriesWritable(es);
    ResponseBody.ParseRender(es);
    var reply := ResponseBody.Parsed(ResponseBody.Render(es));
    if "StatusDetail" in reply {
      var i :| 0 <= i < |es| && es[i].0 == "StatusDetail";
      assert i == 2;
    }
  }

  /** The reply's entries can be written and read back, under distinct keys. */
  lemma EntriesWritable(es: seq<(string, string)>)
    requires |es| == 2 || |es| == 3
    requires es[0].0 == "Status" && es[1].0 == "RedirectURL" && (|es| == 3 ==> es[2].0 == "StatusDetail")
    requires forall i :: 0 <= i < |es| ==> !ContainsCrlf(es[i].1)
    ensures forall i :: 0 <= i < |es| ==> ResponseBody.Writable(es[i])
    ensures forall i, j :: 0 <= i < j < |es| ==> es[i].0 != es[j].0
  {
    NoCrNoCrlf("Status");
    NoCrNoCrlf("RedirectURL");
    NoCrNoCrlf("StatusDetail");
    assert "Status" != "RedirectURL" && "Status" != "StatusDetail" && "RedirectURL" != "StatusDetail";
  }

  /**
   * `response` on the facts it consults: the decided status and detail,
   * formatted. A missing transaction is answered INVALID whatever else
   * holds; read back by the gateway, the reply says OK exactly when the
   * transaction exists, its signature checks and its status is one of the
   * four accepted ones, and carries a detail line exactly when it does not.
   */
  function Respond(found: bool, signatureOk: bool, status: Option<string>, notificationUrl: string): (r: string)
    ensures !found ==> r == FormatResponse(Invalid, notificationUrl, Some("Transaction not found"))
    ensures !ContainsCrlf(notificationUrl) && !ContainsCrlf(Interpolate(status)) ==>
      var reply := ResponseBody.Parsed(r);
      && "Status" in reply
      && (reply["Status"] == "OK" <==> found && signatureOk && OneOf(status, OkStatuses))
      && ("StatusDetail" in reply <==> !(found && signatureOk && OneOf(status, OkStatuses)))
  {
    var ack := Decide(found, signatureOk, status);
    DecisionReadBack(found, signatureOk, status, notificationUrl);
    FormatResponse(ack.status, notificationUrl, ack.details)
  }

  /** The read-back promise of Respond, stated on the decision it formats. */
  lemma DecisionReadBack(found: bool, signatureOk: bool, status: Option<string>, notificationUrl: string)
    ensures !ContainsCrlf(notificationUrl) && !ContainsCrlf(Interpolate(status)) ==>
      var ack := Decide(found, signatureOk, status);
      var reply := ResponseBody.Parsed(FormatResponse(ack.status, notificationUrl, ack.details));
      && "Status" in reply
      && (reply["Status"] == "OK" <==> found && signatureOk && OneOf(status, OkStatuses))
      && ("StatusDetail" in reply <==> !(found && signatureOk && OneOf(status, OkStatuses)))
  {
    if !ContainsCrlf(notificationUrl) && !ContainsCrlf(Interpolate(status)) {
      var ack := Decide(found, signatureOk, status);
      DetailHasNoCrlf(found, signatureOk, status);
      ReadBack(ack.status, notificationUrl, ack.details);
      StatusWords();
    }
  }

  /** No decided detail holds a line break when the status does not. */
  lemma DetailHasNoCrlf(found: bool, signatureOk: bool, status: Option<string>)
    requires !ContainsCrlf(Interpolate(status))
    ensures var ack := Decide(found, signatureOk, status);
      ack.details.Some? ==> !ContainsCrlf(ack.details.value)
  {
    FixedDetailsHaveNoCrlf();
    NoCrNoCrlf("Invalid status: ");
    ConcatNoCrlf("Invalid status: ", Interpolate(status));
  }

  /** The fixed detail messages hold no line break. */
  lemma FixedDetailsHaveNoCrlf()
    ensures !ContainsCrlf("Transaction not found") && !ContainsCrlf("Security check failed")
    ensures !ContainsCrlf("Sage Pay reported an error") && !ContainsCrlf("Unexpected status")
  {
    RejectionDetailsHaveNoCrlf();
    NoCrNoCrlf("Sage Pay reported an error");
    NoCrNoCrlf("Unexpected status");
  }

  /** Split from FixedDetailsHaveNoCrlf only to keep each proof small. */
  lemma RejectionDetailsHaveNoCrlf()
    ensures !ContainsCrlf("Transaction not found") && !ContainsCrlf("Security check failed")
  {
    NoCrNoCrlf("Transaction not found");
    NoCrNoCrlf("Security check failed");
  }

  /** The outcomes the transaction's tests expect of an existing, correctly signed notification. */
  lemma StatusScenarios()
    ensures Decide(true, true, Some("CUSTARD")) == Ack(Invalid, Some("Invalid status: CUSTARD"))
    ensures Decide(true, true, Some("")) == Ack(Invalid, Some("Invalid status: "))
    ensures Decide(true, true, None) == Ack(Invalid, Some("Invalid status: "))
    ensures Decide(true, true, Some("AUTHENTICATED")) == Ack(Invalid, Some("Unexpected status"))
    ensures Decide(true, true, Some("REGISTERED")) == Ack(Invalid, Some("Unexpected status"))
    ensures forall s :: s in OkStatuses ==> Decide(true, true, Some(s)) == Ack(Ok, None)
  {
    assert "Invalid status: " + "CUSTARD" == "Invalid status: CUSTARD";
    assert "Invalid status: " + "" == "Invalid status: ";
  }
}
