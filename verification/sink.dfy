/** The status classification of `ClickHouseSink::send`: which outcomes of
    one POST count as delivered, the text of the exception raised for the
    others, and the "HTTP 503" test the flush coordinator applies to that
    text. The curl transfer itself is not modelled: its observable result
    is the `Transport` value. */
module Sink {
  import opened Text

  /** What one POST attempt observed. */
  datatype Transport =
    | InitFailed                          // curl_easy_init returned null
    | TransferFailed(error: string)       // curl_easy_perform failed; curl's error text
    | Response(httpCode: int, body: string)

  /** Outcome of `send`: it returns, or throws an exception with text `what`. */
  datatype SendResult = Sent | Failed(what: string)

  const InsertFailed: string := "ClickHouse insert failed: "
  const InitFailedText: string := "curl init failed"

  /** The text the coordinator searches to recognise a rate limit. */
  const OverloadMarker: string := "HTTP 503"

  /** "HTTP <code>: <body>", the detail of a non-2xx response. */
  function StatusMessage(code: int, body: string): string {
    "HTTP " + IntToDecimal(code) + ": " + body
  }

  predicate IsSuccessStatus(code: int) {
    200 <= code < 300
  }

  /** `ClickHouseSink::send` seen from its caller. curl's error text is a
      C string; the response body is kept byte for byte. */
  function Send(t: Transport): (r: SendResult)
    ensures r.Sent? <==> t.Response? && IsSuccessStatus(t.httpCode)
    ensures t.InitFailed? ==> r == Failed(InitFailedText)
    ensures t.TransferFailed? ==> r == Failed(InsertFailed + CStr(t.error))
    ensures t.Response? && r.Failed? ==> r.what == InsertFailed + StatusMessage(t.httpCode, t.body)
  {
    match t
    case InitFailed => Failed(InitFailedText)
    case TransferFailed(e) => Failed(InsertFailed + CStr(e))
    case Response(code, body) =>
      if code < 200 || code >= 300 then Failed(InsertFailed + StatusMessage(code, body)) else Sent
  }

  /** The coordinator's test `msg.find("HTTP 503") != npos`, where `msg`
      is built from `e.what()` and so ends at the first NUL. */
  predicate IsOverload(r: SendResult) {
    r.Failed? && Contains(CStr(r.what), OverloadMarker)
  }

  /** Reads "HTTP <code>: <body>" back into its code and body. */
  function ParseStatusMessage(m: string): Option<(int, string)> {
    match Expect("HTTP ", m)
    case None => None
    case Some(rest) =>
      match ReadInt(rest)
      case None => None
      case Some((code, tail)) =>
        match Expect(": ", tail)
        case None => None
        case Some(body) => Some((code, body))
  }

  /** The failure text of a non-2xx response carries its code and body intact. */
  lemma StatusMessageRoundTrip(code: int, body: string)
    ensures ParseStatusMessage(StatusMessage(code, body)) == Some((code, body))
  {
    var d := IntToDecimal(code);
    assert StatusMessage(code, body) == "HTTP " + (d + (": " + body));
    ExpectLiteral("HTTP ", d + (": " + body));
    ReadIntOfDecimal(code, ": " + body);
    ExpectLiteral(": ", body);
  }

  /** The exception a failing response raises names its status code and
      carries its body intact after the fixed prefix. */
  lemma ResponseFailureReadsBack(code: int, body: string)
    requires !IsSuccessStatus(code)
    ensures Send(Response(code, body)).Failed?
    ensures var what := Send(Response(code, body)).what;
      && StartsWith(what, InsertFailed)
      && ParseStatusMessage(what[|InsertFailed|..]) == Some((code, body))
  {
    var what := Send(Response(code, body)).what;
    assert what[|InsertFailed|..] == StatusMessage(code, body);
    StatusMessageRoundTrip(code, body);
  }

  /** The structured reading of the substring test: which transports end up
      on the rate-limit path. A transfer error, or a response body up to its
      first NUL, that mentions "HTTP 503" counts, and so does any failing
      code whose decimal form starts with "503". */
  predicate OverloadEvidence(t: Transport) {
    match t
    case InitFailed => false
    case TransferFailed(e) => Contains(CStr(e), OverloadMarker)
    case Response(code, body) =>
      !IsSuccessStatus(code)
      && (StartsWith(IntToDecimal(code), "503") || Contains(CStr(body), OverloadMarker))
  }

  /** Where 'H' occurs in the fixed text before the code. */
  lemma PrefixLetters(i: int)
    requires 0 <= i < |InsertFailed + "HTTP "|
    requires (InsertFailed + "HTTP ")[i] == 'H'
    ensures i == 5 || i == 26
  {
    assert InsertFailed + "HTTP " == "ClickHouse insert failed: HTTP ";
  }

  lemma OccursAtChar(s: string, p: string, i: int, k: int)
    requires OccursAt(s, p, i) && 0 <= k < |p|
    ensures s[i + k] == p[k]
  {
    assert s[i..i + |p|][k] == s[i + k];
  }

  /** A marker window of `a + b` that starts at or after `|a|` lies in `b`. */
  lemma OccursInSuffix(a: string, b: string, p: string, i: int)
    requires OccursAt(a + b, p, i) && |a| <= i
    ensures OccursAt(b, p, i - |a|)
  {
    assert (a + b)[i..i + |p|] == b[i - |a|..i - |a| + |p|];
  }

  lemma OccursShifted(a: string, b: string, p: string, j: int)
    requires OccursAt(b, p, j)
    ensures OccursAt(a + b, p, j + |a|)
  {
    assert (a + b)[j + |a|..j + |a| + |p|] == b[j..j + |p|];
  }

  /** The substring test classifies exactly as `OverloadEvidence` says. */
  lemma OverloadClassification(t: Transport)
    ensures IsOverload(Send(t)) <==> OverloadEvidence(t)
  {
    match t
    case InitFailed => InitFailedClassification();
    case TransferFailed(e) => TransferFailedClassification(e);
    case Response(code, body) => ResponseClassification(code, body);
  }

  lemma InitFailedClassification()
    ensures !IsOverload(Send(InitFailed))
  {
    var m := InitFailedText;
    assert 'H' !in m;
    CStrOfPlain(m);
    NoMarkerWithoutH(m);
  }

  /** Text without an 'H' cannot mention "HTTP 503". */
  lemma NoMarkerWithoutH(s: string)
    requires 'H' !in s
    ensures !Contains(s, OverloadMarker)
  {
    var p := OverloadMarker;
    ContainsAt(s, p);
    if exists i :: OccursAt(s, p, i) {
      var i :| OccursAt(s, p, i);
      OccursAtChar(s, p, i, 0);
      assert false;
    }
  }

  lemma TransferFailedClassification(e: string)
    ensures IsOverload(Send(TransferFailed(e))) <==> Contains(CStr(e), OverloadMarker)
  {
    var c := CStr(e);
    assert Send(TransferFailed(e)).what == InsertFailed + c;
    assert '\0' !in InsertFailed;
    CStrAppend(InsertFailed, c);
    CStrOfPlain(c);
    assert CStr(InsertFailed + c) == InsertFailed + c;
    TransferClassification(c);
  }

  lemma ResponseClassification(code: int, body: string)
    ensures IsOverload(Send(Response(code, body))) <==> OverloadEvidence(Response(code, body))
  {
    if !IsSuccessStatus(code) {
      var p := OverloadMarker;
      ResponseTextCStr(code, body);
      var m := ResponseText(code, CStr(body));
      assert CStr(Send(Response(code, body)).what) == m;
      if StartsWith(IntToDecimal(code), "503") || Contains(CStr(body), p) {
        ResponseOverloadIf(code, CStr(body));
      }
      if Contains(m, p) {
        var i :| OccursAt(m, p, i) by {
          ContainsAt(m, p);
        }
        ResponseOverloadOnlyIf(code, CStr(body), i);
      }
    }
  }

  lemma TransferClassification(e: string)
    ensures Contains(InsertFailed + e, OverloadMarker) <==> Contains(e, OverloadMarker)
  {
    var p := OverloadMarker;
    var m := InsertFailed + e;
    ContainsAt(m, p);
    ContainsAt(e, p);
    if Contains(e, p) {
      var j :| OccursAt(e, p, j);
      OccursShifted(InsertFailed, e, p, j);
    }
    if Contains(m, p) {
      var i :| OccursAt(m, p, i);
      if i < |InsertFailed| {
        OccursAtChar(m, p, i, 0);
        assert (InsertFailed + "HTTP ")[i] == 'H';
        PrefixLetters(i);
        OccursAtChar(m, p, i, 1);
        assert false;
      }
      OccursInSuffix(InsertFailed, e, p, i);
    }
  }

  /** The exception text for a failing response. */
  function ResponseText(code: int, body: string): string {
    InsertFailed + StatusMessage(code, body)
  }

  lemma DecimalHasNoNul(i: int)
    ensures '\0' !in IntToDecimal(i)
  {
    var d := NatToDecimal(if i < 0 then -i else i);
    assert forall k :: 0 <= k < |d| ==> IsDigit(d[k]);
    if i < 0 {
      assert IntToDecimal(i) == "-" + d;
      assert forall k :: 0 <= k < |"-" + d| ==> ("-" + d)[k] == '-' || IsDigit(("-" + d)[k]);
    }
  }

  /** Up to its first NUL, the text of a failing response is the same text
      with the body cut at its first NUL. */
  lemma ResponseTextCStr(code: int, body: string)
    ensures CStr(ResponseText(code, body)) == ResponseText(code, CStr(body))
  {
    var head := InsertFailed + "HTTP " + IntToDecimal(code) + ": ";
    DecimalHasNoNul(code);
    assert '\0' !in head by {
      forall k | 0 <= k < |head| ensures head[k] != '\0' {
        if |InsertFailed + "HTTP "| <= k < |InsertFailed + "HTTP "| + |IntToDecimal(code)| {
          assert head[k] == IntToDecimal(code)[k - |InsertFailed + "HTTP "|];
        }
      }
    }
    assert ResponseText(code, body) == head + body;
    assert ResponseText(code, CStr(body)) == head + CStr(body);
    CStrAppend(head, body);
  }

  /** A failing response's text mentions "HTTP 503" when its code starts
      with "503" or its body mentions it. */
  lemma ResponseOverloadIf(code: int, body: string)
    requires StartsWith(IntToDecimal(code), "503") || Contains(body, OverloadMarker)
    ensures Contains(ResponseText(code, body), OverloadMarker)
  {
    var p := OverloadMarker;
    var d := IntToDecimal(code);
    var m := ResponseText(code, body);
    ContainsAt(m, p);
    if StartsWith(d, "503") {
      assert m[26..34] == "HTTP " + d[..3];
      assert OccursAt(m, p, 26);
    } else {
      ContainsAt(body, p);
      var j :| OccursAt(body, p, j);
      assert m == (InsertFailed + "HTTP " + d + ": ") + body;
      OccursShifted(InsertFailed + "HTTP " + d + ": ", body, p, j);
    }
  }

  /** A mention of "HTTP 503" in a failing response's text lies in the
      code or in the body. */
  lemma ResponseOverloadOnlyIf(code: int, body: string, i: int)
    requires OccursAt(ResponseText(code, body), OverloadMarker, i)
    ensures StartsWith(IntToDecimal(code), "503") || Contains(body, OverloadMarker)
  {
    var p := OverloadMarker;
    var l := InsertFailed + "HTTP ";
    var d := IntToDecimal(code);
    var m := ResponseText(code, body);
    assert m == l + d + (": " + body);
    assert |l| == 31;
    OccursAtChar(m, p, i, 0);
    if i < 31 {
      assert l[i] == 'H';
      PrefixLetters(i);
      OccursAtChar(m, p, i, 1);
      assert i == 26;
      OccursAtChar(m, p, i, 5);
      OccursAtChar(m, p, i, 6);
      OccursAtChar(m, p, i, 7);
      assert d[..3] == "503";
    } else if i < 33 + |d| {
      assert false;
    } else {
      assert m == (l + d + ": ") + body;
      OccursInSuffix(l + d + ": ", body, p, i);
      ContainsAt(body, p);
    }
  }

  /** For three-digit status codes the rate-limit path is taken exactly for
      503, or for a failing response whose body mentions "HTTP 503" before
      its first NUL. */
  lemma OverloadForThreeDigitCodes(code: int, body: string)
    requires 100 <= code < 1000
    ensures IsOverload(Send(Response(code, body)))
      <==> code == 503 || (!IsSuccessStatus(code) && Contains(CStr(body), OverloadMarker))
  {
    ResponseClassification(code, body);
    ThreeDigitCode503(code);
  }

  /** A three-digit code prints with a leading "503" exactly when it is 503. */
  lemma ThreeDigitCode503(code: int)
    requires 100 <= code < 1000
    ensures StartsWith(IntToDecimal(code), "503") <==> code == 503
  {
    var d := NatToDecimal(code);
    assert d == NatToDecimal(code / 10) + [DigitChar(code % 10)];
    assert NatToDecimal(code / 10) == NatToDecimal(code / 100) + [DigitChar(code / 10 % 10)];
    assert NatToDecimal(code / 100) == [DigitChar(code / 100)];
    assert |d| == 3;
    if StartsWith(d, "503") {
      DigitsValueOfDecimal(code);
      assert d == "503";
    }
  }
}
