/** The row rendering of the run loop (src/anonymizer.cpp): one decoded
    HttpLogRecord becomes one line of JSON with a fixed key order, the
    timestamp in whole seconds, every text field escaped, and the remote
    address masked. A reader for such rows shows what a row carries. */
module RowRender {
  import opened Text
  import opened IpMask
  import opened JsonEscape
  import opened RowJoin

  /** The nine fields of a decoded HttpLogRecord. The Cap'n Proto schema is
      not part of this model, so the numeric fields are plain integers. */
  datatype HttpLogRecord = HttpLogRecord(
    timestampEpochMilli: int,
    resourceId: int,
    bytesSent: int,
    requestTimeMilli: int,
    responseStatus: int,
    cacheStatus: string,
    httpMethod: string,
    remoteAddr: string,
    url: string)

  /** The values a rendered row shows, in the row's key order. */
  datatype RowFields = RowFields(
    timestamp: int,
    resourceId: int,
    bytesSent: int,
    requestTimeMilli: int,
    responseStatus: int,
    cacheStatus: string,
    httpMethod: string,
    remoteAddr: string,
    url: string)

  /** C++ integer division, which truncates toward zero. */
  function TruncDiv(a: int, b: int): (q: int)
    requires 0 < b
    ensures 0 <= a ==> q * b <= a < q * b + b
    ensures a < 0 ==> q * b - b < a <= q * b
  {
    if 0 <= a then a / b else -((-a) / b)
  }

  /** What of a record reaches its row: seconds instead of milliseconds,
      each text field up to its first NUL (it is handed on as a C string by
      `.cStr()`), and the address masked after that cut; the other numbers
      as decoded. */
  function Shown(r: HttpLogRecord): RowFields {
    RowFields(
      TruncDiv(r.timestampEpochMilli, 1000), r.resourceId, r.bytesSent, r.requestTimeMilli,
      r.responseStatus, CStr(r.cacheStatus), CStr(r.httpMethod), AnonymizeIp(CStr(r.remoteAddr)), CStr(r.url))
  }

  /** `"name":` */
  function Key(name: string): string {
    "\"" + name + "\":"
  }

  /** `"name":<v>` followed by `rest`. */
  function IntMember(name: string, v: int, rest: string): string {
    Key(name) + (IntToDecimal(v) + rest)
  }

  /** `"name":"<v escaped>"` followed by `rest`. */
  function StrMember(name: string, v: string, rest: string): string {
    Key(name) + ("\"" + (EscapeJson(v) + ("\"" + rest)))
  }

  /** The `std::ostringstream` expression of the run loop. */
  function RenderRow(r: HttpLogRecord): string {
    "{" + IntMember("timestamp", TruncDiv(r.timestampEpochMilli, 1000),
    "," + IntMember("resource_id", r.resourceId,
    "," + IntMember("bytes_sent", r.bytesSent,
    "," + IntMember("request_time_milli", r.requestTimeMilli,
    "," + IntMember("response_status", r.responseStatus,
    "," + StrMember("cache_status", CStr(r.cacheStatus),
    "," + StrMember("method", CStr(r.httpMethod),
    "," + StrMember("remote_addr", AnonymizeIp(CStr(r.remoteAddr)),
    "," + StrMember("url", CStr(r.url), "}")))))))))
  }

  function ReadIntMember(name: string, s: string): Option<(int, string)> {
    var rest :- Expect(Key(name), s);
    ReadInt(rest)
  }

  function ReadStrMember(name: string, s: string): Option<(string, string)> {
    var s1 :- Expect(Key(name), s);
    var s2 :- Expect("\"", s1);
    var p :- ReadString(s2);
    var s3 :- Expect("\"", p.1);
    Some((p.0, s3))
  }

  /** Reads a row back into the values it shows; None unless the keys come
      in the rendered order with nothing after the closing brace. */
  function ParseRow(row: string): Option<RowFields> {
    var s0 :- Expect("{", row);
    var ts :- ReadIntMember("timestamp", s0);
    var s1 :- Expect(",", ts.1);
    var id :- ReadIntMember("resource_id", s1);
    var s2 :- Expect(",", id.1);
    var bs :- ReadIntMember("bytes_sent", s2);
    var s3 :- Expect(",", bs.1);
    var rt :- ReadIntMember("request_time_milli", s3);
    var s4 :- Expect(",", rt.1);
    var st :- ReadIntMember("response_status", s4);
    var s5 :- Expect(",", st.1);
    var texts :- ParseTextMembers(s5);
    Some(RowFields(ts.0, id.0, bs.0, rt.0, st.0, texts.0, texts.1, texts.2, texts.3))
  }

  /** The four text members and the closing brace that end a row. */
  function ParseTextMembers(s: string): Option<(string, string, string, string)> {
    var cs :- ReadStrMember("cache_status", s);
    var s1 :- Expect(",", cs.1);
    var me :- ReadStrMember("method", s1);
    var s2 :- Expect(",", me.1);
    var ra :- ReadStrMember("remote_addr", s2);
    var s3 :- Expect(",", ra.1);
    var ur :- ReadStrMember("url", s3);
    var s4 :- Expect("}", ur.1);
    if s4 != "" then None else Some((cs.0, me.0, ra.0, ur.0))
  }

  lemma ReadIntMemberOf(name: string, v: int, rest: string)
    requires NotDigitStart(rest)
    ensures ReadIntMember(name, IntMember(name, v, rest)) == Some((v, rest))
  {
    ExpectLiteral(Key(name), IntToDecimal(v) + rest);
    ReadIntOfDecimal(v, rest);
  }

  lemma ReadStrMemberOf(name: string, v: string, rest: string)
    ensures ReadStrMember(name, StrMember(name, v, rest)) == Some((v, rest))
  {
    var e := EscapeJson(v);
    ExpectLiteral(Key(name), "\"" + (e + ("\"" + rest)));
    ExpectLiteral("\"", e + ("\"" + rest));
    ReadEscaped(v, "\"" + rest);
    ExpectLiteral("\"", rest);
  }

  /** The text part of a rendered row, from the cache status on. */
  function TextMembers(r: HttpLogRecord): string {
    StrMember("cache_status", CStr(r.cacheStatus),
    "," + StrMember("method", CStr(r.httpMethod),
    "," + StrMember("remote_addr", AnonymizeIp(CStr(r.remoteAddr)),
    "," + StrMember("url", CStr(r.url), "}"))))
  }

  lemma ParseTextPart(r: HttpLogRecord)
    ensures ParseTextMembers(TextMembers(r))
      == Some((CStr(r.cacheStatus), CStr(r.httpMethod), AnonymizeIp(CStr(r.remoteAddr)), CStr(r.url)))
  {
    var s3 := StrMember("url", CStr(r.url), "}");
    var s2 := StrMember("remote_addr", AnonymizeIp(CStr(r.remoteAddr)), "," + s3);
    var s1 := StrMember("method", CStr(r.httpMethod), "," + s2);
    ReadStrMemberOf("cache_status", CStr(r.cacheStatus), "," + s1);
    ExpectLiteral(",", s1);
    ReadStrMemberOf("method", CStr(r.httpMethod), "," + s2);
    ExpectLiteral(",", s2);
    ReadStrMemberOf("remote_addr", AnonymizeIp(CStr(r.remoteAddr)), "," + s3);
    ExpectLiteral(",", s3);
    ReadStrMemberOf("url", CStr(r.url), "}");
    ExpectLiteral("}", "");
    assert "}" + "" == "}";
  }

  /** A rendered row reads back as the values it shows, in key order. */
  lemma ParseRenderedRow(r: HttpLogRecord)
    ensures ParseRow(RenderRow(r)) == Some(Shown(r))
  {
    var s5 := TextMembers(r);
    var s4 := IntMember("response_status", r.responseStatus, "," + s5);
    var s3 := IntMember("request_time_milli", r.requestTimeMilli, "," + s4);
    var s2 := IntMember("bytes_sent", r.bytesSent, "," + s3);
    var s1 := IntMember("resource_id", r.resourceId, "," + s2);
    var s0 := IntMember("timestamp", TruncDiv(r.timestampEpochMilli, 1000), "," + s1);
    assert RenderRow(r) == "{" + s0;
    ExpectLiteral("{", s0);
    ReadIntMemberOf("timestamp", TruncDiv(r.timestampEpochMilli, 1000), "," + s1);
    ExpectLiteral(",", s1);
    ReadIntMemberOf("resource_id", r.resourceId, "," + s2);
    ExpectLiteral(",", s2);
    ReadIntMemberOf("bytes_sent", r.bytesSent, "," + s3);
    ExpectLiteral(",", s3);
    ReadIntMemberOf("request_time_milli", r.requestTimeMilli, "," + s4);
    ExpectLiteral(",", s4);
    ReadIntMemberOf("response_status", r.responseStatus, "," + s5);
    ExpectLiteral(",", s5);
    ParseTextPart(r);
  }

  lemma NoControlAppend(a: string, b: string)
    requires NoControl(a) && NoControl(b)
    ensures NoControl(a + b)
  {
  }

  lemma DecimalPrintable(v: int)
    ensures NoControl(IntToDecimal(v))
  {
    var d := IntToDecimal(v);
    if v < 0 {
      assert d == "-" + NatToDecimal(-v);
    }
  }

  lemma IntMemberPrintable(name: string, v: int, rest: string)
    requires NoControl(name) && NoControl(rest)
    ensures NoControl(IntMember(name, v, rest))
  {
    DecimalPrintable(v);
    NoControlAppend(IntToDecimal(v), rest);
    NoControlAppend("\"" + name, "\":");
    NoControlAppend(Key(name), IntToDecimal(v) + rest);
  }

  lemma StrMemberPrintable(name: string, v: string, rest: string)
    requires NoControl(name) && NoControl(rest)
    ensures NoControl(StrMember(name, v, rest))
  {
    NoControlAppend("\"", rest);
    NoControlAppend(EscapeJson(v), "\"" + rest);
    NoControlAppend("\"", EscapeJson(v) + ("\"" + rest));
    NoControlAppend("\"" + name, "\":");
    NoControlAppend(Key(name), "\"" + (EscapeJson(v) + ("\"" + rest)));
  }

  lemma TextMembersPrintable(r: HttpLogRecord)
    ensures NoControl(TextMembers(r))
  {
    assert NoControl("url") && NoControl("remote_addr") && NoControl("method")
      && NoControl("cache_status") && NoControl("}") && NoControl(",");
    StrMemberPrintable("url", CStr(r.url), "}");
    var s3 := StrMember("url", CStr(r.url), "}");
    NoControlAppend(",", s3);
    StrMemberPrintable("remote_addr", AnonymizeIp(CStr(r.remoteAddr)), "," + s3);
    var s2 := StrMember("remote_addr", AnonymizeIp(CStr(r.remoteAddr)), "," + s3);
    NoControlAppend(",", s2);
    StrMemberPrintable("method", CStr(r.httpMethod), "," + s2);
    var s1 := StrMember("method", CStr(r.httpMethod), "," + s2);
    NoControlAppend(",", s1);
    StrMemberPrintable("cache_status", CStr(r.cacheStatus), "," + s1);
  }

  /** A row holds no raw control byte, so no newline: it is one line of
      the batch body. */
  lemma RenderRowPrintable(r: HttpLogRecord)
    ensures NoControl(RenderRow(r))
  {
    assert NoControl("timestamp") && NoControl("resource_id") && NoControl("bytes_sent")
      && NoControl("request_time_milli") && NoControl("response_status")
      && NoControl("{") && NoControl(",");
    var s5 := TextMembers(r);
    TextMembersPrintable(r);
    NoControlAppend(",", s5);
    IntMemberPrintable("response_status", r.responseStatus, "," + s5);
    var s4 := IntMember("response_status", r.responseStatus, "," + s5);
    NoControlAppend(",", s4);
    IntMemberPrintable("request_time_milli", r.requestTimeMilli, "," + s4);
    var s3 := IntMember("request_time_milli", r.requestTimeMilli, "," + s4);
    NoControlAppend(",", s3);
    IntMemberPrintable("bytes_sent", r.bytesSent, "," + s3);
    var s2 := IntMember("bytes_sent", r.bytesSent, "," + s3);
    NoControlAppend(",", s2);
    IntMemberPrintable("resource_id", r.resourceId, "," + s2);
    var s1 := IntMember("resource_id", r.resourceId, "," + s2);
    NoControlAppend(",", s1);
    IntMemberPrintable("timestamp", TruncDiv(r.timestampEpochMilli, 1000), "," + s1);
    var s0 := IntMember("timestamp", TruncDiv(r.timestampEpochMilli, 1000), "," + s1);
    NoControlAppend("{", s0);
    assert RenderRow(r) == "{" + s0;
  }

  /** Only the C string reading of each text field reaches the row:
      whatever follows a NUL is dropped. */
  lemma RenderRowReadsCStrings(r: HttpLogRecord)
    ensures var c := r.(cacheStatus := CStr(r.cacheStatus), httpMethod := CStr(r.httpMethod),
                        remoteAddr := CStr(r.remoteAddr), url := CStr(r.url));
      RenderRow(c) == RenderRow(r) && Shown(c) == Shown(r)
  {
    CStrOfPlain(CStr(r.cacheStatus));
    CStrOfPlain(CStr(r.httpMethod));
    CStrOfPlain(CStr(r.remoteAddr));
    CStrOfPlain(CStr(r.url));
  }

  /** Two records render to the same row exactly when they show the same
      values: rows differ whenever any shown field differs. */
  lemma RenderRowInjective(a: HttpLogRecord, b: HttpLogRecord)
    ensures RenderRow(a) == RenderRow(b) <==> Shown(a) == Shown(b)
  {
    ParseRenderedRow(a);
    ParseRenderedRow(b);
  }

  /** Rows of a batch body, as the sink receives them. */
  function RenderAll(records: seq<HttpLogRecord>): (rows: seq<string>)
    ensures |rows| == |records|
    ensures forall i :: 0 <= i < |records| ==> rows[i] == RenderRow(records[i])
  {
    seq(|records|, i requires 0 <= i < |records| => RenderRow(records[i]))
  }

  /** The body built from rendered rows splits back into one line per
      record, and each line reads back as that record's shown values. */
  lemma BatchBodyReadsBack(records: seq<HttpLogRecord>)
    ensures |SplitLines(JoinRows(RenderAll(records)))| == |records|
    ensures forall i :: 0 <= i < |records| ==>
      ParseRow(SplitLines(JoinRows(RenderAll(records)))[i]) == Some(Shown(records[i]))
  {
    var rows := RenderAll(records);
    forall i | 0 <= i < |rows|
      ensures SingleLine(rows[i])
    {
      RenderRowPrintable(records[i]);
    }
    SplitJoinedRows(rows);
    forall i | 0 <= i < |records|
      ensures ParseRow(rows[i]) == Some(Shown(records[i]))
    {
      ParseRenderedRow(records[i]);
    }
  }
}
