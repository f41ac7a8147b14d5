/** The pure string helpers of src/util.cpp: masking the last octet of an
    address, joining rows into a newline-delimited body, and escaping text
    for a JSON string. Each C++ `std::string` is a `string` here, one char
    per byte. */

module IpMask {

  /** Index of the last '.' of `s`, or -1 when there is none
      (`std::string_view::rfind('.')`, with -1 for `npos`). */
  function LastDot(s: string): (k: int)
    ensures -1 <= k < |s|
    ensures k == -1 <==> '.' !in s
    ensures 0 <= k ==> s[k] == '.' && '.' !in s[k + 1..]
    decreases |s|
  {
    if |s| == 0 then -1
    else if s[|s| - 1] == '.' then |s| - 1
    else LastDot(s[..|s| - 1])
  }

  /** `anonymize_ip`: everything up to and including the last '.' is kept
      and the rest is replaced by "X"; text without a '.' is returned as is. */
  function AnonymizeIp(ip: string): (r: string)
    ensures '.' !in ip ==> r == ip
    ensures '.' in ip ==>
      && 2 <= |r| <= |ip| + 1
      && r[..|r| - 2] == ip[..|r| - 2]
      && ip[|r| - 2] == '.'
      && '.' !in ip[|r| - 1..]
      && r[|r| - 2..] == ".X"
  {
    var dot := LastDot(ip);
    if dot == -1 then ip else ip[..dot] + ".X"
  }

  /** Masking an already masked address changes nothing. */
  lemma AnonymizeIpIdempotent(ip: string)
    ensures AnonymizeIp(AnonymizeIp(ip)) == AnonymizeIp(ip)
  {
    var r := AnonymizeIp(ip);
    if '.' in ip {
      var k := |r| - 2;
      assert r[k] == '.';
      assert r[k + 1..] == "X";
      assert LastDot(r) == k;
      assert r[..k] + ".X" == r;
    }
  }

  /** The masked address depends only on the text before the last '.'. */
  lemma AnonymizeIpForgetsLastOctet(prefix: string, a: string, b: string)
    requires '.' !in a && '.' !in b
    ensures AnonymizeIp(prefix + "." + a) == AnonymizeIp(prefix + "." + b)
    ensures AnonymizeIp(prefix + "." + a) == prefix + ".X"
  {
    var s := prefix + "." + a;
    assert s[|prefix|] == '.';
    assert s[|prefix| + 1..] == a;
    assert s[..|prefix|] == prefix;
    assert LastDot(s) == |prefix|;
    var t := prefix + "." + b;
    assert t[|prefix|] == '.';
    assert t[|prefix| + 1..] == b;
    assert t[..|prefix|] == prefix;
    assert LastDot(t) == |prefix|;
  }

  /** The examples of tests/test_util.cpp. */
  lemma AnonymizeIpExamples()
    ensures AnonymizeIp("1.2.3.4") == "1.2.3.X"
    ensures AnonymizeIp("10.0.0.1") == "10.0.0.X"
    ensures AnonymizeIp("not-an-ip") == "not-an-ip"
  {
    AnonymizeIpForgetsLastOctet("1.2.3", "4", "X");
    AnonymizeIpForgetsLastOctet("10.0.0", "1", "X");
    assert "1.2.3" + "." + "4" == "1.2.3.4";
    assert "10.0.0" + "." + "1" == "10.0.0.1";
    assert '.' !in "not-an-ip";
  }

  /** Any text with a '.' is masked, dotted IPv4 or not. */
  lemma AnonymizeIpAnyDottedText()
    ensures AnonymizeIp("a.b") == "a.X"
  {
    AnonymizeIpForgetsLastOctet("a", "b", "X");
    assert "a" + "." + "b" == "a.b";
  }
}

module RowJoin {

  /** Sum of the lengths of `rows`. */
  function TotalLength(rows: seq<string>): nat
    decreases |rows|
  {
    if |rows| == 0 then 0 else TotalLength(rows[..|rows| - 1]) + |rows[|rows| - 1]|
  }

  /** `join_rows`: every row followed by "\n", in order. */
  function JoinRows(rows: seq<string>): (body: string)
    ensures |body| == TotalLength(rows) + |rows|
    decreases |rows|
  {
    if |rows| == 0 then "" else JoinRows(rows[..|rows| - 1]) + rows[|rows| - 1] + "\n"
  }

  /** The loop of `join_rows`, appending one row and one newline per step. */
  method JoinRowsLoop(rows: seq<string>) returns (out: string)
    ensures out == JoinRows(rows)
  {
    out := "";
    var i := 0;
    while i < |rows|
      invariant 0 <= i <= |rows|
      invariant out == JoinRows(rows[..i])
    {
      assert rows[..i + 1][..i] == rows[..i];
      out := out + rows[i];
      out := out + "\n";
      i := i + 1;
    }
    assert rows[..i] == rows;
  }

  /** Joining distributes over concatenation of row lists. */
  lemma {:induction false} JoinRowsAppend(a: seq<string>, b: seq<string>)
    ensures JoinRows(a + b) == JoinRows(a) + JoinRows(b)
    decreases |b|
  {
    if |b| > 0 {
      var b' := b[..|b| - 1];
      assert (a + b)[..|a + b| - 1] == a + b';
      JoinRowsAppend(a, b');
    } else {
      assert a + b == a;
    }
  }

  lemma JoinRowsCons(row: string, rest: seq<string>)
    ensures JoinRows([row] + rest) == row + "\n" + JoinRows(rest)
  {
    JoinRowsAppend([row], rest);
    assert JoinRows([row]) == JoinRows([]) + row + "\n";
  }

  /** Index of the first `c` in `s`, or -1 when there is none. */
  function IndexOf(s: string, c: char): (k: int)
    ensures -1 <= k < |s|
    ensures k == -1 <==> c !in s
    ensures 0 <= k ==> s[k] == c && c !in s[..k]
    decreases |s|
  {
    if |s| == 0 then -1
    else if s[0] == c then 0
    else var k := IndexOf(s[1..], c); if k == -1 then -1 else k + 1
  }

  /** Cuts a newline-delimited body back into rows (the reading side of
      the JSONEachRow format). */
  function SplitLines(body: string): seq<string>
    decreases |body|
  {
    if |body| == 0 then []
    else
      var k := IndexOf(body, '\n');
      if k == -1 then [body] else [body[..k]] + SplitLines(body[k + 1..])
  }

  predicate SingleLine(row: string) {
    '\n' !in row
  }

  /** Rows without a newline of their own come back unchanged from the body. */
  lemma {:induction false} SplitJoinedRows(rows: seq<string>)
    requires forall i :: 0 <= i < |rows| ==> SingleLine(rows[i])
    ensures SplitLines(JoinRows(rows)) == rows
    decreases |rows|
  {
    if |rows| > 0 {
      var rest := rows[1..];
      assert rows == [rows[0]] + rest;
      JoinRowsCons(rows[0], rest);
      var body := JoinRows(rows);
      var r0 := rows[0];
      assert body == r0 + ("\n" + JoinRows(rest));
      assert body[|r0|] == '\n';
      assert body[..|r0|] == r0;
      assert IndexOf(body, '\n') == |r0|;
      assert body[|r0| + 1..] == JoinRows(rest);
      SplitJoinedRows(rest);
    }
  }

  /** The example of tests/test_util.cpp. */
  lemma JoinRowsExample()
    ensures JoinRows(["row1", "row2"]) == "row1\nrow2\n"
  {
    assert ["row1", "row2"][..1] == ["row1"];
  }
}

module JsonEscape {
  import opened Text

  const Backspace: char := '\U{8}'
  const FormFeed: char := '\U{C}'

  /** No raw byte below 0x20. */
  predicate NoControl(s: string) {
    forall i :: 0 <= i < |s| ==> ' ' <= s[i]
  }

  /** Every '"' has a backslash right before it. */
  predicate QuotesEscaped(s: string) {
    forall i :: 0 <= i < |s| && s[i] == '"' ==> 0 < i && s[i - 1] == '\\'
  }

  function HexDigit(d: nat): (c: char)
    requires d < 16
  {
    "0123456789abcdef"[d]
  }

  /** The escape `escape_json` emits for one byte. */
  function EscapeChar(c: char): (r: string)
    ensures 1 <= |r| <= 6
    ensures r == [c] <==> ' ' <= c && c != '"' && c != '\\'
    ensures r != [c] ==> r[0] == '\\'
    ensures r[0] != '"'
    ensures NoControl(r) && QuotesEscaped(r)
  {
    match c
    case '"' => "\\\""
    case '\\' => "\\\\"
    case '\n' => "\\n"
    case '\r' => "\\r"
    case '\t' => "\\t"
    case _ =>
      if c == Backspace then "\\b"
      else if c == FormFeed then "\\f"
      else if c < ' ' then "\\u00" + [HexDigit(c as int / 16), HexDigit(c as int % 16)]
      else [c]
  }

  /** `escape_json`: each byte replaced by its escape, in order. */
  function EscapeJson(s: string): (r: string)
    ensures |s| <= |r| <= 6 * |s|
    ensures NoControl(r)
    ensures QuotesEscaped(r)
    ensures |r| > 0 ==> r[0] != '"'
    decreases |s|
  {
    if |s| == 0 then "" else EscapeChar(s[0]) + EscapeJson(s[1..])
  }

  /** Escaping works byte by byte: it distributes over concatenation. */
  lemma {:induction false} EscapeJsonAppend(a: string, b: string)
    ensures EscapeJson(a + b) == EscapeJson(a) + EscapeJson(b)
    decreases |a|
  {
    if |a| == 0 {
      assert a + b == b;
    } else {
      assert (a + b)[1..] == a[1..] + b;
      EscapeJsonAppend(a[1..], b);
    }
  }

  /** Text that needs no escaping is copied unchanged. */
  lemma {:induction false} EscapeJsonPlain(s: string)
    requires forall i :: 0 <= i < |s| ==> ' ' <= s[i] && s[i] != '"' && s[i] != '\\'
    ensures EscapeJson(s) == s
    decreases |s|
  {
    if |s| > 0 {
      EscapeJsonPlain(s[1..]);
    }
  }

  /** The example of tests/test_util.cpp. */
  lemma EscapeJsonExample()
    ensures EscapeJson("a\"b\\c\n\t") == "a\\\"b\\\\c\\n\\t"
  {
    var s := "a\"b\\c\n\t";
    assert EscapeJson(s[6..]) == "\\t";
    assert EscapeJson(s[5..]) == "\\n" + EscapeJson(s[6..]);
    assert EscapeJson(s[4..]) == "c" + EscapeJson(s[5..]);
    assert EscapeJson(s[3..]) == "\\\\" + EscapeJson(s[4..]);
    assert EscapeJson(s[2..]) == "b" + EscapeJson(s[3..]);
    assert EscapeJson(s[1..]) == "\\\"" + EscapeJson(s[2..]);
    assert EscapeJson(s) == "a" + EscapeJson(s[1..]);
  }

  function HexValue(c: char): Option<nat> {
    if '0' <= c <= '9' then Some(c as int - '0' as int)
    else if 'a' <= c <= 'f' then Some(c as int - 'a' as int + 10)
    else if 'A' <= c <= 'F' then Some(c as int - 'A' as int + 10)
    else None
  }

  /** Prepends one decoded char to a reader result. */
  function Prepend(c: char, r: Option<(string, string)>): Option<(string, string)> {
    match r
    case None => None
    case Some(p) => Some(([c] + p.0, p.1))
  }

  /** Value of the four hex digits after "\\u", or None. */
  function HexQuad(e: string): Option<nat>
    requires |e| >= 6
  {
    match (HexValue(e[2]), HexValue(e[3]), HexValue(e[4]), HexValue(e[5]))
    case (Some(h1), Some(h2), Some(h3), Some(h4)) => Some(h1 * 4096 + h2 * 256 + h3 * 16 + h4)
    case _ => None
  }

  /** Decodes the body of a JSON string (section 7 of RFC 8259) up to its
      closing quote. On success the result is the decoded text and the
      remaining input, which is empty or starts with that quote. Surrogate
      pairs are not combined: an escaped surrogate half is refused. */
  function ReadString(e: string): (r: Option<(string, string)>)
    ensures r.Some? ==> |r.value.1| <= |e| && (r.value.1 == [] || r.value.1[0] == '"')
    decreases |e|
  {
    if |e| == 0 then Some(("", ""))
    else if e[0] == '"' then Some(("", e))
    else if e[0] < ' ' then None
    else if e[0] != '\\' then Prepend(e[0], ReadString(e[1..]))
    else if |e| < 2 then None
    else match e[1]
      case '"' => Prepend('"', ReadString(e[2..]))
      case '\\' => Prepend('\\', ReadString(e[2..]))
      case '/' => Prepend('/', ReadString(e[2..]))
      case 'b' => Prepend(Backspace, ReadString(e[2..]))
      case 'f' => Prepend(FormFeed, ReadString(e[2..]))
      case 'n' => Prepend('\n', ReadString(e[2..]))
      case 'r' => Prepend('\r', ReadString(e[2..]))
      case 't' => Prepend('\t', ReadString(e[2..]))
      case 'u' =>
        if |e| < 6 then None
        else (match HexQuad(e)
          case Some(v) =>
            if v < 0xD800 || 0xE000 <= v < 0x110000 then Prepend(v as char, ReadString(e[6..])) else None
          case None => None)
      case _ => None
  }

  /** Decodes a whole escaped text; a bare quote or a malformed escape is refused. */
  function Unescape(e: string): Option<string> {
    match ReadString(e)
    case Some((v, rest)) => if rest == "" then Some(v) else None
    case None => None
  }

  /** Decodes a complete JSON string literal, quotes included. */
  function ParseJsonString(lit: string): Option<string> {
    if |lit| == 0 || lit[0] != '"' then None
    else match ReadString(lit[1..])
      case Some((v, rest)) => if rest == "\"" then Some(v) else None
      case None => None
  }

  lemma HexRoundTrip(d: nat)
    requires d < 16
    ensures HexValue(HexDigit(d)) == Some(d)
  {
  }

  /** Reading one escape back yields the char it came from. */
  lemma ReadEscapeChar(c: char, rest: string)
    ensures ReadString(EscapeChar(c) + rest) == Prepend(c, ReadString(rest))
  {
    if c == '"' || c == '\\' || c == '\n' || c == '\r' || c == '\t' || c == Backspace || c == FormFeed {
      ReadShortEscape(c, rest);
    } else if c < ' ' {
      ReadControlEscape(c, rest);
    } else {
      assert (EscapeChar(c) + rest)[1..] == rest;
    }
  }

  lemma ReadShortEscape(c: char, rest: string)
    requires c == '"' || c == '\\' || c == '\n' || c == '\r' || c == '\t' || c == Backspace || c == FormFeed
    ensures ReadString(EscapeChar(c) + rest) == Prepend(c, ReadString(rest))
  {
    var e := EscapeChar(c) + rest;
    assert |EscapeChar(c)| == 2;
    assert e[2..] == rest;
  }

  lemma ReadControlEscape(c: char, rest: string)
    requires c < ' ' && c != '\n' && c != '\r' && c != '\t' && c != Backspace && c != FormFeed
    ensures ReadString(EscapeChar(c) + rest) == Prepend(c, ReadString(rest))
  {
    var e := EscapeChar(c) + rest;
    var n := c as int;
    HexRoundTrip(n / 16);
    HexRoundTrip(n % 16);
    assert e[..6] == "\\u00" + [HexDigit(n / 16), HexDigit(n % 16)];
    assert HexQuad(e) == Some(n);
    assert e[6..] == rest;
    assert (n as char) == c;
  }

  /** The escaped text reads back as the original, up to the closing quote. */
  lemma {:induction false} ReadEscaped(s: string, t: string)
    requires t == "" || t[0] == '"'
    ensures ReadString(EscapeJson(s) + t) == Some((s, t))
    decreases |s|
  {
    if |s| == 0 {
      assert EscapeJson(s) + t == t;
    } else {
      assert EscapeJson(s) + t == EscapeChar(s[0]) + (EscapeJson(s[1..]) + t);
      ReadEscapeChar(s[0], EscapeJson(s[1..]) + t);
      ReadEscaped(s[1..], t);
      assert [s[0]] + s[1..] == s;
    }
  }

  /** Unescaping inverts escaping. */
  lemma UnescapeEscapeJson(s: string)
    ensures Unescape(EscapeJson(s)) == Some(s)
  {
    ReadEscaped(s, "");
    assert EscapeJson(s) + "" == EscapeJson(s);
  }

  /** Quoting an escaped text gives a JSON string literal that parses back
      to the text, control characters included. */
  lemma ParseQuotedEscape(s: string)
    ensures ParseJsonString("\"" + EscapeJson(s) + "\"") == Some(s)
  {
    var lit := "\"" + EscapeJson(s) + "\"";
    assert lit[0] == '"';
    assert lit[1..] == EscapeJson(s) + "\"";
    ReadEscaped(s, "\"");
    assert ReadString(lit[1..]) == Some((s, "\""));
  }

  /** Distinct texts have distinct escapes. */
  lemma EscapeJsonInjective(a: string, b: string)
    ensures EscapeJson(a) == EscapeJson(b) <==> a == b
  {
    UnescapeEscapeJson(a);
    UnescapeEscapeJson(b);
  }
}
