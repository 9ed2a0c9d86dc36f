/**
 The bounded response builder as a function of the bytes committed so far, the header parser
 for the two headers the builder writes, and the round trip between them.
 */
module HttpResponse {
  import opened Options

  const WRITE_BUFFER_SIZE := 1024

  datatype Code =
    | NoRequest | GetRequest | BadRequest | NoResource
    | ForbiddenRequest | FileRequest | InternalError | CloseConnection

  const CRLF := "\r\n"
  const OK_200_TITLE := "OK"
  const ERROR_400_TITLE := "Bad Request"
  const ERROR_400_FORM := "Bad Syntax or inherently impossible to satisfied\n"
  const ERROR_403_TITLE := "Forbidden"
  const ERROR_403_FORM := "Do not have permission\n"
  const ERROR_404_TITLE := "Not Found"
  const ERROR_404_FORM := "The request file was not found on this server\n"
  const ERROR_500_TITLE := "Internal Error"
  const ERROR_500_FORM := "Internal Error"
  const OK_STRING := "<html><body></body></html>"

  // ---------- integers ----------

  const TWO_32 := 0x1_0000_0000
  const INT_MAX := 0x7fff_ffff

  /** Conversion to a 32-bit signed int. */
  function ToInt(x: int): (r: int)
    ensures -INT_MAX - 1 <= r <= INT_MAX
    ensures -INT_MAX - 1 <= x <= INT_MAX ==> r == x
    ensures (x - r) % TWO_32 == 0
  {
    if x % TWO_32 > INT_MAX then x % TWO_32 - TWO_32 else x % TWO_32
  }

  function Digit(d: nat): (c: char)
    requires d < 10
    ensures '0' <= c <= '9' && c as int - '0' as int == d
  {
    ('0' as int + d) as char
  }

  predicate IsDigit(c: char) {
    '0' <= c <= '9'
  }

  /** The digits of %d for a non-negative number. */
  function Digits(n: nat): (s: string)
    ensures s != "" && forall i :: 0 <= i < |s| ==> IsDigit(s[i])
  {
    if n < 10 then [Digit(n)] else Digits(n / 10) + [Digit(n % 10)]
  }

  /** %d */
  function Decimal(n: int): string {
    if n < 0 then "-" + Digits(-n) else Digits(n)
  }

  function Pow10(k: nat): nat {
    if k == 0 then 1 else 10 * Pow10(k - 1)
  }

  lemma {:induction false} DigitsLength(n: nat, k: nat)
    requires 0 < k && n < Pow10(k)
    ensures |Digits(n)| <= k
    decreases k
  {
    if n >= 10 { DigitsLength(n / 10, k - 1); }
  }

  lemma DecimalLength(n: int)
    requires -INT_MAX - 1 <= n <= INT_MAX
    ensures |Decimal(n)| <= 11
  {
    assert Pow10(5) == 100000;
    assert Pow10(10) == 10000000000;
    DigitsLength(if n < 0 then -n else n, 10);
  }

  // ---------- the builder ----------

  /** add_response with its arguments already formatted: all of `text`, or nothing. */
  function AddResponse(w: string, text: string): (r: (string, bool)) {
    if |w| >= WRITE_BUFFER_SIZE || |text| >= WRITE_BUFFER_SIZE - 1 - |w| then (w, false) else (w + text, true)
  }

  function StatusLine(status: int, title: string): string {
    "HTTP/1.1" + " " + Decimal(status) + " " + title + CRLF
  }

  function LengthLine(n: int): string {
    "Content-Length: " + Decimal(n) + CRLF
  }

  function LingerLine(linger: bool): string {
    "Connection: " + (if linger then "keep-alive" else "close") + CRLF
  }

  /** add_headers: a fragment that does not fit ends the headers. */
  function AddHeaders(w: string, n: int, linger: bool): (r: (string, bool)) {
    var (w1, ok1) := AddResponse(w, LengthLine(n));
    var (w2, ok2) := if ok1 then AddResponse(w1, LingerLine(linger)) else (w1, false);
    if ok2 then AddResponse(w2, CRLF) else (w2, false)
  }

  /** A status line, headers and a body; only the result of adding the body is looked at. */
  function Page(w: string, status: int, title: string, body: string, linger: bool): (r: (string, bool)) {
    var (w1, _) := AddResponse(w, StatusLine(status, title));
    var (w2, _) := AddHeaders(w1, |body|, linger);
    AddResponse(w2, body)
  }

  /** process_write: the committed bytes, and whether it reports success.  An empty file gets its page
      and then falls through to the failing default. */
  function ProcessWrite(code: Code, w: string, linger: bool, fileSize: nat): (r: (string, bool)) {
    match code
    case InternalError => Page(w, 500, ERROR_500_TITLE, ERROR_500_FORM, linger)
    case BadRequest => Page(w, 400, ERROR_400_TITLE, ERROR_400_FORM, linger)
    case NoResource => Page(w, 404, ERROR_404_TITLE, ERROR_404_FORM, linger)
    case ForbiddenRequest => Page(w, 403, ERROR_403_TITLE, ERROR_403_FORM, linger)
    case FileRequest =>
      if fileSize != 0 then
        var (w1, _) := AddResponse(w, StatusLine(200, OK_200_TITLE));
        (AddHeaders(w1, ToInt(fileSize), linger).0, true)
      else (Page(w, 200, OK_200_TITLE, OK_STRING, linger).0, false)
    case _ => (w, false)
  }

  // ---------- nothing overflows, and nothing is dropped ----------

  predicate Grows(w: string, r: string) {
    w <= r && |r| <= WRITE_BUFFER_SIZE - 2
  }

  lemma AddResponseGrows(v: string, w: string, text: string)
    requires Grows(v, w)
    ensures Grows(v, AddResponse(w, text).0)
  {
  }

  lemma AddHeadersGrow(v: string, w: string, n: int, linger: bool)
    requires Grows(v, w)
    ensures Grows(v, AddHeaders(w, n, linger).0)
  {
    var (w1, ok1) := AddResponse(w, LengthLine(n));
    AddResponseGrows(v, w, LengthLine(n));
    AddResponseGrows(v, w1, LingerLine(linger));
    var (w2, ok2) := if ok1 then AddResponse(w1, LingerLine(linger)) else (w1, false);
    AddResponseGrows(v, w2, CRLF);
  }

  lemma PageGrows(w: string, status: int, title: string, body: string, linger: bool)
    requires |w| <= WRITE_BUFFER_SIZE - 2
    ensures Grows(w, Page(w, status, title, body, linger).0)
  {
    var w1 := AddResponse(w, StatusLine(status, title)).0;
    AddResponseGrows(w, w, StatusLine(status, title));
    AddHeadersGrow(w, w1, |body|, linger);
    AddResponseGrows(w, AddHeaders(w1, |body|, linger).0, body);
  }

  /** Whatever happens, what was committed stays, and at most 1022 bytes are ever committed. */
  lemma WritesAppend(code: Code, w: string, linger: bool, fileSize: nat)
    requires |w| <= WRITE_BUFFER_SIZE - 2
    ensures Grows(w, ProcessWrite(code, w, linger, fileSize).0)
  {
    match code
    case InternalError => PageGrows(w, 500, ERROR_500_TITLE, ERROR_500_FORM, linger);
    case BadRequest => PageGrows(w, 400, ERROR_400_TITLE, ERROR_400_FORM, linger);
    case NoResource => PageGrows(w, 404, ERROR_404_TITLE, ERROR_404_FORM, linger);
    case ForbiddenRequest => PageGrows(w, 403, ERROR_403_TITLE, ERROR_403_FORM, linger);
    case FileRequest =>
      PageGrows(w, 200, OK_200_TITLE, OK_STRING, linger);
      AddResponseGrows(w, w, StatusLine(200, OK_200_TITLE));
      AddHeadersGrow(w, AddResponse(w, StatusLine(200, OK_200_TITLE)).0, ToInt(fileSize), linger);
    case _ =>
  }

  function Headers(n: int, linger: bool): string {
    LengthLine(n) + LingerLine(linger) + CRLF
  }

  /** The headers end at the first fragment that does not fit, from any buffer. */
  lemma HeadersInOrder(w: string, n: int, linger: bool)
    requires |w| <= 1022
    ensures var one := w + LengthLine(n); var two := one + LingerLine(linger); var three := two + CRLF;
      AddHeaders(w, n, linger) ==
        if |one| > 1022 then (w, false)
        else if |two| > 1022 then (one, false)
        else if |three| > 1022 then (two, false)
        else (three, true)
  {
  }

  /** Behind so much that neither the status line nor a header fits, a page is its bare body, and
      that is reported as success. */
  lemma BodyWithoutHead(w: string, linger: bool, fileSize: nat)
    requires 1003 <= |w| <= 1008
    ensures ProcessWrite(InternalError, w, linger, fileSize) == (w + "Internal Error", true)
  {
    Numerals();
    assert |StatusLine(500, ERROR_500_TITLE)| == 29;
    assert |LengthLine(|ERROR_500_FORM|)| == 20;
    HeadersInOrder(w, |ERROR_500_FORM|, linger);
  }

  lemma StatusLength(status: int, title: string)
    requires -INT_MAX - 1 <= status <= INT_MAX
    ensures |StatusLine(status, title)| <= 23 + |title|
  {
    DecimalLength(status);
  }

  lemma HeadersFit(w: string, n: int, linger: bool)
    requires -INT_MAX - 1 <= n <= INT_MAX && |w| <= 900
    ensures AddHeaders(w, n, linger) == (w + Headers(n, linger), true) && |Headers(n, linger)| <= 60
  {
    DecimalLength(n);
    assert ((w + LengthLine(n)) + LingerLine(linger)) + CRLF == w + Headers(n, linger);
  }

  lemma PageFits(status: int, title: string, body: string, linger: bool)
    requires -INT_MAX - 1 <= status <= INT_MAX && |title| <= 20 && |body| <= 100
    ensures Page("", status, title, body, linger) == (StatusLine(status, title) + Headers(|body|, linger) + body, true)
  {
    StatusLength(status, title);
    assert "" + StatusLine(status, title) == StatusLine(status, title);
    HeadersFit(StatusLine(status, title), |body|, linger);
  }

  datatype Message = Message(status: int, title: string, length: int, body: string)

  function Encode(m: Message, linger: bool): string {
    StatusLine(m.status, m.title) + Headers(m.length, linger) + m.body
  }

  /** What each code says on an empty buffer; for a file the body is sent from elsewhere. */
  function MessageFor(code: Code, fileSize: nat): Message
    requires code.InternalError? || code.BadRequest? || code.NoResource? || code.ForbiddenRequest? || code.FileRequest?
  {
    match code
    case InternalError => Message(500, ERROR_500_TITLE, |ERROR_500_FORM|, ERROR_500_FORM)
    case BadRequest => Message(400, ERROR_400_TITLE, |ERROR_400_FORM|, ERROR_400_FORM)
    case NoResource => Message(404, ERROR_404_TITLE, |ERROR_404_FORM|, ERROR_404_FORM)
    case ForbiddenRequest => Message(403, ERROR_403_TITLE, |ERROR_403_FORM|, ERROR_403_FORM)
    case _ =>
      if fileSize != 0 then Message(200, OK_200_TITLE, ToInt(fileSize), "")
      else Message(200, OK_200_TITLE, |OK_STRING|, OK_STRING)
  }

  predicate Answers(code: Code) {
    code.InternalError? || code.BadRequest? || code.NoResource? || code.ForbiddenRequest? || code.FileRequest?
  }

  /** From an empty buffer no fragment is dropped, although the results for the status line and the
      headers are ignored; and process_write reports success except for an empty file. */
  lemma NothingDropped(code: Code, linger: bool, fileSize: nat)
    requires Answers(code)
    ensures ProcessWrite(code, "", linger, fileSize)
      == (Encode(MessageFor(code, fileSize), linger), !(code.FileRequest? && fileSize == 0))
  {
    match code
    case InternalError => PageFits(500, ERROR_500_TITLE, ERROR_500_FORM, linger);
    case BadRequest => PageFits(400, ERROR_400_TITLE, ERROR_400_FORM, linger);
    case NoResource => PageFits(404, ERROR_404_TITLE, ERROR_404_FORM, linger);
    case ForbiddenRequest => PageFits(403, ERROR_403_TITLE, ERROR_403_FORM, linger);
    case FileRequest =>
      PageFits(200, OK_200_TITLE, OK_STRING, linger);
      if fileSize != 0 { FilePage(linger, fileSize); }
  }

  lemma FilePage(linger: bool, fileSize: nat)
    requires fileSize != 0
    ensures ProcessWrite(FileRequest, "", linger, fileSize).0
      == StatusLine(200, OK_200_TITLE) + Headers(ToInt(fileSize), linger) + ""
  {
    StatusLength(200, OK_200_TITLE);
    assert "" + StatusLine(200, OK_200_TITLE) == StatusLine(200, OK_200_TITLE);
    HeadersFit(StatusLine(200, OK_200_TITLE), ToInt(fileSize), linger);
  }

  // ---------- reading a header back ----------

  function Lower(c: char): (r: char)
    ensures r == c || ('A' <= c <= 'Z' && 'a' <= r <= 'z' && r as int - 'a' as int == c as int - 'A' as int)
    ensures !('A' <= r <= 'Z')
  {
    if 'A' <= c <= 'Z' then (c as int + 32) as char else c
  }

  /** strncasecmp(text, prefix, strlen(prefix)) == 0 */
  predicate StartsWith(text: string, prefix: string) {
    |prefix| <= |text| && forall i :: 0 <= i < |prefix| ==> Lower(text[i]) == Lower(prefix[i])
  }

  /** strspn over the characters in `skip`, then drop them. */
  function Skip(text: string, skip: string): string {
    if text != "" && text[0] in skip then Skip(text[1..], skip) else text
  }

  /** The value of the leading digits, continued from `acc`. */
  function DigitsValue(text: string, acc: nat): nat {
    if text != "" && IsDigit(text[0]) then DigitsValue(text[1..], 10 * acc + (text[0] as int - '0' as int)) else acc
  }

  /** atol: white space, an optional sign, digits. */
  function Atol(text: string): int {
    var t := Skip(text, " \t\n\U{000B}\U{000C}\r");
    if t != "" && t[0] == '-' then 0 - DigitsValue(t[1..], 0)
    else if t != "" && t[0] == '+' then DigitsValue(t[1..], 0)
    else DigitsValue(t, 0)
  }

  datatype Parser = Parser(contentLength: int, linger: bool, inContent: bool)

  /** parse_headers on one line without its line end, up to the Host header. */
  function ParseHeader(p: Parser, text: string): (r: (Parser, Code)) {
    if text == "" then
      if p.contentLength != 0 then (p.(inContent := true), NoRequest) else (p, GetRequest)
    else if StartsWith(text, "Connection:") then
      var v := Skip(text[11..], "\t");
      (if |v| == 10 && StartsWith(v, "keep-alive") then p.(linger := true) else p, NoRequest)
    else if StartsWith(text, "Content-Length:") then
      (p.(contentLength := ToInt(Atol(Skip(text[15..], " \t")))), NoRequest)
    else (p, NoRequest)
  }

  lemma {:induction false} DigitsValueSnoc(s: string, d: char, acc: nat)
    requires IsDigit(d) && forall i :: 0 <= i < |s| ==> IsDigit(s[i])
    ensures DigitsValue(s + [d], acc) == 10 * DigitsValue(s, acc) + (d as int - '0' as int)
  {
    if s != "" {
      assert (s + [d])[1..] == s[1..] + [d];
      DigitsValueSnoc(s[1..], d, 10 * acc + (s[0] as int - '0' as int));
    } else {
      assert s + [d] == [d] && [d][1..] == "";
    }
  }

  lemma {:induction false} DigitsBack(n: nat)
    ensures DigitsValue(Digits(n), 0) == n
  {
    if n >= 10 {
      DigitsBack(n / 10);
      DigitsValueSnoc(Digits(n / 10), Digit(n % 10), 0);
    } else {
      assert Digits(n)[1..] == "";
    }
  }

  /** atol undoes %d. */
  lemma AtolUndoesDecimal(n: int)
    ensures Atol(Decimal(n)) == n
    ensures Skip(Decimal(n), " \t") == Decimal(n)
  {
    var d := Decimal(n);
    DigitsBack(if n < 0 then -n else n);
    if n < 0 {
      assert d[0] == '-' && d[1..] == Digits(-n);
    } else {
      assert IsDigit(d[0]);
    }
  }

  lemma LengthPrefix(v: string)
    ensures var text := "Content-Length:" + v;
      StartsWith(text, "Content-Length:") && !StartsWith(text, "Connection:") && text[15..] == v
  {
    var text := "Content-Length:" + v;
    assert Lower(text[3]) != Lower("Connection:"[3]);
  }

  lemma SkipsSpace(d: string)
    ensures Skip(" " + d, " \t") == Skip(d, " \t")
  {
    assert (" " + d)[1..] == d;
  }

  lemma SpaceApart(d: string)
    ensures "Content-Length: " + d == "Content-Length:" + (" " + d)
  {
    assert "Content-Length: " == "Content-Length:" + " ";
  }

  lemma LengthValue(p: Parser, v: string)
    ensures ParseHeader(p, "Content-Length:" + v) == (p.(contentLength := ToInt(Atol(Skip(v, " \t")))), NoRequest)
  {
    LengthPrefix(v);
  }

  /** The Content-Length line that the builder writes is read back to the number it was given. */
  lemma LengthReadsBack(p: Parser, n: int)
    requires -INT_MAX - 1 <= n <= INT_MAX
    ensures ParseHeader(p, "Content-Length: " + Decimal(n)) == (p.(contentLength := n), NoRequest)
  {
    var v := " " + Decimal(n);
    LengthValue(p, v);
    AtolUndoesDecimal(n);
    SkipsSpace(Decimal(n));
    SpaceApart(Decimal(n));
  }

  predicate Blank(s: string) {
    forall i :: 0 <= i < |s| ==> s[i] == ' ' || s[i] == '\t'
  }

  /** Equal up to case. */
  predicate SameText(a: string, b: string) {
    |a| == |b| && forall i :: 0 <= i < |a| ==> Lower(a[i]) == Lower(b[i])
  }

  /** The header value is keep-alive, with spaces and tabs around it as section 5 of RFC 9112 allows. */
  ghost predicate MeansKeepAlive(v: string) {
    exists i, j :: 0 <= i <= j <= |v| && Blank(v[..i]) && Blank(v[j..]) && SameText(v[i..j], "keep-alive")
  }

  lemma {:induction false} SkipsTabs(v: string)
    ensures var u := Skip(v, "\t"); var n := |v| - |u|;
      && 0 <= n && u == v[n..] && (u != "" ==> u[0] != '\t')
      && forall i :: 0 <= i < n ==> v[i] == '\t'
  {
    if v != "" && v[0] == '\t' { SkipsTabs(v[1..]); }
  }

  lemma KeepAliveHasNoBlank(w: string)
    requires SameText(w, "keep-alive")
    ensures forall i :: 0 <= i < |w| ==> w[i] != ' ' && w[i] != '\t'
  {
    var k := "keep-alive";
    assert k[0] == 'k' && k[1] == 'e' && k[2] == 'e' && k[3] == 'p' && k[4] == '-';
    assert k[5] == 'a' && k[6] == 'l' && k[7] == 'i' && k[8] == 'v' && k[9] == 'e';
  }

  lemma LingerNeeds(v: string, n: nat)
    requires n <= |v| && SameText(v[n..], "keep-alive") && forall i :: 0 <= i < n ==> v[i] == '\t'
    ensures MeansKeepAlive(v) && ' ' !in v && v[|v| - 1] != '\t'
  {
    var u := v[n..];
    KeepAliveHasNoBlank(u);
    assert v[n..|v|] == u && Blank(v[..n]) && Blank(v[|v|..]);
    assert forall i :: 0 <= i < |u| ==> v[n + i] == u[i];
    assert v[|v| - 1] == u[9];
  }

  lemma LingerSuffices(v: string)
    requires MeansKeepAlive(v) && ' ' !in v && v[|v| - 1] != '\t'
    ensures SameText(Skip(v, "\t"), "keep-alive")
  {
    var i, j :| 0 <= i <= j <= |v| && Blank(v[..i]) && Blank(v[j..]) && SameText(v[i..j], "keep-alive");
    KeepAliveHasNoBlank(v[i..j]);
    SkipsTabs(v);
    var before := v[..i];
    assert forall k :: 0 <= k < i ==> before[k] == v[k];
    assert j == |v| && v[i..j] == v[i..];
    assert v[i] == v[i..j][0];
  }

  /** A value that says keep-alive, with no space anywhere around it and no tab behind it. */
  ghost predicate Honoured(v: string) {
    MeansKeepAlive(v) && ' ' !in v && v[|v| - 1] != '\t'
  }

  lemma HonouredBySkip(v: string)
    ensures Honoured(v) <==> |Skip(v, "\t")| == 10 && StartsWith(Skip(v, "\t"), "keep-alive")
  {
    var u := Skip(v, "\t");
    SkipsTabs(v);
    assert |u| == 10 && StartsWith(u, "keep-alive") <==> SameText(u, "keep-alive");
    if SameText(u, "keep-alive") { LingerNeeds(v, |v| - |u|); }
    if Honoured(v) { LingerSuffices(v); }
  }

  /** The value of a Connection header is honoured if and only if it says keep-alive and no space
      stands anywhere around that and no tab behind it. */
  lemma LingerHonoured(p: Parser, v: string)
    requires !p.linger
    ensures ParseHeader(p, "Connection:" + v).0.linger
      <==> MeansKeepAlive(v) && ' ' !in v && v[|v| - 1] != '\t'
  {
    assert ("Connection:" + v)[11..] == v;
    HonouredBySkip(v);
  }

  /** ... so the line that the builder itself writes, with a space, is not. */
  lemma OwnLingerLineIgnored(p: Parser)
    ensures ParseHeader(p, "Connection: keep-alive") == (p, NoRequest)
  {
    var text := "Connection: keep-alive";
    assert text[11..] == " keep-alive";
    assert |" keep-alive"| == 11;
  }

  // ---------- a whole head ----------

  /** The line starts with this header name, up to case. */
  predicate Named(line: string, name: string) {
    |name| <= |line| && SameText(line[..|name|], name)
  }

  lemma NamedStarts(line: string, name: string)
    ensures Named(line, name) <==> StartsWith(line, name)
  {
    if |name| <= |line| {
      var head := line[..|name|];
      assert forall i :: 0 <= i < |name| ==> head[i] == line[i];
    }
  }

  lemma OneName(line: string)
    requires Named(line, "Connection:")
    ensures !Named(line, "Content-Length:")
  {
    var a, b := "Connection:", "Content-Length:";
    assert Lower(a[3]) != Lower(b[3]);
    assert line[..11][3] == line[3];
    if |line| >= 15 { assert line[..15][3] == line[3]; }
  }

  lemma {:induction false} AtolSkips(v: string)
    ensures Atol(Skip(v, " \t")) == Atol(v)
  {
    if v != "" && v[0] in " \t" { AtolSkips(v[1..]); }
  }

  /** What one line, which is not empty, does to the parser. */
  lemma OneLine(p: Parser, line: string)
    requires line != ""
    ensures var (r, code) := ParseHeader(p, line);
      && code == NoRequest && r.inContent == p.inContent
      && r.contentLength == (if Named(line, "Content-Length:") then ToInt(Atol(line[15..])) else p.contentLength)
      && (r.linger <==> p.linger || (Named(line, "Connection:") && Honoured(line[11..])))
  {
    NamedStarts(line, "Connection:");
    NamedStarts(line, "Content-Length:");
    if Named(line, "Connection:") {
      OneName(line);
      HonouredBySkip(line[11..]);
    } else if Named(line, "Content-Length:") {
      AtolSkips(line[15..]);
    }
  }

  /** parse_headers on one line after the other. */
  function ParseLines(p: Parser, lines: seq<string>): Parser
    decreases |lines|
  {
    if lines == [] then p else ParseLines(ParseHeader(p, lines[0]).0, lines[1..])
  }

  /** The last Content-Length line, or -1. */
  function LastLength(lines: seq<string>): (k: int)
    ensures -1 <= k < |lines| && (k >= 0 ==> Named(lines[k], "Content-Length:"))
    ensures forall i :: k < i < |lines| ==> !Named(lines[i], "Content-Length:")
  {
    if lines == [] then -1
    else if LastLength(lines[1..]) >= 0 then 1 + LastLength(lines[1..])
    else if Named(lines[0], "Content-Length:") then 0
    else -1
  }

  ghost predicate AnyHonoured(lines: seq<string>) {
    exists i :: 0 <= i < |lines| && Named(lines[i], "Connection:") && Honoured(lines[i][11..])
  }

  lemma AnyHonouredNext(lines: seq<string>)
    requires lines != []
    ensures AnyHonoured(lines)
      <==> (Named(lines[0], "Connection:") && Honoured(lines[0][11..])) || AnyHonoured(lines[1..])
  {
    var rest := lines[1..];
    if AnyHonoured(lines) {
      var i :| 0 <= i < |lines| && Named(lines[i], "Connection:") && Honoured(lines[i][11..]);
      if i > 0 { assert rest[i - 1] == lines[i]; }
    }
    if AnyHonoured(rest) {
      var i :| 0 <= i < |rest| && Named(rest[i], "Connection:") && Honoured(rest[i][11..]);
      assert lines[i + 1] == rest[i];
    }
  }

  /** After any lines of a head: the length is that of the last Content-Length line, if there is one;
      linger is set if it was or some Connection line is honoured; nothing else has changed. */
  lemma {:induction false} LinesRead(p: Parser, lines: seq<string>)
    requires "" !in lines
    ensures var r, k := ParseLines(p, lines), LastLength(lines);
      && r.contentLength == (if k >= 0 then ToInt(Atol(lines[k][15..])) else p.contentLength)
      && (r.linger <==> p.linger || AnyHonoured(lines))
      && r.inContent == p.inContent
    decreases |lines|
  {
    if lines != [] {
      OneLine(p, lines[0]);
      AnyHonouredNext(lines);
      LinesRead(ParseHeader(p, lines[0]).0, lines[1..]);
    }
  }

  /** A whole head, up to the empty line, read by a parser that has seen none of it: with a length of
      zero, or none, the request is complete and the state stays; otherwise the content comes next. */
  lemma HeadRead(p: Parser, lines: seq<string>)
    requires "" !in lines
    ensures var (r, code) := ParseHeader(ParseLines(p, lines), "");
      var k := LastLength(lines);
      var length := if k >= 0 then ToInt(Atol(lines[k][15..])) else p.contentLength;
      && (code == GetRequest <==> length == 0) && (code == NoRequest <==> length != 0)
      && (r.inContent <==> p.inContent || length != 0)
      && r.contentLength == length && (r.linger <==> p.linger || AnyHonoured(lines))
  {
    LinesRead(p, lines);
  }

  lemma {:induction false} DigitsValueStops(s: string, rest: string, acc: nat)
    requires forall i :: 0 <= i < |s| ==> IsDigit(s[i])
    requires rest == "" || !IsDigit(rest[0])
    ensures DigitsValue(s + rest, acc) == DigitsValue(s, acc)
  {
    if s == "" {
      assert s + rest == rest;
    } else {
      assert (s + rest)[1..] == s[1..] + rest;
      DigitsValueStops(s[1..], rest, 10 * acc + (s[0] as int - '0' as int));
    }
  }

  lemma AtolPlus(n: nat, rest: string)
    requires rest == "" || !IsDigit(rest[0])
    ensures Atol("+" + (Digits(n) + rest)) == n
  {
    var d := Digits(n) + rest;
    DigitsThenRest(n, rest);
    assert ("+" + d)[1..] == d;
    AtolOfPlus("+" + d);
  }

  lemma AtolOfPlus(v: string)
    requires v != "" && v[0] == '+'
    ensures Atol(v) == DigitsValue(v[1..], 0)
  {
  }

  lemma DigitsThenRest(n: nat, rest: string)
    requires rest == "" || !IsDigit(rest[0])
    ensures DigitsValue(Digits(n) + rest, 0) == n
  {
    DigitsBack(n);
    DigitsValueStops(Digits(n), rest, 0);
  }

  lemma AtolOfMinus(v: string)
    requires v != "" && v[0] == '-'
    ensures Atol(v) == 0 - DigitsValue(v[1..], 0)
  {
  }

  lemma AtolOfDigits(v: string)
    requires v != "" && IsDigit(v[0])
    ensures Atol(v) == DigitsValue(v, 0)
  {
  }

  lemma AtolPositive(n: nat, rest: string)
    requires rest == "" || !IsDigit(rest[0])
    ensures Atol(Digits(n) + rest) == n
  {
    var d := Digits(n);
    DigitsThenRest(n, rest);
    assert (d + rest)[0] == d[0];
    AtolOfDigits(d + rest);
  }

  lemma AtolNegative(n: nat, rest: string)
    requires rest == "" || !IsDigit(rest[0])
    ensures Atol("-" + (Digits(n) + rest)) == 0 - n
  {
    var d := Digits(n) + rest;
    DigitsThenRest(n, rest);
    assert ("-" + d)[1..] == d;
    AtolOfMinus("-" + d);
  }

  lemma AtolNumber(n: int, rest: string)
    requires rest == "" || !IsDigit(rest[0])
    ensures Atol(Decimal(n) + rest) == n
  {
    if n < 0 {
      AtolNegative(-n, rest);
      assert Decimal(n) + rest == "-" + (Digits(-n) + rest);
    } else {
      AtolPositive(n, rest);
    }
  }

  /** A number is read behind blanks, up to the first byte that is no digit. */
  lemma {:induction false} AtolReads(blanks: string, n: int, rest: string)
    requires Blank(blanks) && (rest == "" || !IsDigit(rest[0]))
    ensures Atol(blanks + (Decimal(n) + rest)) == n
  {
    var v := blanks + (Decimal(n) + rest);
    if blanks == "" {
      assert v == Decimal(n) + rest;
      AtolNumber(n, rest);
    } else {
      assert v[1..] == blanks[1..] + (Decimal(n) + rest);
      AtolReads(blanks[1..], n, rest);
    }
  }

  // ---------- what a recipient reads ----------

  /** The text up to the first CR LF, and what follows it. */
  function SplitLine(s: string): (r: Option<(string, string)>)
    ensures r.Some? ==> |r.value.1| < |s|
  {
    if |s| < 2 then None
    else if s[..2] == CRLF then Some(("", s[2..]))
    else
      match SplitLine(s[1..])
      case None => None
      case Some((line, rest)) => Some(([s[0]] + line, rest))
  }

  /** The lines of a message head, up to the empty one, and the body behind it. */
  function SplitHead(s: string): Option<(seq<string>, string)>
    decreases |s|
  {
    match SplitLine(s)
    case None => None
    case Some((line, rest)) =>
      if line == "" then Some(([], rest))
      else
        match SplitHead(rest)
        case None => None
        case Some((lines, body)) => Some(([line] + lines, body))
  }

  lemma {:induction false} SplitsLine(line: string, rest: string)
    requires '\r' !in line
    ensures SplitLine(line + CRLF + rest) == Some((line, rest))
  {
    var s := line + CRLF + rest;
    if line == "" {
      assert s == CRLF + rest && s[..2] == CRLF && s[2..] == rest;
    } else {
      assert s[0] == line[0];
      assert s[1..] == line[1..] + CRLF + rest;
      SplitsLine(line[1..], rest);
      assert [line[0]] + line[1..] == line;
    }
  }

  lemma SplitsOne(line: string, rest: string, lines: seq<string>, body: string)
    requires '\r' !in line && line != "" && SplitHead(rest) == Some((lines, body))
    ensures SplitHead(line + CRLF + rest) == Some(([line] + lines, body))
  {
    SplitsLine(line, rest);
  }

  lemma NoCrInDecimal(n: int)
    ensures '\r' !in Decimal(n)
  {
    var d := Digits(if n < 0 then -n else n);
    assert forall i :: 0 <= i < |d| ==> IsDigit(d[i]);
  }

  function FirstLineOf(m: Message): string {
    "HTTP/1.1" + " " + Decimal(m.status) + " " + m.title
  }

  function LengthHeader(m: Message): string {
    "Content-Length: " + Decimal(m.length)
  }

  function LingerHeader(linger: bool): string {
    "Connection: " + if linger then "keep-alive" else "close"
  }

  lemma BlankSplits(body: string)
    ensures SplitHead(CRLF + body) == Some(([], body))
  {
    SplitsLine("", body);
    assert "" + CRLF + body == CRLF + body;
  }

  lemma LingerSplits(linger: bool, body: string)
    ensures SplitHead(LingerHeader(linger) + CRLF + (CRLF + body)) == Some(([LingerHeader(linger)], body))
  {
    BlankSplits(body);
    SplitsOne(LingerHeader(linger), CRLF + body, [], body);
    assert [LingerHeader(linger)] + [] == [LingerHeader(linger)];
  }

  lemma LengthSplits(m: Message, linger: bool)
    ensures SplitHead(LengthHeader(m) + CRLF + (LingerHeader(linger) + CRLF + (CRLF + m.body)))
      == Some(([LengthHeader(m), LingerHeader(linger)], m.body))
  {
    NoCrInDecimal(m.length);
    LingerSplits(linger, m.body);
    SplitsOne(LengthHeader(m), LingerHeader(linger) + CRLF + (CRLF + m.body), [LingerHeader(linger)], m.body);
    assert [LengthHeader(m)] + [LingerHeader(linger)] == [LengthHeader(m), LingerHeader(linger)];
  }

  lemma EncodeLayout(m: Message, linger: bool)
    ensures Encode(m, linger) == FirstLineOf(m) + CRLF
      + (LengthHeader(m) + CRLF + (LingerHeader(linger) + CRLF + (CRLF + m.body)))
  {
    assert StatusLine(m.status, m.title) == FirstLineOf(m) + CRLF;
    assert LengthLine(m.length) == LengthHeader(m) + CRLF;
    assert LingerLine(linger) == LingerHeader(linger) + CRLF;
  }

  /** The head of an encoded message splits into its three lines, and the rest is the body. */
  lemma EncodeSplits(m: Message, linger: bool)
    requires '\r' !in m.title
    ensures SplitHead(Encode(m, linger)) == Some(([FirstLineOf(m), LengthHeader(m), LingerHeader(linger)], m.body))
  {
    NoCrInDecimal(m.status);
    EncodeLayout(m, linger);
    LengthSplits(m, linger);
    SplitsOne(FirstLineOf(m), LengthHeader(m) + CRLF + (LingerHeader(linger) + CRLF + (CRLF + m.body)),
              [LengthHeader(m), LingerHeader(linger)], m.body);
    assert [FirstLineOf(m)] + [LengthHeader(m), LingerHeader(linger)]
      == [FirstLineOf(m), LengthHeader(m), LingerHeader(linger)];
  }

  /** The number of bytes that follow the head: the body in the buffer and, for a file, its contents. */
  function BodyLength(code: Code, fileSize: nat): nat
    requires Answers(code)
  {
    if code.FileRequest? && fileSize != 0 then fileSize else |MessageFor(code, fileSize).body|
  }

  lemma ToIntExact(x: nat)
    ensures ToInt(x) == x <==> x <= INT_MAX
  {
  }

  lemma AnnouncedLength(code: Code, fileSize: nat)
    requires Answers(code)
    ensures MessageFor(code, fileSize).length == BodyLength(code, fileSize) <==>
      !code.FileRequest? || fileSize <= INT_MAX
    ensures -INT_MAX - 1 <= MessageFor(code, fileSize).length <= INT_MAX
    ensures '\r' !in MessageFor(code, fileSize).title
  {
    ToIntExact(fileSize);
  }

  /** What is committed from an empty buffer, cut at the empty line and its second line parsed as a
      header, announces exactly the bytes that follow, if and only if no file above INT_MAX is involved. */
  lemma LengthIsRight(code: Code, linger: bool, fileSize: nat, p: Parser)
    requires Answers(code)
    ensures var head := SplitHead(ProcessWrite(code, "", linger, fileSize).0);
      && head.Some? && |head.value.0| == 3
      && head.value.1 == MessageFor(code, fileSize).body
      && (ParseHeader(p, head.value.0[1]).0.contentLength == BodyLength(code, fileSize)
          <==> !code.FileRequest? || fileSize <= INT_MAX)
  {
    var m := MessageFor(code, fileSize);
    NothingDropped(code, linger, fileSize);
    AnnouncedLength(code, fileSize);
    EncodeSplits(m, linger);
    LengthReadsBack(p, m.length);
  }

  lemma Numerals()
    ensures Decimal(200) == "200" && Decimal(400) == "400" && Decimal(403) == "403" && Decimal(404) == "404"
    ensures Decimal(500) == "500" && Decimal(14) == "14" && Decimal(23) == "23" && Decimal(26) == "26"
    ensures Decimal(46) == "46" && Decimal(49) == "49"
  {
  }

  /** The status line, the length and the body that belong to each code. */
  function Wording(code: Code, fileSize: nat): (string, string, string)
    requires Answers(code)
  {
    match code
    case InternalError => ("HTTP/1.1 500 Internal Error", "14", "Internal Error")
    case BadRequest => ("HTTP/1.1 400 Bad Request", "49", "Bad Syntax or inherently impossible to satisfied\n")
    case NoResource => ("HTTP/1.1 404 Not Found", "46", "The request file was not found on this server\n")
    case ForbiddenRequest => ("HTTP/1.1 403 Forbidden", "23", "Do not have permission\n")
    case _ =>
      if fileSize == 0 then ("HTTP/1.1 200 OK", "26", "<html><body></body></html>")
      else ("HTTP/1.1 200 OK", Decimal(ToInt(fileSize)), "")
  }

  lemma FirstLines()
    ensures "HTTP/1.1" + " " + "500" + " " + "Internal Error" == "HTTP/1.1 500 Internal Error"
    ensures "HTTP/1.1" + " " + "400" + " " + "Bad Request" == "HTTP/1.1 400 Bad Request"
    ensures "HTTP/1.1" + " " + "404" + " " + "Not Found" == "HTTP/1.1 404 Not Found"
    ensures "HTTP/1.1" + " " + "403" + " " + "Forbidden" == "HTTP/1.1 403 Forbidden"
    ensures "HTTP/1.1" + " " + "200" + " " + "OK" == "HTTP/1.1 200 OK"
  {
  }

  lemma WordingIsMessage(code: Code, fileSize: nat)
    requires Answers(code)
    ensures var (first, length, body), m := Wording(code, fileSize), MessageFor(code, fileSize);
      FirstLineOf(m) == first && Decimal(m.length) == length && m.body == body
  {
    Numerals();
    FirstLines();
  }

  /** Every reply from an empty buffer, line by line: a recipient gets the status line of the code, the
      length, what becomes of the connection, and the text of the code. */
  lemma Replies(code: Code, linger: bool, fileSize: nat)
    requires Answers(code)
    ensures var (first, length, body) := Wording(code, fileSize);
      SplitHead(ProcessWrite(code, "", linger, fileSize).0)
      == Some(([first, "Content-Length: " + length, "Connection: " + if linger then "keep-alive" else "close"], body))
  {
    var m := MessageFor(code, fileSize);
    NothingDropped(code, linger, fileSize);
    AnnouncedLength(code, fileSize);
    EncodeSplits(m, linger);
    WordingIsMessage(code, fileSize);
  }
}
