/** The request parser as a state machine over lines, on values. */
module RequestParser {
  import opened Lines
  import opened FormDecoder

  datatype ParseState = RequestLine | Headers | Body | Finish

  datatype Request = Request(
    state: ParseState,
    method_: string, path: string, version: string, body: string,
    header: map<string, string>, post: map<string, string>)

  /** The verdict of the user database on a name, a password and whether this is a login. */
  type Database = (string, string, bool) -> bool

  const NO_REQUEST := Request(RequestLine, "", "", "", "", map[], map[])

  const FORM := "application/x-www-form-urlencoded"

  predicate IsDefaultPage(path: string) {
    path in ["/index", "/register", "/login", "/welcome", "/video", "/picture"]
  }

  /** ParsePath_ */
  function PageOf(path: string): string {
    if path == "/" then "/index.html"
    else if IsDefaultPage(path) then path + ".html"
    else path
  }

  /** The mapping changes the root and the default pages only, and never what it has mapped. */
  lemma PageOfSettles(path: string)
    ensures PageOf(path) != path
       <==> path in ["/", "/index", "/register", "/login", "/welcome", "/video", "/picture"]
    ensures PageOf(path) == (if path == "/" then "/index" else path) + ".html" || PageOf(path) == path
    ensures PageOf(PageOf(path)) == PageOf(path)
  {
    assert "/index" + ".html" == "/index.html";
    if IsDefaultPage(path) {
      assert (path + ".html")[|path|] == '.';
      assert |path + ".html"| > 1 && !IsDefaultPage(path + ".html") by {
        forall page | page in ["/index", "/register", "/login", "/welcome", "/video", "/picture"]
          ensures path + ".html" != page
        {
          assert '.' !in page;
        }
      }
    }
  }

  /** `operator[]` of the source's hash maps: a missing key comes into being, empty. */
  function Touched(m: map<string, string>, key: string): (r: map<string, string>)
    ensures forall k :: k in r <==> k in m || k == key
    ensures forall k :: k in r ==> r[k] == Lookup(m, k)
  {
    if key in m then m else m[key := ""]
  }

  function Lookup(m: map<string, string>, key: string): string {
    if key in m then m[key] else ""
  }

  predicate UserVerify(db: Database, name: string, pwd: string, isLogin: bool) {
    name != "" && pwd != "" && db(name, pwd, isLogin)
  }

  /** What becomes of a request whose form has been decoded: on the two user pages the form's
      name and password decide the page. */
  function Redirected(q: Request, db: Database): Request {
    if q.path == "/register.html" || q.path == "/login.html" then
      var post := Touched(Touched(q.post, "username"), "password");
      q.(post := post,
         path := if UserVerify(db, post["username"], post["password"], q.path == "/login.html")
                 then "/welcome.html" else "/error.html")
    else q
  }

  /** A user gets to the welcome page exactly with a name, a password and the database's consent, and
      to the error page otherwise; all other pages stay, and so does the rest of the request. */
  lemma RedirectedIs(q: Request, db: Database)
    ensures q.path != "/login.html" && q.path != "/register.html" ==> Redirected(q, db) == q
    ensures q.path == "/login.html" || q.path == "/register.html" ==>
      var name, pwd := Lookup(q.post, "username"), Lookup(q.post, "password");
      Redirected(q, db)
        == q.(path := if name != "" && pwd != "" && db(name, pwd, q.path == "/login.html")
                      then "/welcome.html" else "/error.html",
              post := Touched(Touched(q.post, "username"), "password"))
  {
  }

  /** ParsePost_; None where the form decoder leaves its body. */
  function ParsedPost(q: Request, db: Database): Option<Request> {
    if q.method_ != "POST" then Some(q) else
    var t := q.(header := Touched(q.header, "Content-Type"));
    if t.header["Content-Type"] != FORM then Some(t) else
    match Decode(t.body, t.post)
    case None => None
    case Some((body, post)) => Some(Redirected(t.(body := body, post := post), db))
  }

  datatype Outcome = Parsed(request: Request) | Malformed | OutOfBounds

  function ParseLine(q: Request, line: string, db: Database): Outcome {
    match q.state
    case RequestLine =>
      (match SplitRequestLine(line)
       case None => Malformed
       case Some((m, p, v)) => Parsed(q.(state := Headers, method_ := m, path := PageOf(p), version := v)))
    case Headers =>
      (match SplitHeader(line)
       case Some((name, value)) => Parsed(q.(header := q.header[name := value]))
       case None => Parsed(q.(state := if q.method_ == "POST" then Body else Finish)))
    case Body =>
      if q.method_ != "POST" then Parsed(q.(state := Finish)) else
      (match ParsedPost(q.(body := line), db)
       case None => OutOfBounds
       case Some(t) => Parsed(t.(state := Finish)))
    case Finish => Parsed(q)
  }

  /** Accepted and Refused are parse's true and false, with the bytes left unread; Undefined is a
      body that the form decoder runs out of. */
  datatype Result = Accepted(request: Request, rest: string) | Refused(request: Request, rest: string) | Undefined

  function ParseLines(q: Request, bytes: string, db: Database): Result
    decreases |bytes|
  {
    if bytes == "" || q.state == Finish then Accepted(q, bytes) else
    var k := LineEnd(bytes);
    match ParseLine(q, bytes[..k], db)
    case Malformed => Refused(q, bytes)
    case OutOfBounds => Undefined
    case Parsed(t) => if k == |bytes| then Accepted(t, "") else ParseLines(t, bytes[k + 2..], db)
  }

  function Parse(q: Request, bytes: string, db: Database): Result {
    if bytes == "" then Refused(q, bytes) else ParseLines(q, bytes, db)
  }

  // --------------------------------------------------- progress, conservation

  function Rank(s: ParseState): nat {
    match s
    case RequestLine => 0
    case Headers => 1
    case Body => 2
    case Finish => 3
  }

  /** The state only moves forward, the bytes left are an end of the bytes given, and parsing
      stops early only in FINISH. */
  lemma {:induction false} ParseConserves(q: Request, bytes: string, db: Database)
    ensures match ParseLines(q, bytes, db)
            case Accepted(t, rest) =>
              && Rank(q.state) <= Rank(t.state)
              && |rest| <= |bytes| && bytes[|bytes| - |rest|..] == rest
              && (t.state == Finish || rest == "")
            case Refused(t, rest) => t == q && rest == bytes && q.state == RequestLine
            case Undefined => true
    decreases |bytes|
  {
    hide ParseLine, IsCrlfAt;
    if bytes != "" && q.state != Finish {
      var k := LineEnd(bytes);
      LineMovesForward(q, bytes[..k], db);
      match ParseLine(q, bytes[..k], db)
      case Parsed(t) =>
        if k < |bytes| {
          CrlfFits(bytes, k);
          ParseConserves(t, bytes[k + 2..], db);
        }
      case _ =>
    }
  }

  lemma CrlfFits(b: string, k: nat)
    requires IsCrlfAt(b, k)
    ensures k + 2 <= |b|
  {
  }

  lemma LineMovesForward(q: Request, line: string, db: Database)
    ensures match ParseLine(q, line, db)
            case Parsed(t) => Rank(q.state) <= Rank(t.state) && (q.state == RequestLine ==> t.state == Headers)
            case Malformed => q.state == RequestLine
            case OutOfBounds => q.state == Body
  {
  }

  /** parse returns false exactly for an empty buffer or a first line that is no request line,
      and then changes nothing. */
  lemma ParseRefusesIff(q: Request, bytes: string, db: Database)
    ensures Parse(q, bytes, db).Refused? <==>
      bytes == "" || (q.state == RequestLine && SplitRequestLine(bytes[..LineEnd(bytes)]).None?)
    ensures Parse(q, bytes, db).Refused? ==> Parse(q, bytes, db) == Refused(q, bytes)
  {
    ParseConserves(q, bytes, db);
    if bytes != "" && q.state != Finish {
      var k := LineEnd(bytes);
      LineMovesForward(q, bytes[..k], db);
      match ParseLine(q, bytes[..k], db)
      case Parsed(t) => if k < |bytes| { ParseConserves(t, bytes[k + 2..], db); }
      case _ =>
    }
  }

  // ------------------------------------------------------------- one by one

  lemma FirstLine(q: Request, line: string, rest: string, db: Database)
    requires NoCrlf(line) && q.state != Finish
    ensures ParseLines(q, line + CRLF + rest, db) ==
            match ParseLine(q, line, db)
            case Malformed => Refused(q, line + CRLF + rest)
            case OutOfBounds => Undefined
            case Parsed(t) => ParseLines(t, rest, db)
  {
    LineComesBack(line, rest);
  }

  /** A CRLF missing behind the last bytes makes no difference: they are parsed as a line. */
  lemma LastLineNeedsNoEnd(q: Request, line: string, db: Database)
    requires NoCrlf(line) && line != "" && q.state != Finish
    ensures var ended, cut := ParseLines(q, line + "\r\n", db), ParseLines(q, line, db);
            if ended.Refused? then cut == Refused(q, line)
            else cut == ended && (ended.Accepted? ==> ended.rest == "")
  {
    NoCrlfIff(line);
    assert line[..|line|] == line;
    hide ParseLine;
    FirstLine(q, line, "", db);
    assert line + CRLF + "" == line + "\r\n";
  }

  // ------------------------------------------------------------- round trips

  datatype HeaderField = HeaderField(name: string, value: string)

  /** A header that survives printing: the name has no colon and no CRLF, the value is one line. */
  ghost predicate Printable(h: HeaderField) {
    ':' !in h.name && NoCrlf(h.name) && OneLine(h.value)
  }

  function PrintHeaders(hs: seq<HeaderField>): string {
    if hs == [] then "" else hs[0].name + ": " + hs[0].value + "\r\n" + PrintHeaders(hs[1..])
  }

  function HeaderMap(hs: seq<HeaderField>, m: map<string, string>): map<string, string> {
    if hs == [] then m else HeaderMap(hs[1..], m[hs[0].name := hs[0].value])
  }

  function PrintHead(m: string, p: string, v: string, hs: seq<HeaderField>): string {
    m + " " + p + " HTTP/" + v + "\r\n" + (PrintHeaders(hs) + "\r\n")
  }

  lemma NoCrlfChars(s: string)
    ensures OneLine(s) ==> NoCrlf(s)
  {
  }

  lemma HeaderLineHolds(h: HeaderField)
    requires Printable(h)
    ensures NoCrlf(h.name + ": " + h.value)
  {
    var line := h.name + ": " + h.value;
    forall i: nat | i < |line| ensures !IsCrlfAt(line, i) {
      if i < |h.name| {
        assert !IsCrlfAt(h.name, i);
      } else if i >= |h.name| + 2 {
        assert line[i] == h.value[i - |h.name| - 2];
      }
    }
  }

  /** What is a header: there is a colon, and after the first one no line break. */
  lemma HeaderIff(line: string)
    ensures SplitHeader(line).Some?
       <==> exists i :: 0 <= i < |line| && line[i] == ':' && ':' !in line[..i]
                        && '\r' !in line[i + 1..] && '\n' !in line[i + 1..]
  {
    if i :| 0 <= i < |line| && line[i] == ':' && ':' !in line[..i]
            && '\r' !in line[i + 1..] && '\n' !in line[i + 1..] {
      CutIff(line, ':', line[..i], line[i + 1..]);
      assert line == line[..i] + [':'] + line[i + 1..];
    }
    if SplitHeader(line).Some? {
      var (name, rest) := Cut(line, ':').value;
      CutIff(line, ':', name, rest);
      var i := |name|;
      assert line[..i] == name && line[i + 1..] == rest;
      assert " " <= rest ==> rest == " " + rest[1..];
    }
  }

  /** The headers end at the first line that is none, blank or not; it leaves no trace, and whether
      a body follows depends on the method only. */
  lemma {:induction false} HeadersEndAt(q: Request, hs: seq<HeaderField>, line: string, rest: string, db: Database)
    requires q.state == Headers && forall i :: 0 <= i < |hs| ==> Printable(hs[i])
    requires NoCrlf(line) && SplitHeader(line).None?
    ensures ParseLines(q, PrintHeaders(hs) + line + "\r\n" + rest, db)
         == ParseLines(q.(header := HeaderMap(hs, q.header), state := if q.method_ == "POST" then Body else Finish),
                       rest, db)
    decreases |hs|
  {
    hide ParseLines, SplitHeader;
    if hs == [] {
      FirstLine(q, line, rest, db);
      assert PrintHeaders(hs) + line + "\r\n" + rest == line + CRLF + rest;
    } else {
      var h := hs[0];
      var first := h.name + ": " + h.value;
      var more := PrintHeaders(hs[1..]) + line + "\r\n" + rest;
      HeaderLineHolds(h);
      HeaderSplits(first, h.name, h.value);
      FirstLine(q, first, more, db);
      assert PrintHeaders(hs) + line + "\r\n" + rest == first + CRLF + more;
      HeadersEndAt(q.(header := q.header[h.name := h.value]), hs[1..], line, rest, db);
    }
  }

  /** Printed headers and the blank line after them are read back. */
  lemma HeadersParse(q: Request, hs: seq<HeaderField>, rest: string, db: Database)
    requires q.state == Headers && forall i :: 0 <= i < |hs| ==> Printable(hs[i])
    ensures ParseLines(q, PrintHeaders(hs) + "\r\n" + rest, db)
         == ParseLines(q.(header := HeaderMap(hs, q.header), state := if q.method_ == "POST" then Body else Finish),
                       rest, db)
  {
    hide ParseLines;
    assert PrintHeaders(hs) + "" + "\r\n" + rest == PrintHeaders(hs) + "\r\n" + rest;
    HeadersEndAt(q, hs, "", rest, db);
  }

  /** A printed request line is read back. */
  lemma RequestLineParses(m: string, p: string, v: string, rest: string, db: Database)
    requires ' ' !in m && ' ' !in p && ' ' !in v && NoCrlf(m + " " + p + " HTTP/" + v)
    ensures ParseLines(NO_REQUEST, m + " " + p + " HTTP/" + v + CRLF + rest, db)
         == ParseLines(NO_REQUEST.(state := Headers, method_ := m, path := PageOf(p), version := v), rest, db)
  {
    var line := m + " " + p + " HTTP/" + v;
    RequestLineSplits(line, m, p, v);
    FirstLine(NO_REQUEST, line, rest, db);
  }

  /** The head of any printed request is read back, with the last value of each header. */
  lemma HeadParses(m: string, p: string, v: string, hs: seq<HeaderField>, rest: string, db: Database)
    requires ' ' !in m && ' ' !in p && ' ' !in v && NoCrlf(m + " " + p + " HTTP/" + v)
    requires forall i :: 0 <= i < |hs| ==> Printable(hs[i])
    ensures Parse(NO_REQUEST, PrintHead(m, p, v, hs) + rest, db)
         == ParseLines(Request(if m == "POST" then Body else Finish, m, PageOf(p), v, "", HeaderMap(hs, map[]), map[]),
                       rest, db)
  {
    hide ParseLines;
    var line := m + " " + p + " HTTP/" + v;
    var more := PrintHeaders(hs) + CRLF + rest;
    assert PrintHead(m, p, v, hs) + rest == line + CRLF + more;
    RequestLineParses(m, p, v, more, db);
    HeadersParse(NO_REQUEST.(state := Headers, method_ := m, path := PageOf(p), version := v), hs, rest, db);
  }

  /** Any printed request but a POST comes back as it was, and everything after its blank line
      stays unread. */
  lemma RequestRoundTrip(m: string, p: string, v: string, hs: seq<HeaderField>, rest: string, db: Database)
    requires m != "POST"
    requires ' ' !in m && ' ' !in p && ' ' !in v && NoCrlf(m + " " + p + " HTTP/" + v)
    requires forall i :: 0 <= i < |hs| ==> Printable(hs[i])
    ensures Parse(NO_REQUEST, PrintHead(m, p, v, hs) + rest, db)
         == Accepted(Request(Finish, m, PageOf(p), v, "", HeaderMap(hs, map[]), map[]), rest)
  {
    HeadParses(m, p, v, hs, rest, db);
  }

  /** A printed POST with a form: the buffer is empty afterwards, the pairs are recorded and the
      body is left rewritten; on the two user pages a name, a password and the database decide the
      page, elsewhere the page stays. */
  lemma PostRoundTrip(p: string, v: string, hs: seq<HeaderField>, fs: seq<Field>, db: Database)
    requires ' ' !in p && ' ' !in v && NoCrlf("POST" + " " + p + " HTTP/" + v)
    requires forall i :: 0 <= i < |hs| ==> Printable(hs[i])
    requires var m := HeaderMap(hs, map[]);
             "Content-Type" in m && m["Content-Type"] == "application/x-www-form-urlencoded"
    requires fs != [] && PlainFields(fs) && NoCrlf(PrintFields(fs))
    ensures var post := Decoded(ShownPairs(fs), map[]);
            var users := PageOf(p) == "/login.html" || PageOf(p) == "/register.html";
            var name, pwd := Lookup(post, "username"), Lookup(post, "password");
            var form := if users then Touched(Touched(post, "username"), "password") else post;
            match Parse(NO_REQUEST, PrintHead("POST", p, v, hs) + PrintFields(fs), db)
            case Accepted(q, rest) =>
              && rest == "" && q.state == Finish && q.method_ == "POST" && q.version == v
              && q.header == HeaderMap(hs, map[]) && q.post == form && q.body == Rewritten(PrintFields(fs))
              && q.path == (if !users then PageOf(p)
                            else if name != "" && pwd != "" && db(name, pwd, PageOf(p) == "/login.html")
                            then "/welcome.html" else "/error.html")
            case _ => false
  {
    var q := Request(Body, "POST", PageOf(p), v, "", HeaderMap(hs, map[]), map[]);
    HeadParses("POST", p, v, hs, PrintFields(fs), db);
    FormIsNotEmpty(fs);
    FormBodyParses(q, fs, db);
    RedirectedIs(q.(body := Rewritten(PrintFields(fs)), post := Decoded(ShownPairs(fs), map[])), db);
    hide Decoded, HeaderMap, Decode, PrintFields, PrintHead, PageOf, ParseLines, Redirected, UserVerify, Rewritten,
         ShownPairs, Touched, Lookup;
  }

  /** A form body without a CRLF is taken whole. */
  lemma FormBodyParses(q: Request, fs: seq<Field>, db: Database)
    requires q.state == Body && q.method_ == "POST" && q.post == map[]
    requires "Content-Type" in q.header && q.header["Content-Type"] == "application/x-www-form-urlencoded"
    requires fs != [] && PlainFields(fs) && NoCrlf(PrintFields(fs)) && PrintFields(fs) != ""
    ensures ParseLines(q, PrintFields(fs), db)
         == Accepted(Redirected(q.(body := Rewritten(PrintFields(fs)), post := Decoded(ShownPairs(fs), map[])), db)
                       .(state := Finish), "")
  {
    hide Decoded, PrintFields, ShownPairs, Redirected, Decode, Rewritten, CutEscape;
    var line := PrintFields(fs);
    FieldsDecode(fs, map[]);
    DecodeDefinedIff(line, map[]);
    DecodeRewrites(line, map[]);
    NoCrlfIff(line);
    assert line[..|line|] == line;
    assert ParseLine(q, line, db)
        == Parsed(Redirected(q.(body := Rewritten(line), post := Decoded(ShownPairs(fs), map[])), db)
                    .(state := Finish));
  }

  /** A printed POST whose content is no form: the body is what stands before its first CRLF, only
      that is taken, and the only other trace is an empty Content-Type where there was none. */
  lemma OtherPostRoundTrip(p: string, v: string, hs: seq<HeaderField>, content: string, db: Database)
    requires ' ' !in p && ' ' !in v && NoCrlf("POST" + " " + p + " HTTP/" + v)
    requires forall i :: 0 <= i < |hs| ==> Printable(hs[i])
    requires var m := HeaderMap(hs, map[]);
             "Content-Type" !in m || m["Content-Type"] != "application/x-www-form-urlencoded"
    requires content != ""
    ensures
      var k := LineEnd(content);
      var header := Touched(HeaderMap(hs, map[]), "Content-Type");
      Parse(NO_REQUEST, PrintHead("POST", p, v, hs) + content, db)
        == Accepted(Request(Finish, "POST", PageOf(p), v, content[..k], header, map[]),
                    if k == |content| then "" else content[k + 2..])
  {
    HeadParses("POST", p, v, hs, content, db);
    hide HeaderMap, PageOf, PrintHead, ParseLines;
    OtherBodyParses(Request(Body, "POST", PageOf(p), v, "", HeaderMap(hs, map[]), map[]), content, db);
  }

  lemma OtherBodyParses(q: Request, content: string, db: Database)
    requires q.state == Body && q.method_ == "POST" && content != ""
    requires "Content-Type" !in q.header || q.header["Content-Type"] != FORM
    ensures
      var k := LineEnd(content);
      ParseLines(q, content, db)
        == Accepted(q.(state := Finish, body := content[..k], header := Touched(q.header, "Content-Type")),
                    if k == |content| then "" else content[k + 2..])
  {
    hide Decode, Redirected;
    var line := content[..LineEnd(content)];
    assert ParsedPost(q.(body := line), db) == Some(q.(body := line, header := Touched(q.header, "Content-Type")));
  }

  lemma FormIsNotEmpty(fs: seq<Field>)
    requires fs != []
    ensures PrintFields(fs) != ""
  {
  }

  // --------------------------------------------------------- piece by piece

  ghost predicate EndsLine(a: string) {
    |a| >= 2 && IsCrlfAt(a, |a| - 2)
  }

  /** Parsing may be cut at any end of line: what is left of the first piece and the second
      piece parse on as the whole would. */
  lemma {:induction false} ParseResumes(q: Request, a: string, b: string, db: Database)
    requires EndsLine(a)
    ensures ParseLines(q, a + b, db) ==
            match ParseLines(q, a, db)
            case Accepted(t, rest) => ParseLines(t, rest + b, db)
            case Refused(t, rest) => Refused(t, rest + b)
            case Undefined => Undefined
    decreases |a|
  {
    hide EndsLine, IsCrlfAt, ParseLine;
    var k := LineEnd(a);
    FirstLineOfWhole(a, b);
    if q.state != Finish {
      match ParseLine(q, a[..k], db)
      case Parsed(t) => if a[k + 2..] != "" { ParseResumes(t, a[k + 2..], b, db); }
      case _ =>
    }
  }

  lemma FirstLineOfWhole(a: string, b: string)
    requires EndsLine(a)
    ensures var k := LineEnd(a); var rest := a[k + 2..];
            && k + 2 <= |a| && LineEnd(a + b) == k
            && (a + b)[..k] == a[..k] && (a + b)[k + 2..] == rest + b
            && (rest == "" ==> rest + b == b) && (rest != "" ==> EndsLine(rest))
  {
    var k := LineEnd(a);
    assert k < |a| by { assert IsCrlfAt(a, |a| - 2); }
    forall i: nat | i < k ensures !IsCrlfAt(a + b, i) { assert !IsCrlfAt(a, i); }
    LineEndIs(a + b, k);
    var rest := a[k + 2..];
    assert IsCrlfAt(a, k) && IsCrlfAt(a, |a| - 2);
    assert rest != "" ==> |rest| >= 2 && IsCrlfAt(rest, |rest| - 2);
  }

  // A cut inside a line is another matter: it decides what is taken for the first line.

  lemma FirstBlank(m: string, r: string, n: string, t: string)
    requires ' ' !in m && ' ' !in n && n + [' '] + t <= m + [' '] + r
    ensures n == m && t <= r
  {
    var a, b := m + [' '] + r, n + [' '] + t;
    assert forall k :: 0 <= k < |m| ==> a[k] == m[k];
    assert forall k :: 0 <= k < |n| ==> b[k] == n[k];
    assert a[|m|] == ' ' && b[|n|] == ' ';
    assert n == b[..|n|] == a[..|n|];
    assert t == b[|n| + 1..] && r == a[|m| + 1..];
  }

  /** A beginning of a request line is a request line itself from its HTTP/ on, not before. */
  lemma CutRequestLine(m: string, p: string, v: string, c: nat)
    requires ' ' !in m && ' ' !in p && ' ' !in v && c <= |m| + |p| + |v| + 7
    ensures var line := m + " " + p + " HTTP/" + v;
            c <= |line| && (SplitRequestLine(line[..c]).None? <==> c < |m| + |p| + 7)
  {
    var line := m + " " + p + " HTTP/" + v;
    var piece := line[..c];
    hide SplitRequestLine;
    if c < |m| + |p| + 7 {
      match SplitRequestLine(piece)
      case Some((n, q, w)) =>
        RequestLineSplits(piece, n, q, w);
        Reassociate(m, p, v);
        Reassociate(n, q, w);
        FirstBlank(m, p + [' '] + (HTTP + v), n, q + [' '] + (HTTP + w));
        FirstBlank(p, HTTP + v, q, HTTP + w);
        assert false;
      case None =>
    } else {
      var w := v[..c - |m| - |p| - 7];
      assert piece == m + " " + p + " HTTP/" + w;
      RequestLineSplits(piece, m, p, w);
    }
  }

  /** What parse takes for the first line when only the first c bytes have arrived. */
  lemma FirstLineOfPiece(line: string, rest: string, c: nat)
    requires NoCrlf(line) && c <= |line + CRLF + rest|
    ensures var piece := (line + CRLF + rest)[..c];
            piece[..LineEnd(piece)] ==
              if c <= |line| then line[..c] else if c == |line| + 1 then line + "\r" else line
  {
    var piece := (line + CRLF + rest)[..c];
    if c <= |line| + 1 {
      forall i: nat | i < c ensures !IsCrlfAt(piece, i) { assert i < |line| ==> !IsCrlfAt(line, i); }
      NoCrlfIff(piece);
      assert piece[..c] == piece;
    } else {
      assert piece == line + CRLF + rest[..c - |line| - 2];
      LineComesBack(line, rest[..c - |line| - 2]);
    }
  }

  /** Of a request of which only the first c bytes have arrived, parse refuses exactly those cut
      before the end of HTTP/ in the request line; any later cut it takes for a line or more. */
  lemma CutRefusedIff(m: string, p: string, v: string, rest: string, c: nat, db: Database)
    requires ' ' !in m && ' ' !in p && ' ' !in v && NoCrlf(m + " " + p + " HTTP/" + v)
    requires c <= |m + " " + p + " HTTP/" + v + CRLF + rest|
    ensures Parse(NO_REQUEST, (m + " " + p + " HTTP/" + v + CRLF + rest)[..c], db).Refused?
       <==> c < |m| + |p| + 7
  {
    var line := m + " " + p + " HTTP/" + v;
    var w := v + "\r";
    assert line + "\r" == m + " " + p + " HTTP/" + w;
    hide ParseLines, SplitRequestLine;
    FirstLineOfPiece(line, rest, c);
    ParseRefusesIff(NO_REQUEST, (line + CRLF + rest)[..c], db);
    if c <= |line| { CutRequestLine(m, p, v, c); }
    RequestLineSplits(line, m, p, v);
    RequestLineSplits(line + "\r", m, p, w);
  }

  /** So a whole request is accepted and its first bytes are not. */
  lemma CutInsideLine(db: Database)
    ensures var whole := PrintHead("GET", "/", "1.1", []); var piece := "GET /";
            piece <= whole && Parse(NO_REQUEST, whole, db).Accepted? && Parse(NO_REQUEST, piece, db).Refused?
  {
    hide ParseLines, SplitRequestLine;
    NoCrlfChars("GET" + " " + "/" + " HTTP/" + "1.1");
    RequestRoundTrip("GET", "/", "1.1", [], "", db);
    assert PrintHead("GET", "/", "1.1", []) + "" == PrintHead("GET", "/", "1.1", []);
    CutRefusedIff("GET", "/", "1.1", CRLF, 5, db);
    assert ("GET" + " " + "/" + " HTTP/" + "1.1" + CRLF + CRLF)[..5] == "GET /";
  }
}
