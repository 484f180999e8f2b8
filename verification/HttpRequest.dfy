/** The parser as an object that reads from a buffer, both changed in place. */
module HttpRequests {
  import opened Lines
  import opened FormDecoder
  import opened RequestParser

  /** The unread bytes lie between the two positions; pointers are indices into the array. */
  class Buffer {
    const buffer: array<char>
    var readPos: nat
    var writePos: nat

    ghost predicate Valid()
      reads this
    {
      readPos <= writePos <= buffer.Length
    }

    function Unread(): string
      requires Valid()
      reads this, buffer
    {
      buffer[readPos..writePos]
    }

    constructor (bytes: string)
      ensures Valid() && Unread() == bytes
    {
      var data := new char[|bytes|](i requires 0 <= i < |bytes| => bytes[i]);
      buffer := data;
      readPos, writePos := 0, |bytes|;
      new;
      assert buffer[0..|bytes|] == bytes;
    }

    function ReadableBytes(): nat
      requires Valid()
      reads this, buffer
      ensures ReadableBytes() == |Unread()|
    {
      writePos - readPos
    }

    method Retrieve(len: nat)
      requires Valid() && len <= ReadableBytes()
      modifies this`readPos
      ensures Valid() && Unread() == old(Unread())[len..]
      ensures readPos == old(readPos) + len
    {
      readPos := readPos + len;
    }

    /** end is a place between the read and the write position. */
    method RetrieveUntil(end: nat)
      requires Valid() && readPos <= end <= writePos
      modifies this`readPos
      ensures Valid() && Unread() == old(Unread())[end - old(readPos)..]
      ensures readPos == end
    {
      Retrieve(end - readPos);
    }
  }

  lemma ParseStep(q: Request, bytes: string, db: Database)
    requires bytes != "" && q.state != ParseState.Finish
    ensures var k := LineEnd(bytes);
            && (k < |bytes| ==> k + 2 <= |bytes|)
            && ParseLines(q, bytes, db) ==
               match ParseLine(q, bytes[..k], db)
               case Malformed => Refused(q, bytes)
               case OutOfBounds => Undefined
               case Parsed(t) => if k == |bytes| then Accepted(t, "") else ParseLines(t, bytes[k + 2..], db)
  {
  }

  lemma ParseEnd(q: Request, bytes: string, db: Database)
    ensures bytes == "" || q.state == ParseState.Finish ==> ParseLines(q, bytes, db) == Accepted(q, bytes)
  {
  }

  datatype Verdict = Accept | Refuse | Fault

  class HttpRequest {
    var state: ParseState
    var method_: string
    var path: string
    var version: string
    var body: string
    var header: map<string, string>
    var post: map<string, string>

    function Value(): Request
      reads this
    {
      Request(state, method_, path, version, body, header, post)
    }

    constructor ()
      ensures Value() == Request(ParseState.RequestLine, "", "", "", "", map[], map[])
    {
      state, method_, path, version, body := ParseState.RequestLine, "", "", "", "";
      header, post := map[], map[];
    }

    method Init()
      modifies this
      ensures Value() == Request(ParseState.RequestLine, "", "", "", "", map[], map[])
    {
      method_, path, version, body := "", "", "", "";
      state := ParseState.RequestLine;
      header := map[];
      post := map[];
    }

    /** parse; Fault where the form decoder leaves its body. */
    method Parse(buff: Buffer, db: Database) returns (verdict: Verdict)
      requires buff.Valid()
      modifies this, buff`readPos
      ensures buff.Valid() && old(buff.readPos) <= buff.readPos
      ensures match RequestParser.Parse(old(Value()), old(buff.Unread()), db)
              case Accepted(q, rest) => verdict == Accept && Value() == q && buff.Unread() == rest
              case Refused(q, rest) => verdict == Refuse && Value() == q && buff.Unread() == rest
              case Undefined => verdict == Fault
    {
      if buff.ReadableBytes() <= 0 {
        return Refuse;
      }
      hide ParseLine, ParseLines, IsCrlfAt;
      ghost var q, bytes, from := Value(), buff.Unread(), buff.readPos;
      while buff.ReadableBytes() != 0 && state != ParseState.Finish
        invariant buff.Valid() && from <= buff.readPos
        invariant ParseLines(Value(), buff.Unread(), db) == ParseLines(q, bytes, db)
        decreases buff.ReadableBytes()
      {
        ParseStep(Value(), buff.Unread(), db);
        var unread := buff.Unread();
        var lineEnd := buff.readPos + LineEnd(unread);
        var line := unread[..LineEnd(unread)];
        var outcome := ParseOne(line, db);
        if outcome != Accept {
          return outcome;
        }
        if lineEnd == buff.writePos {
          buff.RetrieveUntil(lineEnd);
          break;
        }
        buff.RetrieveUntil(lineEnd + 2);
      }
      ParseEnd(Value(), buff.Unread(), db);
      verdict := Accept;
    }

    /** The switch over the state. */
    method ParseOne(line: string, db: Database) returns (outcome: Verdict)
      modifies this
      ensures match ParseLine(old(Value()), line, db)
              case Parsed(q) => outcome == Accept && Value() == q
              case Malformed => outcome == Refuse && Value() == old(Value())
              case OutOfBounds => outcome == Fault
    {
      match state
      case RequestLine =>
        var ok := ParseRequestLine(line);
        if !ok {
          return Refuse;
        }
        ParsePath();
        outcome := Accept;
      case Headers =>
        ParseHeader(line);
        outcome := Accept;
      case Body =>
        var ok := ParseBody(line, db);
        outcome := if ok then Accept else Fault;
      case Finish =>
        outcome := Accept;
    }

    method ParseRequestLine(line: string) returns (ok: bool)
      modifies this
      ensures match SplitRequestLine(line)
              case None => !ok && Value() == old(Value())
              case Some((m, p, v)) =>
                ok && Value() == old(Value()).(state := Headers, method_ := m, path := p, version := v)
    {
      match SplitRequestLine(line)
      case Some((m, p, v)) =>
        method_ := m;
        path := p;
        version := v;
        state := Headers;
        ok := true;
      case None =>
        ok := false;
    }

    method ParsePath()
      modifies this`path
      ensures path == PageOf(old(path))
    {
      if path == "/" {
        path := "/index.html";
      } else if IsDefaultPage(path) {
        path := path + ".html";
      }
    }

    method ParseHeader(line: string)
      modifies this`header, this`state
      ensures match SplitHeader(line)
              case Some((name, value)) => header == old(header)[name := value] && state == old(state)
              case None => header == old(header) && state == if method_ == "POST" then Body else Finish
    {
      match SplitHeader(line)
      case Some((name, value)) =>
        header := header[name := value];
      case None =>
        if method_ == "POST" {
          state := Body;
        } else {
          state := Finish;
        }
    }

    method ParseBody(line: string, db: Database) returns (ok: bool)
      modifies this
      ensures old(method_) != "POST" ==> ok && Value() == old(Value()).(state := Finish)
      ensures old(method_) == "POST" ==>
        match ParsedPost(old(Value()).(body := line), db)
        case None => !ok
        case Some(q) => ok && Value() == q.(state := Finish)
    {
      ok := true;
      if method_ == "POST" {
        body := line;
        ok := ParsePost(db);
      }
      state := Finish;
    }

    method ParsePost(db: Database) returns (ok: bool)
      modifies this
      ensures match ParsedPost(old(Value()), db)
              case None => !ok
              case Some(q) => ok && Value() == q
    {
      ok := true;
      if method_ == "POST" {
        header := Touched(header, "Content-Type");
        if header["Content-Type"] == FORM {
          ok := ParseFromUrlencoded();
          if ok && path in ["/register.html", "/login.html"] {
            var isLogin := path == "/login.html";
            post := Touched(Touched(post, "username"), "password");
            if UserVerify(db, post["username"], post["password"], isLogin) {
              path := "/welcome.html";
            } else {
              path := "/error.html";
            }
          }
        }
      }
    }

    /** The percent case of the switch below. */
    method RewriteEscape(i: nat)
      requires i + 2 < |body|
      modifies this`body
      ensures body == Escaped(old(body), i)
    {
      var num := ConverHex(body[i + 1]) * 16 + ConverHex(body[i + 2]);
      body := body[i + 2 := ToChar(Rem10(num) + '0' as int)];
      body := body[i + 1 := ToChar(Quot10(num) + '0' as int)];
    }

    /** The loop body at i: the switch over body[i] and the step to the next i. */
    method DecodeAt(key: string, j: nat, i: nat) returns (ok: bool, key': string, j': nat, i': nat)
      requires j <= i < |body|
      modifies this`body, this`post
      ensures match Step(Scan(old(body), key, j, old(post)), i)
              case None => !ok
              case Some((s, k)) => ok && Scan(body, key', j', post) == s && i' == k
    {
      ok, key', j', i' := true, key, j, i;
      match body[i] {
        case '=' =>
          key' := body[j..i];
          j' := i + 1;
        case '+' =>
          body := body[i := ' '];
        case '%' =>
          if i + 2 >= |body| {
            ok := false;
          } else {
            RewriteEscape(i);
            i' := i + 2;
          }
        case '&' =>
          var value := body[j..i];
          j' := i + 1;
          post := post[key := value];
        case _ =>
      }
      i' := i' + 1;
    }

    /** Rewrites body in place and fills post; false where an escape reaches past the end. */
    method ParseFromUrlencoded() returns (ok: bool)
      modifies this`body, this`post
      ensures match Decode(old(body), old(post))
              case None => !ok
              case Some((b, p)) => ok && body == b && post == p
    {
      if |body| == 0 {
        return true;
      }
      DecodeIs(body, post);
      hide ScanFrom, Close, Step, Decode;
      ghost var start := Scan(body, "", 0, post);
      var key, n := "", |body|;
      var i: nat, j: nat := 0, 0;
      while i < n
        invariant j <= i <= n == |body|
        invariant ScanFrom(Scan(body, key, j, post), i) == ScanFrom(start, 0)
        decreases n - i
      {
        ScanStep(Scan(body, key, j, post), i);
        ok, key, j, i := DecodeAt(key, j, i);
        if !ok {
          return false;
        }
      }
      ScanEnd(Scan(body, key, j, post));
      if key !in post && j < i {
        post := post[key := body[j..i]];
      }
      ok := true;
    }
  }

  lemma ScanStep(s: Scan, i: nat)
    requires s.j <= i < |s.body|
    ensures match Step(s, i)
            case None => ScanFrom(s, i) == None
            case Some((t, k)) => ScanFrom(s, i) == ScanFrom(t, k)
  {
  }

  lemma DecodeIs(body: string, post: map<string, string>)
    requires body != ""
    ensures Decode(body, post) ==
            match ScanFrom(Scan(body, "", 0, post), 0) case None => None case Some(s) => Some((s.body, Close(s)))
  {
  }

  lemma ScanEnd(s: Scan)
    requires s.j <= |s.body|
    ensures ScanFrom(s, |s.body|) == Some(s)
    ensures Close(s) == if s.key !in s.post && s.j < |s.body| then s.post[s.key := s.body[s.j..|s.body|]] else s.post
  {
    assert s.body[s.j..|s.body|] == s.body[s.j..];
  }
}
