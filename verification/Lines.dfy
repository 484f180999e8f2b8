/** Splitting of text: lines at CRLF, and the exact fields that the two regular expressions of
    the request parser capture. */
module Lines {

  datatype Option<+T> = None | Some(value: T)

  const CRLF := "\r\n"

  predicate IsCrlfAt(b: string, i: nat) {
    i + 1 < |b| && b[i] == '\r' && b[i + 1] == '\n'
  }

  /** `std::search` for CRLF: the place of the first one, or the end. */
  function LineEnd(b: string): (k: nat)
    ensures k <= |b| && (k < |b| ==> IsCrlfAt(b, k))
    ensures forall i: nat :: i < k ==> !IsCrlfAt(b, i)
  {
    if |b| < 2 then |b|
    else if IsCrlfAt(b, 0) then 0
    else
      var k := 1 + LineEnd(b[1..]);
      assert forall i: nat :: i < k && i > 0 && IsCrlfAt(b, i) ==> IsCrlfAt(b[1..], i - 1);
      k
  }

  /** In bytes: the line ends in front of the first carriage return that a line feed follows, and
      at the end if there is none. */
  lemma LineEndInBytes(b: string)
    ensures var k := LineEnd(b);
            && (k < |b| ==> k + 1 < |b| && b[k] == '\r' && b[k + 1] == '\n')
            && (forall i :: 0 <= i < k && b[i] == '\r' ==> i + 1 == |b| || b[i + 1] != '\n')
  {
    forall i: nat | i < LineEnd(b) && b[i] == '\r' ensures i + 1 == |b| || b[i + 1] != '\n' {
      assert !IsCrlfAt(b, i);
    }
  }

  ghost predicate NoCrlf(b: string) {
    forall i: nat :: i < |b| ==> !IsCrlfAt(b, i)
  }

  lemma NoCrlfIff(b: string)
    ensures NoCrlf(b) <==> LineEnd(b) == |b|
  {
    assert LineEnd(b) < |b| ==> IsCrlfAt(b, LineEnd(b));
  }

  lemma LineEndIs(b: string, k: nat)
    requires IsCrlfAt(b, k) && forall i: nat :: i < k ==> !IsCrlfAt(b, i)
    ensures LineEnd(b) == k
  {
    assert LineEnd(b) < k ==> !IsCrlfAt(b, LineEnd(b));
  }

  /** A line that holds no CRLF is found again in front of its CRLF, whatever follows. */
  lemma LineComesBack(line: string, rest: string)
    requires NoCrlf(line)
    ensures var b := line + CRLF + rest;
            LineEnd(b) == |line| && |line| + 2 <= |b| && b[..|line|] == line && b[|line| + 2..] == rest
  {
    var b := line + CRLF + rest;
    forall i: nat | i < |line| ensures !IsCrlfAt(b, i) {
      assert !IsCrlfAt(line, i);
    }
    LineEndIs(b, |line|);
  }

  function IndexOf(s: string, c: char): (i: nat)
    ensures i <= |s| && c !in s[..i] && (i < |s| ==> s[i] == c)
  {
    if s == "" || s[0] == c then 0 else
      var i := 1 + IndexOf(s[1..], c);
      assert s[..i] == [s[0]] + s[1..][..i - 1];
      i
  }

  lemma IndexOfIs(a: string, c: char, b: string)
    requires c !in a
    ensures IndexOf(a + [c] + b, c) == |a|
  {
    assert (a + [c] + b)[|a|] == c;
  }

  /** Text cut at the first c. */
  function Cut(s: string, c: char): Option<(string, string)> {
    var i := IndexOf(s, c);
    if i == |s| then None else Some((s[..i], s[i + 1..]))
  }

  lemma CutIff(s: string, c: char, a: string, b: string)
    ensures Cut(s, c) == Some((a, b)) <==> s == a + [c] + b && c !in a
  {
    if s == a + [c] + b && c !in a {
      IndexOfIs(a, c, b);
      assert s[..|a|] == a && s[|a| + 1..] == b;
    }
    var i := IndexOf(s, c);
    if i < |s| { assert s == s[..i] + [c] + s[i + 1..]; }
  }

  // ------------------------------------------------------- the request line

  const HTTP := "HTTP/"

  /** What `^([^ ]*) ([^ ]*) HTTP/([^ ]*)$` means for its three groups. */
  ghost predicate IsRequestLine(line: string, m: string, p: string, v: string) {
    ' ' !in m && ' ' !in p && ' ' !in v && line == m + " " + p + " HTTP/" + v
  }

  function SplitRequestLine(line: string): Option<(string, string, string)> {
    match Cut(line, ' ')
    case None => None
    case Some((m, rest)) =>
      match Cut(rest, ' ')
      case None => None
      case Some((p, tail)) =>
        if ' ' in tail || !(HTTP <= tail) then None else Some((m, p, tail[|HTTP|..]))
  }

  lemma RequestLineSplits(line: string, m: string, p: string, v: string)
    ensures SplitRequestLine(line) == Some((m, p, v)) <==> IsRequestLine(line, m, p, v)
  {
    if IsRequestLine(line, m, p, v) { SplitsIntoFields(m, p, v); }
    if SplitRequestLine(line) == Some((m, p, v)) { FieldsMakeLine(line, m, p, v); }
  }

  lemma SplitsIntoFields(m: string, p: string, v: string)
    requires ' ' !in m && ' ' !in p && ' ' !in v
    ensures SplitRequestLine(m + " " + p + " HTTP/" + v) == Some((m, p, v))
  {
    var tail := HTTP + v;
    var rest := p + [' '] + tail;
    Reassociate(m, p, v);
    CutIff(m + [' '] + rest, ' ', m, rest);
    CutIff(rest, ' ', p, tail);
    assert ' ' !in tail && HTTP <= tail && tail[|HTTP|..] == v;
    hide Cut;
  }

  lemma FieldsMakeLine(line: string, m: string, p: string, v: string)
    requires SplitRequestLine(line) == Some((m, p, v))
    ensures IsRequestLine(line, m, p, v)
  {
    var rest := Cut(line, ' ').value.1;
    var tail := Cut(rest, ' ').value.1;
    CutIff(line, ' ', m, rest);
    CutIff(rest, ' ', p, tail);
    hide Cut;
    assert tail == HTTP + v;
    NotInSuffix(HTTP, v, ' ');
    Reassociate(m, p, v);
  }

  lemma NotInSuffix(a: string, b: string, c: char)
    requires c !in a + b
    ensures c !in b
  {
    forall i | 0 <= i < |b| ensures b[i] != c {
      assert (a + b)[|a| + i] != c;
    }
  }

  lemma Reassociate(m: string, p: string, v: string)
    ensures m + [' '] + (p + [' '] + (HTTP + v)) == m + " " + p + " HTTP/" + v == m + " " + p + " " + HTTP + v
  {
  }

  // -------------------------------------------------------------- a header

  /** The dot of the regular expression stops at line breaks. */
  predicate OneLine(s: string) {
    '\r' !in s && '\n' !in s
  }

  /** What `^([^:]*): ?(.*)$` means for its two groups; the optional blank is taken if it is there. */
  ghost predicate IsHeader(line: string, name: string, value: string) {
    && ':' !in name && '\r' !in value && '\n' !in value
    && (line == name + ": " + value || (line == name + ":" + value && !(" " <= value)))
  }

  function SplitHeader(line: string): Option<(string, string)> {
    match Cut(line, ':')
    case None => None
    case Some((name, rest)) =>
      var value := if " " <= rest then rest[1..] else rest;
      if OneLine(value) then Some((name, value)) else None
  }

  lemma HeaderSplits(line: string, name: string, value: string)
    ensures SplitHeader(line) == Some((name, value)) <==> IsHeader(line, name, value)
  {
    CutIff(line, ':', name, value);
    CutIff(line, ':', name, " " + value);
    assert line == name + ": " + value <==> line == name + [':'] + (" " + value);
    if SplitHeader(line) == Some((name, value)) {
      var rest := Cut(line, ':').value.1;
      assert " " <= rest ==> rest == " " + value;
    }
    hide Cut;
    assert (" " + value)[1..] == value;
  }
}
