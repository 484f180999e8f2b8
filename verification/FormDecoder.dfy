/** The in-place decoder of form bodies, and what it makes of a printed form. */
module FormDecoder {
  import opened Lines

  /** The decoder's variables: body_ (rewritten as it goes), key, j and post_. */
  datatype Scan = Scan(body: string, key: string, j: nat, post: map<string, string>)

  /** A byte as the signed `char` the source computes with. */
  function SignedCode(c: char): int {
    var b := c as int % 256;
    if b < 128 then b else b - 256
  }

  /** ConverHex: letters become 10 to 15, every other byte stays its own code. */
  function ConverHex(c: char): int {
    if 'A' <= c <= 'F' then c as int - 'A' as int + 10
    else if 'a' <= c <= 'f' then c as int - 'a' as int + 10
    else SignedCode(c)
  }

  /** C++ division and remainder by ten truncate toward zero. */
  function Quot10(n: int): int { if n >= 0 then n / 10 else -((-n) / 10) }

  function Rem10(n: int): int { n - 10 * Quot10(n) }

  function ToChar(n: int): char {
    (n % 256) as char
  }

  function EscapeNumber(a: char, b: char): int {
    ConverHex(a) * 16 + ConverHex(b)
  }

  /** The two bytes an escape leaves. */
  function EscapeText(a: char, b: char): (t: string)
    ensures |t| == 2
  {
    var num := EscapeNumber(a, b);
    [ToChar(Quot10(num) + '0' as int), ToChar(Rem10(num) + '0' as int)]
  }

  /** The two bytes after the percent sign at i are overwritten. */
  function Escaped(body: string, i: nat): (r: string)
    requires i + 2 < |body|
    ensures |r| == |body|
  {
    var num := EscapeNumber(body[i + 1], body[i + 2]);
    body[i + 2 := ToChar(Rem10(num) + '0' as int)][i + 1 := ToChar(Quot10(num) + '0' as int)]
  }

  /** One pass of the loop at i, and the next i. None: the two bytes after a percent sign are
      not both inside the body, so the source reads or writes past its end. */
  function Step(s: Scan, i: nat): (r: Option<(Scan, nat)>)
    requires s.j <= i < |s.body|
    ensures r.Some? ==> s.j <= r.value.0.j <= r.value.1 <= |s.body| == |r.value.0.body| && i < r.value.1
  {
    match s.body[i]
    case '=' => Some((s.(key := s.body[s.j..i], j := i + 1), i + 1))
    case '+' => Some((s.(body := s.body[i := ' ']), i + 1))
    case '%' =>
      if i + 2 >= |s.body| then None else
      Some((s.(body := Escaped(s.body, i)), i + 3))
    case '&' => Some((s.(post := s.post[s.key := s.body[s.j..i]], j := i + 1), i + 1))
    case _ => Some((s, i + 1))
  }

  function ScanFrom(s: Scan, i: nat): (r: Option<Scan>)
    requires s.j <= i <= |s.body|
    ensures r.Some? ==> r.value.j <= |r.value.body| == |s.body|
    decreases |s.body| - i
  {
    if i == |s.body| then Some(s) else
    match Step(s, i)
    case None => None
    case Some((t, k)) => ScanFrom(t, k)
  }

  /** The pair after the last '&' goes in only if its key is new and its value is not empty. */
  function Close(s: Scan): map<string, string>
    requires s.j <= |s.body|
  {
    if s.key !in s.post && s.j < |s.body| then s.post[s.key := s.body[s.j..]] else s.post
  }

  /** ParseFromUrlencoded_: the body as rewritten, and the pairs. */
  function Decode(body: string, post: map<string, string>): Option<(string, map<string, string>)> {
    if body == "" then Some((body, post)) else
    match ScanFrom(Scan(body, "", 0, post), 0)
    case None => None
    case Some(s) => Some((s.body, Close(s)))
  }

  // ------------------------------------------------- as a reader of a stream

  /** Where a reader without indices ends: its key, the text since the last separator, the pairs. */
  datatype Reading = Reading(key: string, text: string, post: map<string, string>)

  /** The same decoder without indices and without writing into its input: r is what it has
      read, rest what is still to come. */
  function ReadOn(r: Reading, rest: string): (end: Option<Reading>)
    decreases |rest|
  {
    if rest == "" then Some(r) else
    match rest[0]
    case '=' => ReadOn(Reading(r.text, "", r.post), rest[1..])
    case '+' => ReadOn(r.(text := r.text + " "), rest[1..])
    case '%' =>
      if |rest| < 3 then None else
      ReadOn(r.(text := r.text + ("%" + EscapeText(rest[1], rest[2]))), rest[3..])
    case '&' => ReadOn(Reading(r.key, "", r.post[r.key := r.text]), rest[1..])
    case c => ReadOn(r.(text := r.text + [c]), rest[1..])
  }

  function Closed(r: Reading): map<string, string> {
    if r.key !in r.post && r.text != "" then r.post[r.key := r.text] else r.post
  }

  function Sight(s: Scan, i: nat): Reading
    requires s.j <= i <= |s.body|
  {
    Reading(s.key, s.body[s.j..i], s.post)
  }

  /** Rewriting the body in place behind the index is reading a stream. */
  lemma {:induction false} InPlaceIsReading(s: Scan, i: nat)
    requires s.j <= i <= |s.body|
    ensures var r := ScanFrom(s, i); var end := ReadOn(Sight(s, i), s.body[i..]);
            && (r.None? <==> end.None?)
            && (r.Some? ==> end.value == Sight(r.value, |r.value.body|) && Close(r.value) == Closed(end.value))
    decreases |s.body| - i
  {
    if i < |s.body| {
      StepIsReading(s, i);
      match Step(s, i)
      case None =>
      case Some((t, k)) => InPlaceIsReading(t, k);
    } else {
      assert s.body[s.j..i] == s.body[s.j..];
    }
  }

  lemma StepIsReading(s: Scan, i: nat)
    requires s.j <= i < |s.body|
    ensures match Step(s, i)
            case None => ReadOn(Sight(s, i), s.body[i..]).None?
            case Some((t, k)) => ReadOn(Sight(s, i), s.body[i..]) == ReadOn(Sight(t, k), t.body[k..])
  {
    if s.body[i] == '%' {
      EscapeIsReading(s, i);
    } else {
      var (t, k) := Step(s, i).value;
      assert t.body[k..] == s.body[i..][1..];
      if s.body[i] != '=' && s.body[i] != '&' {
        assert t.body[t.j..k] == s.body[s.j..i] + [t.body[i]];
      } else {
        assert t.body[t.j..k] == "";
      }
    }
  }

  lemma EscapeIsReading(s: Scan, i: nat)
    requires s.j <= i < |s.body| && s.body[i] == '%'
    ensures match Step(s, i)
            case None => ReadOn(Sight(s, i), s.body[i..]).None?
            case Some((t, k)) => ReadOn(Sight(s, i), s.body[i..]) == ReadOn(Sight(t, k), t.body[k..])
  {
    if i + 2 < |s.body| {
      EscapedIsText(s.body, i);
      hide EscapeText, Escaped;
      var (t, k) := Step(s, i).value;
      var text := EscapeText(s.body[i + 1], s.body[i + 2]);
      assert t.body == s.body[..i + 1] + text + s.body[i + 3..];
      assert t.body[k..] == s.body[i..][3..];
      assert t.body[t.j..k] == s.body[s.j..i] + ("%" + text);
    }
  }

  lemma DecodeReads(body: string, post: map<string, string>)
    requires body != ""
    ensures var end := ReadOn(Reading("", "", post), body);
            && (Decode(body, post).Some? <==> end.Some?)
            && (end.Some? ==> Decode(body, post).value.1 == Closed(end.value))
  {
    InPlaceIsReading(Scan(body, "", 0, post), 0);
    assert body[0..] == body;
  }

  // ---------------------------------------------------- where it is defined

  /** Some percent sign that the decoder reaches lacks its two bytes. */
  predicate CutEscape(body: string) {
    if body == "" then false
    else if body[0] == '%' then |body| < 3 || CutEscape(body[3..])
    else CutEscape(body[1..])
  }

  lemma {:induction false} UndefinedIffCut(r: Reading, rest: string)
    ensures ReadOn(r, rest).None? <==> CutEscape(rest)
    decreases |rest|
  {
    if rest != "" {
      match rest[0]
      case '=' => UndefinedIffCut(Reading(r.text, "", r.post), rest[1..]);
      case '+' => UndefinedIffCut(r.(text := r.text + " "), rest[1..]);
      case '%' =>
        if |rest| >= 3 {
          UndefinedIffCut(r.(text := r.text + ("%" + EscapeText(rest[1], rest[2]))), rest[3..]);
        }
      case '&' => UndefinedIffCut(Reading(r.key, "", r.post[r.key := r.text]), rest[1..]);
      case c => UndefinedIffCut(r.(text := r.text + [c]), rest[1..]);
    }
  }

  /** The decoder is undefined on exactly the bodies with a cut escape. */
  lemma DecodeDefinedIff(body: string, post: map<string, string>)
    ensures Decode(body, post).Some? <==> !CutEscape(body)
  {
    if body != "" {
      DecodeReads(body, post);
      UndefinedIffCut(Reading("", "", post), body);
    }
  }

  predicate IsHexDigit(c: char) {
    '0' <= c <= '9' || 'A' <= c <= 'F' || 'a' <= c <= 'f'
  }

  /** The source says that %XX becomes the number in decimal; it does so for no pair of hex
      digits, because digits keep their character code: the first byte written is no digit. */
  lemma EscapeNeverDecimal(a: char, b: char)
    requires IsHexDigit(a) && IsHexDigit(b)
    ensures !('0' <= ToChar(Quot10(EscapeNumber(a, b)) + '0' as int) <= '9')
  {
    assert 10 <= ConverHex(a) <= 57 && 10 <= ConverHex(b) <= 57;
    hide ConverHex, ToChar;
    NotADigit(Quot10(EscapeNumber(a, b)));
  }

  lemma NotADigit(q: int)
    requires 17 <= q <= 96
    ensures !('0' <= ToChar(q + '0' as int) <= '9')
  {
    assert (q + '0' as int) % 256 == q + '0' as int;
  }

  /** What a byte after the percent sign stands for: letters by their value as hex digits, all other
      bytes, digits included, by their own code, read as signed. */
  function Weight(c: char): int {
    if 'A' <= c <= 'F' then c as int - 55
    else if 'a' <= c <= 'f' then c as int - 87
    else if c as int % 256 >= 128 then c as int % 256 - 256
    else c as int % 256
  }

  /** Exactly what an escape writes, for any two bytes: the quotient and remainder by ten, rounded
      toward zero, of their weights' number, each counted from the character 0 and cut to a byte. */
  lemma EscapeWrites(body: string, i: nat, q: int, r: int)
    requires i + 2 < |body|
    requires 16 * Weight(body[i + 1]) + Weight(body[i + 2]) == 10 * q + r
    requires if 16 * Weight(body[i + 1]) + Weight(body[i + 2]) >= 0 then 0 <= r < 10 else -10 < r <= 0
    ensures Escaped(body, i)[..i + 1] == body[..i + 1] && Escaped(body, i)[i + 3..] == body[i + 3..]
    ensures Escaped(body, i)[i + 1] as int == (48 + q) % 256
    ensures Escaped(body, i)[i + 2] as int == (48 + r) % 256
  {
    var num := EscapeNumber(body[i + 1], body[i + 2]);
    assert num == 10 * q + r;
    TruncatingIs(num, q, r);
  }

  lemma TruncatingIs(n: int, q: int, r: int)
    requires n == 10 * q + r && if n >= 0 then 0 <= r < 10 else -10 < r <= 0
    ensures Quot10(n) == q && Rem10(n) == r
  {
  }

  /** Two hex letters come out as the two decimal characters of their number only in the last one:
      the first counts up to 25 from the character 0. */
  lemma LettersWrite(a: char, b: char, v: int)
    requires IsHexDigit(a) && IsHexDigit(b) && !('0' <= a <= '9') && !('0' <= b <= '9')
    requires v == 16 * Weight(a) + Weight(b)
    ensures 170 <= v <= 255
    ensures EscapeText(a, b) == [(48 + v / 10) as char, (48 + v % 10) as char]
  {
    assert 10 <= Weight(a) <= 15 && 10 <= Weight(b) <= 15;
    hide Weight, Escaped, IsHexDigit;
    var body, q, r := "%" + [a, b], v / 10, v % 10;
    assert v == 10 * q + r && 17 <= q <= 25;
    EscapeWrites(body, 0, q, r);
    EscapedIsText(body, 0);
    SmallCode(q, EscapeText(a, b)[0]);
    SmallCode(r, EscapeText(a, b)[1]);
  }

  lemma SmallCode(n: nat, c: char)
    requires n <= 25 && c as int == (48 + n) % 256
    ensures c == (48 + n) as char
  {
  }

  lemma EscapedIsText(body: string, i: nat)
    requires i + 2 < |body|
    ensures Escaped(body, i) == body[..i + 1] + EscapeText(body[i + 1], body[i + 2]) + body[i + 3..]
  {
    hide EscapeNumber, ToChar, Quot10, Rem10;
  }

  /** The body as the decoder leaves it, when no escape is cut. */
  function Rewritten(body: string): string {
    if body == "" then ""
    else if body[0] == '+' then " " + Rewritten(body[1..])
    else if body[0] == '%' && |body| >= 3 then "%" + EscapeText(body[1], body[2]) + Rewritten(body[3..])
    else [body[0]] + Rewritten(body[1..])
  }

  lemma {:induction false} ScanRewrites(s: Scan, i: nat)
    requires s.j <= i <= |s.body| && ScanFrom(s, i).Some?
    ensures ScanFrom(s, i).value.body == s.body[..i] + Rewritten(s.body[i..])
    decreases |s.body| - i
  {
    if i < |s.body| {
      var (t, k) := Step(s, i).value;
      ScanRewrites(t, k);
      StepRewrites(s, i);
    }
  }

  lemma StepRewrites(s: Scan, i: nat)
    requires s.j <= i < |s.body| && Step(s, i).Some?
    ensures var (t, k) := Step(s, i).value;
            t.body[..k] + Rewritten(t.body[k..]) == s.body[..i] + Rewritten(s.body[i..])
  {
    hide Escaped, EscapeText;
    var (t, k) := Step(s, i).value;
    var rest := s.body[i..];
    assert t.body[k..] == rest[k - i..] by {
      if s.body[i] == '%' { EscapedIsText(s.body, i); }
    }
    if s.body[i] == '%' {
      EscapedIsText(s.body, i);
      assert t.body[..k] == s.body[..i] + ("%" + EscapeText(rest[1], rest[2]));
      Assoc(s.body[..i], "%" + EscapeText(rest[1], rest[2]), Rewritten(rest[3..]));
    } else {
      assert t.body[..k] == s.body[..i] + [t.body[i]];
      Assoc(s.body[..i], [t.body[i]], Rewritten(rest[1..]));
    }
  }

  lemma Assoc(a: string, b: string, c: string)
    ensures a + b + c == a + (b + c)
  {
  }

  /** Where it is defined, the decoder leaves in body_ the text with its escapes and plus signs
      rewritten, whatever pairs it finds in it. */
  lemma DecodeRewrites(body: string, post: map<string, string>)
    requires !CutEscape(body)
    ensures Decode(body, post).Some? && Decode(body, post).value.0 == Rewritten(body)
  {
    DecodeDefinedIff(body, post);
    if body != "" {
      ScanRewrites(Scan(body, "", 0, post), 0);
      assert body[..0] == "" && body[0..] == body;
    }
  }

  // ------------------------------------------------------------- round trip

  datatype Pair = Pair(key: string, value: string)

  predicate Plain(text: string) {
    '=' !in text && '&' !in text && '+' !in text && '%' !in text
  }

  predicate PlainPairs(pairs: seq<Pair>) {
    forall i :: 0 <= i < |pairs| ==> Plain(pairs[i].key) && Plain(pairs[i].value)
  }

  /** Blanks are sent as '+'. */
  function Plus(text: string): (r: string)
    ensures |r| == |text|
  {
    if text == "" then "" else [if text[0] == ' ' then '+' else text[0]] + Plus(text[1..])
  }

  /** The form as it is sent. */
  function PrintForm(pairs: seq<Pair>): string {
    if pairs == [] then ""
    else Plus(pairs[0].key) + "=" + Plus(pairs[0].value) + if |pairs| == 1 then "" else "&" + PrintForm(pairs[1..])
  }

  function AddPair(m: map<string, string>, p: Pair): map<string, string> {
    m[p.key := p.value]
  }

  /** The pairs as a map; of several with one key the last counts. */
  function LastWins(pairs: seq<Pair>, m: map<string, string>): map<string, string> {
    if pairs == [] then m else LastWins(pairs[1..], AddPair(m, pairs[0]))
  }

  /** Text as it may stand in a form: characters, and escapes with any two bytes. */
  datatype Token = Char(c: char) | Escape(a: char, b: char)

  predicate PlainTokens(ts: seq<Token>) {
    forall k :: 0 <= k < |ts| ==> ts[k].Char? ==> ts[k].c !in "=&+%"
  }

  /** As sent: a blank as '+', an escape behind a percent sign. */
  function Sent(ts: seq<Token>): string {
    if ts == [] then ""
    else (match ts[0] case Char(c) => [if c == ' ' then '+' else c] case Escape(a, b) => "%" + [a, b]) + Sent(ts[1..])
  }

  /** As recorded: the percent sign stays, the two bytes are rewritten. */
  function Shown(ts: seq<Token>): string {
    if ts == [] then ""
    else (match ts[0] case Char(c) => [c] case Escape(a, b) => "%" + EscapeText(a, b)) + Shown(ts[1..])
  }

  /** A stretch of text is read with its plus signs turned back and its escapes rewritten. */
  lemma {:induction false} ReadTokens(r: Reading, ts: seq<Token>, suf: string)
    requires PlainTokens(ts)
    ensures ReadOn(r, Sent(ts) + suf) == ReadOn(r.(text := r.text + Shown(ts)), suf)
    decreases |ts|
  {
    hide ReadOn, EscapeText;
    if ts == [] {
      assert Sent(ts) + suf == suf && r.text + Shown(ts) == r.text;
    } else {
      var more := Sent(ts[1..]) + suf;
      match ts[0]
      case Char(c) =>
        assert Sent(ts) + suf == [if c == ' ' then '+' else c] + more;
        ReadChar(r, c, more);
        ReadTokens(r.(text := r.text + [c]), ts[1..], suf);
        Assoc(r.text, [c], Shown(ts[1..]));
      case Escape(a, b) =>
        assert Sent(ts) + suf == "%" + [a, b] + more;
        ReadEscape(r, a, b, more);
        ReadTokens(r.(text := r.text + ("%" + EscapeText(a, b))), ts[1..], suf);
        Assoc(r.text, "%" + EscapeText(a, b), Shown(ts[1..]));
    }
  }

  lemma ReadEscape(r: Reading, a: char, b: char, suf: string)
    ensures ReadOn(r, "%" + [a, b] + suf) == ReadOn(r.(text := r.text + ("%" + EscapeText(a, b))), suf)
  {
    hide EscapeText;
    var rest := "%" + [a, b] + suf;
    assert rest[0] == '%' && rest[1] == a && rest[2] == b && rest[3..] == suf;
  }

  lemma ReadChar(r: Reading, c: char, suf: string)
    requires c !in "=&+%"
    ensures ReadOn(r, [if c == ' ' then '+' else c] + suf) == ReadOn(r.(text := r.text + [c]), suf)
  {
    assert ([if c == ' ' then '+' else c] + suf)[1..] == suf;
  }

  lemma ReadEquals(r: Reading, suf: string)
    ensures ReadOn(r, "=" + suf) == ReadOn(Reading(r.text, "", r.post), suf)
  {
    assert ("=" + suf)[1..] == suf;
  }

  lemma ReadAnd(r: Reading, suf: string)
    ensures ReadOn(r, "&" + suf) == ReadOn(Reading(r.key, "", r.post[r.key := r.text]), suf)
  {
    assert ("&" + suf)[1..] == suf;
  }

  /** A key and its value as they may stand in a form. */
  datatype Field = Field(key: seq<Token>, value: seq<Token>)

  predicate PlainFields(fs: seq<Field>) {
    forall k :: 0 <= k < |fs| ==> PlainTokens(fs[k].key) && PlainTokens(fs[k].value)
  }

  function PrintFields(fs: seq<Field>): string {
    if fs == [] then ""
    else Sent(fs[0].key) + "=" + Sent(fs[0].value) + if |fs| == 1 then "" else "&" + PrintFields(fs[1..])
  }

  function ShownPairs(fs: seq<Field>): (pairs: seq<Pair>)
    ensures |pairs| == |fs|
  {
    if fs == [] then [] else [Pair(Shown(fs[0].key), Shown(fs[0].value))] + ShownPairs(fs[1..])
  }

  /** key=value is read up to its end. */
  lemma ReadField(key: string, post: map<string, string>, f: Field, suf: string)
    requires PlainTokens(f.key) && PlainTokens(f.value)
    ensures ReadOn(Reading(key, "", post), Sent(f.key) + "=" + Sent(f.value) + suf)
         == ReadOn(Reading(Shown(f.key), Shown(f.value), post), suf)
  {
    hide ReadOn, Sent, Shown, PlainTokens;
    var v := Sent(f.value) + suf;
    assert Sent(f.key) + "=" + Sent(f.value) + suf == Sent(f.key) + ("=" + v);
    ReadTokens(Reading(key, "", post), f.key, "=" + v);
    assert "" + Shown(f.key) == Shown(f.key) && "" + Shown(f.value) == Shown(f.value);
    ReadEquals(Reading(key, Shown(f.key), post), v);
    ReadTokens(Reading(Shown(f.key), "", post), f.value, suf);
  }

  /** What the decoder makes of a printed form: all pairs but the last with the last value of
      each key, and the last pair if its key is new and its value not empty. */
  function Decoded(pairs: seq<Pair>, post: map<string, string>): map<string, string>
    requires pairs != []
  {
    var m := LastWins(pairs[..|pairs| - 1], post);
    var last := pairs[|pairs| - 1];
    if last.key !in m && last.value != "" then AddPair(m, last) else m
  }

  lemma ReadEnd(r: Reading)
    ensures ReadOn(r, "") == Some(r)
  {
  }

  lemma {:induction false} ReadFields(key: string, fs: seq<Field>, post: map<string, string>)
    requires fs != [] && PlainFields(fs)
    ensures var end := ReadOn(Reading(key, "", post), PrintFields(fs));
            end.Some? && Closed(end.value) == Decoded(ShownPairs(fs), post)
    decreases |fs|
  {
    hide Sent, Shown, PlainTokens, ReadOn;
    var f := fs[0];
    var pairs := ShownPairs(fs);
    if |fs| == 1 {
      assert pairs[..0] == [];
      assert PrintFields(fs) == Sent(f.key) + "=" + Sent(f.value) + "";
      ReadField(key, post, f, "");
      ReadEnd(Reading(Shown(f.key), Shown(f.value), post));
    } else {
      var rest := PrintFields(fs[1..]);
      ReadField(key, post, f, "&" + rest);
      ReadAnd(Reading(Shown(f.key), Shown(f.value), post), rest);
      ReadFields(Shown(f.key), fs[1..], AddPair(post, pairs[0]));
      assert pairs[1..][..|pairs| - 2] == pairs[..|pairs| - 1][1..];
    }
  }

  /** Every printed form, with escapes and repeated keys or not, onto any earlier pairs. */
  lemma FieldsDecode(fs: seq<Field>, post: map<string, string>)
    requires PlainFields(fs)
    ensures Decode(PrintFields(fs), post).Some?
    ensures Decode(PrintFields(fs), post).value.1 == if fs == [] then post else Decoded(ShownPairs(fs), post)
  {
    if fs != [] {
      ReadFields("", fs, post);
      DecodeReads(PrintFields(fs), post);
    }
  }

  function Chars(text: string): (ts: seq<Token>)
    ensures |ts| == |text|
  {
    seq(|text|, k requires 0 <= k < |text| => Char(text[k]))
  }

  lemma {:induction false} CharsAre(text: string)
    ensures Sent(Chars(text)) == Plus(text) && Shown(Chars(text)) == text
    decreases |text|
  {
    if text != "" {
      CharsAre(text[1..]);
      assert Chars(text)[1..] == Chars(text[1..]);
      assert text == [text[0]] + text[1..];
    }
  }

  function AsFields(pairs: seq<Pair>): (fs: seq<Field>)
    ensures |fs| == |pairs|
  {
    seq(|pairs|, k requires 0 <= k < |pairs| => Field(Chars(pairs[k].key), Chars(pairs[k].value)))
  }

  lemma {:induction false} FieldsAre(pairs: seq<Pair>)
    ensures PrintFields(AsFields(pairs)) == PrintForm(pairs) && ShownPairs(AsFields(pairs)) == pairs
    decreases |pairs|
  {
    hide Sent, Shown, Plus, Chars;
    if pairs != [] {
      CharsAre(pairs[0].key);
      CharsAre(pairs[0].value);
      FieldsAre(pairs[1..]);
      assert AsFields(pairs)[1..] == AsFields(pairs[1..]);
    }
  }

  /** In particular, every printed form of plain pairs. */
  lemma FormDecodes(pairs: seq<Pair>, post: map<string, string>)
    requires pairs != [] && PlainPairs(pairs)
    ensures Decode(PrintForm(pairs), post).Some?
    ensures Decode(PrintForm(pairs), post).value.1 == Decoded(pairs, post)
  {
    FieldsAre(pairs);
    forall k | 0 <= k < |pairs| ensures PlainTokens(Chars(pairs[k].key)) && PlainTokens(Chars(pairs[k].value)) {
      PlainChars(pairs[k].key);
      PlainChars(pairs[k].value);
    }
    hide PlainTokens, Chars, Decode, PrintFields, PrintForm;
    FieldsDecode(AsFields(pairs), post);
  }

  lemma PlainChars(text: string)
    requires Plain(text)
    ensures PlainTokens(Chars(text))
  {
    forall k | 0 <= k < |text| ensures text[k] !in "=&+%" {
      assert text[k] in text;
    }
  }

  /** The round trip is exact if and only if the last pair is recorded or changes nothing. */
  lemma FormRoundTripIff(pairs: seq<Pair>, post: map<string, string>)
    requires pairs != [] && PlainPairs(pairs)
    ensures var m := LastWins(pairs[..|pairs| - 1], post);
            var last := pairs[|pairs| - 1];
            Decode(PrintForm(pairs), post).Some?
            && (Decode(PrintForm(pairs), post).value.1 == LastWins(pairs, post)
                <==> if last.key in m then m[last.key] == last.value else last.value != "")
  {
    FormDecodes(pairs, post);
    LastWinsSnoc(pairs, post);
    var m := LastWins(pairs[..|pairs| - 1], post);
    var last := pairs[|pairs| - 1];
    if last.key in m && m[last.key] == last.value { assert AddPair(m, last) == m; }
    assert AddPair(m, last)[last.key] == last.value;
  }

  lemma {:induction false} LastWinsSnoc(pairs: seq<Pair>, m: map<string, string>)
    requires pairs != []
    ensures LastWins(pairs, m) == AddPair(LastWins(pairs[..|pairs| - 1], m), pairs[|pairs| - 1])
    decreases |pairs|
  {
    if |pairs| > 1 {
      LastWinsSnoc(pairs[1..], AddPair(m, pairs[0]));
      assert pairs[1..][..|pairs| - 2] == pairs[..|pairs| - 1][1..];
    }
  }

  ghost predicate DistinctKeys(pairs: seq<Pair>) {
    forall i, j :: 0 <= i < j < |pairs| ==> pairs[i].key != pairs[j].key
  }

  /** Pairs with distinct keys, as a map. */
  function PairsMap(pairs: seq<Pair>): map<string, string>
    requires DistinctKeys(pairs)
  {
    map p | p in pairs :: p.key := p.value
  }

  /** With distinct keys and nothing recorded before, the form comes back exactly when its last
      value is not empty, and it comes back as the pairs. */
  lemma DistinctFormRoundTrip(pairs: seq<Pair>)
    requires pairs != [] && PlainPairs(pairs) && DistinctKeys(pairs)
    ensures Decode(PrintForm(pairs), map[]).Some?
    ensures Decode(PrintForm(pairs), map[]).value.1 == PairsMap(pairs)
       <==> pairs[|pairs| - 1].value != ""
  {
    hide Decode, PrintForm, PlainPairs;
    FormRoundTripIff(pairs, map[]);
    AsMap(pairs);
    DistinctPairsMap(pairs[..|pairs| - 1], map[]);
  }

  lemma AsMap(pairs: seq<Pair>)
    requires DistinctKeys(pairs)
    ensures LastWins(pairs, map[]) == PairsMap(pairs)
  {
    DistinctPairsMap(pairs, map[]);
    assert LastWins(pairs, map[]).Keys == PairsMap(pairs).Keys;
  }

  lemma {:induction false} DistinctPairsMap(pairs: seq<Pair>, m: map<string, string>)
    requires DistinctKeys(pairs)
    ensures forall k :: k in LastWins(pairs, m) <==> k in m || exists i :: 0 <= i < |pairs| && pairs[i].key == k
    ensures forall i :: 0 <= i < |pairs| ==>
      pairs[i].key in LastWins(pairs, m) && LastWins(pairs, m)[pairs[i].key] == pairs[i].value
    ensures forall k :: k in m && (forall i :: 0 <= i < |pairs| ==> pairs[i].key != k) ==>
      k in LastWins(pairs, m) && LastWins(pairs, m)[k] == m[k]
    decreases |pairs|
  {
    if pairs != [] {
      var t := pairs[1..];
      var m' := AddPair(m, pairs[0]);
      DistinctPairsMap(t, m');
      var r := LastWins(pairs, m);
      forall k | k in r && k !in m ensures exists i :: 0 <= i < |pairs| && pairs[i].key == k {
        if k == pairs[0].key {
          assert pairs[0].key == k;
        } else {
          var j :| 0 <= j < |t| && t[j].key == k;
          assert pairs[j + 1].key == k;
        }
      }
      forall i | 0 <= i < |pairs| ensures pairs[i].key in r && r[pairs[i].key] == pairs[i].value {
        if i > 0 { assert pairs[i] == t[i - 1]; }
      }
    }
  }
}
