/** The JSON text stored in the `services` column: `json.dumps(list_of_str, ensure_ascii=False)`
    and the `json.loads` that reads it back, for lists of strings. */
module JsonList {
  import opened Wrappers
  import opened Seqs

  // ---------------------------------------------------------------- encoding

  /** Hexadecimal digit as Python's `'{0:04x}'` format writes it (lower case). */
  function HexDigit(n: nat): char
    requires n < 16
  {
    "0123456789abcdef"[n]
  }

  /** json.dumps's escape for one character: the two-character escapes for `"`, `\`, and
      the named control characters, `\u00XX` for the other characters below U+0020, and
      the character itself otherwise (ensure_ascii=False leaves non-ASCII alone). */
  function EscapeChar(c: char): (r: string)
    ensures |r| > 0
  {
    if c == '"' then "\\\""
    else if c == '\\' then "\\\\"
    else if c == '\n' then "\\n"
    else if c == '\r' then "\\r"
    else if c == '\t' then "\\t"
    else if c == '\U{8}' then "\\b"
    else if c == '\U{C}' then "\\f"
    else if c < ' ' then ['\\', 'u', '0', '0', HexDigit(c as int / 16), HexDigit(c as int % 16)]
    else [c]
  }

  function EscapeBody(s: string): string
    decreases |s|
  {
    if s == [] then "" else EscapeChar(s[0]) + EscapeBody(s[1..])
  }

  /** One string literal. */
  function Quote(s: string): string {
    "\"" + EscapeBody(s) + "\""
  }

  /** The items of the list, separated by json.dumps's default item separator ", ". */
  function JoinItems(xs: seq<string>): string
    decreases |xs|
  {
    if xs == [] then ""
    else if |xs| == 1 then Quote(xs[0])
    else Quote(xs[0]) + ", " + JoinItems(xs[1..])
  }

  /** `json.dumps(xs, ensure_ascii=False)` for a list of strings. */
  function Encode(xs: seq<string>): (r: string)
    ensures |r| >= 2 && r[0] == '[' && r[|r| - 1] == ']'
    ensures xs == [] ==> r == "[]"
  {
    "[" + JoinItems(xs) + "]"
  }

  // ---------------------------------------------------------------- decoding

  /** JSON's insignificant whitespace. */
  predicate IsWs(c: char) {
    c == ' ' || c == '\t' || c == '\n' || c == '\r'
  }

  function SkipWs(s: string): (r: string)
    ensures |r| <= |s|
    ensures r == [] || !IsWs(r[0])
    decreases |s|
  {
    if |s| > 0 && IsWs(s[0]) then SkipWs(s[1..]) else s
  }

  predicate AllWs(s: string) {
    SkipWs(s) == []
  }

  function HexValue(c: char): (r: Option<nat>)
    ensures r.Some? ==> r.value < 16
  {
    if '0' <= c <= '9' then Some(c as int - '0' as int)
    else if 'a' <= c <= 'f' then Some(c as int - 'a' as int + 10)
    else if 'A' <= c <= 'F' then Some(c as int - 'A' as int + 10)
    else None
  }

  /** The character named by the four hex digits of a `\uXXXX` escape. */
  function UnicodeEscape(h: string): Option<char>
    requires |h| == 4
  {
    var a, b, c, d := HexValue(h[0]), HexValue(h[1]), HexValue(h[2]), HexValue(h[3]);
    if a.None? || b.None? || c.None? || d.None? then None
    else
      var v := ((a.value * 16 + b.value) * 16 + c.value) * 16 + d.value;
      assert v < 0x10000;
      if 0xD800 <= v < 0xE000 then None else Some(v as char)
  }

  /** The character of a two-character escape `\e`. */
  function SimpleEscape(e: char): Option<char> {
    if e == '"' then Some('"')
    else if e == '\\' then Some('\\')
    else if e == '/' then Some('/')
    else if e == 'b' then Some('\U{8}')
    else if e == 'f' then Some('\U{C}')
    else if e == 'n' then Some('\n')
    else if e == 'r' then Some('\r')
    else if e == 't' then Some('\t')
    else None
  }

  /** The first character of a string body and how many input characters it used. */
  function BodyChar(s: string): (r: Option<(char, nat)>)
    requires |s| > 0 && s[0] != '"'
    ensures r.Some? ==> 0 < r.value.1 <= |s|
  {
    if s[0] == '\\' then
      if |s| < 2 then None
      else if s[1] == 'u' then
        if |s| < 6 then None
        else match UnicodeEscape(s[2..6]) case Some(c) => Some((c, 6)) case None => None
      else match SimpleEscape(s[1]) case Some(c) => Some((c, 2)) case None => None
    else if s[0] < ' ' then None   // a raw control character is rejected (strict mode)
    else Some((s[0], 1))
  }

  /** The body of a string literal up to its closing quote, and the text after that quote. */
  function ParseBody(s: string): (r: Option<(string, string)>)
    ensures r.Some? ==> |r.value.1| < |s|
    decreases |s|
  {
    if s == [] then None
    else if s[0] == '"' then Some(("", s[1..]))
    else match BodyChar(s)
      case None => None
      case Some((c, n)) =>
        match ParseBody(s[n..])
        case None => None
        case Some((v, rest)) => Some(([c] + v, rest))
  }

  /** The items from a string literal onwards, up to the closing bracket. */
  function ParseItems(s: string): Option<seq<string>>
    decreases |s|
  {
    if s == [] || s[0] != '"' then None
    else match ParseBody(s[1..])
      case None => None
      case Some((x, rest)) =>
        var v := SkipWs(rest);
        if v == [] then None
        else if v[0] == ']' then (if AllWs(v[1..]) then Some([x]) else None)
        else if v[0] == ',' then
          match ParseItems(SkipWs(v[1..]))
          case None => None
          case Some(xs) => Some([x] + xs)
        else None
  }

  /** `json.loads(s)` when `s` is a JSON array of strings; None for every other text (for
      which json.loads raises or returns something other than a list of strings). */
  function Decode(s: string): Option<seq<string>> {
    var t := SkipWs(s);
    if t == [] || t[0] != '[' then None
    else
      var u := SkipWs(t[1..]);
      if u != [] && u[0] == ']' then (if AllWs(u[1..]) then Some([]) else None)
      else ParseItems(u)
  }

  // ---------------------------------------------------------------- round trip

  /** Skipping whitespace in front of a non-whitespace character does nothing. */
  lemma SkipWsNone(s: string)
    requires s != [] && !IsWs(s[0])
    ensures SkipWs(s) == s
  {
  }

  /** Reading back one escaped character yields that character. */
  lemma BodyCharEscape(c: char, t: string)
    ensures (EscapeChar(c) + t)[0] != '"'
    ensures BodyChar(EscapeChar(c) + t) == Some((c, |EscapeChar(c)|))
  {
    if c < ' ' && c != '\n' && c != '\r' && c != '\t' && c != '\U{8}' && c != '\U{C}' {
      ControlEscape(c, t);
    }
  }

  /** The other control characters come back from their `\u00XX` escape. */
  lemma ControlEscape(c: char, t: string)
    requires c < ' ' && c != '\n' && c != '\r' && c != '\t' && c != '\U{8}' && c != '\U{C}'
    ensures (EscapeChar(c) + t)[0] != '"'
    ensures BodyChar(EscapeChar(c) + t) == Some((c, |EscapeChar(c)|))
  {
    var hi := c as int / 16;
    var lo := c as int % 16;
    assert hi < 2;
    var e := ['\\', 'u', '0', '0', HexDigit(hi), HexDigit(lo)];
    assert EscapeChar(c) == e;
    var s := e + t;
    assert s[2..6] == ['0', '0', HexDigit(hi), HexDigit(lo)];
    assert HexValue(HexDigit(hi)) == Some(hi) by {
      assert HexDigit(hi) == (if hi == 0 then '0' else '1');
    }
    HexDigitValue(lo);
    assert ((0 * 16 + 0) * 16 + hi) * 16 + lo == c as int;
    assert UnicodeEscape(s[2..6]) == Some(c);
  }

  lemma HexDigitValue(n: nat)
    requires n < 16
    ensures HexValue(HexDigit(n)) == Some(n)
  {
    var digits := "0123456789abcdef";
    assert HexDigit(n) == digits[n];
    if n < 10 {
      assert digits[n] as int == '0' as int + n by {
        assert digits[..10] == "0123456789";
      }
    } else {
      assert digits[n] as int == 'a' as int + (n - 10) by {
        assert digits[10..] == "abcdef";
      }
    }
  }

  /** A string body followed by its closing quote reads back as that string. */
  lemma {:induction false} ParseBodyEscaped(x: string, rest: string)
    ensures ParseBody(EscapeBody(x) + "\"" + rest) == Some((x, rest))
    decreases |x|
  {
    if x == [] {
      assert EscapeBody(x) + "\"" + rest == "\"" + rest;
    } else {
      var t := EscapeBody(x[1..]) + "\"" + rest;
      var e := EscapeChar(x[0]);
      assert EscapeBody(x) + "\"" + rest == e + t;
      BodyCharEscape(x[0], t);
      assert (e + t)[|e|..] == t;
      ParseBodyEscaped(x[1..], rest);
      assert [x[0]] + x[1..] == x;
    }
  }

  /** A last string literal, closed by "]", reads as that one string. */
  lemma ParseItemsLast(x: string)
    ensures ParseItems(Quote(x) + "]") == Some([x])
  {
    var s := Quote(x) + "]";
    assert s[1..] == EscapeBody(x) + "\"" + "]";
    ParseBodyEscaped(x, "]");
    SkipWsNone("]");
    assert "]"[1..] == "";
  }

  /** A string literal followed by ", " and further items reads as that string in front
      of those items. */
  lemma ParseItemsCons(x: string, more: string)
    requires more != [] && more[0] == '"'
    ensures ParseItems(Quote(x) + (", " + more)) ==
              match ParseItems(more) case None => None case Some(xs) => Some([x] + xs)
  {
    var tail := ", " + more;
    QuotedBody(x, tail);
    SkipComma(more);
    ParseItemsComma(Quote(x) + tail, x, tail);
  }

  /** The body of a quoted string, read back, leaves exactly what follows the quote. */
  lemma QuotedBody(x: string, tail: string)
    ensures (Quote(x) + tail) != [] && (Quote(x) + tail)[0] == '"'
    ensures ParseBody((Quote(x) + tail)[1..]) == Some((x, tail))
  {
    assert (Quote(x) + tail)[1..] == EscapeBody(x) + "\"" + tail;
    ParseBodyEscaped(x, tail);
  }

  lemma SkipComma(more: string)
    requires more != [] && more[0] == '"'
    ensures (", " + more)[0] == ',' && SkipWs((", " + more)[1..]) == more
  {
    assert (", " + more)[1..] == " " + more;
    assert (" " + more)[1..] == more;
    SkipWsNone(more);
  }

  /** The definition of ParseItems, for an item followed directly by a comma. */
  lemma ParseItemsComma(s: string, x: string, tail: string)
    requires s != [] && s[0] == '"' && ParseBody(s[1..]) == Some((x, tail))
    requires tail != [] && tail[0] == ','
    ensures ParseItems(s) == match ParseItems(SkipWs(tail[1..])) case None => None case Some(xs) => Some([x] + xs)
  {
    SkipWsNone(tail);
  }

  /** The items of a non-empty list, closed by "]", read back as that list. */
  lemma {:induction false} ParseItemsJoined(xs: seq<string>)
    requires xs != []
    ensures ParseItems(JoinItems(xs) + "]") == Some(xs)
    decreases |xs|
  {
    if |xs| == 1 {
      JoinedSingle(xs);
    } else {
      ParseItemsJoined(xs[1..]);
      JoinedStep(xs);
    }
  }

  lemma JoinedSingle(xs: seq<string>)
    requires |xs| == 1
    ensures ParseItems(JoinItems(xs) + "]") == Some(xs)
  {
    assert JoinItems(xs) + "]" == Quote(xs[0]) + "]";
    ParseItemsLast(xs[0]);
    assert [xs[0]] == xs;
  }

  /** One more item in front: if the tail reads back, so does the whole list. */
  lemma JoinedStep(xs: seq<string>)
    requires |xs| >= 2
    requires ParseItems(JoinItems(xs[1..]) + "]") == Some(xs[1..])
    ensures ParseItems(JoinItems(xs) + "]") == Some(xs)
  {
    var more := JoinItems(xs[1..]) + "]";
    JoinedLayout(xs);
    ParseItemsCons(xs[0], more);
    HeadTail(xs);
  }

  /** The text of a list of two or more items: the first literal, ", ", then the rest. */
  lemma JoinedLayout(xs: seq<string>)
    requires |xs| >= 2
    ensures JoinItems(xs) + "]" == Quote(xs[0]) + (", " + (JoinItems(xs[1..]) + "]"))
    ensures (JoinItems(xs[1..]) + "]")[0] == '"'
  {
    var first := Quote(xs[0]);
    var rest := JoinItems(xs[1..]);
    assert JoinItems(xs) == first + ", " + rest;
    Associate4(first, ", ", rest, "]");
    JoinItemsStart(xs[1..]);
  }

  /** A non-empty list's items start with the opening quote of the first literal. */
  lemma JoinItemsStart(xs: seq<string>)
    requires xs != []
    ensures |JoinItems(xs)| > 0 && JoinItems(xs)[0] == '"'
  {
    var first := Quote(xs[0]);
    assert first[0] == '"';
    if |xs| > 1 {
      assert JoinItems(xs) == first + (", " + JoinItems(xs[1..])) by {
        Associate(first, ", ", JoinItems(xs[1..]));
      }
    }
  }

  /** json.loads(json.dumps(xs)) == xs. */
  lemma {:induction false} DecodeEncode(xs: seq<string>)
    ensures Decode(Encode(xs)) == Some(xs)
  {
    var s := Encode(xs);
    SkipWsNone(s);
    if xs == [] {
      assert s[1..] == "]";
    } else {
      var body := JoinItems(xs) + "]";
      assert s[1..] == body;
      assert body[0] == '"' by {
        assert JoinItems(xs)[0] == '"';
      }
      SkipWsNone(body);
      ParseItemsJoined(xs);
    }
  }
}
