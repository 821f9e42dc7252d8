/** escape_json (src/json_utils.cpp): the string-literal escaping of
    section 7 of RFC 8259, applied one character at a time.  Characters
    stand for the bytes of the source's std::string; a byte of 0x80 or
    more is a negative `char` there and is copied unchanged, as every
    character from 0x20 up is here. */
module JsonEscape {
  import opened Text

  const Backspace: char := 8 as char
  const FormFeed: char := 12 as char

  /** A lowercase hexadecimal digit, as std::hex prints it. */
  function HexDigit(n: nat): (c: char)
    requires n < 16
    ensures '0' <= c <= '9' || 'a' <= c <= 'f'
  {
    if n < 10 then ('0' as int + n) as char else ('a' as int + n - 10) as char
  }

  /** The image of one character: the two-character escapes for quote,
      backslash, backspace, form feed, newline, carriage return and tab,
      \u00xx for the other characters below 0x20, the character itself
      otherwise. */
  function EscapeChar(c: char): string {
    if c == '"' then ['\\', '"']
    else if c == '\\' then ['\\', '\\']
    else if c == Backspace then ['\\', 'b']
    else if c == FormFeed then ['\\', 'f']
    else if c == '\n' then ['\\', 'n']
    else if c == '\r' then ['\\', 'r']
    else if c == '\t' then ['\\', 't']
    else if c < 0x20 as char then ['\\', 'u', '0', '0', HexDigit(c as int / 16), HexDigit(c as int % 16)]
    else [c]
  }

  /** The concatenation of the per-character images. */
  function Escape(s: string): (r: string)
    decreases |s|
    ensures |r| >= |s|
  {
    if s == [] then [] else Escape(s[..|s| - 1]) + EscapeChar(s[|s| - 1])
  }

  /** escape_json: the for loop that appends each image to the stream. */
  method EscapeJson(str: string) returns (o: string)
    ensures o == Escape(str)
  {
    o := "";
    for i := 0 to |str|
      invariant o == Escape(str[..i])
    {
      assert str[..i + 1][..i] == str[..i];
      var e := EscapedImage(str[i]);
      o := o + e;
    }
    assert str[..|str|] == str;
  }

  /** The branches of the loop body: what is written for one character. */
  method EscapedImage(c: char) returns (e: string)
    ensures e == EscapeChar(c)
  {
    if c == '"' {
      e := "\\\"";
    } else if c == '\\' {
      e := "\\\\";
    } else if c == Backspace {
      e := "\\b";
    } else if c == FormFeed {
      e := "\\f";
    } else if c == '\n' {
      e := "\\n";
    } else if c == '\r' {
      e := "\\r";
    } else if c == '\t' {
      e := "\\t";
    } else if c < 0x20 as char {
      e := "\\u00" + [HexDigit(c as int / 16), HexDigit(c as int % 16)];
    } else {
      e := [c];
    }
  }

  /** Escaping distributes over concatenation. */
  lemma {:induction false} EscapeConcat(a: string, b: string)
    decreases |b|
    ensures Escape(a + b) == Escape(a) + Escape(b)
  {
    if b == [] {
      assert a + b == a;
    } else {
      var t := b[..|b| - 1];
      DropLastConcat(a, b);
      EscapeConcat(a, t);
      Assoc(Escape(a), Escape(t), EscapeChar(b[|b| - 1]));
    }
  }

  /** The output holds no control character. */
  lemma {:induction false} EscapePrintable(s: string)
    decreases |s|
    ensures forall k :: 0 <= k < |Escape(s)| ==> Escape(s)[k] >= 0x20 as char
  {
    if s != [] {
      var p, c := s[..|s| - 1], s[|s| - 1];
      EscapePrintable(p);
      var a, b := Escape(p), EscapeChar(c);
      assert Escape(s) == a + b;
      forall k | 0 <= k < |a + b|
        ensures (a + b)[k] >= 0x20 as char
      {
        if k < |a| {
          assert (a + b)[k] == a[k];
        }
      }
    }
  }

  // ---------------------------------------------------------------------
  // Decoding an RFC 8259 string body

  predicate IsHexDigit(c: char) {
    '0' <= c <= '9' || 'a' <= c <= 'f' || 'A' <= c <= 'F'
  }

  function HexValue(c: char): (n: nat)
    requires IsHexDigit(c)
    ensures n < 16
  {
    if '0' <= c <= '9' then c as int - '0' as int
    else if 'a' <= c <= 'f' then c as int - 'a' as int + 10
    else c as int - 'A' as int + 10
  }

  lemma HexDigitValue(n: nat)
    requires n < 16
    ensures IsHexDigit(HexDigit(n)) && HexValue(HexDigit(n)) == n
  {
  }

  function Prepend(c: char, rest: Option<string>): Option<string> {
    match rest
    case None => None
    case Some(t) => Some([c] + t)
  }

  /** The value of a \uXXXX escape; surrogate code units are not decoded. */
  function UnicodeEscape(t: string): Option<char>
    requires |t| == 4
  {
    if IsHexDigit(t[0]) && IsHexDigit(t[1]) && IsHexDigit(t[2]) && IsHexDigit(t[3]) then
      var n := ((HexValue(t[0]) * 16 + HexValue(t[1])) * 16 + HexValue(t[2])) * 16 + HexValue(t[3]);
      if n < 0xD800 || 0xDFFF < n then Some(n as char) else None
    else None
  }

  /** Reads a JSON string body (the text between the quotes): unescaped
      characters must not be a quote, a backslash or a control character;
      escapes are the two-character ones and \uXXXX. */
  function Unescape(t: string): Option<string>
    decreases |t|
  {
    if t == [] then Some([])
    else if t[0] == '\\' then
      if |t| < 2 then None
      else if t[1] == '"' then Prepend('"', Unescape(t[2..]))
      else if t[1] == '\\' then Prepend('\\', Unescape(t[2..]))
      else if t[1] == '/' then Prepend('/', Unescape(t[2..]))
      else if t[1] == 'b' then Prepend(Backspace, Unescape(t[2..]))
      else if t[1] == 'f' then Prepend(FormFeed, Unescape(t[2..]))
      else if t[1] == 'n' then Prepend('\n', Unescape(t[2..]))
      else if t[1] == 'r' then Prepend('\r', Unescape(t[2..]))
      else if t[1] == 't' then Prepend('\t', Unescape(t[2..]))
      else if t[1] == 'u' && |t| >= 6 then
        match UnicodeEscape(t[2..6])
        case None => None
        case Some(c) => Prepend(c, Unescape(t[6..]))
      else None
    else if t[0] == '"' || t[0] < 0x20 as char then None
    else Prepend(t[0], Unescape(t[1..]))
  }

  /** Decoding the image of one character gives that character back. */
  lemma UnescapeChar(c: char, t: string)
    ensures Unescape(EscapeChar(c) + t) == Prepend(c, Unescape(t))
  {
    var e := EscapeChar(c) + t;
    if c == '"' || c == '\\' || c == Backspace || c == FormFeed || c == '\n' || c == '\r' || c == '\t' {
      assert e[2..] == t;
    } else if c < 0x20 as char {
      var hi, lo := c as int / 16, c as int % 16;
      HexDigitValue(hi);
      HexDigitValue(lo);
      assert e[2..6] == ['0', '0', HexDigit(hi), HexDigit(lo)];
      assert e[6..] == t;
      assert UnicodeEscape(e[2..6]) == Some(c);
    } else {
      assert e[1..] == t;
    }
  }

  /** Decoding the output as an RFC 8259 string body yields the input. */
  lemma {:induction false} UnescapeEscape(s: string)
    decreases |s|
    ensures Unescape(Escape(s)) == Some(s)
  {
    if s != [] {
      EscapeConcat([s[0]], s[1..]);
      assert [s[0]] + s[1..] == s;
      assert Escape([s[0]]) == EscapeChar(s[0]) by {
        assert [s[0]][..0] == [];
      }
      UnescapeEscape(s[1..]);
      UnescapeChar(s[0], Escape(s[1..]));
    }
  }

  /** Characters that need no escaping are copied unchanged. */
  lemma {:induction false} EscapePlain(s: string)
    requires forall k :: 0 <= k < |s| ==> s[k] != '"' && s[k] != '\\' && s[k] >= 0x20 as char
    decreases |s|
    ensures Escape(s) == s
  {
    if s != [] {
      var p, c := s[..|s| - 1], s[|s| - 1];
      assert s == p + [c];
      forall k | 0 <= k < |p|
        ensures p[k] != '"' && p[k] != '\\' && p[k] >= 0x20 as char
      {
        assert p[k] == s[k];
      }
      EscapePlain(p);
      EscapeSnoc(p, c);
    }
  }

  lemma EscapeSnoc(p: string, c: char)
    ensures Escape(p + [c]) == Escape(p) + EscapeChar(c)
  {
    assert (p + [c])[..|p|] == p;
  }
}
