/**
 * The pieces of Go's standard library that the interpreter's renderers and
 * diagnostics use: `strings.Join`, the `%d` and `%q` verbs of `fmt`, and the
 * UTF-8 bytes of a string (`[]byte(s)`, `len(s)`).
 */
module Text {

  /** `strings.Join(parts, sep)`. */
  function Join(parts: seq<string>, sep: string): string
  {
    if |parts| == 0 then ""
    else if |parts| == 1 then parts[0]
    else Join(parts[..|parts| - 1], sep) + sep + parts[|parts| - 1]
  }

  /** A join starts with its first part and ends with its last one. */
  lemma {:induction false} JoinEnds(parts: seq<string>, sep: string)
    requires |parts| > 0
    ensures parts[0] <= Join(parts, sep)
    ensures var r, last := Join(parts, sep), parts[|parts| - 1];
            |last| <= |r| && r[|r| - |last|..] == last
  {
    if |parts| > 1 {
      var front := parts[..|parts| - 1];
      JoinEnds(front, sep);
      assert front[0] == parts[0];
      var j := Join(front, sep);
      assert Join(parts, sep) == j + sep + parts[|parts| - 1];
      assert (j + sep + parts[|parts| - 1])[..|j|] == j;
    }
  }

  /** Joining two non-empty runs puts one separator between them, keeping their order. */
  lemma {:induction false} JoinConcat(a: seq<string>, b: seq<string>, sep: string)
    requires |a| > 0 && |b| > 0
    ensures Join(a + b, sep) == Join(a, sep) + sep + Join(b, sep)
  {
    if |b| == 1 {
      assert (a + b)[..|a + b| - 1] == a;
    } else {
      var b' := b[..|b| - 1];
      assert (a + b)[..|a + b| - 1] == a + b';
      JoinConcat(a, b', sep);
      assert b[..|b| - 1] == b';
    }
  }

  /** With no separator, joining concatenates: the join of `a + b` is `a`'s join then `b`'s, empty runs included. */
  lemma ConcatenationJoin(a: seq<string>, b: seq<string>)
    ensures Join(a + b, "") == Join(a, "") + Join(b, "")
  {
    if a == [] {
      assert a + b == b;
    } else if b == [] {
      assert a + b == a;
    } else {
      JoinConcat(a, b, "");
    }
  }

  /** A joined run between two delimiters reads the same with the join's parts regrouped. */
  lemma Regroup(before: string, x: string, sep: string, y: string, after: string)
    ensures before + (x + sep + y) + after == before + x + sep + y + after
  {
  }

  /** A join is its first part followed by the separator and the join of the rest. */
  lemma JoinCons(parts: seq<string>, sep: string)
    requires |parts| >= 2
    ensures Join(parts, sep) == parts[0] + sep + Join(parts[1..], sep)
  {
    JoinConcat([parts[0]], parts[1..], sep);
    assert [parts[0]] + parts[1..] == parts;
  }

  function DigitChar(d: nat): char
    requires d < 10
  {
    ['0', '1', '2', '3', '4', '5', '6', '7', '8', '9'][d]
  }

  /** Decimal digits of a natural number, most significant first, no leading zero. */
  function NatToString(n: nat): (s: string)
    ensures |s| > 0
    ensures forall i :: 0 <= i < |s| ==> '0' <= s[i] <= '9'
    ensures |s| > 1 ==> s[0] != '0'
  {
    if n < 10 then [DigitChar(n)] else NatToString(n / 10) + [DigitChar(n % 10)]
  }

  /** `fmt.Sprintf("%d", i)`. */
  function IntToString(i: int): string
  {
    if i < 0 then "-" + NatToString(-i) else NatToString(i)
  }

  /** One rune as Go's `%q` (strconv.Quote) writes it inside the quotes. */
  function QuoteRune(c: char): string
  {
    if c == '"' then "\\\""
    else if c == '\\' then "\\\\"
    else if c == '\n' then "\\n"
    else if c == '\t' then "\\t"
    else if c == '\r' then "\\r"
    else if c == 7 as char then "\\a"
    else if c == 8 as char then "\\b"
    else if c == 12 as char then "\\f"
    else if c == 11 as char then "\\v"
    else if c < ' ' || c == 127 as char then
      "\\x" + [HexDigit(c as int / 16), HexDigit(c as int % 16)]
    else [c]
  }

  function HexDigit(d: nat): char
    requires d < 16
  {
    "0123456789abcdef"[d]
  }

  /** `fmt.Sprintf("%q", s)`: a double-quoted Go string literal. */
  function Quote(s: string): (q: string)
    ensures |q| >= 2 && q[0] == '"' && q[|q| - 1] == '"'
  {
    "\"" + QuoteBody(s) + "\""
  }

  function QuoteBody(s: string): string
  {
    if s == [] then "" else QuoteRune(s[0]) + QuoteBody(s[1..])
  }

  /** Printable ASCII other than the quote and the backslash: `%q` copies it unchanged. */
  predicate IsPlain(s: string)
  {
    forall i :: 0 <= i < |s| ==> ' ' <= s[i] <= '~' && s[i] != '"' && s[i] != '\\'
  }

  /** Plain text is quoted by wrapping it in double quotes and nothing else. */
  lemma {:induction false} QuotePlain(s: string)
    requires IsPlain(s)
    ensures QuoteBody(s) == s
    ensures Quote(s) == "\"" + s + "\""
  {
    if s != [] {
      assert IsPlain(s[1..]) by {
        forall i | 0 <= i < |s[1..]| ensures ' ' <= s[1..][i] <= '~' && s[1..][i] != '"' && s[1..][i] != '\\' {
          assert s[1..][i] == s[i + 1];
        }
      }
      QuotePlain(s[1..]);
      assert QuoteRune(s[0]) == [s[0]];
      assert [s[0]] + s[1..] == s;
    }
  }

  /** Quoting works rune by rune: the body of `a + b` is the body of `a` then that of `b`. */
  lemma {:induction false} QuoteBodyConcat(a: string, b: string)
    ensures QuoteBody(a + b) == QuoteBody(a) + QuoteBody(b)
  {
    if a != [] {
      assert (a + b)[0] == a[0];
      assert (a + b)[1..] == a[1..] + b;
      QuoteBodyConcat(a[1..], b);
    } else {
      assert a + b == b;
    }
  }

  /** The quote, the backslash and control characters are escaped. */
  lemma QuoteEscapes()
    ensures Quote("a\"b") == "\"a\\\"b\""
    ensures Quote("\n") == "\"\\n\""
    ensures QuoteRune(0 as char) == "\\x00"
  {
    assert "a\"b"[1..] == "\"b" && "\"b"[1..] == "b" && "b"[1..] == "";
    assert "\n"[1..] == "";
  }

  /** The UTF-8 encoding of one Unicode scalar value. */
  function EncodeRune(c: char): (bs: seq<bv8>)
    ensures 1 <= |bs| <= 4
    ensures (c as int < 0x80) <==> |bs| == 1
  {
    var n := c as int;
    if n < 0x80 then [n as bv8]
    else if n < 0x800 then [(0xC0 + n / 64) as bv8, (0x80 + n % 64) as bv8]
    else if n < 0x10000 then
      [(0xE0 + n / 4096) as bv8, (0x80 + (n / 64) % 64) as bv8, (0x80 + n % 64) as bv8]
    else
      [(0xF0 + n / 262144) as bv8, (0x80 + (n / 4096) % 64) as bv8,
       (0x80 + (n / 64) % 64) as bv8, (0x80 + n % 64) as bv8]
  }

  /** `[]byte(s)`: the UTF-8 bytes of a Go string. */
  function Utf8(s: string): (bs: seq<bv8>)
    ensures |s| <= |bs| <= 4 * |s|
  {
    if s == [] then [] else EncodeRune(s[0]) + Utf8(s[1..])
  }

  predicate IsAscii(s: string)
  {
    forall i :: 0 <= i < |s| ==> s[i] as int < 0x80
  }

  /** For ASCII text, Go's byte length `len(s)` is the number of characters. */
  lemma {:induction false} AsciiByteLength(s: string)
    requires IsAscii(s)
    ensures |Utf8(s)| == |s|
  {
    if s != [] {
      assert IsAscii(s[1..]) by {
        forall i | 0 <= i < |s[1..]| ensures s[1..][i] as int < 0x80 {
          assert s[1..][i] == s[i + 1];
        }
      }
      AsciiByteLength(s[1..]);
    }
  }

  /** Encoding distributes over concatenation: `[]byte(a + b)` is `[]byte(a)` then `[]byte(b)`. */
  lemma {:induction false} Utf8Concat(a: string, b: string)
    ensures Utf8(a + b) == Utf8(a) + Utf8(b)
  {
    if a != [] {
      assert (a + b)[0] == a[0];
      assert (a + b)[1..] == a[1..] + b;
      Utf8Concat(a[1..], b);
    } else {
      assert a + b == b;
    }
  }
}
