// Texts as the PDF fixtures carry them: UTF-8, and literal strings as ISO 32000-1 has them read.
// A byte is written as the character with that code.
module PdfText {
  import opened Wrappers

  // ---------- UTF-8 ----------

  function Byte(code: int): char
    requires 0 <= code < 256
  {
    code as char
  }

  function Utf8(c: char): (bytes: string)
    ensures 1 <= |bytes| <= 4
    ensures c as int < 0x80 ==> bytes == [c]
    ensures c as int >= 0x80 ==> forall i | 0 <= i < |bytes| :: 0x80 <= bytes[i] as int < 0x100
  {
    var n := c as int;
    if n < 0x80 then [c]
    else if n < 0x800 then [Byte(0xC0 + n / 0x40), Byte(0x80 + n % 0x40)]
    else if n < 0x10000 then [Byte(0xE0 + n / 0x1000), Byte(0x80 + n / 0x40 % 0x40), Byte(0x80 + n % 0x40)]
    else
      [Byte(0xF0 + n / 0x40000), Byte(0x80 + n / 0x1000 % 0x40), Byte(0x80 + n / 0x40 % 0x40), Byte(0x80 + n % 0x40)]
  }

  function Encode(text: string): string {
    if text == "" then "" else Utf8(text[0]) + Encode(text[1..])
  }

  predicate Ascii(text: string) {
    forall i | 0 <= i < |text| :: text[i] as int < 0x80
  }

  lemma {:induction false} EncodeConcat(a: string, b: string)
    ensures Encode(a + b) == Encode(a) + Encode(b)
  {
    if a == "" {
      assert a + b == b;
    } else {
      assert (a + b)[1..] == a[1..] + b;
      EncodeConcat(a[1..], b);
    }
  }

  lemma {:induction false} EncodeAscii(text: string)
    requires Ascii(text)
    ensures Encode(text) == text
  {
    if text != "" {
      EncodeAscii(text[1..]);
    }
  }

  // ---------- literal strings (ISO 32000-1, section 7.3.4.2) ----------

  /** str.replace with a single character to look for. */
  function Replaced(text: string, c: char, substitute: string): string {
    if text == "" then "" else (if text[0] == c then substitute else [text[0]]) + Replaced(text[1..], c, substitute)
  }

  function Escape(text: string): string {
    Replaced(Replaced(Replaced(text, '\\', "\\\\"), '(', "\\("), ')', "\\)")
  }

  function EscapeChar(c: char): string {
    if c == '\\' || c == '(' || c == ')' then ['\\', c] else [c]
  }

  lemma {:induction false} ReplacedConcat(a: string, b: string, c: char, substitute: string)
    ensures Replaced(a + b, c, substitute) == Replaced(a, c, substitute) + Replaced(b, c, substitute)
  {
    if a == "" {
      assert a + b == b;
    } else {
      assert (a + b)[1..] == a[1..] + b;
      ReplacedConcat(a[1..], b, c, substitute);
    }
  }

  lemma ReplacedOne(x: char, c: char, substitute: string)
    ensures Replaced([x], c, substitute) == if x == c then substitute else [x]
  {
    assert [x][1..] == "";
  }

  lemma EscapeOfOne(c: char)
    ensures Escape([c]) == EscapeChar(c)
  {
    ReplacedOne(c, '\\', "\\\\");
    ReplacedOne(c, '(', "\\(");
    ReplacedOne(c, ')', "\\)");
    if c == '\\' {
      ReplacedConcat("\\", "\\", '(', "\\(");
      ReplacedConcat("\\", "\\", ')', "\\)");
      assert "\\" + "\\" == "\\\\";
    } else if c == '(' {
      ReplacedConcat("\\", "(", ')', "\\)");
      assert "\\" + "(" == "\\(";
    }
  }

  /** The three passes escape each character on its own: no pass escapes what an earlier one wrote. */
  lemma {:induction false} EscapeByCharacter(text: string)
    requires text != ""
    ensures Escape(text) == EscapeChar(text[0]) + Escape(text[1..])
  {
    var c, rest := [text[0]], text[1..];
    assert text == c + rest;
    ReplacedConcat(c, rest, '\\', "\\\\");
    var c1, rest1 := Replaced(c, '\\', "\\\\"), Replaced(rest, '\\', "\\\\");
    ReplacedConcat(c1, rest1, '(', "\\(");
    ReplacedConcat(Replaced(c1, '(', "\\("), Replaced(rest1, '(', "\\("), ')', "\\)");
    EscapeOfOne(text[0]);
  }

  predicate IsOctal(c: char) {
    '0' <= c <= '7'
  }

  /** How many octal digits, at most three, the bytes begin with. */
  function OctalDigits(bytes: string): (n: nat)
    ensures n <= 3 && n <= |bytes|
  {
    if bytes == "" || !IsOctal(bytes[0]) then 0
    else if |bytes| == 1 || !IsOctal(bytes[1]) then 1
    else if |bytes| == 2 || !IsOctal(bytes[2]) then 2
    else 3
  }

  function OctalValue(digits: string): nat {
    if digits == "" then 0
    else 8 * OctalValue(digits[..|digits| - 1]) + (if IsOctal(digits[|digits| - 1]) then digits[|digits| - 1] as nat - '0' as nat else 0)
  }

  /** An end-of-line marker: CR LF, CR or LF. */
  function EndOfLine(bytes: string): (n: nat)
    ensures n <= |bytes|
  {
    if bytes == "" then 0
    else if bytes[0] == '\r' then (if |bytes| > 1 && bytes[1] == '\n' then 2 else 1)
    else if bytes[0] == '\n' then 1
    else 0
  }

  /** What an escape stands for, and how many bytes after the reverse solidus it takes. */
  function Unescape(bytes: string): (string, nat)
    requires bytes != ""
    ensures 1 <= Unescape(bytes).1 <= |bytes|
  {
    var c := bytes[0];
    if c == 'n' then ("\n", 1)
    else if c == 'r' then ("\r", 1)
    else if c == 't' then ("\t", 1)
    else if c == 'b' then ([8 as char], 1)
    else if c == 'f' then ([12 as char], 1)
    else if IsOctal(c) then ([(OctalValue(bytes[..OctalDigits(bytes)]) % 256) as char], OctalDigits(bytes))
    else if EndOfLine(bytes) > 0 then ("", EndOfLine(bytes))
    else ([c], 1)
  }

  /** The bytes of a literal string whose opening parenthesis has been read, and what follows its closing one. */
  function ReadLiteral(bytes: string, depth: nat): Option<(string, string)>
    decreases |bytes|
  {
    if bytes == "" then None
    else
      var c := bytes[0];
      if c == ')' && depth == 0 then Some(("", bytes[1..]))
      else if c == '\\' then
        if |bytes| == 1 then None
        else
          var (meant, n) := Unescape(bytes[1..]);
          Prepend(meant, ReadLiteral(bytes[1 + n..], depth))
      else if EndOfLine(bytes) > 0 then Prepend("\n", ReadLiteral(bytes[EndOfLine(bytes)..], depth))
      else Prepend([c], ReadLiteral(bytes[1..], if c == '(' then depth + 1 else if c == ')' then depth - 1 else depth))
  }

  function Prepend(front: string, result: Option<(string, string)>): Option<(string, string)> {
    match result
    case None => None
    case Some((text, rest)) => Some((front + text, rest))
  }

  /** A text with every end-of-line marker read as a line feed. */
  function LineFeeds(text: string): string {
    if text == "" then ""
    else if EndOfLine(text) > 0 then "\n" + LineFeeds(text[EndOfLine(text)..])
    else [text[0]] + LineFeeds(text[1..])
  }

  /** Plain bytes are read as they are. */
  lemma {:induction false} PlainBytes(bytes: string, rest: string)
    requires forall i | 0 <= i < |bytes| :: bytes[i] as int >= 0x80
    ensures ReadLiteral(bytes + rest, 0) == Prepend(bytes, ReadLiteral(rest, 0))
  {
    if bytes == "" {
      assert bytes + rest == rest;
      if ReadLiteral(rest, 0).Some? {
        assert bytes + ReadLiteral(rest, 0).value.0 == ReadLiteral(rest, 0).value.0;
      }
    } else {
      assert (bytes + rest)[1..] == bytes[1..] + rest;
      PlainBytes(bytes[1..], rest);
      if ReadLiteral(rest, 0).Some? {
        assert [bytes[0]] + (bytes[1..] + ReadLiteral(rest, 0).value.0) == bytes + ReadLiteral(rest, 0).value.0;
      }
    }
  }

  function Written(text: string, rest: string): string {
    Encode(Escape(text)) + ")" + rest
  }

  /** One character, as written, is read back as its own bytes. */
  lemma WrittenByCharacter(text: string, rest: string)
    requires text != ""
    ensures Written(text, rest) == Encode(EscapeChar(text[0])) + Written(text[1..], rest)
  {
    EscapeByCharacter(text);
    EncodeConcat(EscapeChar(text[0]), Escape(text[1..]));
  }

  lemma EncodedEscape(c: char)
    ensures Encode(EscapeChar(c)) == if c == '\\' || c == '(' || c == ')' then ['\\', c] else Utf8(c)
  {
    var tail := EscapeChar(c)[1..];
    assert Encode("") == "";
    if c == '\\' || c == '(' || c == ')' {
      assert tail == [c] && tail[1..] == "";
    } else {
      assert tail == "";
    }
  }

  lemma EscapedTail(mark: char, c: char, rest: string)
    ensures var bytes := [mark, c] + rest; bytes[1..] == [c] + rest && bytes[2..] == rest && bytes[0] == mark && bytes[1] == c
  {
  }

  lemma CharacterIsRead(c: char, rest: string)
    requires c != '\r' && c != '\n'
    ensures ReadLiteral(Encode(EscapeChar(c)) + rest, 0) == Prepend(Utf8(c), ReadLiteral(rest, 0))
  {
    EncodedEscape(c);
    var bytes := Encode(EscapeChar(c)) + rest;
    if c as int >= 0x80 {
      PlainBytes(Utf8(c), rest);
    } else if c == '\\' || c == '(' || c == ')' {
      EscapedTail('\\', c, rest);
    } else {
      assert bytes[1..] == rest;
    }
  }

  lemma WrittenStartsWithNewline(text: string, rest: string)
    ensures Written(text, rest) != "" && (Written(text, rest)[0] == '\n' <==> text != "" && text[0] == '\n')
  {
    if text != "" {
      WrittenByCharacter(text, rest);
      EncodedEscape(text[0]);
    }
  }

  lemma PlainCharacterIsWritten(text: string, rest: string)
    requires text != "" && (text[0] == '\r' || text[0] == '\n')
    ensures Written(text, rest) == [text[0]] + Written(text[1..], rest)
  {
    WrittenByCharacter(text, rest);
    EncodedEscape(text[0]);
  }

  lemma LineEndIsWritten(text: string, rest: string)
    requires EndOfLine(text) > 0
    ensures EndOfLine(Written(text, rest)) == EndOfLine(text)
    ensures Written(text, rest)[EndOfLine(text)..] == Written(text[EndOfLine(text)..], rest)
  {
    hide Written;
    var bytes, after := Written(text, rest), Written(text[1..], rest);
    PlainCharacterIsWritten(text, rest);
    WrittenStartsWithNewline(text[1..], rest);
    if EndOfLine(text) == 2 {
      PlainCharacterIsWritten(text[1..], rest);
      assert text[1..][1..] == text[2..];
    }
  }

  /** A line end is read as a line feed, whichever it was. */
  lemma LineEndIsRead(text: string, rest: string)
    requires EndOfLine(text) > 0
    ensures ReadLiteral(Written(text, rest), 0) == Prepend("\n", ReadLiteral(Written(text[EndOfLine(text)..], rest), 0))
  {
    hide Written;
    LineEndIsWritten(text, rest);
  }

  /** Reading a written literal yields the text in UTF-8, its line ends turned into line feeds, and stops where it should. */
  lemma {:induction false} LiteralIsReadBack(text: string, rest: string)
    ensures ReadLiteral(Written(text, rest), 0) == Some((Encode(LineFeeds(text)), rest))
    decreases |text|
  {
    if text == "" {
      assert Written("", rest) == ")" + rest;
    } else if EndOfLine(text) > 0 {
      LineEndIsRead(text, rest);
      LiteralIsReadBack(text[EndOfLine(text)..], rest);
      EncodeConcat("\n", LineFeeds(text[EndOfLine(text)..]));
      EncodeAscii("\n");
    } else {
      WrittenByCharacter(text, rest);
      CharacterIsRead(text[0], Written(text[1..], rest));
      LiteralIsReadBack(text[1..], rest);
      EncodeConcat([text[0]], LineFeeds(text[1..]));
      assert [text[0]][1..] == "" && Encode([text[0]]) == Utf8(text[0]);
    }
  }

  lemma {:induction false} EncodeMentionsReturn(text: string)
    ensures '\r' in Encode(text) <==> '\r' in text
  {
    if text != "" {
      assert text == [text[0]] + text[1..];
      EncodeMentionsReturn(text[1..]);
    }
  }

  lemma {:induction false} LineFeedsWithoutReturns(text: string)
    ensures '\r' !in LineFeeds(text)
    ensures '\r' !in text ==> LineFeeds(text) == text
    decreases |text|
  {
    if text != "" {
      assert text == [text[0]] + text[1..];
      LineFeedsWithoutReturns(text[if EndOfLine(text) > 0 then EndOfLine(text) else 1..]);
    }
  }

  /** Escaping and reading back returns the original text if and only if it has no carriage return. */
  lemma LiteralRoundTrip(text: string, rest: string)
    ensures ReadLiteral(Written(text, rest), 0) == Some((Encode(text), rest)) <==> '\r' !in text
  {
    LiteralIsReadBack(text, rest);
    LineFeedsWithoutReturns(text);
    EncodeMentionsReturn(text);
    EncodeMentionsReturn(LineFeeds(text));
  }

  lemma LineFeedsOfReturn()
    ensures LineFeeds("a\rb") == "a\nb"
  {
    assert "a\rb"[1..] == "\rb" && "\rb"[1..] == "b" && "b"[1..] == "";
    assert LineFeeds("b") == "b" && LineFeeds("\rb") == "\nb";
  }

  /** A carriage return comes back as a line feed. */
  lemma CarriageReturnIsNotReadBack(rest: string)
    ensures ReadLiteral(Written("a\rb", rest), 0) == Some(("a\nb", rest)) && Encode("a\rb") == "a\rb" != "a\nb"
  {
    hide LineFeeds, ReadLiteral, Written, Encode;
    LiteralIsReadBack("a\rb", rest);
    LineFeedsOfReturn();
    EncodeAscii("a\nb");
    EncodeAscii("a\rb");
    assert "a\rb"[1] != "a\nb"[1];
  }
}
