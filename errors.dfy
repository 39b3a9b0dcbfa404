/** The message texts of zenith/exceptions.py, and the `repr()` of a string they embed. */
module Errors {
  import opened Results
  import opened Text

  /** The quote `repr()` puts around `s`: a double quote when `s` holds a single quote and
      no double quote, a single quote otherwise. */
  function QuoteFor(s: string): (q: char)
    ensures q == '\'' || q == '"'
  {
    if '\'' in s && '"' !in s then '"' else '\''
  }

  /** `\xhh` for a code below 256. */
  function HexEscape(c: char): (r: string)
    requires (c as int) < 256
    ensures |r| == 4
  {
    ['\\', 'x', HexDigitChar((c as int) / 16), HexDigitChar((c as int) % 16)]
  }

  /** How `repr()` writes one character inside quotes `q`. */
  function EscapeChar(c: char, q: char): string {
    if c == q || c == '\\' then ['\\', c]
    else if c == '\t' then "\\t"
    else if c == '\n' then "\\n"
    else if c == '\r' then "\\r"
    else if (c as int) < 0x20 || (c as int) == 0x7f then HexEscape(c)
    else [c]
  }

  function EscapeBody(s: string, q: char): string {
    if s == [] then "" else EscapeChar(s[0], q) + EscapeBody(s[1..], q)
  }

  /** `repr(s)` for a `str`. */
  function Repr(s: string): (r: string)
    ensures |r| >= 2 && r[0] == QuoteFor(s) && r[|r| - 1] == QuoteFor(s)
  {
    var q := QuoteFor(s);
    [q] + EscapeBody(s, q) + [q]
  }

  /** Reads a string body back from its escaped form: the partner of `EscapeBody`. */
  function Unescape(body: string, q: char): Option<string> {
    if body == [] then Some("")
    else if body[0] == q then None
    else if body[0] != '\\' then Prepend(body[0], Unescape(body[1..], q))
    else if |body| < 2 then None
    else if body[1] == 't' then Prepend('\t', Unescape(body[2..], q))
    else if body[1] == 'n' then Prepend('\n', Unescape(body[2..], q))
    else if body[1] == 'r' then Prepend('\r', Unescape(body[2..], q))
    else if body[1] == '\\' || body[1] == q then Prepend(body[1], Unescape(body[2..], q))
    else if body[1] == 'x' && |body| >= 4 && IsHexDigit(body[2]) && IsHexDigit(body[3]) then
      Prepend((16 * HexDigitValue(body[2]) + HexDigitValue(body[3])) as char, Unescape(body[4..], q))
    else None
  }

  function Prepend(c: char, rest: Option<string>): Option<string> {
    match rest
    case None => None
    case Some(s) => Some([c] + s)
  }

  /** Reads a quoted literal as `repr()` writes it. */
  function Unrepr(literal: string): Option<string> {
    if |literal| >= 2 && (literal[0] == '\'' || literal[0] == '"') && literal[|literal| - 1] == literal[0]
    then Unescape(literal[1..|literal| - 1], literal[0])
    else None
  }

  lemma UnescapeChar(c: char, q: char, rest: string)
    requires q == '\'' || q == '"'
    ensures Unescape(EscapeChar(c, q) + rest, q) == Prepend(c, Unescape(rest, q))
  {
    var e := EscapeChar(c, q);
    if c == q || c == '\\' || c == '\t' || c == '\n' || c == '\r' {
      assert (e + rest)[2..] == rest;
    } else if (c as int) < 0x20 || (c as int) == 0x7f {
      assert (e + rest)[4..] == rest;
      assert 16 * ((c as int) / 16) + (c as int) % 16 == c as int;
    } else {
      assert (e + rest)[1..] == rest;
    }
  }

  lemma {:induction false} UnescapeEscapeBody(s: string, q: char)
    requires q == '\'' || q == '"'
    ensures Unescape(EscapeBody(s, q), q) == Some(s)
  {
    if s != [] {
      UnescapeEscapeBody(s[1..], q);
      UnescapeChar(s[0], q, EscapeBody(s[1..], q));
      assert s == [s[0]] + s[1..];
    }
  }

  /** `repr()` loses nothing: the string can be read back from its representation, so
      messages that embed different tags are different. */
  lemma ReprRoundTrip(s: string)
    ensures Unrepr(Repr(s)) == Some(s)
  {
    var q := QuoteFor(s);
    var r := Repr(s);
    assert r[1..|r| - 1] == EscapeBody(s, q);
    UnescapeEscapeBody(s, q);
  }

  /** A string without quotes, backslashes or control characters is shown as it is. */
  lemma {:induction false} ReprPlain(s: string)
    requires forall i :: 0 <= i < |s| ==> s[i] != '\'' && s[i] != '\\' && 0x20 <= (s[i] as int) != 0x7f
    ensures Repr(s) == "'" + s + "'"
  {
    assert QuoteFor(s) == '\'';
    PlainBody(s);
  }

  lemma {:induction false} PlainBody(s: string)
    requires forall i :: 0 <= i < |s| ==> s[i] != '\'' && s[i] != '\\' && 0x20 <= (s[i] as int) != 0x7f
    ensures EscapeBody(s, '\'') == s
  {
    if s != [] {
      PlainBody(s[1..]);
      assert s == [s[0]] + s[1..];
    }
  }

  /** `_generate_error_text`: `<start> <expected_type> <repr(tag)>`, ended by `.` without a
      context and by `: <context>` with one. */
  function GenerateErrorText(start: string, expectedType: string, tag: string, context: Option<string>): string {
    var head := start + " " + expectedType + " " + Repr(tag);
    match context
    case None => head + "."
    case Some(text) => head + ": " + text
  }

  /** The message of `_generate_error_text` names the tag recoverably right after the start
      and the type, and ends with the context when there is one. */
  lemma ErrorTextParts(start: string, expectedType: string, tag: string, context: Option<string>)
    ensures var msg := GenerateErrorText(start, expectedType, tag, context);
      var k := |start| + |expectedType| + 2;
      var n := |Repr(tag)|;
      && k + n <= |msg|
      && msg[..k] == start + " " + expectedType + " "
      && Unrepr(msg[k..k + n]) == Some(tag)
      && msg[k + n..] == (if context.None? then "." else ": " + context.value)
  {
    var msg := GenerateErrorText(start, expectedType, tag, context);
    var k := |start| + |expectedType| + 2;
    var head := start + " " + expectedType + " ";
    var tail := if context.None? then "." else ": " + context.value;
    assert msg == head + Repr(tag) + tail;
    assert msg[..k] == head;
    assert msg[k..k + |Repr(tag)|] == Repr(tag);
    assert msg[k + |Repr(tag)|..] == tail;
    ReprRoundTrip(tag);
  }

  /** `ZmlNameError`: raised for an unknown name. */
  datatype ZmlNameError = ZmlNameError(tag: string, context: Option<string> := None, expectedType: string := "tag") {
    /** `ZmlNameError.__str__`. */
    function ToString(): string {
      GenerateErrorText("Unknown", expectedType, tag, context)
    }
  }

  /** `ZmlSemanticsError`: raised for a tag used against the rules. */
  datatype ZmlSemanticsError = ZmlSemanticsError(tag: string, context: Option<string> := None, expectedType: string := "tag") {
    /** `ZmlSemanticsError.__str__`. */
    function ToString(): string {
      GenerateErrorText("Invalid", expectedType, tag, context)
    }
  }

  /** With the defaults, the two errors read `Unknown tag 'x'.` and `Invalid tag 'x'.`, and
      two errors of either kind read alike only when they are equal. */
  lemma ErrorStrings(tag: string, context: Option<string>, expectedType: string)
    ensures ZmlNameError(tag).ToString() == "Unknown tag " + Repr(tag) + "."
    ensures ZmlSemanticsError(tag).ToString() == "Invalid tag " + Repr(tag) + "."
    ensures ZmlNameError(tag, context, expectedType).ToString()
         != ZmlSemanticsError(tag, context, expectedType).ToString()
  {
    DefaultErrorStrings(tag);
    var a := ZmlNameError(tag, context, expectedType).ToString();
    var b := ZmlSemanticsError(tag, context, expectedType).ToString();
    assert a[0] == 'U' && b[0] == 'I';
  }

  lemma DefaultErrorStrings(tag: string)
    ensures ZmlNameError(tag).ToString() == "Unknown tag " + Repr(tag) + "."
    ensures ZmlSemanticsError(tag).ToString() == "Invalid tag " + Repr(tag) + "."
  {
  }

  /** The messages of the `ValueError`s the core raises, as the source writes them. */
  function Message(f: Failure): string {
    match f
    case BadIndexedColor(color) =>
      "Could not parse indexed color " + Repr(color) + "; it should be between 0 and 16, or 16 and 255."
    case UndefinedMacro(tag) => "Undefined macro " + Repr(tag) + "."
    case MacroNotSet(tag) => "Macro " + Repr(tag) + " is not set, so it can't be unset."
    case UnknownTag(tag) => "Unknown tag " + Repr(tag) + "."
    case NotAMacroIdentifier(identifier) => DefineMessageAsWritten(identifier)
    case _ => ""
  }

  /** An unknown tag is reported with the same text as `ZmlNameError(tag)`. */
  lemma MessageOfUnknownTag(tag: string)
    ensures Message(UnknownTag(tag)) == ZmlNameError(tag).ToString()
  {
  }

  /** The tag a `_apply_tag` or `_parse_color` message is about can be read back from it, right
      after the message's fixed opening. */
  lemma MessageNamesTag(f: Failure)
    requires f.BadIndexedColor? || f.UndefinedMacro? || f.MacroNotSet? || f.UnknownTag?
    ensures var tag := if f.BadIndexedColor? then f.color else f.tag;
      var k := if f.BadIndexedColor? then |"Could not parse indexed color "|
               else if f.UndefinedMacro? then |"Undefined macro "|
               else if f.MacroNotSet? then |"Macro "|
               else |"Unknown tag "|;
      var msg := Message(f);
      k + |Repr(tag)| <= |msg| && Unrepr(msg[k..k + |Repr(tag)|]) == Some(tag)
  {
    var tag := if f.BadIndexedColor? then f.color else f.tag;
    var head := if f.BadIndexedColor? then "Could not parse indexed color "
                else if f.UndefinedMacro? then "Undefined macro "
                else if f.MacroNotSet? then "Macro "
                else "Unknown tag ";
    var tail := if f.BadIndexedColor? then "; it should be between 0 and 16, or 16 and 255."
                else if f.MacroNotSet? then " is not set, so it can't be unset."
                else ".";
    assert Message(f) == head + Repr(tag) + tail;
    assert (head + Repr(tag) + tail)[|head|..|head| + |Repr(tag)|] == Repr(tag);
    ReprRoundTrip(tag);
  }

  /** The message `define` raises as written: the string lacks the `f` prefix, so the
      placeholder is not filled in. */
  function DefineMessageAsWritten(identifier: string): string {
    "Macro identifiers must start with `!`, {identifier!r} doesn't."
  }

  /** The message `define` evidently means to raise. */
  function DefineMessage(identifier: string): string {
    "Macro identifiers must start with `!`, " + Repr(identifier) + " doesn't."
  }

  /** As written, the message is the same for every identifier, and it is never the message
      that names the identifier. */
  lemma DefineMessageIgnoresIdentifier(x: string, y: string)
    ensures DefineMessageAsWritten(x) == DefineMessageAsWritten(y)
    ensures Message(NotAMacroIdentifier(x)) != DefineMessage(x)
  {
    var k := |"Macro identifiers must start with `!`, "|;
    var written := DefineMessageAsWritten(x);
    var meant := DefineMessage(x);
    assert written[k] == '{';
    assert meant[k] == Repr(x)[0] == QuoteFor(x);
  }

  /** The corrected message names the identifier: it can be read back from the message. */
  lemma DefineMessageNamesIdentifier(identifier: string)
    ensures var msg := DefineMessage(identifier);
      var k := |"Macro identifiers must start with `!`, "|;
      Unrepr(msg[k..|msg| - |" doesn't."|]) == Some(identifier)
  {
    var msg := DefineMessage(identifier);
    var k := |"Macro identifiers must start with `!`, "|;
    assert msg[k..|msg| - |" doesn't."|] == Repr(identifier);
    ReprRoundTrip(identifier);
  }
}
