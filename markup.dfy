/** The tag language of zenith/markup.py: the style stack, the context of aliases and
    macros, colour tags and `_apply_tag`, and the automatic foreground. */
module Markup {
  import opened Results
  import opened Text
  import opened Dict
  import opened Colors

  /** The keys of a style stack (`StyleStack`), in the order of `BASE_STYLE_STACK`. */
  datatype Attr =
    Bold | Dim | Italic | Underline | Blink | FastBlink | Invert | Conceal | Strike
    | Foreground | Background | Hyperlink

  const Keys: seq<Attr> :=
    [Bold, Dim, Italic, Underline, Blink, FastBlink, Invert, Conceal, Strike,
     Foreground, Background, Hyperlink]

  lemma KeysComplete(a: Attr)
    ensures a in Keys
  {
  }

  /** The Python name of a key. */
  function AttrName(a: Attr): string {
    match a
    case Bold => "bold"
    case Dim => "dim"
    case Italic => "italic"
    case Underline => "underline"
    case Blink => "blink"
    case FastBlink => "fast_blink"
    case Invert => "invert"
    case Conceal => "conceal"
    case Strike => "strike"
    case Foreground => "foreground"
    case Background => "background"
    case Hyperlink => "hyperlink"
  }

  /** The key a tag names, if it names one. */
  function AttrNamed(name: string): (r: Option<Attr>)
    ensures r.Some? ==> AttrName(r.value) == name
  {
    if name == "bold" then Some(Bold)
    else if name == "dim" then Some(Dim)
    else if name == "italic" then Some(Italic)
    else if name == "underline" then Some(Underline)
    else if name == "blink" then Some(Blink)
    else if name == "fast_blink" then Some(FastBlink)
    else if name == "invert" then Some(Invert)
    else if name == "conceal" then Some(Conceal)
    else if name == "strike" then Some(Strike)
    else if name == "foreground" then Some(Foreground)
    else if name == "background" then Some(Background)
    else if name == "hyperlink" then Some(Hyperlink)
    else None
  }

  /** Every key is named by exactly its name. */
  /** Lower-case letters and underscores only. */
  predicate LowerIdent(s: string) {
    forall i :: 0 <= i < |s| ==> 'a' <= s[i] <= 'z' || s[i] == '_'
  }

  /** A key's name is a non-empty run of lower-case letters and underscores. */
  lemma AttrNameLetters(a: Attr)
    ensures |AttrName(a)| > 0 && LowerIdent(AttrName(a))
  {
    match a
    case Bold => case Dim => case Italic => case Underline => case Blink => case FastBlink =>
    case Invert => case Conceal => case Strike => case Foreground => case Background =>
    case Hyperlink =>
  }

  lemma AttrNamedName(a: Attr)
    ensures AttrNamed(AttrName(a)) == Some(a)
  {
  }

  /** A style value: a flag or a string (an SGR body, a URI). Any key can hold either, since
      a key's name used as a tag sets it to a boolean. */
  datatype Value = Bool(b: bool) | Str(s: string) {
    /** Python truthiness. */
    predicate Truthy() {
      if Bool? then b else s != ""
    }
  }

  type Stack = map<Attr, Value>

  /** The value of a key in `BASE_STYLE_STACK`. */
  function BaseValue(a: Attr): Value {
    if a in {Foreground, Background, Hyperlink} then Str("") else Bool(false)
  }

  const BaseStack: Stack := map a | a in Keys :: BaseValue(a)

  /** A style stack always has every key but possibly the foreground, which
      `markup_spans` deletes after deriving it. */
  ghost predicate WellFormed(st: Stack) {
    forall a :: a != Foreground ==> a in st
  }

  lemma BaseStackWellFormed()
    ensures WellFormed(BaseStack) && Foreground in BaseStack
    ensures forall a :: a in BaseStack && BaseStack[a] == BaseValue(a)
  {
    forall a: Attr
      ensures a in BaseStack && BaseStack[a] == BaseValue(a)
    {
      KeysComplete(a);
    }
  }

  // ---------------------------------------------------------------------------------------
  // The context of aliases and macros

  /** A macro callable, up to identity (`list.remove` compares callables by identity). */
  type MacroId = nat

  /** A `ContextMapping`: aliases and macros, each a dict in insertion order. */
  class Context {
    var aliases: Table<string>
    var macros: Table<MacroId>

    /** `ContextMapping.new()`. */
    constructor ()
      ensures aliases == [] && macros == []
    {
      aliases := [];
      macros := [];
    }

    /** The context's aliases and macros as values. */
    function Current(): (s: Snapshot)
      reads this
      ensures s.aliases == aliases && s.macros == macros
    {
      Snapshot(aliases, macros)
    }
  }

  /** The contents of a context at one moment. */
  datatype Snapshot = Snapshot(aliases: Table<string>, macros: Table<MacroId>)

  /** The key `alias` stores a keyword argument under: kebab-cased unless `keep_case`. */
  function AliasKey(key: string, keepCase: bool): string {
    if keepCase then key else Replace(key, "_", "-")
  }

  /** Kebab-casing leaves no underscore. */
  lemma {:induction false} KebabHasNoUnderscore(key: string)
    ensures '_' !in AliasKey(key, false)
    decreases |key|
  {
    if |key| >= 1 {
      if key[..1] == "_" {
        KebabHasNoUnderscore(key[1..]);
      } else {
        KebabHasNoUnderscore(key[1..]);
        assert key[0] != '_' by {
          assert key[..1] == [key[0]];
        }
      }
    }
  }

  /** The aliases after storing `pairs` in order. */
  function StoreAliases(t: Table<string>, pairs: seq<(string, string)>, keepCase: bool): Table<string>
    decreases |pairs|
  {
    if pairs == [] then t
    else StoreAliases(Store(t, AliasKey(pairs[0].0, keepCase), pairs[0].1), pairs[1..], keepCase)
  }

  /** `alias(ctx=ctx, keep_case=keep_case, **pairs)`. */
  method Alias(ctx: Context, pairs: seq<(string, string)>, keepCase: bool)
    modifies ctx
    ensures ctx.aliases == StoreAliases(old(ctx.aliases), pairs, keepCase)
    ensures ctx.macros == old(ctx.macros)
  {
    var k := 0;
    while k < |pairs|
      invariant 0 <= k <= |pairs|
      invariant StoreAliases(ctx.aliases, pairs[k..], keepCase) == StoreAliases(old(ctx.aliases), pairs, keepCase)
      invariant ctx.macros == old(ctx.macros)
    {
      var (key, value) := pairs[k];
      key := if keepCase then key else Replace(key, "_", "-");
      assert pairs[k..][1..] == pairs[k + 1..];
      ctx.aliases := Store(ctx.aliases, key, value);
      k := k + 1;
    }
  }

  /** After `alias`, a key reads the value of the last pair stored under it, and a key no
      pair is stored under reads as before. */
  lemma {:induction false} StoreAliasesLookup(t: Table<string>, pairs: seq<(string, string)>, keepCase: bool, key: string)
    ensures Lookup(StoreAliases(t, pairs, keepCase), key)
         == LastAlias(pairs, keepCase, key, Lookup(t, key))
    decreases |pairs|
  {
    if pairs != [] {
      var t1 := Store(t, AliasKey(pairs[0].0, keepCase), pairs[0].1);
      LookupStore(t, AliasKey(pairs[0].0, keepCase), pairs[0].1, key);
      StoreAliasesLookup(t1, pairs[1..], keepCase, key);
    }
  }

  /** The value of the last pair whose key becomes `key`, or `otherwise`. */
  function LastAlias(pairs: seq<(string, string)>, keepCase: bool, key: string, otherwise: Option<string>): Option<string>
    decreases |pairs|
  {
    if pairs == [] then otherwise
    else LastAlias(pairs[1..], keepCase, key,
                   if AliasKey(pairs[0].0, keepCase) == key then Some(pairs[0].1) else otherwise)
  }

  lemma {:induction false} LastAliasOfLast(pairs: seq<(string, string)>, keepCase: bool, k: string, v: string, otherwise: Option<string>)
    ensures LastAlias(pairs + [(k, v)], keepCase, AliasKey(k, keepCase), otherwise) == Some(v)
    decreases |pairs|
  {
    if pairs == [] {
      assert pairs + [(k, v)] == [(k, v)];
    } else {
      assert (pairs + [(k, v)])[1..] == pairs[1..] + [(k, v)];
      LastAliasOfLast(pairs[1..], keepCase, k, v,
        if AliasKey(pairs[0].0, keepCase) == AliasKey(k, keepCase) then Some(pairs[0].1) else otherwise);
    }
  }

  lemma {:induction false} LastAliasUntouched(pairs: seq<(string, string)>, keepCase: bool, key: string, otherwise: Option<string>)
    requires forall i :: 0 <= i < |pairs| ==> AliasKey(pairs[i].0, keepCase) != key
    ensures LastAlias(pairs, keepCase, key, otherwise) == otherwise
    decreases |pairs|
  {
    if pairs != [] {
      LastAliasUntouched(pairs[1..], keepCase, key, otherwise);
    }
  }

  /** `alias(my_alias="141")` makes `[my-alias]` available, and `keep_case` keeps the key. */
  lemma AliasReadsBack(t: Table<string>, pairs: seq<(string, string)>, key: string, value: string, keepCase: bool)
    ensures Lookup(StoreAliases(t, pairs + [(key, value)], keepCase), AliasKey(key, keepCase)) == Some(value)
    ensures keepCase ==> AliasKey(key, keepCase) == key
  {
    StoreAliasesLookup(t, pairs + [(key, value)], keepCase, AliasKey(key, keepCase));
    LastAliasOfLast(pairs, keepCase, key, value, Lookup(t, AliasKey(key, keepCase)));
  }

  /** Keys `alias` does not store under keep their old values. */
  lemma AliasKeepsOthers(t: Table<string>, pairs: seq<(string, string)>, keepCase: bool, key: string)
    requires forall i :: 0 <= i < |pairs| ==> AliasKey(pairs[i].0, keepCase) != key
    ensures Lookup(StoreAliases(t, pairs, keepCase), key) == Lookup(t, key)
  {
    StoreAliasesLookup(t, pairs, keepCase, key);
    LastAliasUntouched(pairs, keepCase, key, Lookup(t, key));
  }

  /** `define(identifier, value, ctx)`: an identifier not starting with `!` is refused and the
      context is left alone; otherwise the macro is stored under it. */
  method Define(ctx: Context, identifier: string, value: MacroId) returns (r: Result<()>)
    modifies ctx
    ensures r.Ok? <==> StartsWith(identifier, "!")
    ensures r.Err? ==> r.error == NotAMacroIdentifier(identifier)
    ensures ctx.macros == if r.Ok? then Store(old(ctx.macros), identifier, value) else old(ctx.macros)
    ensures ctx.aliases == old(ctx.aliases)
  {
    if !(|identifier| >= 1 && identifier[0] == '!') {
      assert !StartsWith(identifier, "!");
      return Err(NotAMacroIdentifier(identifier));
    }
    assert identifier[..1] == "!";
    ctx.macros := Store(ctx.macros, identifier, value);
    r := Ok(());
  }

  /** `_add_prefix`: the prefix goes after a leading `@`, otherwise in front. */
  function AddPrefix(prefix: string, key: string): (r: string)
    ensures StartsWith(key, "@") ==> |r| >= 1 && r[0] == '@' && r[1..] == prefix + key[1..]
    ensures !StartsWith(key, "@") ==> r == prefix + key
  {
    if StartsWith(key, "@") then "@" + prefix + key[1..] else prefix + key
  }

  /** Distinct tags never share a prefixed name, so the prefix namespaces lookups without
      merging any two tags. */
  lemma AddPrefixInjective(prefix: string, k1: string, k2: string)
    requires AddPrefix(prefix, k1) == AddPrefix(prefix, k2)
    ensures k1 == k2
  {
    if StartsWith(k1, "@") == StartsWith(k2, "@") {
      if StartsWith(k1, "@") {
        assert ("@" + prefix + k1[1..])[1 + |prefix|..] == k1[1..];
        assert ("@" + prefix + k2[1..])[1 + |prefix|..] == k2[1..];
        assert k1 == k1[..1] + k1[1..] && k2 == k2[..1] + k2[1..];
      } else {
        assert (prefix + k1)[|prefix|..] == k1 && (prefix + k2)[|prefix|..] == k2;
      }
    } else if StartsWith(k1, "@") {
      MarkerNotAbsorbed(prefix, k1[1..], k2);
    } else {
      MarkerNotAbsorbed(prefix, k2[1..], k1);
    }
  }

  /** `"@" + prefix + a == prefix + b` forces `b` to start with `@`. */
  lemma MarkerNotAbsorbed(prefix: string, a: string, b: string)
    requires "@" + prefix + a == prefix + b
    ensures StartsWith(b, "@")
  {
    var s := prefix + b;
    AllMarkers(prefix, b);
    if prefix == [] {
      assert b == s && s[0] == '@';
    } else {
      assert b[0] == s[|prefix|] == ("@" + prefix + a)[|prefix|] == prefix[|prefix| - 1];
    }
  }

  lemma {:induction false} AllMarkers(prefix: string, b: string)
    requires |prefix| + 1 <= |prefix + b| && (prefix + b)[..|prefix| + 1] == "@" + prefix
    ensures forall i :: 0 <= i < |prefix| ==> prefix[i] == '@'
  {
    var s := prefix + b;
    var t := "@" + prefix;
    forall i | 0 <= i < |prefix|
      ensures prefix[i] == '@'
    {
      var j := i;
      while j > 0
        invariant 0 <= j <= i && prefix[i] == prefix[j]
      {
        assert s[j] == t[j] && s[j] == prefix[j] && t[j] == prefix[j - 1];
        j := j - 1;
      }
      assert s[0] == t[0];
    }
  }

  // ---------------------------------------------------------------------------------------
  // Colour tags

  /** The number of leading ASCII digits of `s`. */
  function LeadingDigits(s: string): (n: nat)
    ensures n <= |s|
    ensures forall i :: 0 <= i < n ==> IsDigit(s[i])
    ensures n < |s| ==> !IsDigit(s[n])
  {
    if s != [] && IsDigit(s[0]) then 1 + LeadingDigits(s[1..]) else 0
  }

  function DropOne(s: string, c: char): string {
    if |s| >= 1 && s[0] == c then s[1..] else s
  }

  /** `^@?([\d]{1,3})$`: one to three digits, after an optional `@`. */
  predicate IndexedColorSyntax(tag: string) {
    var t := DropOne(tag, '@');
    IsDigits(t) && |t| <= 3
  }

  /** `@?#?([0-9a-fA-F]{6})` at the start: six hex digits after an optional `@` and `#`. */
  predicate HexColorSyntax(tag: string) {
    var t := DropOne(DropOne(tag, '@'), '#');
    |t| >= 6 && IsHexDigits(t[..6])
  }

  /** `@?\d{1,3};\d{1,3};\d{1,3}` at the start. */
  predicate RgbColorSyntax(tag: string) {
    var t := DropOne(tag, '@');
    var a := LeadingDigits(t);
    1 <= a <= 3 && a < |t| && t[a] == ';' &&
    var u := t[a + 1..];
    var b := LeadingDigits(u);
    1 <= b <= 3 && b < |u| && u[b] == ';' &&
    LeadingDigits(u[b + 1..]) >= 1
  }

  /** `RE_COLOR.match(tag) or tag.lstrip("@") in CSS_COLORS`. */
  predicate IsColorTag(p: Palette, tag: string) {
    IndexedColorSyntax(tag) || HexColorSyntax(tag) || RgbColorSyntax(tag) || LStrip(tag, '@') in p.css
  }

  /** The three components of a hex colour, `int(part, base=16)` each, in decimal; the first
      malformed component is the error. */
  function HexComponents(parts: seq<string>): (r: Result<seq<string>>)
    ensures r.Ok? ==> |r.value| == |parts|
  {
    if parts == [] then Ok([])
    else match ParseHex(parts[0])
      case None => Err(BadHexComponent(parts[0]))
      case Some(v) =>
        var rest :- HexComponents(parts[1..]);
        Ok([NatToString(v)] + rest)
  }

  lemma HexComponentsCons(part: string, rest: seq<string>)
    requires IsHexDigits(part)
    ensures HexComponents([part] + rest) ==
      match HexComponents(rest)
      case Err(e) => Err(e)
      case Ok(tail) => Ok([NatToString(HexValue(part))] + tail)
  {
    assert ([part] + rest)[1..] == rest;
  }

  /** `_parse_color`: the SGR body of a colour tag; `@` makes it a background colour. */
  function ParseColor(p: Palette, color: string): Result<string> {
    ParseStripped(p, if StartsWith(color, "@") then 10 else 0, LStrip(color, '@'))
  }

  /** `_parse_color` once the `@` is stripped into the offset of the SGR code. */
  function ParseStripped(p: Palette, offset: nat, c: string): Result<string> {
    if IsDigits(c) then IndexedColor(offset, DecimalValue(c), c) else TrueColor(p, offset, c)
  }

  /** The indexed branch of `_parse_color`, for `index == int(c)`. */
  function IndexedColor(offset: nat, index: nat, c: string): Result<string> {
    if index < 8 then Ok(NatToString(30 + offset + index))
    else if index < 16 then Ok(NatToString(80 + offset + index + 2))
    else if index < 256 then Ok(NatToString(38 + offset) + ";5;" + NatToString(index))
    else Err(BadIndexedColor(c))
  }

  /** The 24-bit branch of `_parse_color`: a CSS name is replaced by its colour, a `#rrggbb`
      colour is converted to decimal components, and the result follows `38;2;`. */
  function TrueColor(p: Palette, offset: nat, c: string): Result<string> {
    var named := if c in p.css then p.css[c] else c;
    if StartsWith(named, "#") then
      var h := LStrip(named, '#');
      var components :- HexComponents([Slice(h, 0, 2), Slice(h, 2, 4), Slice(h, 4, |h|)]);
      Ok(NatToString(38 + offset) + ";2;" + Join(components, ";"))
    else Ok(NatToString(38 + offset) + ";2;" + named)
  }

  lemma LStripPlain(s: string, c: char)
    requires s == [] || s[0] != c
    ensures LStrip(s, c) == s
  {
  }

  lemma LStripOne(s: string, c: char)
    requires s == [] || s[0] != c
    ensures LStrip([c] + s, c) == s
  {
    assert ([c] + s)[1..] == s;
  }

  /** An optional `@` in front of a tag that does not start with one: `_parse_color` sees the
      rest, offset by 10 when the `@` is there. */
  lemma ParseColorOfMarked(p: Palette, c: string, background: bool)
    requires c == [] || c[0] != '@'
    ensures var tag := (if background then "@" else "") + c;
      ParseColor(p, tag) == ParseStripped(p, if background then 10 else 0, c)
  {
    MarkedParts(c, background);
  }

  lemma MarkedParts(c: string, background: bool)
    requires c == [] || c[0] != '@'
    ensures var tag := (if background then "@" else "") + c;
      StartsWith(tag, "@") == background && LStrip(tag, '@') == c
  {
    if background {
      Marked(c);
    } else {
      Unmarked(c);
      assert "" + c == c;
    }
  }

  lemma Marked(c: string)
    requires c == [] || c[0] != '@'
    ensures StartsWith("@" + c, "@") && LStrip("@" + c, '@') == c
  {
    LStripOne(c, '@');
    assert ("@" + c)[..1] == "@";
  }

  lemma Unmarked(c: string)
    requires c == [] || c[0] != '@'
    ensures !StartsWith(c, "@") && LStrip(c, '@') == c
  {
    LStripPlain(c, '@');
    assert c == [] || c[..1] != "@";
  }


  lemma SgrLeads()
    ensures NatToString(38) == "38" && NatToString(48) == "48"
  {
    assert NatToString(3) == "3";
    assert NatToString(4) == "4";
  }

  /** The indexed colours: 0-7 become `30+i` (`40+i` as background), 8-15 the bright codes
      `90+i-8` (`100+i-8`), 16-255 `38;5;i` (`48;5;i`), and 256 or more is an error. */
  lemma ParseIndexedColor(p: Palette, i: nat, background: bool)
    ensures var tag := (if background then "@" else "") + NatToString(i);
      ParseColor(p, tag) ==
        if i < 8 then Ok(NatToString((if background then 40 else 30) + i))
        else if i < 16 then Ok(NatToString((if background then 100 else 90) + i - 8))
        else if i < 256 then Ok((if background then "48" else "38") + ";5;" + NatToString(i))
        else Err(BadIndexedColor(NatToString(i)))
  {
    var s := NatToString(i);
    assert s[0] != '@';
    ParseColorOfMarked(p, s, background);
    DecimalOfNatToString(i);
    var offset := if background then 10 else 0;
    assert ParseColor(p, (if background then "@" else "") + s) == IndexedColor(offset, i, s);
    IndexedColorCases(offset, i, s, background);
  }

  lemma IndexedColorCases(offset: nat, i: nat, c: string, background: bool)
    requires offset == if background then 10 else 0
    ensures IndexedColor(offset, i, c) ==
        if i < 8 then Ok(NatToString((if background then 40 else 30) + i))
        else if i < 16 then Ok(NatToString((if background then 100 else 90) + i - 8))
        else if i < 256 then Ok((if background then "48" else "38") + ";5;" + NatToString(i))
        else Err(BadIndexedColor(c))
  {
    SgrLeads();
  }

  /** Reading an indexed colour's body back with `Color.from_ansi` finds the palette entry it
      names; the background flag survives only for the sixteen basic colours. */
  lemma IndexedColorRoundTrip(p: Palette, i: nat, background: bool)
    requires i < 256
    ensures var tag := (if background then "@" else "") + NatToString(i);
      && ParseColor(p, tag).Ok?
      && FromAnsi(p, ParseColor(p, tag).value) == TableColor(p, i, background && i < 16)
  {
    ParseIndexedColor(p, i, background);
    BodyRoundTrip(p, i, background);
  }

  /** The body `_parse_color` gives an index below 256. */
  function IndexedBody(i: nat, background: bool): string {
    if i < 8 then NatToString((if background then 40 else 30) + i)
    else if i < 16 then NatToString((if background then 100 else 90) + i - 8)
    else (if background then "48" else "38") + ";5;" + NatToString(i)
  }

  lemma BodyRoundTrip(p: Palette, i: nat, background: bool)
    requires i < 256
    ensures FromAnsi(p, IndexedBody(i, background)) == TableColor(p, i, background && i < 16)
  {
    if i < 8 {
      StandardRoundTrip(p, i, background);
    } else if i < 16 {
      BrightRoundTrip(p, i, background);
    } else {
      IndexedBodyRoundTrip(p, i, if background then "48" else "38");
    }
  }

  lemma StandardRoundTrip(p: Palette, i: nat, background: bool)
    requires i < 8
    ensures FromAnsi(p, NatToString((if background then 40 else 30) + i)) == TableColor(p, i, background)
  {
    FromAnsiStandard(p, i);
    assert (if background then 40 else 30) + i == if background then 40 + i else 30 + i;
  }

  lemma BrightRoundTrip(p: Palette, i: nat, background: bool)
    requires 8 <= i < 16
    ensures FromAnsi(p, NatToString((if background then 100 else 90) + i - 8)) == TableColor(p, i, background)
  {
    FromAnsiBright(p, i - 8);
    assert (if background then 100 else 90) + i - 8 == if background then 100 + (i - 8) else 90 + (i - 8);
  }

  lemma IndexedBodyRoundTrip(p: Palette, i: nat, lead: string)
    requires ';' !in lead
    ensures FromAnsi(p, lead + ";5;" + NatToString(i)) == TableColor(p, i, false)
  {
    var parts := [lead, "5", NatToString(i)];
    assert Join(parts, ";") == lead + ";5;" + NatToString(i) by {
      JoinTwoCons(lead, "5", [NatToString(i)], ";");
      assert [lead, "5"] + [NatToString(i)] == parts;
      assert lead + ";" + "5" + ";" + NatToString(i) == lead + ";5;" + NatToString(i);
    }
    DigitsHaveNoSemicolon(NatToString(i));
    FromAnsiIndexed(p, parts);
    DecimalOfNatToString(i);
  }

  /** The decimal components of `#rrggbb` as `_parse_color` joins them. */
  function HexTriple(h: string): string
    requires |h| == 6 && IsHexDigits(h)
  {
    NatToString(HexValue(h[..2])) + ";" + NatToString(HexValue(h[2..4])) + ";" + NatToString(HexValue(h[4..]))
  }

  lemma HexComponentsOfSix(h: string)
    requires |h| == 6 && IsHexDigits(h)
    ensures HexComponents([Slice(h, 0, 2), Slice(h, 2, 4), Slice(h, 4, |h|)]).Ok?
    ensures Join(HexComponents([Slice(h, 0, 2), Slice(h, 2, 4), Slice(h, 4, |h|)]).value, ";") == HexTriple(h)
  {
    var parts := [Slice(h, 0, 2), Slice(h, 2, 4), Slice(h, 4, |h|)];
    assert Slice(h, 0, 2) == h[..2] && Slice(h, 2, 4) == h[2..4] && Slice(h, 4, |h|) == h[4..];
    assert IsHexDigits(h[..2]) && IsHexDigits(h[2..4]) && IsHexDigits(h[4..]);
    var d := [NatToString(HexValue(h[..2])), NatToString(HexValue(h[2..4])), NatToString(HexValue(h[4..]))];
    assert HexComponents(parts) == Ok(d) by {
      HexComponentsCons(h[4..], []);
      assert [h[4..]] + [] == [h[4..]];
      HexComponentsCons(h[2..4], [h[4..]]);
      assert [h[2..4]] + [h[4..]] == parts[1..];
      HexComponentsCons(h[..2], parts[1..]);
      assert [h[..2]] + parts[1..] == parts;
      assert [d[0]] + ([d[1]] + ([d[2]] + [])) == d;
    }
    JoinTwoCons(d[0], d[1], [d[2]], ";");
    assert [d[0], d[1]] + [d[2]] == d;
  }

  /** A hex colour `#rrggbb` (with no CSS name of that spelling) becomes the 24-bit body of
      its three components in decimal. */
  lemma ParseHexColor(p: Palette, h: string, background: bool)
    requires |h| == 6 && IsHexDigits(h)
    requires "#" + h !in p.css
    ensures ParseColor(p, (if background then "@#" else "#") + h)
         == Ok((if background then "48" else "38") + ";2;" + HexTriple(h))
  {
    var c := "#" + h;
    assert (if background then "@#" else "#") + h == (if background then "@" else "") + c;
    ParseColorOfMarked(p, c, background);
    assert !IsDigits(c) by { assert !IsDigit(c[0]); }
    HexTrueColor(p, if background then 10 else 0, h);
    SgrLeads();
  }

  lemma HexTrueColor(p: Palette, offset: nat, h: string)
    requires |h| == 6 && IsHexDigits(h)
    requires "#" + h !in p.css
    ensures TrueColor(p, offset, "#" + h) == Ok(NatToString(38 + offset) + ";2;" + HexTriple(h))
  {
    var c := "#" + h;
    assert h[0] != '#';
    LStripOne(h, '#');
    assert StartsWith(c, "#") by { assert c[..1] == "#"; }
    HexComponentsOfSix(h);
  }

  /** A tag of the form `r;g;b` becomes the 24-bit body `38;2;r;g;b` (`48;2;` as background). */
  lemma ParseRgbColor(p: Palette, rgb: string, background: bool)
    requires rgb == [] || (rgb[0] != '@' && rgb[0] != '#')
    requires !IsDigits(rgb) && rgb !in p.css
    ensures ParseColor(p, (if background then "@" else "") + rgb)
         == Ok((if background then "48" else "38") + ";2;" + rgb)
  {
    if background {
      RgbLayer(p, rgb, true, 10, "48");
      assert (if background then "@" else "") + rgb == "@" + rgb;
    } else {
      RgbLayer(p, rgb, false, 0, "38");
      assert (if background then "@" else "") + rgb == rgb;
    }
  }

  lemma RgbLayer(p: Palette, rgb: string, background: bool, offset: nat, lead: string)
    requires rgb == [] || (rgb[0] != '@' && rgb[0] != '#')
    requires !IsDigits(rgb) && rgb !in p.css
    requires offset == (if background then 10 else 0) && lead == NatToString(38 + offset)
    ensures ParseColor(p, (if background then "@" else "") + rgb) == Ok(lead + ";2;" + rgb)
  {
    ParseColorOfMarked(p, rgb, background);
    TrueColorPlain(p, offset, rgb);
  }

  /** A colour that is neither a CSS name nor `#`-prefixed is taken as the 24-bit body. */
  lemma TrueColorPlain(p: Palette, offset: nat, c: string)
    requires c !in p.css && (c == [] || c[0] != '#')
    requires !IsDigits(c)
    ensures ParseStripped(p, offset, c) == Ok(NatToString(38 + offset) + ";2;" + c)
  {
    NoLeadingHash(c);
  }

  lemma NoLeadingHash(c: string)
    requires c == [] || c[0] != '#'
    ensures !StartsWith(c, "#")
  {
  }

  // ---------------------------------------------------------------------------------------
  // `_apply_tag`

  /** What `markup_spans` needs beyond the context: the palette and the macro callables.
      `runMacro(m, text)` calls macro `m` on `text`. */
  datatype Env = Env(palette: Palette, runMacro: (MacroId, string) -> string)

  /** The state `_apply_tag` updates: the style stack and the list of active macros. */
  datatype TagState = TagState(stack: Stack, active: seq<MacroId>)

  /** How deeply aliases may expand into aliases before Python's recursion limit is hit. */
  const AliasDepthLimit: nat := 1000

  /** `list.remove(m)`: drops the first occurrence. */
  function RemoveFirst(s: seq<MacroId>, m: MacroId): (r: seq<MacroId>)
    requires m in s
    ensures |r| == |s| - 1
    ensures multiset(r) == multiset(s) - multiset{m}
  {
    assert s == [s[0]] + s[1..];
    if s[0] == m then s[1..] else [s[0]] + RemoveFirst(s[1..], m)
  }

  /** The position of the first occurrence of `m`. */
  function FirstIndex(s: seq<MacroId>, m: MacroId): (i: nat)
    requires m in s
    ensures i < |s| && s[i] == m && m !in s[..i]
  {
    assert s == [s[0]] + s[1..];
    if s[0] == m then 0
    else
      var j := FirstIndex(s[1..], m);
      assert s[..j + 1] == [s[0]] + s[1..][..j];
      j + 1
  }

  /** `list.remove(m)` deletes the first occurrence only, keeping every other macro in its
      activation order. */
  lemma {:induction false} RemoveFirstAt(s: seq<MacroId>, m: MacroId)
    requires m in s
    ensures var i := FirstIndex(s, m); RemoveFirst(s, m) == s[..i] + s[i + 1..]
  {
    if s[0] == m {
      assert FirstIndex(s, m) == 0;
      assert s[..0] + s[1..] == s[1..];
    } else {
      var t := s[1..];
      RemoveFirstAt(t, m);
      var j := FirstIndex(t, m);
      assert FirstIndex(s, m) == j + 1;
      assert RemoveFirst(s, m) == [s[0]] + (t[..j] + t[j + 1..]);
      ConsWithout(s, j);
    }
  }

  /** Deleting position `j` of the tail, then putting the head back, deletes position `j + 1`. */
  lemma ConsWithout(s: seq<MacroId>, j: nat)
    requires j + 1 < |s|
    ensures [s[0]] + (s[1..][..j] + s[1..][j + 1..]) == s[..j + 1] + s[j + 2..]
  {
    assert s[..j + 1] == [s[0]] + s[1..][..j];
    assert s[j + 2..] == s[1..][j + 1..];
  }

  /** `_apply_tag(tag)`, with `fuel` bounding the depth of alias expansion: a leading `/`
      makes the tag an unsetter, and the slashes are stripped from the name. */
  function ApplyTag(env: Env, ctx: Snapshot, prefix: string, st: TagState, tag: string, fuel: nat): (r: Result<TagState>)
    ensures WellFormed(st.stack) && r.Ok? ==> WellFormed(r.value.stack)
    decreases fuel, 2
  {
    ApplyName(env, ctx, prefix, st, LStrip(tag, '/'), !StartsWith(tag, "/"), fuel)
  }

  /** What `_apply_tag` does with a name, short of expanding an alias: either the outcome
      (`Done`), or the value of the alias the name refers to (`Expand`). */
  datatype Dispatched = Done(result: Result<TagState>) | Expand(alias: string)

  /** The branches of `_apply_tag` once the slashes are stripped, tried in the source's order:
      reset, style keys and `fg`/`bg`, colours, macros, hyperlinks, aliases. */
  function Dispatch(env: Env, ctx: Snapshot, prefix: string, st: TagState, name: string, isSetter: bool): (d: Dispatched)
    ensures WellFormed(st.stack) && d.Done? && d.result.Ok? ==> WellFormed(d.result.value.stack)
  {
    if name == "" && !isSetter then
      BaseStackWellFormed();
      Done(Ok(st.(stack := BaseStack)))
    else if name == "fg" then Done(Ok(st.(stack := st.stack[Foreground := Str("")])))
    else if name == "bg" then Done(Ok(st.(stack := st.stack[Background := Str("")])))
    else if AttrNamed(name).Some? && AttrNamed(name).value in st.stack then
      Done(Ok(st.(stack := st.stack[AttrNamed(name).value := Bool(isSetter)])))
    else if IsColorTag(env.palette, name) then
      var layer := if StartsWith(name, "@") then Background else Foreground;
      Done(match ParseColor(env.palette, name)
           case Err(e) => Err(e)
           case Ok(body) => Ok(st.(stack := st.stack[layer := Str(body)])))
    else if StartsWith(name, "!") then
      Done(match Lookup(ctx.macros, AddPrefix(prefix, name))
           case None => Err(UndefinedMacro(name))
           case Some(m) =>
             if isSetter then Ok(st.(active := st.active + [m]))
             else if m in st.active then Ok(st.(active := RemoveFirst(st.active, m)))
             else Err(MacroNotSet(name)))
    else if StartsWith(name, "~") then
      Done(Ok(st.(stack := st.stack[Hyperlink := Str(if isSetter then LStrip(name, '~') else "")])))
    else
      match Lookup(ctx.aliases, AddPrefix(prefix, name))
      case None => Done(Err(UnknownTag(name)))
      case Some(value) => Expand(value)
  }

  /** The body of `_apply_tag` once the slashes are stripped: an alias applies the words of
      its value, one level of `fuel` down. */
  function ApplyName(env: Env, ctx: Snapshot, prefix: string, st: TagState, name: string, isSetter: bool, fuel: nat): (r: Result<TagState>)
    ensures WellFormed(st.stack) && r.Ok? ==> WellFormed(r.value.stack)
    decreases fuel, 1
  {
    match Dispatch(env, ctx, prefix, st, name, isSetter)
    case Done(result) => result
    case Expand(value) =>
      if fuel == 0 then Err(AliasTooDeep(name))
      else ApplyTags(env, ctx, prefix, st, Words(value), fuel - 1)
  }

  /** `_apply_tag` on each tag in turn, stopping at the first error. */
  function ApplyTags(env: Env, ctx: Snapshot, prefix: string, st: TagState, tags: seq<string>, fuel: nat): (r: Result<TagState>)
    ensures WellFormed(st.stack) && r.Ok? ==> WellFormed(r.value.stack)
    decreases fuel, 3, |tags|
  {
    if tags == [] then Ok(st)
    else
      var next :- ApplyTag(env, ctx, prefix, st, tags[0], fuel);
      ApplyTags(env, ctx, prefix, next, tags[1..], fuel)
  }

  /** The tags `[a b]` applies one after the other. */
  lemma {:induction false} ApplyTagsAppend(env: Env, ctx: Snapshot, prefix: string, st: TagState, a: seq<string>, b: seq<string>, fuel: nat)
    ensures ApplyTags(env, ctx, prefix, st, a + b, fuel)
         == match ApplyTags(env, ctx, prefix, st, a, fuel)
            case Err(e) => Err(e)
            case Ok(mid) => ApplyTags(env, ctx, prefix, mid, b, fuel)
    decreases |a|
  {
    if a == [] {
      assert a + b == b;
    } else {
      assert (a + b)[1..] == a[1..] + b;
      match ApplyTag(env, ctx, prefix, st, a[0], fuel)
      case Err(e) =>
      case Ok(next) => ApplyTagsAppend(env, ctx, prefix, next, a[1..], b, fuel);
    }
  }

  /** A name and the same name after a slash are the same tag, setter and unsetter. */
  lemma SlashedTag(env: Env, ctx: Snapshot, prefix: string, st: TagState, name: string, fuel: nat)
    requires name == [] || name[0] != '/'
    ensures ApplyTag(env, ctx, prefix, st, name, fuel) == ApplyName(env, ctx, prefix, st, name, true, fuel)
    ensures ApplyTag(env, ctx, prefix, st, "/" + name, fuel) == ApplyName(env, ctx, prefix, st, name, false, fuel)
  {
    LStripPlain(name, '/');
    LStripOne(name, '/');
    assert StartsWith("/" + name, "/") by { assert ("/" + name)[..1] == "/"; }
  }

  /** `/` (and any run of slashes alone) resets the whole stack, foreground included. */
  lemma ResetTag(env: Env, ctx: Snapshot, prefix: string, st: TagState, fuel: nat)
    ensures ApplyTag(env, ctx, prefix, st, "/", fuel) == Ok(TagState(BaseStack, st.active))
    ensures ApplyTag(env, ctx, prefix, st, "//", fuel) == Ok(TagState(BaseStack, st.active))
  {
    assert LStrip("/", '/') == "" by { assert "/"[1..] == ""; }
    assert LStrip("//", '/') == "" by { assert "//"[1..] == "/"; }
    assert StartsWith("/", "/") && StartsWith("//", "/");
    ResetName(env, ctx, prefix, st, fuel);
  }

  /** The empty name as an unsetter is the reset. */
  lemma ResetName(env: Env, ctx: Snapshot, prefix: string, st: TagState, fuel: nat)
    ensures ApplyName(env, ctx, prefix, st, "", false, fuel) == Ok(TagState(BaseStack, st.active))
  {
  }

  /** A flag tag sets its key, and the same tag after `/` clears it; nothing else changes. */
  lemma FlagTag(env: Env, ctx: Snapshot, prefix: string, st: TagState, a: Attr, fuel: nat)
    requires a in st.stack
    ensures ApplyTag(env, ctx, prefix, st, AttrName(a), fuel) == Ok(st.(stack := st.stack[a := Bool(true)]))
    ensures ApplyTag(env, ctx, prefix, st, "/" + AttrName(a), fuel) == Ok(st.(stack := st.stack[a := Bool(false)]))
  {
    var n := AttrName(a);
    assert n != "" && n[0] != '/' && n != "fg" && n != "bg";
    SlashedTag(env, ctx, prefix, st, n, fuel);
    AttrNamedName(a);
  }

  /** `fg` and `bg` clear their layer, with or without a slash. */
  lemma ColorUnsetter(env: Env, ctx: Snapshot, prefix: string, st: TagState, name: string, fuel: nat)
    requires name in {"fg", "bg"}
    ensures var layer := if name == "fg" then Foreground else Background;
      && ApplyTag(env, ctx, prefix, st, name, fuel) == Ok(st.(stack := st.stack[layer := Str("")]))
      && ApplyTag(env, ctx, prefix, st, "/" + name, fuel) == Ok(st.(stack := st.stack[layer := Str("")]))
  {
    SlashedTag(env, ctx, prefix, st, name, fuel);
    var layer := if name == "fg" then Foreground else Background;
    assert ApplyName(env, ctx, prefix, st, name, true, fuel) == Ok(st.(stack := st.stack[layer := Str("")]));
    assert ApplyName(env, ctx, prefix, st, name, false, fuel) == Ok(st.(stack := st.stack[layer := Str("")]));
  }

  /** A colour tag sets the background layer when it starts with `@` and the foreground
      otherwise, to the body `_parse_color` gives, or fails as `_parse_color` does; the slash
      of an unsetter is ignored. */
  lemma ColorTag(env: Env, ctx: Snapshot, prefix: string, st: TagState, tag: string, isSetter: bool, fuel: nat)
    requires tag != [] && tag[0] != '/' && AttrNamed(tag).None? && tag != "fg" && tag != "bg"
    requires IsColorTag(env.palette, tag)
    ensures var layer := if tag[0] == '@' then Background else Foreground;
      ApplyName(env, ctx, prefix, st, tag, isSetter, fuel) ==
        match ParseColor(env.palette, tag)
        case Err(e) => Err(e)
        case Ok(body) => Ok(st.(stack := st.stack[layer := Str(body)]))
  {
    assert StartsWith(tag, "@") <==> tag[0] == '@' by {
      if StartsWith(tag, "@") { assert tag[..1] == "@"; }
      if tag[0] == '@' { assert tag[..1] == "@"; }
    }
  }

  lemma NotAnAttrName(name: string)
    requires name != [] && name[0] in "~!@/#0123456789"
    ensures AttrNamed(name).None?
  {
    forall a: Attr
      ensures AttrName(a) != name
    {
      AttrNameLetters(a);
    }
  }

  /** A `~` name sets the hyperlink to the rest of the name, or clears it as an unsetter. */
  lemma HyperlinkName(env: Env, ctx: Snapshot, prefix: string, st: TagState, name: string, isSetter: bool, fuel: nat)
    requires name != [] && name[0] == '~' && !IsColorTag(env.palette, name)
    ensures ApplyName(env, ctx, prefix, st, name, isSetter, fuel)
         == Ok(st.(stack := st.stack[Hyperlink := Str(if isSetter then LStrip(name, '~') else "")]))
  {
    assert StartsWith(name, "~") && !StartsWith(name, "!") by { assert name[..1] == "~"; }
    NotAnAttrName(name);
    assert name != "fg" && name != "bg" && name != "";
    assert Dispatch(env, ctx, prefix, st, name, isSetter)
        == Done(Ok(st.(stack := st.stack[Hyperlink := Str(if isSetter then LStrip(name, '~') else "")])));
  }

  /** `~uri` sets the hyperlink to `uri` (leading `~`s stripped) and `/~...` clears it. */
  lemma HyperlinkTag(env: Env, ctx: Snapshot, prefix: string, st: TagState, name: string, fuel: nat)
    requires name != [] && name[0] == '~' && !IsColorTag(env.palette, name)
    ensures ApplyTag(env, ctx, prefix, st, name, fuel) == Ok(st.(stack := st.stack[Hyperlink := Str(LStrip(name, '~'))]))
    ensures ApplyTag(env, ctx, prefix, st, "/" + name, fuel) == Ok(st.(stack := st.stack[Hyperlink := Str("")]))
  {
    SlashedTag(env, ctx, prefix, st, name, fuel);
    HyperlinkName(env, ctx, prefix, st, name, true, fuel);
    HyperlinkName(env, ctx, prefix, st, name, false, fuel);
  }

  /** A macro tag appends the macro stored under the prefixed name; `/!name` removes its first
      occurrence, and fails when it is not active; an unknown name fails either way. */
  lemma MacroTag(env: Env, ctx: Snapshot, prefix: string, st: TagState, name: string, fuel: nat)
    requires name != [] && name[0] == '!' && !IsColorTag(env.palette, name)
    ensures var found := Lookup(ctx.macros, prefix + name);
      && ApplyTag(env, ctx, prefix, st, name, fuel)
         == (if found.None? then Err(UndefinedMacro(name)) else Ok(st.(active := st.active + [found.value])))
      && ApplyTag(env, ctx, prefix, st, "/" + name, fuel)
         == (if found.None? then Err(UndefinedMacro(name))
             else if found.value in st.active then Ok(st.(active := RemoveFirst(st.active, found.value)))
             else Err(MacroNotSet(name)))
  {
    SlashedTag(env, ctx, prefix, st, name, fuel);
    assert StartsWith(name, "!") by { assert name[..1] == [name[0]]; }
    assert !StartsWith(name, "@") by { assert name[..1] != "@"; }
    NotAnAttrName(name);
    assert name != "fg" && name != "bg";
  }

  /** An alias tag applies the words of its value in order, one level of fuel down; an
      unknown name is an unknown tag, and running out of depth is the recursion error. The
      alias is looked up under the prefixed name, with a leading `@` (a background alias such
      as the palette's `@{key}`) kept in front of the prefix. */
  lemma AliasTag(env: Env, ctx: Snapshot, prefix: string, st: TagState, name: string, isSetter: bool, fuel: nat)
    requires name != [] && name[0] !in "/!~" && AttrNamed(name).None? && name != "fg" && name != "bg"
    requires !IsColorTag(env.palette, name)
    ensures var key := if name[0] == '@' then "@" + prefix + name[1..] else prefix + name;
      ApplyName(env, ctx, prefix, st, name, isSetter, fuel) ==
        match Lookup(ctx.aliases, key)
        case None => Err(UnknownTag(name))
        case Some(value) =>
          if fuel == 0 then Err(AliasTooDeep(name)) else ApplyTags(env, ctx, prefix, st, Words(value), fuel - 1)
  {
    var key := if name[0] == '@' then "@" + prefix + name[1..] else prefix + name;
    assert !StartsWith(name, "!") && !StartsWith(name, "~") && AddPrefix(prefix, name) == key by {
      assert name[..1] == [name[0]];
    }
    assert Dispatch(env, ctx, prefix, st, name, isSetter) ==
      match Lookup(ctx.aliases, key)
      case None => Done(Err(UnknownTag(name)))
      case Some(value) => Expand(value);
  }

  lemma ApplyTagsSingle(env: Env, ctx: Snapshot, prefix: string, st: TagState, tag: string, fuel: nat)
    ensures ApplyTags(env, ctx, prefix, st, [tag], fuel) == ApplyTag(env, ctx, prefix, st, tag, fuel)
  {
    assert [tag][1..] == [];
  }

  /** An alias whose value names itself can never be expanded, with or without a slash. */
  lemma {:induction false} SelfAliasFails(env: Env, ctx: Snapshot, prefix: string, st: TagState, name: string, isSetter: bool, fuel: nat)
    requires name != [] && name[0] !in "/!~@" && AttrNamed(name).None? && name != "fg" && name != "bg"
    requires !IsColorTag(env.palette, name) && NoSpace(name)
    requires Lookup(ctx.aliases, prefix + name) == Some(name)
    ensures ApplyName(env, ctx, prefix, st, name, isSetter, fuel).Err?
    decreases fuel
  {
    if fuel == 0 {
      AliasTag(env, ctx, prefix, st, name, isSetter, fuel);
    } else {
      SelfAliasFails(env, ctx, prefix, st, name, true, fuel - 1);
      SelfAliasStep(env, ctx, prefix, st, name, isSetter, fuel);
    }
  }

  lemma SelfAliasStep(env: Env, ctx: Snapshot, prefix: string, st: TagState, name: string, isSetter: bool, fuel: nat)
    requires name != [] && name[0] !in "/!~@" && AttrNamed(name).None? && name != "fg" && name != "bg"
    requires !IsColorTag(env.palette, name) && NoSpace(name)
    requires Lookup(ctx.aliases, prefix + name) == Some(name) && fuel > 0
    ensures ApplyName(env, ctx, prefix, st, name, isSetter, fuel)
         == ApplyName(env, ctx, prefix, st, name, true, fuel - 1)
  {
    AliasTag(env, ctx, prefix, st, name, isSetter, fuel);
    WordsSingle(name);
    var words := Words(name);
    assert ApplyName(env, ctx, prefix, st, name, isSetter, fuel) == ApplyTags(env, ctx, prefix, st, words, fuel - 1);
    ApplyTagsSingle(env, ctx, prefix, st, name, fuel - 1);
    SlashedTag(env, ctx, prefix, st, name, fuel - 1);
  }

  // ---------------------------------------------------------------------------------------
  // `_apply_auto_foreground`

  /** `style_stack.get(key) or None`. */
  function TruthyValue(st: Stack, a: Attr): (r: Option<Value>)
    ensures r.Some? <==> a in st && st[a].Truthy()
  {
    if a in st && st[a].Truthy() then Some(st[a]) else None
  }

  /** `_apply_auto_foreground`: when (after swapping the layers under `invert`) there is a
      background but no foreground, the foreground becomes the contrast colour of the
      background; the flag says whether it did. */
  function AutoForeground(p: Palette, st: Stack): (r: Result<(Stack, bool)>)
    requires Invert in st
    ensures r.Ok? && !r.value.1 ==> r.value.0 == st
    ensures r.Ok? && r.value.1 ==>
      (r.value.0.Keys == st.Keys + {Foreground}
       && forall a :: a in st && a != Foreground ==> r.value.0[a] == st[a])
  {
    var back0 := TruthyValue(st, Background);
    var fore0 := TruthyValue(st, Foreground);
    var (back, fore) := if st[Invert].Truthy() then (fore0, back0) else (back0, fore0);
    if !(fore.None? && back.Some?) then Ok((st, false))
    else match back.value
      case Bool(_) => Err(BackgroundNotAString)
      case Str(body) =>
        var color :- FromAnsi(p, body);
        var contrast :- Contrast(p, color);
        Ok((st[Foreground := Str(Ansi(AsBackground(contrast, false)))], true))
  }

  /** The foreground is derived exactly when, after the `invert` swap, the background is set
      and the foreground is not, and it is then one of the two contrast colours; a derived
      background failing to parse is the only error. */
  lemma AutoForegroundCases(p: Palette, st: Stack)
    requires Invert in st
    ensures var inverted := st[Invert].Truthy();
      var back := TruthyValue(st, if inverted then Foreground else Background);
      var fore := TruthyValue(st, if inverted then Background else Foreground);
      var r := AutoForeground(p, st);
      && (r.Ok? && r.value.1 <==> fore.None? && back.Some? && r.Ok?)
      && (!(fore.None? && back.Some?) ==> r == Ok((st, false)))
      && (r.Ok? && r.value.1 ==>
            (r.value.0[Foreground].Str?
             && r.value.0[Foreground].s in {"38;2;35;35;35", "38;2;245;245;245"}))
  {
    var r := AutoForeground(p, st);
    if r.Ok? && r.value.1 {
      var inverted := st[Invert].Truthy();
      var back := TruthyValue(st, if inverted then Foreground else Background);
      var color := FromAnsi(p, back.value.s).value;
      ContrastForeground(p, color);
    }
  }

  /** A background whose colour counts as light gets the off-black foreground
      `38;2;35;35;35`. */
  lemma AutoForegroundOnLight(p: Palette, st: Stack, body: string)
    requires Invert in st && Background in st && !st[Invert].Truthy()
    requires st[Background] == Str(body) && body != "" && TruthyValue(st, Foreground).None?
    requires FromAnsi(p, body).Ok? && p.light(FromAnsi(p, body).value.rgb) == Some(true)
    ensures AutoForeground(p, st) == Ok((st[Foreground := Str("38;2;35;35;35")], true))
  {
    OffColorsAnsi();
  }
}
