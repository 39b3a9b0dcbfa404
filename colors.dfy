/** The colour value of zenith/color.py: an immutable rgb with a background flag,
    built from an SGR parameter string and rendered back to a 24-bit one.
    The colour tables and the luminance computation are abstract (see `Palette`). */
module Colors {
  import opened Results
  import opened Text

  /** One component of a colour's `rgb`. Colours from the colour table and the two contrast
      colours hold numbers; `from_ansi` keeps the components of a 24-bit body as the
      strings it split them from. */
  datatype Channel = Num(n: nat) | Part(s: string)

  datatype Color = Color(rgb: seq<Channel>, isBackground: bool)

  const OffWhite: seq<Channel> := [Num(245), Num(245), Num(245)]
  const OffBlack: seq<Channel> := [Num(35), Num(35), Num(35)]

  /** The collaborators color.py and markup.py take from zenith/color_info.py, which is not
      part of this model, plus the luminance test of `Color.luminance`:
      `table` is COLOR_TABLE (palette index to rgb), `css` is CSS_COLORS (name to colour tag),
      `light(rgb)` is `Some(luminance > 0.179)`, or `None` when computing the luminance raises
      (fewer than three components, or a component `float()` rejects). */
  datatype Palette = Palette(
    table: map<nat, (nat, nat, nat)>,
    css: map<string, string>,
    light: seq<Channel> -> Option<bool>)

  function TableRgb(rgb: (nat, nat, nat)): seq<Channel> {
    [Num(rgb.0), Num(rgb.1), Num(rgb.2)]
  }

  /** `str(component)`. */
  function ChannelText(c: Channel): string {
    match c
    case Num(n) => NatToString(n)
    case Part(s) => s
  }

  function ChannelTexts(rgb: seq<Channel>): (texts: seq<string>)
    ensures |texts| == |rgb|
    ensures forall i :: 0 <= i < |rgb| ==> texts[i] == ChannelText(rgb[i])
  {
    if rgb == [] then [] else [ChannelText(rgb[0])] + ChannelTexts(rgb[1..])
  }

  function Parts(texts: seq<string>): (rgb: seq<Channel>)
    ensures |rgb| == |texts|
    ensures forall i :: 0 <= i < |texts| ==> rgb[i] == Part(texts[i])
  {
    if texts == [] then [] else [Part(texts[0])] + Parts(texts[1..])
  }

  /** `Color.ansi`: the 24-bit SGR body `38;2;r;g;b`, or `48;2;r;g;b` for a background. */
  function Ansi(c: Color): string {
    (if c.isBackground then "48" else "38") + ";2;" + Join(ChannelTexts(c.rgb), ";")
  }

  /** The palette entry for an index, flagged as background or not: `COLOR_TABLE[index]`. */
  function TableColor(p: Palette, index: nat, isBackground: bool): Result<Color> {
    if index in p.table then Ok(Color(TableRgb(p.table[index]), isBackground))
    else Err(MissingColorIndex(index))
  }

  /** The conversion of a one-part body's code to a palette index (30-37, 40-47, 90-97,
      100-107) and whether it names a background; other codes are indices already. */
  function SixteenColor(code: nat): (nat, bool) {
    var (index, isBackground) :=
      if 30 <= code < 38 then (code - 30, false)
      else if 40 <= code < 48 then (code - 40, true)
      else (code, false);
    if 90 <= index < 98 then (index - 82, isBackground)
    else if 100 <= index < 108 then (index - 92, true)
    else (index, isBackground)
  }

  /** `Color.from_ansi`: a body of more than three parts is a 24-bit colour whose components
      are kept as strings, background when the first part starts with `4`; otherwise the last
      part is a palette index, converted from a 16-colour code when it is the only part. */
  function FromAnsi(p: Palette, ansi: string): Result<Color> {
    var parts := Split(ansi, ';');
    if |parts| > 3 then Ok(Color(Parts(parts[2..]), StartsWith(parts[0], "4")))
    else
      var last := parts[|parts| - 1];
      match ParseDecimal(last)
      case None => Err(BadAnsiIndex(last))
      case Some(code) =>
        var (index, isBackground) := if |parts| == 1 then SixteenColor(code) else (code, false);
        TableColor(p, index, isBackground)
  }

  /** `Color.contrast`: off-black on a light colour, off-white otherwise, keeping the
      background flag (whatever the docstring says). */
  function Contrast(p: Palette, c: Color): (r: Result<Color>)
    ensures r.Ok? <==> p.light(c.rgb).Some?
    ensures r.Ok? ==> r.value.isBackground == c.isBackground
    ensures r.Ok? ==> r.value.rgb == (if p.light(c.rgb).value then OffBlack else OffWhite)
  {
    match p.light(c.rgb)
    case None => Err(LuminanceUndefined)
    case Some(isLight) => Ok(Color(if isLight then OffBlack else OffWhite, c.isBackground))
  }

  /** `Color.as_background(setting)`. */
  function AsBackground(c: Color, setting: bool := true): (r: Color)
    ensures r.rgb == c.rgb && r.isBackground == setting
  {
    Color(c.rgb, setting)
  }

  lemma AsBackgroundIdempotent(c: Color, setting: bool)
    ensures AsBackground(AsBackground(c, setting), setting) == AsBackground(c, setting)
  {
  }

  lemma SplitWithoutSeparator(s: string, sep: char)
    requires sep !in s
    ensures Split(s, sep) == [s]
  {
    SplitJoin([s], sep);
  }

  lemma DigitsHaveNoSemicolon(s: string)
    requires IsDigits(s)
    ensures ';' !in s
  {
  }

  lemma FromAnsiCode(p: Palette, code: nat)
    ensures FromAnsi(p, NatToString(code))
         == TableColor(p, SixteenColor(code).0, SixteenColor(code).1)
  {
    DigitsHaveNoSemicolon(NatToString(code));
    SplitWithoutSeparator(NatToString(code), ';');
    ParseNatToString(code);
  }

  /** Codes 30-37 name palette entries 0-7, codes 40-47 the same entries as backgrounds. */
  lemma FromAnsiStandard(p: Palette, i: nat)
    requires i < 8
    ensures FromAnsi(p, NatToString(30 + i)) == TableColor(p, i, false)
    ensures FromAnsi(p, NatToString(40 + i)) == TableColor(p, i, true)
  {
    FromAnsiCode(p, 30 + i);
    FromAnsiCode(p, 40 + i);
    SixteenStandard(i);
  }

  lemma SixteenStandard(i: nat)
    requires i < 8
    ensures SixteenColor(30 + i) == (i, false) && SixteenColor(40 + i) == (i, true)
  {
  }

  /** Codes 90-97 name palette entries 8-15, codes 100-107 the same entries as backgrounds. */
  lemma FromAnsiBright(p: Palette, i: nat)
    requires i < 8
    ensures FromAnsi(p, NatToString(90 + i)) == TableColor(p, 8 + i, false)
    ensures FromAnsi(p, NatToString(100 + i)) == TableColor(p, 8 + i, true)
  {
    FromAnsiCode(p, 90 + i);
    FromAnsiCode(p, 100 + i);
    SixteenBright(i);
  }

  lemma SixteenBright(i: nat)
    requires i < 8
    ensures SixteenColor(90 + i) == (8 + i, false) && SixteenColor(100 + i) == (8 + i, true)
  {
  }

  /** A two- or three-part body (`38;5;141`) takes its last part as the index and is never a
      background, whatever its first part says. */
  lemma FromAnsiIndexed(p: Palette, parts: seq<string>)
    requires 2 <= |parts| <= 3
    requires forall i :: 0 <= i < |parts| ==> ';' !in parts[i]
    requires IsDigits(parts[|parts| - 1])
    ensures FromAnsi(p, Join(parts, ";")) == TableColor(p, DecimalValue(parts[|parts| - 1]), false)
  {
    SplitJoin(parts, ';');
  }

  /** The examples of tests/test_color.py. */
  lemma FromAnsiExamples(p: Palette)
    requires 1 in p.table && 5 in p.table && 11 in p.table && 13 in p.table
    ensures FromAnsi(p, "31") == Ok(Color(TableRgb(p.table[1]), false))
    ensures FromAnsi(p, "45") == Ok(Color(TableRgb(p.table[5]), true))
    ensures FromAnsi(p, "93") == Ok(Color(TableRgb(p.table[11]), false))
    ensures FromAnsi(p, "105") == Ok(Color(TableRgb(p.table[13]), true))
  {
    StandardExamples(p);
    BrightExamples(p);
  }

  lemma StandardExamples(p: Palette)
    requires 1 in p.table && 5 in p.table
    ensures FromAnsi(p, "31") == Ok(Color(TableRgb(p.table[1]), false))
    ensures FromAnsi(p, "45") == Ok(Color(TableRgb(p.table[5]), true))
  {
    assert NatToString(31) == "31";
    FromAnsiStandard(p, 1);
    assert NatToString(45) == "45";
    FromAnsiStandard(p, 5);
  }

  lemma BrightExamples(p: Palette)
    requires 11 in p.table && 13 in p.table
    ensures FromAnsi(p, "93") == Ok(Color(TableRgb(p.table[11]), false))
    ensures FromAnsi(p, "105") == Ok(Color(TableRgb(p.table[13]), true))
  {
    assert NatToString(93) == "93";
    FromAnsiBright(p, 3);
    assert NatToString(105) == "105";
    FromAnsiBright(p, 5);
  }

  lemma ChannelTextsOfParts(texts: seq<string>)
    ensures ChannelTexts(Parts(texts)) == texts
  {
  }

  lemma JoinAnsiParts(lead: string, texts: seq<string>, joined: string)
    requires |texts| >= 1 && joined == Join(texts, ";")
    ensures Join([lead, "2"] + texts, ";") == lead + ";" + "2" + ";" + joined
  {
    JoinTwoCons(lead, "2", texts, ";");
  }

  lemma AnsiPrefix(lead: string, joined: string)
    ensures lead + ";" + "2" + ";" + joined == lead + ";2;" + joined
  {
  }

  lemma JoinAnsi(lead: string, texts: seq<string>)
    requires |texts| >= 1
    ensures Join([lead, "2"] + texts, ";") == lead + ";2;" + Join(texts, ";")
  {
    var joined := Join(texts, ";");
    JoinAnsiParts(lead, texts, joined);
    AnsiPrefix(lead, joined);
  }

  /** A 24-bit body read by `from_ansi` renders back to itself with `ansi`; it is a background
      exactly when it starts with `48`. */
  lemma TrueColorRoundTrip(p: Palette, body: string)
    requires |Split(body, ';')| > 3
    requires Split(body, ';')[0] in {"38", "48"} && Split(body, ';')[1] == "2"
    ensures FromAnsi(p, body).Ok?
    ensures FromAnsi(p, body).value.isBackground <==> Split(body, ';')[0] == "48"
    ensures Ansi(FromAnsi(p, body).value) == body
  {
    var parts := Split(body, ';');
    FromAnsiTrue(p, body);
    assert StartsWith(parts[0], "4") <==> parts[0] == "48";
    JoinSplit(body, ';');
    AnsiOfParts(parts);
  }

  /** More than three parts: a 24-bit colour. */
  lemma FromAnsiTrue(p: Palette, body: string)
    requires |Split(body, ';')| > 3
    ensures var parts := Split(body, ';');
      FromAnsi(p, body) == Ok(Color(Parts(parts[2..]), StartsWith(parts[0], "4")))
  {
  }

  /** `ansi` of the colour whose components are the parts after `38;2` or `48;2`. */
  lemma AnsiOfParts(parts: seq<string>)
    requires |parts| > 3 && parts[0] in {"38", "48"} && parts[1] == "2"
    ensures Ansi(Color(Parts(parts[2..]), parts[0] == "48")) == Join(parts, ";")
  {
    ChannelTextsOfParts(parts[2..]);
    assert parts == [parts[0], "2"] + parts[2..];
    JoinAnsi(parts[0], parts[2..]);
  }

  /** Rendering a colour with `ansi` and reading it back with `from_ansi` keeps its
      background flag and the text of each component. */
  lemma AnsiRoundTrip(p: Palette, c: Color)
    requires |c.rgb| >= 2
    requires forall i :: 0 <= i < |c.rgb| ==> ';' !in ChannelText(c.rgb[i])
    ensures FromAnsi(p, Ansi(c)) == Ok(Color(Parts(ChannelTexts(c.rgb)), c.isBackground))
  {
    var texts := ChannelTexts(c.rgb);
    var lead := if c.isBackground then "48" else "38";
    JoinAnsi(lead, texts);
    var parts := [lead, "2"] + texts;
    SplitJoin(parts, ';');
    assert parts[2..] == texts;
  }

  lemma OffColorsAnsi()
    ensures Ansi(Color(OffBlack, false)) == "38;2;35;35;35"
    ensures Ansi(Color(OffWhite, false)) == "38;2;245;245;245"
  {
    OffBlackAnsi();
    OffWhiteAnsi();
  }

  lemma OffBlackAnsi()
    ensures Ansi(Color(OffBlack, false)) == "38;2;35;35;35"
  {
    assert NatToString(35) == "35";
    assert ChannelTexts(OffBlack) == ["35", "35", "35"];
    JoinThree("35");
  }

  lemma OffWhiteAnsi()
    ensures Ansi(Color(OffWhite, false)) == "38;2;245;245;245"
  {
    assert NatToString(245) == "245";
    assert ChannelTexts(OffWhite) == ["245", "245", "245"];
    JoinThree("245");
  }

  lemma JoinThree(t: string)
    ensures Join([t, t, t], ";") == t + ";" + t + ";" + t
  {
    JoinCons(t, [t, t], ";");
    JoinCons(t, [t], ";");
  }

  /** The foreground derived from a colour's contrast is always off-black or off-white. */
  lemma ContrastForeground(p: Palette, c: Color)
    requires Contrast(p, c).Ok?
    ensures Ansi(AsBackground(Contrast(p, c).value, false)) in {"38;2;35;35;35", "38;2;245;245;245"}
  {
    OffColorsAnsi();
  }
}
