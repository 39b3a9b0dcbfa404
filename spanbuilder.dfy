/** `markup_spans` of zenith/markup.py: the scan of markup text into `[tags]plain` groups and
    the spans each group yields. */
module SpanBuilder {
  import opened Results
  import opened Text
  import opened Colors
  import opened Markup

  /** A span of `markup_spans`: the `FULL_RESET` sentinel or a text with its style. */
  datatype Span = FullReset | Span(text: string, attrs: Stack)

  predicate IsBracket(c: char) {
    c == '[' || c == ']'
  }

  predicate BracketFree(s: string) {
    forall i :: 0 <= i < |s| ==> !IsBracket(s[i])
  }

  /** The length of the longest bracket-free prefix of `s` (`[^\[\]]*`). */
  function PlainLength(s: string): (n: nat)
    ensures n <= |s|
    ensures BracketFree(s[..n])
    ensures n < |s| ==> IsBracket(s[n])
  {
    if s == [] || IsBracket(s[0]) then 0
    else
      var n := 1 + PlainLength(s[1..]);
      assert s[..n] == [s[0]] + s[1..][..n - 1];
      n
  }

  lemma PlainLengthOf(p: string, rest: string)
    requires BracketFree(p) && (rest == [] || IsBracket(rest[0]))
    ensures PlainLength(p + rest) == |p|
  {
    if p != [] {
      assert (p + rest)[1..] == p[1..] + rest;
      PlainLengthOf(p[1..], rest);
    } else {
      assert p + rest == rest;
    }
  }

  /** One match of `RE_MARKUP`, `(?:\[([^\[\]]+)\])?([^\]\[]+)?`: a bracketed group and the
      plain text after it, both optional; a missing part is the empty string. */
  datatype Group = Group(tags: string, plain: string)

  /** The outcome of `RE_MARKUP` at the start of `s`: a match and the text after it, or an
      empty match (a bracket that opens no group), after which the search resumes one
      character later. */
  datatype Step = Skip(rest: string) | Found(group: Group, rest: string)

  function MatchAt(s: string): (r: Step)
    requires s != []
    ensures |r.rest| < |s|
  {
    if s[0] == '[' then
      var e := 1 + PlainLength(s[1..]);
      if e > 1 && e < |s| && s[e] == ']' then
        var f := e + 1 + PlainLength(s[e + 1..]);
        Found(Group(s[1..e], s[e + 1..f]), s[f..])
      else Skip(s[1..])
    else if s[0] == ']' then Skip(s[1..])
    else
      var f := PlainLength(s);
      Found(Group("", s[..f]), s[f..])
  }

  /** The non-empty matches of `RE_MARKUP.finditer(s)`, in order. */
  function Scan(s: string): seq<Group>
    decreases |s|
  {
    if s == [] then []
    else match MatchAt(s)
      case Skip(rest) => Scan(rest)
      case Found(g, rest) => [g] + Scan(rest)
  }

  /** Markup made of groups: every group but the first has tags, and no part holds a bracket. */
  ghost predicate Printable(groups: seq<Group>) {
    forall i :: 0 <= i < |groups| ==>
      BracketFree(groups[i].tags) && BracketFree(groups[i].plain)
      && (groups[i].tags != "" || (i == 0 && groups[i].plain != ""))
  }

  /** The markup text that writes the groups out. */
  function Print(groups: seq<Group>): string {
    if groups == [] then ""
    else
      var g := groups[0];
      (if g.tags == "" then g.plain else "[" + g.tags + "]" + g.plain) + Print(groups[1..])
  }

  lemma PrintStart(groups: seq<Group>)
    requires Printable(groups) && |groups| >= 1 && groups[0].tags != ""
    ensures Print(groups)[0] == '['
  {
  }

  /** `RE_MARKUP` matches a bracketed group and the plain text after it. */
  lemma MatchGroup(tags: string, plain: string, rest: string)
    requires tags != [] && BracketFree(tags) && BracketFree(plain)
    requires rest == [] || rest[0] == '['
    ensures MatchAt("[" + tags + "]" + plain + rest) == Found(Group(tags, plain), rest)
  {
    var s := "[" + tags + "]" + plain + rest;
    GroupSlices(tags, plain, rest);
    PlainLengthOf(tags, "]" + plain + rest);
    PlainLengthOf(plain, rest);
  }

  /** The parts of a bracketed group followed by its plain text. */
  lemma GroupSlices(tags: string, plain: string, rest: string)
    ensures var s := "[" + tags + "]" + plain + rest;
      var e := 1 + |tags|;
      && s[0] == '[' && s[1..] == tags + ("]" + plain + rest)
      && s[e] == ']' && s[e + 1..] == plain + rest && s[1..e] == tags
      && s[e + 1..e + 1 + |plain|] == plain && s[e + 1 + |plain|..] == rest
  {
  }

  lemma ScanGroup(tags: string, plain: string, rest: string)
    requires tags != [] && BracketFree(tags) && BracketFree(plain)
    requires rest == [] || rest[0] == '['
    ensures Scan("[" + tags + "]" + plain + rest) == [Group(tags, plain)] + Scan(rest)
  {
    var s := "[" + tags + "]" + plain + rest;
    assert s != [];
    MatchGroup(tags, plain, rest);
  }

  lemma {:induction false} ScanPlain(plain: string, rest: string)
    requires plain != [] && BracketFree(plain)
    requires rest == [] || rest[0] == '['
    ensures Scan(plain + rest) == [Group("", plain)] + Scan(rest)
  {
    var s := plain + rest;
    PlainLengthOf(plain, rest);
    assert s[..|plain|] == plain && s[|plain|..] == rest;
    assert s[0] == plain[0];
  }

  lemma PrintableTail(groups: seq<Group>)
    requires Printable(groups) && groups != []
    ensures Printable(groups[1..])
  {
    var tail := groups[1..];
    forall i | 0 <= i < |tail|
      ensures BracketFree(tail[i].tags) && BracketFree(tail[i].plain)
           && (tail[i].tags != "" || (i == 0 && tail[i].plain != ""))
    {
      assert tail[i] == groups[i + 1];
    }
  }

  /** Scanning finds back the groups of well-formed markup: the scan is the inverse of
      writing groups out. */
  lemma {:induction false} ScanPrint(groups: seq<Group>)
    requires Printable(groups)
    ensures Scan(Print(groups)) == groups
    decreases |groups|
  {
    if groups != [] {
      var g := groups[0];
      var tail := groups[1..];
      PrintableTail(groups);
      ScanPrint(tail);
      var rest := Print(tail);
      if tail != [] {
        assert tail[0] == groups[1];
        PrintStart(tail);
      }
      if g.tags == "" {
        ScanPlain(g.plain, rest);
      } else {
        ScanGroup(g.tags, g.plain, rest);
        assert "[" + g.tags + "]" + g.plain + rest == ("[" + g.tags + "]" + g.plain) + rest;
      }
    }
  }

  /** A bracket that opens no group is dropped, as the empty match there is. */
  lemma LoneBracketDropped(s: string)
    requires s != [] && BracketFree(s)
    ensures Scan("]" + s) == Scan(s)
    ensures s[0] != '[' ==> Scan("[" + s) == Scan(s)
  {
    assert ("]" + s)[1..] == s;
    assert ("[" + s)[1..] == s;
    PlainLengthOf(s, []);
    assert s + [] == s;
  }

  // ---------------------------------------------------------------------------------------
  // The spans of the groups

  /** The spans yielded so far and the state of the tag parser. */
  datatype Builder = Builder(state: TagState, spans: seq<Span>)

  /** `for macro in macros: plain = macro(plain)`. */
  function RunMacros(env: Env, active: seq<MacroId>, plain: string): string
    decreases |active|
  {
    if active == [] then plain else RunMacros(env, active[1..], env.runMacro(active[0], plain))
  }

  /** The tags of one group, each applied in turn; a tag that is exactly `/` yields
      `FULL_RESET` first. */
  function GroupTags(env: Env, ctx: Snapshot, prefix: string, b: Builder, tags: seq<string>): (r: Result<Builder>)
    ensures WellFormed(b.state.stack) && r.Ok? ==> WellFormed(r.value.state.stack)
    decreases |tags|
  {
    if tags == [] then Ok(b)
    else
      var spans := if tags[0] == "/" then b.spans + [FullReset] else b.spans;
      var state :- ApplyTag(env, ctx, prefix, b.state, tags[0], AliasDepthLimit);
      GroupTags(env, ctx, prefix, Builder(state, spans), tags[1..])
  }

  /** The end of one group: the automatic foreground, then the span with the stack; a
      derived foreground is dropped from the stack again. */
  function Emit(p: Palette, b: Builder, plain: string): (r: Result<Builder>)
    requires WellFormed(b.state.stack)
    ensures r.Ok? ==> WellFormed(r.value.state.stack)
  {
    var auto :- AutoForeground(p, b.state.stack);
    var stack := if auto.1 then auto.0 - {Foreground} else auto.0;
    assert WellFormed(stack) by {
      forall a | a != Foreground ensures a in stack { assert a in b.state.stack; }
    }
    Ok(Builder(TagState(stack, b.state.active), b.spans + [Span(plain, auto.0)]))
  }

  /** One group: its tags, then the active macros on its plain text, then the span. */
  function EmitGroup(env: Env, ctx: Snapshot, prefix: string, b: Builder, g: Group): (r: Result<Builder>)
    requires WellFormed(b.state.stack)
    ensures r.Ok? ==> WellFormed(r.value.state.stack)
  {
    var tagged :- GroupTags(env, ctx, prefix, b, Words(g.tags));
    Emit(env.palette, tagged, RunMacros(env, tagged.state.active, g.plain))
  }

  function BuildFrom(env: Env, ctx: Snapshot, prefix: string, b: Builder, groups: seq<Group>): Result<Builder>
    requires WellFormed(b.state.stack)
    decreases |groups|
  {
    if groups == [] then Ok(b)
    else
      var next :- EmitGroup(env, ctx, prefix, b, groups[0]);
      BuildFrom(env, ctx, prefix, next, groups[1..])
  }

  function Initial(): (b: Builder)
    ensures WellFormed(b.state.stack)
  {
    BaseStackWellFormed();
    Builder(TagState(BaseStack, []), [])
  }

  /** `list(markup_spans(text, ctx, prefix))`, or the error it raises. */
  function SpansOf(env: Env, ctx: Snapshot, prefix: string, text: string): Result<seq<Span>> {
    var b :- BuildFrom(env, ctx, prefix, Initial(), Scan(Replace(text, "][", " ")));
    Ok(b.spans)
  }

  // ---------------------------------------------------------------------------------------
  // What the spans are

  /** The `FULL_RESET` sentinels the tags of a group yield: one for each tag that is `/`. */
  function Resets(tags: seq<string>): (r: seq<Span>)
    ensures |r| <= |tags|
    ensures forall i :: 0 <= i < |r| ==> r[i] == FullReset
  {
    if tags == [] then [] else (if tags[0] == "/" then [FullReset] else []) + Resets(tags[1..])
  }

  /** The tags of a group are applied as `_apply_tag` applies them one after the other, and
      yield a `FULL_RESET` for each `/`; the first failing tag fails the group. */
  lemma {:induction false} GroupTagsApply(env: Env, ctx: Snapshot, prefix: string, b: Builder, tags: seq<string>)
    ensures GroupTags(env, ctx, prefix, b, tags) ==
      match ApplyTags(env, ctx, prefix, b.state, tags, AliasDepthLimit)
      case Err(e) => Err(e)
      case Ok(state) => Ok(Builder(state, b.spans + Resets(tags)))
    decreases |tags|
  {
    if tags == [] {
      assert b.spans + [] == b.spans;
    } else {
      var spans := if tags[0] == "/" then b.spans + [FullReset] else b.spans;
      ResetsCons(b.spans, tags);
      match ApplyTag(env, ctx, prefix, b.state, tags[0], AliasDepthLimit)
      case Err(e) =>
      case Ok(state) =>
        GroupTagsApply(env, ctx, prefix, Builder(state, spans), tags[1..]);
    }
  }

  lemma ResetsCons(spans: seq<Span>, tags: seq<string>)
    requires tags != []
    ensures (if tags[0] == "/" then spans + [FullReset] else spans) + Resets(tags[1..]) == spans + Resets(tags)
  {
    if tags[0] == "/" {
      assert Resets(tags) == [FullReset] + Resets(tags[1..]);
    } else {
      assert Resets(tags) == [] + Resets(tags[1..]);
    }
  }

  /** The active macros run over a plain text in the order they were activated. */
  lemma {:induction false} RunMacrosAppend(env: Env, first: seq<MacroId>, second: seq<MacroId>, plain: string)
    ensures RunMacros(env, first + second, plain) == RunMacros(env, second, RunMacros(env, first, plain))
    decreases |first|
  {
    if first == [] {
      assert first + second == second;
    } else {
      assert (first + second)[1..] == first[1..] + second;
      RunMacrosAppend(env, first[1..], second, env.runMacro(first[0], plain));
    }
  }

  /** The macro activated last is applied last. */
  lemma RunMacrosLast(env: Env, active: seq<MacroId>, m: MacroId, plain: string)
    ensures RunMacros(env, active + [m], plain) == env.runMacro(m, RunMacros(env, active, plain))
  {
    RunMacrosAppend(env, active, [m], plain);
  }

  /** One group yields its resets, then one span: the plain text through the active macros,
      styled by the stack its tags leave, with the automatic foreground; the derived
      foreground, one of the two contrast colours, is gone from the stack afterwards. */
  lemma EmitGroupSpan(env: Env, ctx: Snapshot, prefix: string, b: Builder, g: Group)
    requires WellFormed(b.state.stack)
    ensures var applied := ApplyTags(env, ctx, prefix, b.state, Words(g.tags), AliasDepthLimit);
      var r := EmitGroup(env, ctx, prefix, b, g);
      && (r.Ok? <==> applied.Ok? && AutoForeground(env.palette, applied.value.stack).Ok?)
      && (r.Ok? ==>
            var st := applied.value;
            var auto := AutoForeground(env.palette, st.stack).value;
            && r.value.spans == b.spans + Resets(Words(g.tags)) + [Span(RunMacros(env, st.active, g.plain), auto.0)]
            && r.value.state.active == st.active
            && (!auto.1 ==> r.value.state.stack == st.stack && auto.0 == st.stack)
            && (auto.1 ==>
                  && r.value.state.stack == auto.0 - {Foreground}
                  && auto.0[Foreground].Str?
                  && auto.0[Foreground].s in {"38;2;35;35;35", "38;2;245;245;245"}))
  {
    GroupTagsApply(env, ctx, prefix, b, Words(g.tags));
    var applied := ApplyTags(env, ctx, prefix, b.state, Words(g.tags), AliasDepthLimit);
    if applied.Ok? {
      AutoForegroundCases(env.palette, applied.value.stack);
    }
  }

  /** Text without brackets is one span in the base style (none if it is empty). */
  lemma PlainTextSpans(env: Env, ctx: Snapshot, prefix: string, text: string)
    requires BracketFree(text)
    ensures SpansOf(env, ctx, prefix, text) == Ok(if text == "" then [] else [Span(text, BaseStack)])
  {
    PlainTextScan(text);
    if text != "" {
      PlainGroupSpan(env, ctx, prefix, text);
      var next := Builder(TagState(BaseStack, []), [Span(text, BaseStack)]);
      assert BuildFrom(env, ctx, prefix, Initial(), [Group("", text)]) == BuildFrom(env, ctx, prefix, next, []);
    }
  }

  lemma PlainTextScan(text: string)
    requires BracketFree(text)
    ensures Scan(Replace(text, "][", " ")) == if text == "" then [] else [Group("", text)]
  {
    forall i: nat
      ensures !OccursAt(text, "][", i)
    {
      PairAt(text, i);
    }
    ReplaceAbsent(text, "][", " ");
    if text != "" {
      ScanPlain(text, []);
      assert text + [] == text;
    }
  }

  lemma PlainGroupSpan(env: Env, ctx: Snapshot, prefix: string, text: string)
    ensures EmitGroup(env, ctx, prefix, Initial(), Group("", text))
         == Ok(Builder(TagState(BaseStack, []), [Span(text, BaseStack)]))
  {
    var b := Initial();
    assert Words("") == [];
    assert GroupTags(env, ctx, prefix, b, []) == Ok(b);
    assert RunMacros(env, [], text) == text;
    BaseStackWellFormed();
    assert b == Builder(TagState(BaseStack, []), []);
    EmitUnstyled(env.palette, b, text);
    assert EmitGroup(env, ctx, prefix, b, Group("", text)) == Emit(env.palette, b, text);
    assert b.spans + [Span(text, BaseStack)] == [Span(text, BaseStack)];
  }

  lemma EmitUnstyled(p: Palette, b: Builder, plain: string)
    requires WellFormed(b.state.stack) && Foreground in b.state.stack
    requires !b.state.stack[Foreground].Truthy() && !b.state.stack[Background].Truthy()
    ensures Emit(p, b, plain) == Ok(Builder(b.state, b.spans + [Span(plain, b.state.stack)]))
  {
    UnstyledAutoForeground(p, b.state.stack);
  }

  /** A stack with neither layer set derives no foreground. */
  lemma UnstyledAutoForeground(p: Palette, st: Stack)
    requires Invert in st && Foreground in st && Background in st
    requires !st[Foreground].Truthy() && !st[Background].Truthy()
    ensures AutoForeground(p, st) == Ok((st, false))
  {
    assert TruthyValue(st, Background).None? && TruthyValue(st, Foreground).None?;
  }

  /** Written-out markup is scanned back into its groups: its spans are those the groups
      yield, one after the other. */
  lemma SpansOfPrinted(env: Env, ctx: Snapshot, prefix: string, groups: seq<Group>)
    requires Printable(groups)
    requires forall i :: 0 <= i < |groups| ==> groups[i].plain != ""
    ensures SpansOf(env, ctx, prefix, Print(groups)) ==
      match BuildFrom(env, ctx, prefix, Initial(), groups)
      case Err(e) => Err(e)
      case Ok(b) => Ok(b.spans)
  {
    NoPairInPrint(groups);
    ReplaceAbsent(Print(groups), "][", " ");
    ScanPrint(groups);
  }

  lemma PairAt(s: string, i: nat)
    ensures OccursAt(s, "][", i) <==> i + 1 < |s| && s[i] == ']' && s[i + 1] == '['
  {
    if i + 2 <= |s| {
      assert s[i..i + 2][0] == s[i] && s[i..i + 2][1] == s[i + 1];
      assert s[i] == ']' && s[i + 1] == '[' ==> s[i..i + 2] == "][";
    }
  }

  /** No `][` in the text: a closing bracket is never directly followed by an opening one. */
  ghost predicate NoPair(s: string) {
    forall i :: 0 <= i < |s| - 1 ==> !(s[i] == ']' && s[i + 1] == '[')
  }

  lemma {:induction false} NoPairInPrint(groups: seq<Group>)
    requires Printable(groups)
    requires forall i :: 0 <= i < |groups| ==> groups[i].plain != ""
    ensures forall i: nat :: !OccursAt(Print(groups), "][", i)
    decreases |groups|
  {
    NoPairOfPrint(groups);
    var s := Print(groups);
    forall i: nat
      ensures !OccursAt(s, "][", i)
    {
      PairAt(s, i);
    }
  }

  lemma {:induction false} NoPairOfPrint(groups: seq<Group>)
    requires Printable(groups)
    requires forall i :: 0 <= i < |groups| ==> groups[i].plain != ""
    ensures NoPair(Print(groups))
    ensures groups != [] ==> Print(groups) != [] && Print(groups)[|Print(groups)| - 1] != ']'
    decreases |groups|
  {
    if groups != [] {
      var g := groups[0];
      var tail := groups[1..];
      assert Printable(tail) by {
        forall i | 0 <= i < |tail|
          ensures BracketFree(tail[i].tags) && BracketFree(tail[i].plain)
               && (tail[i].tags != "" || (i == 0 && tail[i].plain != ""))
        {
          assert tail[i] == groups[i + 1];
        }
      }
      assert forall i :: 0 <= i < |tail| ==> tail[i].plain != "" by {
        forall i | 0 <= i < |tail| ensures tail[i].plain != "" { assert tail[i] == groups[i + 1]; }
      }
      NoPairOfPrint(tail);
      var head := if g.tags == "" then g.plain else "[" + g.tags + "]" + g.plain;
      NoPairOfHead(g);
      var rest := Print(tail);
      if tail != [] {
        assert tail[0] == groups[1];
        PrintStart(tail);
      }
      NoPairAppend(head, rest);
    }
  }

  lemma NoPairOfHead(g: Group)
    requires BracketFree(g.tags) && BracketFree(g.plain) && g.plain != ""
    ensures var head := if g.tags == "" then g.plain else "[" + g.tags + "]" + g.plain;
      NoPair(head) && head != [] && head[|head| - 1] == g.plain[|g.plain| - 1]
  {
    var head := if g.tags == "" then g.plain else "[" + g.tags + "]" + g.plain;
    forall i | 0 <= i < |head| - 1
      ensures !(head[i] == ']' && head[i + 1] == '[')
    {
      if g.tags != "" {
        if i == 0 {
        } else if i <= |g.tags| {
          assert head[i] == g.tags[i - 1];
        } else if i == |g.tags| + 1 {
          assert head[i + 1] == g.plain[0];
        } else {
          assert head[i] == g.plain[i - |g.tags| - 2];
        }
      }
    }
  }

  lemma NoPairAppend(a: string, b: string)
    requires NoPair(a) && NoPair(b)
    requires a == [] || b == [] || a[|a| - 1] != ']' || b[0] != '['
    ensures NoPair(a + b)
  {
    var s := a + b;
    forall i | 0 <= i < |s| - 1
      ensures !(s[i] == ']' && s[i + 1] == '[')
    {
      if i + 1 < |a| {
        assert s[i] == a[i] && s[i + 1] == a[i + 1];
      } else if i >= |a| {
        assert s[i] == b[i - |a|] && s[i + 1] == b[i + 1 - |a|];
      }
    }
  }

  /** A flag tag alone styles its text with just that flag set. */
  lemma FlagGroupSpans(env: Env, ctx: Snapshot, prefix: string, a: Attr, plain: string)
    requires a !in {Foreground, Background, Hyperlink}
    requires plain != "" && BracketFree(plain)
    ensures SpansOf(env, ctx, prefix, "[" + AttrName(a) + "]" + plain) == Ok([Span(plain, BaseStack[a := Bool(true)])])
  {
    var name := AttrName(a);
    AttrNameText(a);
    var g := Group(name, plain);
    assert Printable([g]);
    assert Print([g]) == "[" + name + "]" + plain;
    SpansOfPrinted(env, ctx, prefix, [g]);
    FlagGroupSpan(env, ctx, prefix, a, plain);
    var st := BaseStack[a := Bool(true)];
    var next := Builder(TagState(st, []), [Span(plain, st)]);
    assert BuildFrom(env, ctx, prefix, Initial(), [g]) == BuildFrom(env, ctx, prefix, next, []);
  }

  lemma FlagGroupSpan(env: Env, ctx: Snapshot, prefix: string, a: Attr, plain: string)
    requires a !in {Foreground, Background, Hyperlink}
    ensures var st := BaseStack[a := Bool(true)];
      EmitGroup(env, ctx, prefix, Initial(), Group(AttrName(a), plain)) == Ok(Builder(TagState(st, []), [Span(plain, st)]))
  {
    var st := BaseStack[a := Bool(true)];
    var tagged := Builder(TagState(st, []), []);
    FlagGroupTags(env, ctx, prefix, a);
    FlagStack(a);
    BaseStackWellFormed();
    EmitGroupOf(env, ctx, prefix, Initial(), Group(AttrName(a), plain), tagged);
    assert RunMacros(env, [], plain) == plain;
    EmitUnstyled(env.palette, tagged, plain);
    assert tagged.spans + [Span(plain, st)] == [Span(plain, st)];
  }

  lemma FlagStack(a: Attr)
    requires a !in {Foreground, Background, Hyperlink}
    ensures var st := BaseStack[a := Bool(true)];
      WellFormed(st) && Foreground in st && !st[Foreground].Truthy() && !st[Background].Truthy()
  {
    BaseStackWellFormed();
  }

  lemma AttrNameText(a: Attr)
    ensures |AttrName(a)| > 0 && NoSpace(AttrName(a)) && BracketFree(AttrName(a)) && AttrName(a) != "/"
  {
    AttrNameLetters(a);
    var n := AttrName(a);
    assert n[0] != '/';
  }

  lemma EmitGroupOf(env: Env, ctx: Snapshot, prefix: string, b: Builder, g: Group, tagged: Builder)
    requires WellFormed(b.state.stack)
    requires GroupTags(env, ctx, prefix, b, Words(g.tags)) == Ok(tagged)
    ensures WellFormed(tagged.state.stack)
    ensures EmitGroup(env, ctx, prefix, b, g) == Emit(env.palette, tagged, RunMacros(env, tagged.state.active, g.plain))
  {
  }

  lemma FlagGroupTags(env: Env, ctx: Snapshot, prefix: string, a: Attr)
    ensures GroupTags(env, ctx, prefix, Initial(), Words(AttrName(a)))
         == Ok(Builder(TagState(BaseStack[a := Bool(true)], []), []))
  {
    var name := AttrName(a);
    AttrNameText(a);
    BaseStackWellFormed();
    var b := Initial();
    assert b == Builder(TagState(BaseStack, []), []);
    WordsSingle(name);
    ApplyTagsSingle(env, ctx, prefix, b.state, name, AliasDepthLimit);
    FlagTag(env, ctx, prefix, b.state, a, AliasDepthLimit);
    GroupTagsApply(env, ctx, prefix, b, [name]);
    assert Resets([name]) == [];
    assert b.spans + [] == [];
  }

  /** The tag that sets (`name`) or unsets (`/name`) one flag. */
  function FlagTagText(a: Attr, on: bool): string {
    if on then AttrName(a) else "/" + AttrName(a)
  }

  lemma FlagTagWords(a: Attr, on: bool)
    ensures Words(FlagTagText(a, on)) == [FlagTagText(a, on)] && FlagTagText(a, on) != "/"
  {
    var name := AttrName(a);
    AttrNameText(a);
    var tag := FlagTagText(a, on);
    assert NoSpace(tag) by {
      if !on {
        assert forall i :: 1 <= i < |tag| ==> tag[i] == name[i - 1];
      }
    }
    WordsSingle(tag);
  }

  /** The tags of such a group change that flag and nothing else, and yield no reset. */
  lemma FlagStepTags(env: Env, ctx: Snapshot, prefix: string, b: Builder, a: Attr, on: bool)
    requires WellFormed(b.state.stack) && a != Foreground
    ensures GroupTags(env, ctx, prefix, b, Words(FlagTagText(a, on)))
         == Ok(Builder(b.state.(stack := b.state.stack[a := Bool(on)]), b.spans))
  {
    var tag := FlagTagText(a, on);
    FlagTagWords(a, on);
    ApplyTagsSingle(env, ctx, prefix, b.state, tag, AliasDepthLimit);
    FlagTag(env, ctx, prefix, b.state, a, AliasDepthLimit);
    GroupTagsApply(env, ctx, prefix, b, [tag]);
    assert Resets([tag]) == [];
    assert b.spans + [] == b.spans;
  }

  /** A group whose only tag sets or unsets one flag, with no macro active and neither colour
      layer set: one span, styled by the stack with that flag changed. */
  lemma FlagStep(env: Env, ctx: Snapshot, prefix: string, b: Builder, a: Attr, on: bool, plain: string)
    requires WellFormed(b.state.stack) && Foreground in b.state.stack && b.state.active == []
    requires !b.state.stack[Foreground].Truthy() && !b.state.stack[Background].Truthy()
    requires a !in {Foreground, Background, Hyperlink}
    ensures var st := b.state.stack[a := Bool(on)];
      EmitGroup(env, ctx, prefix, b, Group(FlagTagText(a, on), plain))
      == Ok(Builder(TagState(st, []), b.spans + [Span(plain, st)]))
  {
    var st := b.state.stack[a := Bool(on)];
    var tagged := Builder(TagState(st, []), b.spans);
    FlagStepTags(env, ctx, prefix, b, a, on);
    EmitGroupOf(env, ctx, prefix, b, Group(FlagTagText(a, on), plain), tagged);
    assert RunMacros(env, [], plain) == plain;
    EmitUnstyled(env.palette, tagged, plain);
  }

  /** Three tagged groups are written out one after the other, each as `[tags]plain`. */
  lemma PrintThree(g0: Group, g1: Group, g2: Group)
    requires g0.tags != "" && g1.tags != "" && g2.tags != ""
    requires BracketFree(g0.tags) && BracketFree(g1.tags) && BracketFree(g2.tags)
    requires BracketFree(g0.plain) && BracketFree(g1.plain) && BracketFree(g2.plain)
    ensures Printable([g0, g1, g2])
    ensures Print([g0, g1, g2])
         == "[" + g0.tags + "]" + g0.plain + ("[" + g1.tags + "]" + g1.plain + ("[" + g2.tags + "]" + g2.plain))
  {
    assert [g0, g1, g2][1..] == [g1, g2];
    assert [g1, g2][1..] == [g2];
    assert [g2][1..] == [];
    assert Print([g2]) == "[" + g2.tags + "]" + g2.plain + "";
  }

  /** The groups `[bold]a[italic]b[/bold]c` is written from. */
  lemma BoldItalicGroups()
    ensures var groups := [Group(FlagTagText(Bold, true), "a"), Group(FlagTagText(Italic, true), "b"),
                           Group(FlagTagText(Bold, false), "c")];
      Printable(groups) && Print(groups) == "[bold]a[italic]b[/bold]c"
  {
    assert FlagTagText(Bold, true) == "bold" && FlagTagText(Italic, true) == "italic";
    assert FlagTagText(Bold, false) == "/bold";
    assert BracketFree("bold") && BracketFree("italic") && BracketFree("/bold");
    assert BracketFree("a") && BracketFree("b") && BracketFree("c");
    PrintThree(Group("bold", "a"), Group("italic", "b"), Group("/bold", "c"));
    BoldItalicText();
  }

  /** The three groups written out, piece by piece. */
  lemma BoldItalicText()
    ensures "[" + "bold" + "]" + "a" + ("[" + "italic" + "]" + "b" + ("[" + "/bold" + "]" + "c"))
         == "[bold]a[italic]b[/bold]c"
  {
    assert "[" + "bold" + "]" + "a" == "[bold]a";
    assert "[" + "italic" + "]" + "b" == "[italic]b";
    assert "[" + "/bold" + "]" + "c" == "[/bold]c";
    assert "[italic]b" + "[/bold]c" == "[italic]b[/bold]c";
  }

  /** A group that emits without error hands its builder on to the next group. */
  lemma BuildStep(env: Env, ctx: Snapshot, prefix: string, b: Builder, g: Group, rest: seq<Group>, next: Builder)
    requires WellFormed(b.state.stack) && WellFormed(next.state.stack)
    requires EmitGroup(env, ctx, prefix, b, g) == Ok(next)
    ensures BuildFrom(env, ctx, prefix, b, [g] + rest) == BuildFrom(env, ctx, prefix, next, rest)
  {
    assert ([g] + rest)[0] == g && ([g] + rest)[1..] == rest;
  }

  /** Putting a key back to the value it had undoes setting it, past an update of another key. */
  lemma SetAgain(st: Stack, a: Attr, c: Attr, v: Value, w: Value)
    requires a in st && a != c
    ensures st[a := v][c := w][a := st[a]] == st[c := w]
  {
    var lhs := st[a := v][c := w][a := st[a]];
    var rhs := st[c := w];
    assert lhs.Keys == rhs.Keys;
    forall k | k in lhs.Keys ensures lhs[k] == rhs[k] {
    }
  }

  /** The three styles of `[bold]a[italic]b[/bold]c`, as the tags leave them. */
  lemma BoldItalicStacks()
    ensures var bold := BaseStack[Bold := Bool(true)];
      var both := bold[Italic := Bool(true)];
      var italic := BaseStack[Italic := Bool(true)];
      && Uncoloured(BaseStack) && Uncoloured(bold) && Uncoloured(both)
      && both[Bold := Bool(false)] == italic
  {
    BaseStackWellFormed();
    assert BaseStack[Bold] == Bool(false);
    SetAgain(BaseStack, Bold, Italic, Bool(true), Bool(true));
  }

  /** Plain stacks: every key but the foreground present, and neither colour layer set. */
  ghost predicate Uncoloured(st: Stack) {
    WellFormed(st) && Foreground in st && !st[Foreground].Truthy() && !st[Background].Truthy()
  }

  /** One group that sets (`on`) or unsets one flag before its plain text. */
  datatype FlagChange = FlagChange(attr: Attr, on: bool, plain: string)

  function FlagGroups(cs: seq<FlagChange>): (gs: seq<Group>)
    ensures |gs| == |cs|
  {
    if cs == [] then [] else [Group(FlagTagText(cs[0].attr, cs[0].on), cs[0].plain)] + FlagGroups(cs[1..])
  }

  /** The stack each change leaves, and the span of each group in that stack. */
  function FlagRun(st: Stack, cs: seq<FlagChange>): (Stack, seq<Span>)
    decreases cs
  {
    if cs == [] then (st, [])
    else
      var next := st[cs[0].attr := Bool(cs[0].on)];
      var rest := FlagRun(next, cs[1..]);
      (rest.0, [Span(cs[0].plain, next)] + rest.1)
  }

  lemma UncolouredFlag(st: Stack, a: Attr, on: bool)
    requires Uncoloured(st) && a !in {Foreground, Background, Hyperlink}
    ensures Uncoloured(st[a := Bool(on)])
  {
    var next := st[a := Bool(on)];
    forall k | k != Foreground ensures k in next { assert k in st; }
  }

  /** A flag group hands on the builder with the span it yields. */
  lemma FlagBuildStep(env: Env, ctx: Snapshot, prefix: string, st: Stack, spans: seq<Span>, a: Attr, on: bool,
                      plain: string, rest: seq<Group>)
    requires Uncoloured(st) && a !in {Foreground, Background, Hyperlink}
    ensures var next := st[a := Bool(on)];
      BuildFrom(env, ctx, prefix, Builder(TagState(st, []), spans), [Group(FlagTagText(a, on), plain)] + rest)
      == BuildFrom(env, ctx, prefix, Builder(TagState(next, []), spans + [Span(plain, next)]), rest)
  {
    var b := Builder(TagState(st, []), spans);
    var next := st[a := Bool(on)];
    FlagStep(env, ctx, prefix, b, a, on, plain);
    UncolouredFlag(st, a, on);
    BuildStep(env, ctx, prefix, b, Group(FlagTagText(a, on), plain), rest, Builder(TagState(next, []), spans + [Span(plain, next)]));
  }

  /** The step of `FlagsBuild`: the first change, then a tail whose run is known. */
  lemma FlagsBuildCons(env: Env, ctx: Snapshot, prefix: string, st: Stack, spans: seq<Span>, c: FlagChange,
                       tail: seq<FlagChange>)
    requires Uncoloured(st) && c.attr !in {Foreground, Background, Hyperlink}
    requires var next := st[c.attr := Bool(c.on)];
      var spans1 := spans + [Span(c.plain, next)];
      var rest := FlagRun(next, tail);
      BuildFrom(env, ctx, prefix, Builder(TagState(next, []), spans1), FlagGroups(tail))
      == Ok(Builder(TagState(rest.0, []), spans1 + rest.1))
    ensures var run := FlagRun(st, [c] + tail);
      BuildFrom(env, ctx, prefix, Builder(TagState(st, []), spans), FlagGroups([c] + tail))
      == Ok(Builder(TagState(run.0, []), spans + run.1))
  {
    var next := st[c.attr := Bool(c.on)];
    var rest := FlagRun(next, tail);
    assert ([c] + tail)[1..] == tail;
    assert FlagGroups([c] + tail) == [Group(FlagTagText(c.attr, c.on), c.plain)] + FlagGroups(tail);
    FlagBuildStep(env, ctx, prefix, st, spans, c.attr, c.on, c.plain, FlagGroups(tail));
    assert FlagRun(st, [c] + tail) == (rest.0, [Span(c.plain, next)] + rest.1);
    assert spans + [Span(c.plain, next)] + rest.1 == spans + ([Span(c.plain, next)] + rest.1);
  }

  /** A run of groups that each set or unset one flag, from an uncoloured stack with no macro
      active, yields one span per group, styled by the stack its flag leaves. */
  lemma {:induction false} FlagsBuild(env: Env, ctx: Snapshot, prefix: string, st: Stack, spans: seq<Span>, cs: seq<FlagChange>)
    requires Uncoloured(st)
    requires forall i :: 0 <= i < |cs| ==> cs[i].attr !in {Foreground, Background, Hyperlink}
    ensures var run := FlagRun(st, cs);
      BuildFrom(env, ctx, prefix, Builder(TagState(st, []), spans), FlagGroups(cs))
      == Ok(Builder(TagState(run.0, []), spans + run.1))
    decreases |cs|
  {
    if cs == [] {
      assert spans + [] == spans;
    } else {
      var c := cs[0];
      var next := st[c.attr := Bool(c.on)];
      UncolouredFlag(st, c.attr, c.on);
      FlagsBuild(env, ctx, prefix, next, spans + [Span(c.plain, next)], cs[1..]);
      assert cs == [c] + cs[1..];
      FlagsBuildCons(env, ctx, prefix, st, spans, c, cs[1..]);
    }
  }

  /** The flag changes `[bold]a[italic]b[/bold]c` is written from. */
  function BoldItalicChanges(): seq<FlagChange> {
    [FlagChange(Bold, true, "a"), FlagChange(Italic, true, "b"), FlagChange(Bold, false, "c")]
  }

  /** Their groups, and the spans they leave on the base stack. */
  lemma BoldItalicRun()
    ensures var bold := BaseStack[Bold := Bool(true)];
      var both := bold[Italic := Bool(true)];
      var italic := BaseStack[Italic := Bool(true)];
      && FlagGroups(BoldItalicChanges()) == [Group(FlagTagText(Bold, true), "a"),
           Group(FlagTagText(Italic, true), "b"), Group(FlagTagText(Bold, false), "c")]
      && FlagRun(BaseStack, BoldItalicChanges()).1 == [Span("a", bold), Span("b", both), Span("c", italic)]
  {
    var cs := BoldItalicChanges();
    var bold := BaseStack[Bold := Bool(true)];
    var both := bold[Italic := Bool(true)];
    var italic := BaseStack[Italic := Bool(true)];
    BoldItalicStacks();
    assert cs[1..] == [cs[1], cs[2]] && cs[1..][1..] == [cs[2]] && cs[1..][1..][1..] == [];
    assert FlagRun(both, cs[1..][1..]).1 == [Span("c", italic)];
    assert FlagRun(bold, cs[1..]).1 == [Span("b", both), Span("c", italic)];
  }

  /** The generator run over the groups of `[bold]a[italic]b[/bold]c`, from the initial
      state, ends in the spans of `FlagRun`. */
  lemma BoldItalicBuild(env: Env, ctx: Snapshot, prefix: string)
    ensures var cs := BoldItalicChanges();
      BuildFrom(env, ctx, prefix, Initial(), FlagGroups(cs))
      == Ok(Builder(TagState(FlagRun(BaseStack, cs).0, []), FlagRun(BaseStack, cs).1))
  {
    var cs := BoldItalicChanges();
    assert forall i :: 0 <= i < |cs| ==> cs[i].attr in {Bold, Italic};
    FlagsFromBase(env, ctx, prefix, cs);
  }

  /** The flag run of the previous lemma, started from the generator's initial state. */
  lemma FlagsFromBase(env: Env, ctx: Snapshot, prefix: string, cs: seq<FlagChange>)
    requires forall i :: 0 <= i < |cs| ==> cs[i].attr !in {Foreground, Background, Hyperlink}
    ensures BuildFrom(env, ctx, prefix, Initial(), FlagGroups(cs))
      == Ok(Builder(TagState(FlagRun(BaseStack, cs).0, []), FlagRun(BaseStack, cs).1))
  {
    BoldItalicStacks();
    assert Initial() == Builder(TagState(BaseStack, []), []);
    FlagsBuild(env, ctx, prefix, BaseStack, [], cs);
    assert [] + FlagRun(BaseStack, cs).1 == FlagRun(BaseStack, cs).1;
  }

  /** `[bold]a[italic]b[/bold]c` yields three spans: `a` bold, `b` bold and italic, and `c`
      italic only. */
  lemma BoldItalicSpans(env: Env, ctx: Snapshot, prefix: string)
    ensures var bold := BaseStack[Bold := Bool(true)];
      SpansOf(env, ctx, prefix, "[bold]a[italic]b[/bold]c")
      == Ok([Span("a", bold), Span("b", bold[Italic := Bool(true)]), Span("c", BaseStack[Italic := Bool(true)])])
  {
    var groups := [Group(FlagTagText(Bold, true), "a"), Group(FlagTagText(Italic, true), "b"), Group(FlagTagText(Bold, false), "c")];
    BoldItalicGroups();
    BoldItalicRun();
    assert groups[0].plain != "" && groups[1].plain != "" && groups[2].plain != "";
    SpansOfPrinted(env, ctx, prefix, groups);
    BoldItalicBuild(env, ctx, prefix);
  }

  // ---------------------------------------------------------------------------------------
  // The generator, step by step

  /** `_apply_tag(tag)`. */
  method ExecuteTag(env: Env, ctx: Snapshot, prefix: string, st: TagState, tag: string, fuel: nat) returns (r: Result<TagState>)
    ensures r == ApplyTag(env, ctx, prefix, st, tag, fuel)
    decreases fuel, 2
  {
    var isSetter := !(|tag| >= 1 && tag[0] == '/');
    assert isSetter == !StartsWith(tag, "/") by {
      if |tag| >= 1 { assert tag[..1] == [tag[0]]; }
    }
    r := ExecuteName(env, ctx, prefix, st, LStrip(tag, '/'), isSetter, fuel);
  }

  /** `_apply_tag` once the slashes are stripped: the branches without a loop are one step of
      `Dispatch`, and an alias applies the words of its value. */
  method ExecuteName(env: Env, ctx: Snapshot, prefix: string, st: TagState, name: string, isSetter: bool, fuel: nat)
    returns (r: Result<TagState>)
    ensures r == ApplyName(env, ctx, prefix, st, name, isSetter, fuel)
    decreases fuel, 1
  {
    var d := Dispatch(env, ctx, prefix, st, name, isSetter);
    if d.Done? {
      r := d.result;
      DispatchDone(env, ctx, prefix, st, name, isSetter, fuel, d);
    } else {
      r := ExpandAlias(env, ctx, prefix, st, name, Words(d.alias), fuel);
      DispatchExpand(env, ctx, prefix, st, name, isSetter, fuel, d);
    }
  }

  /** An alias: its value's words, one level of `fuel` down, or the recursion error. */
  method ExpandAlias(env: Env, ctx: Snapshot, prefix: string, st: TagState, name: string, words: seq<string>, fuel: nat)
    returns (r: Result<TagState>)
    ensures fuel == 0 ==> r == Err(AliasTooDeep(name))
    ensures fuel > 0 ==> r == ApplyTags(env, ctx, prefix, st, words, fuel - 1)
    decreases fuel, 0
  {
    if fuel == 0 {
      r := Err(AliasTooDeep(name));
    } else {
      r := ExecuteTags(env, ctx, prefix, st, words, fuel - 1);
    }
  }

  lemma DispatchDone(env: Env, ctx: Snapshot, prefix: string, st: TagState, name: string, isSetter: bool, fuel: nat, d: Dispatched)
    requires d == Dispatch(env, ctx, prefix, st, name, isSetter) && d.Done?
    ensures ApplyName(env, ctx, prefix, st, name, isSetter, fuel) == d.result
  {
  }

  lemma DispatchExpand(env: Env, ctx: Snapshot, prefix: string, st: TagState, name: string, isSetter: bool, fuel: nat, d: Dispatched)
    requires d == Dispatch(env, ctx, prefix, st, name, isSetter) && d.Expand?
    ensures fuel == 0 ==> ApplyName(env, ctx, prefix, st, name, isSetter, fuel) == Err(AliasTooDeep(name))
    ensures fuel > 0 ==> ApplyName(env, ctx, prefix, st, name, isSetter, fuel) == ApplyTags(env, ctx, prefix, st, Words(d.alias), fuel - 1)
  {
  }

  /** The loop of `_apply_tag` over the words of an alias's value. */
  method ExecuteTags(env: Env, ctx: Snapshot, prefix: string, st: TagState, tags: seq<string>, fuel: nat)
    returns (r: Result<TagState>)
    ensures r == ApplyTags(env, ctx, prefix, st, tags, fuel)
    decreases fuel, 3
  {
    var current := st;
    for k := 0 to |tags|
      invariant ApplyTags(env, ctx, prefix, st, tags, fuel) == ApplyTags(env, ctx, prefix, current, tags[k..], fuel)
    {
      assert tags[k..][1..] == tags[k + 1..];
      var next := ExecuteTag(env, ctx, prefix, current, tags[k], fuel);
      if next.Err? {
        return Err(next.error);
      }
      current := next.value;
    }
    assert tags[|tags|..] == [];
    r := Ok(current);
  }

  /** `markup_spans(text, ctx, prefix)`, run to the end. */
  method MarkupSpans(env: Env, ctx: Context, prefix: string, text: string) returns (r: Result<seq<Span>>)
    ensures r == SpansOf(env, ctx.Current(), prefix, text)
  {
    var snapshot := ctx.Current();
    var rest := Replace(text, "][", " ");
    var b := Initial();
    ghost var groups := Scan(rest);
    while rest != []
      invariant WellFormed(b.state.stack)
      invariant BuildFrom(env, snapshot, prefix, Initial(), groups) == BuildFrom(env, snapshot, prefix, b, Scan(rest))
      decreases |rest|
    {
      match MatchAt(rest)
      case Skip(next) =>
        rest := next;
      case Found(g, next) =>
        var emitted := EmitGroupStep(env, snapshot, prefix, b, g);
        if emitted.Err? {
          return Err(emitted.error);
        }
        b := emitted.value;
        rest := next;
    }
    r := Ok(b.spans);
  }

  /** The body of the generator's loop for one match. */
  method EmitGroupStep(env: Env, ctx: Snapshot, prefix: string, b: Builder, g: Group) returns (r: Result<Builder>)
    requires WellFormed(b.state.stack)
    ensures r == EmitGroup(env, ctx, prefix, b, g)
  {
    var tags := Words(g.tags);
    var current := b;
    for k := 0 to |tags|
      invariant WellFormed(current.state.stack)
      invariant GroupTags(env, ctx, prefix, b, tags) == GroupTags(env, ctx, prefix, current, tags[k..])
    {
      assert tags[k..][1..] == tags[k + 1..];
      var spans := current.spans;
      if tags[k] == "/" {
        spans := spans + [FullReset];
      }
      var applied := ExecuteTag(env, ctx, prefix, current.state, tags[k], AliasDepthLimit);
      if applied.Err? {
        return Err(applied.error);
      }
      current := Builder(applied.value, spans);
    }
    assert tags[|tags|..] == [];
    var active := current.state.active;
    var plain := g.plain;
    for k := 0 to |active|
      invariant RunMacros(env, active, g.plain) == RunMacros(env, active[k..], plain)
    {
      assert active[k..][1..] == active[k + 1..];
      plain := env.runMacro(active[k], plain);
    }
    assert active[|active|..] == [];
    r := EmitStep(env.palette, Builder(current.state, current.spans), plain);
  }

  /** The automatic foreground and the span of one group. */
  method EmitStep(p: Palette, b: Builder, plain: string) returns (r: Result<Builder>)
    requires WellFormed(b.state.stack)
    ensures r == Emit(p, b, plain)
  {
    var auto := AutoForeground(p, b.state.stack);
    if auto.Err? {
      return Err(auto.error);
    }
    var (stack, derived) := auto.value;
    var spans := b.spans + [Span(plain, stack)];
    if derived {
      stack := stack - {Foreground};
    }
    r := Ok(Builder(TagState(stack, b.state.active), spans));
  }
}
