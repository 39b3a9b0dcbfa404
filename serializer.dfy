/** `parse_spans` of zenith/markup.py: spans to one ANSI string, emitting only what changes
    from one span to the next. */
module Serializer {
  import opened Results
  import opened Text
  import opened Markup
  import opened SpanBuilder

  const ResetAll: string := "\U{1B}[0m"
  /** The OSC 8 sequence that ends a hyperlink. */
  const CloseLink: string := "\U{1B}]8;;\U{1B}\\"

  /** How the state of the terminal is tracked after a span: as line 401 of zenith/markup.py
      does (the changed attributes only), or as the span's own style. */
  datatype Tracking = AsWritten | Corrected

  /** What the `slate` library gives: `str(span.mutate(reset_after=False, **stack))`, a
      text styled by the attributes of the stack, and `UNSETTERS`, the SGR code that turns
      off an attribute. */
  datatype Renderer = Renderer(render: (string, Stack) -> string, unsetter: Attr -> string)

  /** An attribute of a span; a key the stack lacks has its base value, as a `Span` field. */
  function Get(attrs: Stack, a: Attr): Value {
    if a in attrs then attrs[a] else BaseValue(a)
  }

  /** Every key, with a value. */
  ghost predicate Total(st: Stack) {
    forall a: Attr :: a in st
  }

  /** A span's style as a record of all twelve fields. */
  function Full(attrs: Stack): (r: Stack)
    ensures Total(r) && forall a :: r[a] == Get(attrs, a)
  {
    var r := map a | a in Keys :: Get(attrs, a);
    assert Total(r) by {
      forall a: Attr ensures a in r { KeysComplete(a); }
    }
    r
  }

  /** The key changed from the tracked state and is on: it goes into `stack`. */
  predicate Sets(tracked: Stack, attrs: Stack, a: Attr) {
    Get(tracked, a) != Get(attrs, a) && Get(attrs, a).Truthy()
  }

  /** The key changed from the tracked state and is off: it goes into `unset`. */
  predicate Clears(tracked: Stack, attrs: Stack, a: Attr) {
    Get(tracked, a) != Get(attrs, a) && !Get(attrs, a).Truthy()
  }

  /** The `stack` and `unset` of one span. */
  datatype Delta = Delta(stack: Stack, unset: seq<Attr>)

  /** The `stack` the loop over `span.attrs.items()` builds: the base style, with the
      hyperlink and every changed key that is on copied from the span. */
  function StackOf(tracked: Stack, attrs: Stack): (st: Stack)
    ensures Total(st)
    ensures forall a :: st[a] == if a == Hyperlink || Sets(tracked, attrs, a) then Get(attrs, a) else BaseValue(a)
  {
    var st := map a | a in Keys :: if a == Hyperlink || Sets(tracked, attrs, a) then Get(attrs, a) else BaseValue(a);
    assert Total(st) by {
      forall a: Attr ensures a in st { KeysComplete(a); }
    }
    st
  }

  /** The keys, in field order, that a span turns off. */
  function Cleared(tracked: Stack, attrs: Stack, keys: seq<Attr>): (r: seq<Attr>)
    ensures forall a :: a in r <==> a in keys && Clears(tracked, attrs, a)
  {
    if keys == [] then []
    else (if Clears(tracked, attrs, keys[0]) then [keys[0]] else []) + Cleared(tracked, attrs, keys[1..])
  }

  lemma {:induction false} ClearedAppend(tracked: Stack, attrs: Stack, keys: seq<Attr>, a: Attr)
    ensures Cleared(tracked, attrs, keys + [a])
         == Cleared(tracked, attrs, keys) + (if Clears(tracked, attrs, a) then [a] else [])
    decreases |keys|
  {
    if keys == [] {
      assert [] + [a] == [a];
    } else {
      assert (keys + [a])[1..] == keys[1..] + [a];
      ClearedAppend(tracked, attrs, keys[1..], a);
    }
  }

  /** No key changed, nothing is cleared. */
  lemma {:induction false} ClearedNone(tracked: Stack, attrs: Stack, keys: seq<Attr>)
    requires forall a :: a in keys ==> !Clears(tracked, attrs, a)
    ensures Cleared(tracked, attrs, keys) == []
    decreases |keys|
  {
    if keys != [] {
      assert keys[0] in keys;
      ClearedNone(tracked, attrs, keys[1..]);
    }
  }

  /** The `stack` and `unset` of a span against the tracked style. */
  function Diff(tracked: Stack, attrs: Stack): Delta {
    Delta(StackOf(tracked, attrs), Cleared(tracked, attrs, Keys))
  }

  /** The diff of a span: only a key that changed from the tracked style, or the hyperlink,
      differs from the base style in the stack, and exactly the changed keys that are off
      are unset. */
  lemma DiffSpec(tracked: Stack, attrs: Stack)
    ensures var d := Diff(tracked, attrs);
      && (forall a :: a != Hyperlink && d.stack[a] != BaseValue(a) ==> Get(tracked, a) != Get(attrs, a))
      && (forall a :: a in d.unset <==> Get(tracked, a) != Get(attrs, a) && !Get(attrs, a).Truthy())
  {
    forall a: Attr ensures a in Keys { KeysComplete(a); }
  }

  /** `UNSETTERS` of the unset keys other than the hyperlink, in order. */
  function Unsetters(r: Renderer, unset: seq<Attr>): (codes: seq<string>)
    ensures |codes| <= |unset|
    ensures Hyperlink !in unset ==> |codes| == |unset| && forall i :: 0 <= i < |unset| ==> codes[i] == r.unsetter(unset[i])
  {
    if unset == [] then []
    else (if unset[0] == Hyperlink then [] else [r.unsetter(unset[0])]) + Unsetters(r, unset[1..])
  }

  /** One `CSI … m` with every unsetter but the hyperlink's, then the OSC 8 close when the
      hyperlink is unset; nothing when nothing is. */
  function UnsetCodes(r: Renderer, unset: seq<Attr>): string {
    if unset == [] then ""
    else
      (if unset != [Hyperlink] then "\U{1B}[" + Join(Unsetters(r, unset), ";") + "m" else "")
      + (if Hyperlink in unset then CloseLink else "")
  }

  /** Unsetting the hyperlink alone emits only the OSC 8 close; nothing to unset emits
      nothing. */
  lemma UnsetHyperlinkOnly(r: Renderer)
    ensures UnsetCodes(r, [Hyperlink]) == CloseLink
    ensures UnsetCodes(r, []) == ""
  {
  }

  /** Unsetting other keys emits all their unsetters in one sequence, followed by the OSC 8
      close exactly when the hyperlink is unset too. */
  lemma UnsetBatched(r: Renderer, unset: seq<Attr>)
    requires exists a :: a in unset && a != Hyperlink
    ensures UnsetCodes(r, unset)
         == "\U{1B}[" + Join(Unsetters(r, unset), ";") + "m" + (if Hyperlink in unset then CloseLink else "")
    ensures Hyperlink !in unset ==> |Unsetters(r, unset)| == |unset|
  {
    var a :| a in unset && a != Hyperlink;
    assert unset != [Hyperlink];
  }

  /** The output so far and the tracked style. */
  datatype State = State(buff: string, tracked: Stack)

  /** One pass of the loop of `parse_spans`. */
  function Step(mode: Tracking, r: Renderer, s: State, span: Span): State {
    match span
    case FullReset =>
      State(s.buff + ResetAll, BaseStack[Hyperlink := Get(s.tracked, Hyperlink)])
    case Span(text, attrs) =>
      var d := Diff(s.tracked, attrs);
      var buff := RemoveSuffix(s.buff + UnsetCodes(r, d.unset) + r.render(text, d.stack), CloseLink);
      State(buff, if mode == AsWritten then d.stack else Full(attrs))
  }

  function SerializeFrom(mode: Tracking, r: Renderer, s: State, spans: seq<Span>): State
    decreases |spans|
  {
    if spans == [] then s else SerializeFrom(mode, r, Step(mode, r, s, spans[0]), spans[1..])
  }

  /** Some field other than the hyperlink is on. */
  function AnyStyled(attrs: Stack, keys: seq<Attr>): bool {
    if keys == [] then false
    else (keys[0] != Hyperlink && Get(attrs, keys[0]).Truthy()) || AnyStyled(attrs, keys[1..])
  }

  lemma {:induction false} AnyStyledSpec(attrs: Stack, keys: seq<Attr>)
    ensures AnyStyled(attrs, keys) <==> exists a :: a in keys && a != Hyperlink && Get(attrs, a).Truthy()
    decreases |keys|
  {
    if keys != [] {
      AnyStyledSpec(attrs, keys[1..]);
      if AnyStyled(attrs, keys[1..]) {
        var a :| a in keys[1..] && a != Hyperlink && Get(attrs, a).Truthy();
        assert a in keys;
      }
    }
  }

  /** The end of the output after the last span: a reset when a field other than the
      hyperlink is on, and an OSC 8 close when the hyperlink is not empty. `FULL_RESET` has
      its fields at their defaults. */
  function Trailer(span: Span): string {
    match span
    case FullReset => ""
    case Span(_, attrs) =>
      (if AnyStyled(attrs, Keys) then ResetAll else "")
      + (if Get(attrs, Hyperlink) != Str("") then CloseLink else "")
  }

  /** `parse_spans(spans)`. */
  function Serialize(mode: Tracking, r: Renderer, spans: seq<Span>): string {
    var s := SerializeFrom(mode, r, State("", BaseStack), spans);
    if spans == [] then s.buff else s.buff + Trailer(spans[|spans| - 1])
  }

  // ---------------------------------------------------------------------------------------
  // Properties

  /** No spans give the empty string. */
  lemma NoSpans(mode: Tracking, r: Renderer)
    ensures Serialize(mode, r, []) == ""
  {
  }

  /** The spans are serialized one after the other. */
  lemma {:induction false} SerializeAppend(mode: Tracking, r: Renderer, s: State, first: seq<Span>, second: seq<Span>)
    ensures SerializeFrom(mode, r, s, first + second) == SerializeFrom(mode, r, SerializeFrom(mode, r, s, first), second)
    decreases |first|
  {
    if first == [] {
      assert first + second == second;
    } else {
      assert (first + second)[1..] == first[1..] + second;
      SerializeAppend(mode, r, Step(mode, r, s, first[0]), first[1..], second);
    }
  }

  /** `FULL_RESET` emits `CSI 0 m` and resets the tracked style, keeping the hyperlink. */
  lemma FullResetStep(mode: Tracking, r: Renderer, s: State)
    ensures var next := Step(mode, r, s, FullReset);
      && next.buff == s.buff + ResetAll
      && Get(next.tracked, Hyperlink) == Get(s.tracked, Hyperlink)
      && forall a :: a != Hyperlink ==> Get(next.tracked, a) == BaseValue(a)
  {
    forall a ensures a in BaseStack && BaseStack[a] == BaseValue(a) { BaseField(a); }
  }

  /** As written, the tracked style after a span is the base style with the span's changed
      keys that are on, and its hyperlink. */
  lemma AsWrittenTracked(r: Renderer, s: State, text: string, attrs: Stack)
    ensures var next := Step(AsWritten, r, s, Span(text, attrs));
      forall a :: Get(next.tracked, a) == if a == Hyperlink || Sets(s.tracked, attrs, a) then Get(attrs, a) else BaseValue(a)
  {
    DiffSpec(s.tracked, attrs);
  }

  /** Nothing changes between a style and itself: the stack is the base style with the
      hyperlink, and nothing is unset. */
  lemma DiffSame(st: Stack)
    ensures Diff(st, st).unset == []
    ensures forall a :: Diff(st, st).stack[a] == if a == Hyperlink then Get(st, a) else BaseValue(a)
  {
    ClearedNone(st, st, Keys);
  }

  /** The base style has no field on and an empty hyperlink, so nothing trails it. */
  lemma BaseTrailer(text: string)
    ensures Trailer(Span(text, BaseStack)) == ""
  {
    BaseStackWellFormed();
    AnyStyledSpec(BaseStack, Keys);
  }

  /** A single span is its step, then its trailer. */
  lemma SerializeOne(mode: Tracking, r: Renderer, span: Span)
    ensures Serialize(mode, r, [span]) == Step(mode, r, State("", BaseStack), span).buff + Trailer(span)
  {
    assert [span][1..] == [];
    var s1 := Step(mode, r, State("", BaseStack), span);
    assert SerializeFrom(mode, r, s1, []) == s1;
    assert SerializeFrom(mode, r, State("", BaseStack), [span]) == SerializeFrom(mode, r, s1, []);
  }

  /** Two stacks with the same keys and values are the same. */
  lemma SameStack(m1: Stack, m2: Stack)
    requires forall b :: b in m1 && b in m2 && m1[b] == m2[b]
    ensures m1 == m2
  {
  }

  /** A field of the base style. */
  lemma BaseField(b: Attr)
    ensures b in BaseStack && BaseStack[b] == BaseValue(b) && Get(BaseStack, b) == BaseValue(b)
  {
    BaseStackWellFormed();
  }

  /** The fields of the base style with one of them on. */
  lemma FlagFields(a: Attr, b: Attr)
    ensures b in BaseStack && BaseStack[b] == BaseValue(b) && b in BaseStack[a := Bool(true)]
    ensures Get(BaseStack, b) == BaseValue(b)
    ensures Get(BaseStack[a := Bool(true)], b) == if b == a then Bool(true) else BaseValue(b)
  {
    BaseField(b);
  }

  /** The base style against itself: the stack is the base style, and nothing is unset. */
  lemma DiffBase()
    ensures Diff(BaseStack, BaseStack) == Delta(BaseStack, [])
  {
    DiffSame(BaseStack);
    var st := Diff(BaseStack, BaseStack).stack;
    forall b ensures b in st && b in BaseStack && st[b] == BaseStack[b] {
      FlagFields(Bold, b);
    }
    SameStack(st, BaseStack);
  }

  /** A single span in the base style is rendered as it is, without codes around it. */
  lemma PlainSpan(mode: Tracking, r: Renderer, text: string)
    ensures Serialize(mode, r, [Span(text, BaseStack)]) == RemoveSuffix(r.render(text, BaseStack), CloseLink)
  {
    DiffBase();
    assert "" + UnsetCodes(r, []) + r.render(text, BaseStack) == r.render(text, BaseStack);
    SerializeOne(mode, r, Span(text, BaseStack));
    BaseTrailer(text);
  }

  /** Turning one field on from the base style changes that field only. */
  lemma DiffFlag(a: Attr)
    requires a != Hyperlink
    ensures Diff(BaseStack, BaseStack[a := Bool(true)]) == Delta(BaseStack[a := Bool(true)], [])
  {
    var attrs := BaseStack[a := Bool(true)];
    forall b: Attr ensures !Clears(BaseStack, attrs, b) { FlagFields(a, b); }
    ClearedNone(BaseStack, attrs, Keys);
    var st := StackOf(BaseStack, attrs);
    forall b ensures b in st && b in attrs && st[b] == attrs[b] {
      FlagFields(a, b);
    }
    SameStack(st, attrs);
  }

  /** A span with one field other than the hyperlink on ends with a reset. */
  lemma FlagTrailer(text: string, a: Attr)
    requires a != Hyperlink
    ensures Trailer(Span(text, BaseStack[a := Bool(true)])) == ResetAll
  {
    var attrs := BaseStack[a := Bool(true)];
    FlagFields(a, a);
    FlagFields(a, Hyperlink);
    KeysComplete(a);
    AnyStyledSpec(attrs, Keys);
  }

  /** A single span with one field on is rendered with that field, then reset. */
  lemma FlagSpan(mode: Tracking, r: Renderer, text: string, a: Attr)
    requires a != Hyperlink
    ensures Serialize(mode, r, [Span(text, BaseStack[a := Bool(true)])])
         == RemoveSuffix(r.render(text, BaseStack[a := Bool(true)]), CloseLink) + ResetAll
  {
    var attrs := BaseStack[a := Bool(true)];
    DiffFlag(a);
    assert "" + UnsetCodes(r, []) + r.render(text, attrs) == r.render(text, attrs);
    FlagTrailer(text, a);
    SerializeOne(mode, r, Span(text, attrs));
  }

  /** Under the corrected tracking, the tracked style after a span is the span's own. */
  lemma CorrectedTracked(r: Renderer, s: State, text: string, attrs: Stack)
    ensures var next := Step(Corrected, r, s, Span(text, attrs));
      forall a :: Get(next.tracked, a) == Get(attrs, a)
  {
  }

  /** Under the corrected tracking, an attribute that one span has on and the next has off is
      unset before the next span, and one that changes to on is emitted with it. */
  lemma CorrectedUnsets(r: Renderer, s: State, t1: string, first: Stack, t2: string, second: Stack, a: Attr)
    requires a != Hyperlink
    ensures var mid := Step(Corrected, r, s, Span(t1, first));
      var d := Diff(mid.tracked, second);
      && (Get(first, a).Truthy() && !Get(second, a).Truthy() ==> a in d.unset)
      && (Get(first, a) != Get(second, a) && Get(second, a).Truthy() ==> d.stack[a] == Get(second, a))
  {
    var mid := Step(Corrected, r, s, Span(t1, first));
    CorrectedTracked(r, s, t1, first);
    assert Get(mid.tracked, a) == Get(first, a);
    DiffSpec(mid.tracked, second);
  }

  /** Two spans in a row. */
  lemma SerializeTwo(mode: Tracking, r: Renderer, s: State, x: Span, y: Span)
    ensures SerializeFrom(mode, r, s, [x, y]) == Step(mode, r, Step(mode, r, s, x), y)
  {
    assert [x, y][1..] == [y];
    assert [y][1..] == [];
    var s1 := Step(mode, r, s, x);
    var s2 := Step(mode, r, s1, y);
    assert SerializeFrom(mode, r, s2, []) == s2;
    assert SerializeFrom(mode, r, s1, [y]) == SerializeFrom(mode, r, s2, []);
    assert SerializeFrom(mode, r, s, [x, y]) == SerializeFrom(mode, r, s1, [y]);
  }

  /** As written, an attribute that a span turns on and the next one keeps on is forgotten:
      it is tracked as off, so a third span that has it off does not unset it. */
  lemma AsWrittenForgets(r: Renderer, s: State, t1: string, first: Stack, t2: string, second: Stack, third: Stack, a: Attr)
    requires a != Hyperlink
    requires Get(s.tracked, a) != Get(first, a) && Get(first, a).Truthy()
    requires Get(second, a) == Get(first, a)
    requires Get(third, a) == BaseValue(a)
    ensures var s2 := Step(AsWritten, r, Step(AsWritten, r, s, Span(t1, first)), Span(t2, second));
      && Get(s2.tracked, a) == BaseValue(a)
      && a !in Diff(s2.tracked, third).unset
  {
    var s1 := Step(AsWritten, r, s, Span(t1, first));
    AsWrittenTracked(r, s, t1, first);
    assert Get(s1.tracked, a) == Get(first, a);
    var s2 := Step(AsWritten, r, s1, Span(t2, second));
    AsWrittenTracked(r, s1, t2, second);
    assert Get(s2.tracked, a) == BaseValue(a);
    DiffSpec(s2.tracked, third);
  }

  /** Under the corrected tracking, the same attribute is unset before the third span. */
  lemma CorrectedRemembers(r: Renderer, s: State, t1: string, first: Stack, t2: string, second: Stack, third: Stack, a: Attr)
    requires a != Hyperlink
    requires Get(second, a).Truthy() && !Get(third, a).Truthy()
    ensures var s2 := Step(Corrected, r, Step(Corrected, r, s, Span(t1, first)), Span(t2, second));
      && Get(s2.tracked, a) == Get(second, a)
      && a in Diff(s2.tracked, third).unset
  {
    var s1 := Step(Corrected, r, s, Span(t1, first));
    var s2 := Step(Corrected, r, s1, Span(t2, second));
    CorrectedTracked(r, s1, t2, second);
    assert Get(s2.tracked, a) == Get(second, a);
    DiffSpec(s2.tracked, third);
  }

  /** The three styles of `[bold]a[italic]b[/bold]c`. */
  lemma BoldItalicStyles()
    ensures var bold := BaseStack[Bold := Bool(true)];
      var both := bold[Italic := Bool(true)];
      var italic := BaseStack[Italic := Bool(true)];
      && Get(bold, Bold) == Bool(true) && Get(both, Bold) == Bool(true)
      && Get(italic, Bold) == Bool(false) && BaseValue(Bold) == Bool(false)
      && Get(BaseStack, Bold) == Bool(false)
  {
    BaseStackWellFormed();
  }

  /** As written, `[bold]a[italic]b[/bold]c` leaves `c` bold: the markup yields the spans `a`
      (bold), `b` (bold, italic) and `c` (italic); after the first two, bold is tracked as off,
      so the third span does not unset it. */
  lemma AsWrittenForgetsBold(env: Env, ctx: Snapshot, prefix: string, r: Renderer)
    ensures var bold := BaseStack[Bold := Bool(true)];
      var both := bold[Italic := Bool(true)];
      var italic := BaseStack[Italic := Bool(true)];
      SpansOf(env, ctx, prefix, "[bold]a[italic]b[/bold]c") == Ok([Span("a", bold), Span("b", both), Span("c", italic)])
    ensures var bold := BaseStack[Bold := Bool(true)];
      var both := bold[Italic := Bool(true)];
      var italic := BaseStack[Italic := Bool(true)];
      var s := SerializeFrom(AsWritten, r, State("", BaseStack), [Span("a", bold), Span("b", both)]);
      && Bold !in Diff(s.tracked, italic).unset
      && Get(s.tracked, Bold) == Bool(false)
  {
    var bold := BaseStack[Bold := Bool(true)];
    var both := bold[Italic := Bool(true)];
    var italic := BaseStack[Italic := Bool(true)];
    BoldItalicStyles();
    SerializeTwo(AsWritten, r, State("", BaseStack), Span("a", bold), Span("b", both));
    BoldItalicSpans(env, ctx, prefix);
    AsWrittenForgets(r, State("", BaseStack), "a", bold, "b", both, italic, Bold);
  }

  /** With the corrected tracking, the same markup, through the same three spans, unsets bold
      before `c`. */
  lemma CorrectedUnsetsBold(env: Env, ctx: Snapshot, prefix: string, r: Renderer)
    ensures var bold := BaseStack[Bold := Bool(true)];
      var both := bold[Italic := Bool(true)];
      var italic := BaseStack[Italic := Bool(true)];
      SpansOf(env, ctx, prefix, "[bold]a[italic]b[/bold]c") == Ok([Span("a", bold), Span("b", both), Span("c", italic)])
    ensures var bold := BaseStack[Bold := Bool(true)];
      var both := bold[Italic := Bool(true)];
      var italic := BaseStack[Italic := Bool(true)];
      var s := SerializeFrom(Corrected, r, State("", BaseStack), [Span("a", bold), Span("b", both)]);
      Bold in Diff(s.tracked, italic).unset
  {
    var bold := BaseStack[Bold := Bool(true)];
    var both := bold[Italic := Bool(true)];
    var italic := BaseStack[Italic := Bool(true)];
    BoldItalicStyles();
    SerializeTwo(Corrected, r, State("", BaseStack), Span("a", bold), Span("b", both));
    BoldItalicSpans(env, ctx, prefix);
    CorrectedRemembers(r, State("", BaseStack), "a", bold, "b", both, italic, Bold);
  }

  // ---------------------------------------------------------------------------------------
  // The loop

  /** `parse_spans(spans)`, with one of the two trackings. */
  method ParseSpans(mode: Tracking, r: Renderer, spans: seq<Span>) returns (buff: string)
    ensures buff == Serialize(mode, r, spans)
  {
    var tracked := BaseStack;
    buff := "";
    for i := 0 to |spans|
      invariant SerializeFrom(mode, r, State("", BaseStack), spans)
             == SerializeFrom(mode, r, State(buff, tracked), spans[i..])
    {
      assert spans[i..][1..] == spans[i + 1..];
      var next := SpanStep(mode, r, State(buff, tracked), spans[i]);
      buff, tracked := next.buff, next.tracked;
    }
    assert spans[|spans|..] == [];
    if |spans| > 0 {
      buff := buff + Trailer(spans[|spans| - 1]);
    }
  }

  /** The body of the loop of `parse_spans` for one span. */
  method SpanStep(mode: Tracking, r: Renderer, s: State, span: Span) returns (next: State)
    ensures next == Step(mode, r, s, span)
  {
    match span
    case FullReset =>
      var hyperlink := Get(s.tracked, Hyperlink);
      next := State(s.buff + ResetAll, BaseStack[Hyperlink := hyperlink]);
    case Span(text, attrs) =>
      forall a: Attr ensures a in Keys { KeysComplete(a); }
      var d := DiffLoop(s.tracked, attrs, Keys);
      var buff := s.buff + UnsetCodes(r, d.unset) + r.render(text, d.stack);
      buff := RemoveSuffix(buff, CloseLink);
      next := State(buff, if mode == AsWritten then d.stack else Full(attrs));
  }

  /** The value of a key in the `stack` once the keys `done` are visited. */
  function Expected(tracked: Stack, attrs: Stack, done: seq<Attr>, a: Attr): Value {
    if a in done && (a == Hyperlink || Sets(tracked, attrs, a)) then Get(attrs, a) else BaseValue(a)
  }

  /** Visiting one more key keeps the stack at its expected values. */
  lemma ExpectedVisit(tracked: Stack, attrs: Stack, done: seq<Attr>, k: Attr, stack: Stack, stack': Stack)
    requires forall b :: b in stack && stack[b] == Expected(tracked, attrs, done, b)
    requires stack' == if k == Hyperlink || Sets(tracked, attrs, k) then stack[k := Get(attrs, k)] else stack
    ensures forall b :: b in stack' && stack'[b] == Expected(tracked, attrs, done + [k], b)
  {
    forall b ensures b in stack' && stack'[b] == Expected(tracked, attrs, done + [k], b) {
      assert b in done + [k] <==> b in done || b == k;
    }
  }

  /** Once every key is visited, the stack is `StackOf`. */
  lemma ExpectedIsStackOf(tracked: Stack, attrs: Stack, keys: seq<Attr>, stack: Stack)
    requires forall a :: a in keys
    requires forall a :: a in stack && stack[a] == Expected(tracked, attrs, keys, a)
    ensures stack == StackOf(tracked, attrs)
  {
  }

  /** One key of `span.attrs.items()`: the hyperlink is always copied into the stack, a
      changed key goes into the stack when it is on and into `unset` when it is off. */
  method VisitKey(tracked: Stack, attrs: Stack, a: Attr, stack: Stack, unset: seq<Attr>)
    returns (stack': Stack, unset': seq<Attr>)
    ensures stack' == if a == Hyperlink || Sets(tracked, attrs, a) then stack[a := Get(attrs, a)] else stack
    ensures unset' == unset + if Clears(tracked, attrs, a) then [a] else []
  {
    stack', unset' := stack, unset;
    var value := Get(attrs, a);
    if a == Hyperlink {
      stack' := stack'[a := value];
    }
    if Get(tracked, a) != value {
      if value.Truthy() {
        stack' := stack'[a := value];
      } else {
        unset' := unset' + [a];
      }
    }
  }

  /** The loop over `span.attrs.items()`, whose keys come in the order `keys`: builds
      `stack` and `unset`. */
  method DiffLoop(tracked: Stack, attrs: Stack, keys: seq<Attr>) returns (d: Delta)
    requires forall a :: a in keys
    ensures d == Delta(StackOf(tracked, attrs), Cleared(tracked, attrs, keys))
  {
    var stack := BaseStack;
    var unset: seq<Attr> := [];
    BaseStackWellFormed();
    for i := 0 to |keys|
      invariant forall a :: a in stack && stack[a] == Expected(tracked, attrs, keys[..i], a)
      invariant unset == Cleared(tracked, attrs, keys[..i])
    {
      var a := keys[i];
      assert keys[..i + 1] == keys[..i] + [a];
      ClearedAppend(tracked, attrs, keys[..i], a);
      var stack', unset' := VisitKey(tracked, attrs, a, stack, unset);
      ExpectedVisit(tracked, attrs, keys[..i], a, stack, stack');
      stack, unset := stack', unset';
    }
    assert keys[..|keys|] == keys;
    ExpectedIsStackOf(tracked, attrs, keys, stack);
    d := Delta(stack, unset);
  }
}
