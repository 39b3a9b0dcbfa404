/** `transform` of zenith/macros.py: applies a per-character transformer to the characters
    outside the markup's `[...]` groups, numbering those characters from zero. */
module Macros {

  predicate IsBracket(c: char) {
    c == '[' || c == ']'
  }

  /** The output of the loop from a given point on: `index` is the number of characters
      transformed so far and `inGroup` whether the last bracket seen was an opening one. */
  function TransformFrom(text: string, transformer: (nat, char) -> string, index: nat, inGroup: bool): string
    decreases |text|
  {
    if text == [] then ""
    else if IsBracket(text[0]) then [text[0]] + TransformFrom(text[1..], transformer, index, text[0] == '[')
    else if inGroup then [text[0]] + TransformFrom(text[1..], transformer, index, inGroup)
    else transformer(index, text[0]) + TransformFrom(text[1..], transformer, index + 1, inGroup)
  }

  /** The characters of `text` the transformer is called on (those outside groups). */
  function Plain(text: string, inGroup: bool): (r: string)
    ensures |r| <= |text|
    ensures forall c :: c in r ==> c in text && !IsBracket(c)
  {
    if text == [] then ""
    else if IsBracket(text[0]) then Plain(text[1..], text[0] == '[')
    else if inGroup then Plain(text[1..], inGroup)
    else [text[0]] + Plain(text[1..], inGroup)
  }

  /** The concatenation of `transformer(start + j, chars[j])` over all `j`. */
  function Indexed(chars: string, transformer: (nat, char) -> string, start: nat): string
    decreases |chars|
  {
    if chars == [] then "" else transformer(start, chars[0]) + Indexed(chars[1..], transformer, start + 1)
  }

  lemma Associate(a: string, b: string, c: string)
    ensures (a + b) + c == a + (b + c)
  {
  }

  /** `transform(text, transformer)`. */
  method Transform(text: string, transformer: (nat, char) -> string) returns (output: string)
    ensures output == TransformFrom(text, transformer, 0, false)
  {
    var i: nat := 0;
    output := "";
    var inGroup := false;
    for k := 0 to |text|
      invariant output + TransformFrom(text[k..], transformer, i, inGroup)
             == TransformFrom(text, transformer, 0, false)
    {
      var c := text[k];
      assert text[k..][1..] == text[k + 1..];
      ghost var before := output;
      if c == '[' || c == ']' {
        output := output + [c];
        inGroup := c == '[';
        Associate(before, [c], TransformFrom(text[k + 1..], transformer, i, inGroup));
        continue;
      }
      if inGroup {
        output := output + [c];
        Associate(before, [c], TransformFrom(text[k + 1..], transformer, i, inGroup));
        continue;
      }
      output := output + transformer(i, c);
      Associate(before, transformer(i, c), TransformFrom(text[k + 1..], transformer, i + 1, inGroup));
      i := i + 1;
    }
    assert text[|text|..] == [];
  }

  /** With a transformer that returns every character unchanged, `transform` is the identity. */
  lemma {:induction false} IdentityTransformer(text: string, transformer: (nat, char) -> string, index: nat, inGroup: bool)
    requires forall i: nat, c: char :: transformer(i, c) == [c]
    ensures TransformFrom(text, transformer, index, inGroup) == text
    decreases |text|
  {
    if text != [] {
      var next := if IsBracket(text[0]) then text[0] == '[' else inGroup;
      var nextIndex := if IsBracket(text[0]) || inGroup then index else index + 1;
      IdentityTransformer(text[1..], transformer, nextIndex, next);
      assert text == [text[0]] + text[1..];
    }
  }

  /** A transformer that deletes every character leaves only the markup: the brackets and
      the characters inside groups. */
  lemma {:induction false} TransformerSeesPlain(text: string, transformer: (nat, char) -> string, index: nat, inGroup: bool)
    requires forall i: nat, c: char :: transformer(i, c) == ""
    ensures TransformFrom(text, transformer, index, inGroup) == Markup(text, inGroup)
    decreases |text|
  {
    if text != [] {
      var next := if IsBracket(text[0]) then text[0] == '[' else inGroup;
      var nextIndex := if IsBracket(text[0]) || inGroup then index else index + 1;
      TransformerSeesPlain(text[1..], transformer, nextIndex, next);
    }
  }

  /** The characters of `text` inside groups and the brackets themselves. */
  function Markup(text: string, inGroup: bool): string {
    if text == [] then ""
    else if IsBracket(text[0]) then [text[0]] + Markup(text[1..], text[0] == '[')
    else if inGroup then [text[0]] + Markup(text[1..], inGroup)
    else Markup(text[1..], inGroup)
  }

  /** Outside any group, and in text without brackets, the result is the concatenation of the
      transformer's output for each character with its position. */
  lemma {:induction false} PlainTextTransform(text: string, transformer: (nat, char) -> string, index: nat)
    requires forall k :: 0 <= k < |text| ==> !IsBracket(text[k])
    ensures TransformFrom(text, transformer, index, false) == Indexed(text, transformer, index)
    ensures Plain(text, false) == text
    decreases |text|
  {
    if text != [] {
      PlainTextTransform(text[1..], transformer, index + 1);
      assert text == [text[0]] + text[1..];
    }
  }

  /** Inside a group no character is transformed, up to and including its closing bracket. */
  lemma {:induction false} GroupCopied(tags: string, rest: string, transformer: (nat, char) -> string, index: nat)
    requires forall k :: 0 <= k < |tags| ==> !IsBracket(tags[k])
    ensures TransformFrom(tags + "]" + rest, transformer, index, true)
         == tags + "]" + TransformFrom(rest, transformer, index, false)
    decreases |tags|
  {
    if tags == [] {
      assert tags + "]" + rest == "]" + rest;
      assert ("]" + rest)[1..] == rest;
    } else {
      GroupCopied(tags[1..], rest, transformer, index);
      assert (tags + "]" + rest)[1..] == tags[1..] + "]" + rest;
      assert tags == [tags[0]] + tags[1..];
    }
  }

  /** A whole `[tags]` group is copied verbatim and does not advance the character index. */
  lemma {:induction false} BracketGroupCopied(tags: string, rest: string, transformer: (nat, char) -> string, index: nat, inGroup: bool)
    requires forall k :: 0 <= k < |tags| ==> !IsBracket(tags[k])
    ensures TransformFrom("[" + tags + "]" + rest, transformer, index, inGroup)
         == "[" + tags + "]" + TransformFrom(rest, transformer, index, false)
  {
    var s := "[" + tags + "]" + rest;
    assert s[0] == '[';
    assert s[1..] == tags + "]" + rest;
    GroupCopied(tags, rest, transformer, index);
  }

  predicate BracketFree(s: string) {
    forall k :: 0 <= k < |s| ==> !IsBracket(s[k])
  }

  /** A markup text written group by group: each segment is its `[tags]` followed by its
      plain text. */
  function Written(segments: seq<(string, string)>): string {
    if segments == [] then ""
    else "[" + segments[0].0 + "]" + segments[0].1 + Written(segments[1..])
  }

  predicate WellWritten(segments: seq<(string, string)>) {
    forall j :: 0 <= j < |segments| ==> BracketFree(segments[j].0) && BracketFree(segments[j].1)
  }

  /** What `transform` promises for a written text: every group copied, and the plain
      characters transformed with consecutive indices from `index` on. */
  function WrittenIndexed(segments: seq<(string, string)>, transformer: (nat, char) -> string, index: nat): string
    decreases |segments|
  {
    if segments == [] then ""
    else
      "[" + segments[0].0 + "]" + Indexed(segments[0].1, transformer, index)
      + WrittenIndexed(segments[1..], transformer, index + |segments[0].1|)
  }

  /** The groups of a written text, without their plain text. */
  function Groups(segments: seq<(string, string)>): string {
    if segments == [] then "" else "[" + segments[0].0 + "]" + Groups(segments[1..])
  }

  /** A plain run is transformed from the running index, and what follows it continues from
      the index after the run. */
  lemma {:induction false} PlainThenRest(plain: string, rest: string, transformer: (nat, char) -> string, index: nat)
    requires BracketFree(plain)
    ensures TransformFrom(plain + rest, transformer, index, false)
         == Indexed(plain, transformer, index) + TransformFrom(rest, transformer, index + |plain|, false)
    decreases |plain|
  {
    if plain == [] {
      assert plain + rest == rest;
    } else {
      assert (plain + rest)[0] == plain[0];
      assert (plain + rest)[1..] == plain[1..] + rest;
      PlainThenRest(plain[1..], rest, transformer, index + 1);
      Associate(transformer(index, plain[0]), Indexed(plain[1..], transformer, index + 1),
                TransformFrom(rest, transformer, index + |plain|, false));
    }
  }

  /** Over a written text the groups are copied and the transformer sees the plain
      characters numbered 0, 1, 2, ... across all the groups. */
  lemma {:induction false} TransformWritten(segments: seq<(string, string)>, transformer: (nat, char) -> string, index: nat)
    requires WellWritten(segments)
    ensures TransformFrom(Written(segments), transformer, index, false) == WrittenIndexed(segments, transformer, index)
    decreases |segments|
  {
    if segments != [] {
      var tags, plain := segments[0].0, segments[0].1;
      var rest := Written(segments[1..]);
      assert Written(segments) == "[" + tags + "]" + (plain + rest);
      BracketGroupCopied(tags, plain + rest, transformer, index, false);
      PlainThenRest(plain, rest, transformer, index);
      assert WellWritten(segments[1..]) by {
        forall j | 0 <= j < |segments[1..]|
          ensures BracketFree(segments[1..][j].0) && BracketFree(segments[1..][j].1)
        {
          assert segments[1..][j] == segments[j + 1];
        }
      }
      TransformWritten(segments[1..], transformer, index + |plain|);
      Associate("[" + tags + "]", Indexed(plain, transformer, index),
                TransformFrom(rest, transformer, index + |plain|, false));
    }
  }

  /** `transform` of a whole text: a leading plain run, then groups, with the indices running
      on from the leading run into every later plain run. */
  lemma {:induction false} TransformText(lead: string, segments: seq<(string, string)>, transformer: (nat, char) -> string)
    requires BracketFree(lead) && WellWritten(segments)
    ensures TransformFrom(lead + Written(segments), transformer, 0, false)
         == Indexed(lead, transformer, 0) + WrittenIndexed(segments, transformer, |lead|)
  {
    PlainThenRest(lead, Written(segments), transformer, 0);
    TransformWritten(segments, transformer, |lead|);
  }

  /** In `a[x]b` the transformer turns `a` with index 0 and `b` with index 1, and `[x]` is
      copied. */
  lemma TransformExample(transformer: (nat, char) -> string)
    ensures TransformFrom("a[x]b", transformer, 0, false) == transformer(0, 'a') + "[x]" + transformer(1, 'b')
  {
    var segments := [("x", "b")];
    assert Written(segments) == "[x]b";
    assert "a" + Written(segments) == "a[x]b";
    TransformText("a", segments, transformer);
    assert Indexed("b", transformer, 1) == transformer(1, 'b');
    assert Indexed("a", transformer, 0) == transformer(0, 'a');
  }

  lemma {:induction false} IndexedErased(chars: string, transformer: (nat, char) -> string, index: nat)
    requires forall i: nat, c: char :: transformer(i, c) == ""
    ensures Indexed(chars, transformer, index) == ""
    decreases |chars|
  {
    if chars != [] {
      IndexedErased(chars[1..], transformer, index + 1);
    }
  }

  lemma {:induction false} WrittenErased(segments: seq<(string, string)>, transformer: (nat, char) -> string, index: nat)
    requires forall i: nat, c: char :: transformer(i, c) == ""
    ensures WrittenIndexed(segments, transformer, index) == Groups(segments)
    decreases |segments|
  {
    if segments != [] {
      IndexedErased(segments[0].1, transformer, index);
      WrittenErased(segments[1..], transformer, index + |segments[0].1|);
    }
  }

  /** The markup of a written text is exactly its `[tags]` groups: the leading run and every
      plain run are left out. */
  lemma {:induction false} MarkupOfWritten(lead: string, segments: seq<(string, string)>)
    requires BracketFree(lead) && WellWritten(segments)
    ensures Markup(lead + Written(segments), false) == Groups(segments)
  {
    var erase := (i: nat, c: char) => "";
    TransformerSeesPlain(lead + Written(segments), erase, 0, false);
    TransformText(lead, segments, erase);
    IndexedErased(lead, erase, 0);
    WrittenErased(segments, erase, |lead|);
  }
}
