# Zenith markup, modelled in Dafny

Zenith turns a small tag language into ANSI-styled terminal text. A text such as
`[bold 141]Hello[/]` is read group by group; each group is a bracketed run of tags
followed by plain text. The tags of a group are applied to a style stack:
- style flags and their `/` unsetters;
- the full reset `/`;
- indexed, hex, RGB and CSS colours, with `@` marking the background;
- `/fg` and `/bg`;
- `!macros`, `~hyperlinks`;
- aliases looked up in a context under a prefix.

This yields a sequence of spans. `parse_spans` then writes the spans out as one ANSI
string. It emits only what changed from the previous span, batches SGR unsetters, closes
OSC 8 hyperlinks and appends a final reset. `markup` puts a 1024-entry least-recently-used
cache in front of the whole pipeline.

The project models these parts:
- `zenith/markup.py`: `alias`, `define`, `_parse_color`, `_apply_auto_foreground`,
  `_get_hashable_key`, `markup_spans` with `_add_prefix` and `_apply_tag`, `parse_spans`
  and `markup`;
- `zenith/color.py`: `Color.from_ansi`, `ansi`, `contrast` and `as_background`;
- `zenith/lru_cache.py`: `LRUCache`;
- `transform` of `zenith/macros.py`;
- the message texts of `zenith/exceptions.py`.

Modules, in dependency order:
- `Results`: `Option`, `Result` and the failure kinds the core raises;
- `Text`: the `str` operations the core uses (`isdigit`/`int`, `str`, `lstrip`,
  `removesuffix`, `split`, `join`, `replace`);
- `Dict`: an insertion-ordered string-keyed dictionary;
- `Errors`: `repr()` and the exception messages;
- `Colors`: `Color` and its conversions;
- `Lru`: the cache class and the functions that specify it;
- `Macros`: `transform`, as a loop proved against a recursive definition;
- `Markup`: keys, the context class, `alias`, `define`, colours, tag application and auto
  foreground;
- `SpanBuilder`: the `RE_MARKUP` scan and `markup_spans`;
- `Serializer`: `parse_spans`;
- `MarkupCache`: `markup` with its cache.

Several inputs are parameters, because they come from code outside this model:
- `Palette`: `COLOR_TABLE`, `CSS_COLORS` and the luminance threshold;
- `Renderer`: `str(Span.mutate(...))` and `UNSETTERS` of the `slate`/`gunmetal` libraries;
- `Env.runMacro`: the macro callables, named by identity.

Python's recursion limit on alias expansion is a fuel of 1000 levels (`AliasDepthLimit`).

`MarkupCache` takes the tracking of the terminal state as a parameter: `AsWritten` is line 401 of
zenith/markup.py as the code has it, `Corrected` is the fix described under Findings.

Behaviours of the code that the model keeps:
- aliases and macros are looked up only under `prefix + name`, with no fallback to the bare name;
- macros take no arguments;
- the blinking key is `fast_blink`;
- unknown tags and unset macros raise `ValueError`;
- names of base keys such as `foreground` are accepted as flag tags.

## Model

| member | source | states |
|---|---|---|
| Text.ParseNatToString | zenith/markup.py:142 | `int(str(n)) == n`: the decimal text of a number reads back as that number |
| Text.ParseHexPair | zenith/markup.py:162-164 | two hex digits written for a `#rrggbb` component read back as the byte `16 * high + low` |
| Text.LStrip | zenith/markup.py:136 | `lstrip(c)` removes exactly the leading run of `c` and leaves a suffix that does not start with `c` |
| Text.RemoveSuffix | zenith/markup.py:399 | `removesuffix` removes the suffix exactly when the string ends with it, and otherwise changes nothing |
| Text.ReplaceAbsent | zenith/markup.py:245 | `replace` leaves a text with no occurrence of the pattern unchanged |
| Text.Split | zenith/color.py:21 | `split(";")` gives at least one part and no part contains the separator |
| Text.JoinSplit | zenith/color.py:21 | joining the parts of a split with the separator gives back the text |
| Text.SplitJoin | zenith/markup.py:162 | splitting a join of separator-free parts gives back the parts |
| Text.Words | zenith/markup.py:308 | `str.split()` yields non-empty words without whitespace |
| Text.WordsCons | zenith/markup.py:322 | a word followed by whitespace splits off as the first word |
| Dict.LookupStore | zenith/markup.py:109 | after `d[key] = value` the key reads back the value and every other key reads as before |
| Dict.StoreSize | zenith/markup.py:131 | storing an existing key keeps the size; a new key adds one entry |
| Dict.StoreInPlace | zenith/markup.py:109 | storing under a key already present replaces its value at its own position, so the items keep the insertion order `_get_hashable_key` reads |
| Dict.StoreNew | zenith/markup.py:131 | storing a new key appends it after every item already there |
| Errors.Repr | zenith/exceptions.py:13 | `repr()` of a string is enclosed in the quote Python picks for it |
| Errors.ReprRoundTrip | zenith/exceptions.py:13 | `repr()` loses nothing: the string reads back from its representation |
| Errors.ReprPlain | zenith/exceptions.py:13 | a string without quotes, backslashes or control characters is shown as `'s'` |
| Errors.ErrorTextParts | zenith/exceptions.py:10-18 | the message is `<start> <type> ` then the recoverable `repr` of the tag, then `.` without a context or `: <context>` with one |
| Errors.ErrorStrings | zenith/exceptions.py:26-50 | with defaults the errors read `Unknown tag 'x'.` and `Invalid tag 'x'.`, and a name error never reads like a semantics error |
| Errors.DefineMessageIgnoresIdentifier | zenith/markup.py:126-128 | as written, the `define` message is the same for every pair of identifiers, and it differs from the message that names the identifier |
| Errors.DefineMessageNamesIdentifier | zenith/markup.py:125-128 | the corrected message carries the identifier, recoverable from its `repr` |
| Errors.MessageOfUnknownTag | zenith/markup.py:306 | the unknown-tag `ValueError` carries the same text as a `ZmlNameError` for that tag |
| Errors.MessageNamesTag | zenith/markup.py:278-306 | each `ValueError` about a tag (and the colour message of lines 151-154) holds its `repr` right after the fixed opening, and the tag reads back from it |
| Colors.Contrast | zenith/color.py:83-93 | exactly when the luminance is defined: off-black on a light colour, off-white otherwise, keeping the background flag |
| Colors.AsBackground | zenith/color.py:95-98 | the same rgb with the background flag set to the argument |
| Colors.AsBackgroundIdempotent | zenith/color.py:95-98 | applying `as_background` twice with one setting equals applying it once |
| Colors.FromAnsiCode | zenith/color.py:27-50 | a one-part body maps 30-37/40-47 and 90-97/100-107 to palette indices 0-15, background for the 4x/10x codes, and other codes to themselves |
| Colors.FromAnsiStandard | zenith/color.py:35-41 | codes `30+i` and `40+i` are palette colour `i`, as foreground and background |
| Colors.FromAnsiBright | zenith/color.py:43-48 | codes `90+i` and `100+i` are palette colour `8+i`, as foreground and background |
| Colors.FromAnsiIndexed | zenith/color.py:27-50 | a body of two or three parts is the palette colour named by its last part, never a background |
| Colors.FromAnsiExamples | zenith/color.py:17-50 | `31`, `45`, `93` and `105` read as palette colours 1, 5 (background), 11 and 13 (background), as the colour tests expect |
| Colors.TrueColorRoundTrip | zenith/color.py:21-25 | a `38;2;...` or `48;2;...` body yields a colour, background exactly for `48`, whose `ansi` is that body again |
| Colors.AnsiRoundTrip | zenith/color.py:52-54 | `from_ansi(c.ansi)` gives back `c`'s components (as text) and background flag |
| Colors.ContrastForeground | zenith/markup.py:183 | the auto foreground is always `38;2;35;35;35` or `38;2;245;245;245` |
| Lru.WithoutAt | zenith/lru_cache.py:54-59 | in a repetition-free order, `move_to_end` first takes the key out of its place and leaves the keys before and after it in order |
| Lru.SetKeepsCoherent | zenith/lru_cache.py:57-62 | `cache[key] = value` keeps each key once in the order, the same keys in the order and the table, and at most `capacity` entries |
| Lru.SetThenRead | zenith/lru_cache.py:57-62 | after `cache[key] = value` the key holds the value (an empty cache when the capacity is below one) |
| Lru.SetEvictsLeastRecent | zenith/lru_cache.py:57-62 | storing a new key into a full cache evicts exactly the least recently used key |
| Lru.SetExisting | zenith/lru_cache.py:57-59 | storing an existing key moves it to the end and evicts nothing |
| Lru.ReadProtectsFromEviction | zenith/lru_cache.py:50-62 | a key just read survives the next store of another key when the capacity is at least two |
| Lru.ScenarioFromTests | tests/test_lru_cache.py:6-20 | with capacity 2, storing keys 0, 1, 2 leaves exactly 1 and 2 with their values |
| Lru.LruCache.Contains | zenith/lru_cache.py:47-48 | `key in cache` exactly when the key is stored |
| Lru.LruCache.GetItem | zenith/lru_cache.py:50-55 | a stored key yields its value and becomes most recent; a missing key is the `KeyError` (`None`) and changes nothing |
| Lru.LruCache.SetItem | zenith/lru_cache.py:57-62 | the new order and table are the move-to-end and eviction of `OrderAfterSet`/`EntriesAfterSet`, keeping the cache invariant |
| Lru.LruCache.Get | zenith/lru_cache.py:64-67 | `get` yields the stored value, or the default for a missing key, without touching the order |
| Macros.Transform | zenith/macros.py:10-30 | the loop's output equals the recursive definition of the transformation |
| Macros.IdentityTransformer | zenith/macros.py:10-30 | a transformer that returns each character unchanged returns the text unchanged |
| Macros.TransformerSeesPlain | zenith/macros.py:17-28 | a transformer that drops characters leaves exactly the brackets and the group contents |
| Macros.PlainTextTransform | zenith/macros.py:23-28 | on bracket-free text every character is transformed, numbered from the running index |
| Macros.BracketGroupCopied | zenith/macros.py:18-25 | a bracketed group is copied verbatim and does not advance the index |
| Macros.PlainThenRest | zenith/macros.py:17-28 | a bracket-free run is transformed character by character from the running index, and the rest continues from that index plus the run's length |
| Macros.TransformWritten | zenith/macros.py:17-28 | on text made of bracketed groups each followed by a plain run, the groups are copied and each plain run is numbered on from the characters transformed before it |
| Macros.TransformText | zenith/macros.py:10-30 | on a plain lead followed by such groups and runs, the lead is numbered from 0 and the runs continue from its length |
| Macros.TransformExample | zenith/macros.py:10-30 | `a[x]b` becomes `t(0, a)`, `[x]`, `t(1, b)`: the group is copied and does not advance the index |
| Macros.MarkupOfWritten | zenith/macros.py:17-25 | a transformer that deletes every character leaves exactly the bracketed groups of such a text |
| Markup.AttrNamedName | zenith/markup.py:73-86 | each style key is recognised by its own name |
| Markup.BaseStackWellFormed | zenith/markup.py:73-86 | `BASE_STYLE_STACK` holds every key: the nine flags off and the three strings empty |
| Markup.Context.Current | zenith/markup.py:199-204 | a snapshot of the context holds its alias and macro tables |
| Markup.Alias | zenith/markup.py:89-109 | `alias` stores each pair, kebab-cased unless `keep_case`, and does not touch the macros |
| Markup.StoreAliasesLookup | zenith/markup.py:106-109 | after `alias`, a key reads the value of the last pair stored under it, or its old value |
| Markup.AliasReadsBack | zenith/markup.py:106-109 | the last alias given reads back under its stored key |
| Markup.AliasKeepsOthers | zenith/markup.py:106-109 | keys `alias` was not given read as before |
| Markup.KebabHasNoUnderscore | zenith/markup.py:107 | a kebab-cased alias key has no underscore |
| Markup.Define | zenith/markup.py:112-131 | `define` succeeds exactly for an identifier starting with `!` and stores the macro then; otherwise it raises and the context is unchanged |
| Markup.AddPrefixInjective | zenith/markup.py:229-235 | two keys that get the same prefixed key are the same key, so prefixing never merges two names |
| Markup.ParseIndexedColor | zenith/markup.py:134-154 | index 0-7 gives `30+i`/`40+i`, 8-15 gives `90+i-8`/`100+i-8`, 16-255 gives `38;5;i`/`48;5;i`, and a larger index is the error |
| Markup.IndexedColorRoundTrip | zenith/markup.py:134-154 | the body of an indexed colour reads back with `from_ansi` as palette colour `i`, background only for the 16-colour codes |
| Markup.ParseHexColor | zenith/markup.py:159-166 | `#rrggbb` (after an optional `@`) becomes `38;2;r;g;b` or `48;2;r;g;b` in decimal |
| Markup.ParseRgbColor | zenith/markup.py:156-166 | any other non-CSS colour text is passed through after `38;2;` or `48;2;` |
| Markup.ParseColorOfMarked | zenith/markup.py:135-136 | a leading `@` selects the background offset of 10 and is stripped |
| Markup.FirstIndex | zenith/markup.py:286 | the position found holds the macro and no earlier position does |
| Markup.RemoveFirstAt | zenith/markup.py:286 | `list.remove` deletes the first occurrence only and keeps every other macro in its activation order |
| Markup.ApplyTag | zenith/markup.py:247-309 | applying a tag keeps a well-formed stack |
| Markup.ApplyTagsAppend | zenith/markup.py:308-309 | applying two runs of tags is applying the first, then the second, stopping at the first error |
| Markup.SlashedTag | zenith/markup.py:254-255 | a leading `/` makes the tag an unsetter |
| Markup.ResetTag | zenith/markup.py:257-260 | `/` (and `//`) restores the base style and keeps the active macros |
| Markup.FlagTag | zenith/markup.py:263-269 | a style key's name turns it on and `/name` turns it off, nothing else changing |
| Markup.ColorUnsetter | zenith/markup.py:263-265 | `fg`/`bg`, with or without `/`, clear the foreground or the background |
| Markup.ColorTag | zenith/markup.py:271-275 | a colour tag sets the layer its `@` selects to the parsed body, or fails with the parse error |
| Markup.HyperlinkTag | zenith/markup.py:297-300 | `~url` sets the hyperlink to the url and `/~url` clears it |
| Markup.MacroTag | zenith/markup.py:277-295 | `!name` appends the macro found under the prefix, `/!name` removes it; an unknown macro and unsetting an inactive one are the two errors |
| Markup.AliasTag | zenith/markup.py:302-309 | any other tag is looked up under `prefix + tag`, or `"@" + prefix + rest` for a tag `@rest`, and is its alias's words applied in order, an unknown tag error, or too deep a recursion |
| Markup.SelfAliasFails | zenith/markup.py:302-309 | an alias that names itself fails instead of looping |
| Markup.AutoForeground | zenith/markup.py:169-184 | the stack is unchanged when nothing is derived; otherwise only the foreground is added |
| Markup.AutoForegroundCases | zenith/markup.py:169-184 | a foreground is derived exactly when, after the invert swap, no foreground but a background is set, and it is one of the two contrast colours |
| Markup.AutoForegroundOnLight | zenith/markup.py:172-184 | on a light background the derived foreground is off-black |
| SpanBuilder.ScanPrint | zenith/markup.py:66 | `RE_MARKUP.finditer` reads back the groups a well-formed text is written from |
| SpanBuilder.ScanGroup | zenith/markup.py:66 | a bracketed group and its plain text are one match |
| SpanBuilder.LoneBracketDropped | zenith/markup.py:311-316 | a stray bracket matches nothing and is skipped |
| SpanBuilder.GroupTagsApply | zenith/markup.py:322-326 | the tags of a group are applied in order and each `/` yields a `FULL_RESET` |
| SpanBuilder.RunMacrosAppend | zenith/markup.py:329-330 | the active macros transform the plain text in activation order |
| SpanBuilder.EmitGroupSpan | zenith/markup.py:311-337 | a group yields its resets and one span of the macro-transformed text with the auto-foreground style, and the derived foreground is deleted afterwards |
| SpanBuilder.PlainTextSpans | zenith/markup.py:311-337 | a text without brackets yields one span in the base style, or none when empty |
| SpanBuilder.FlagGroupSpans | zenith/markup.py:311-337 | `[flag]text` yields one span of the text with that flag on |
| SpanBuilder.FlagStep | zenith/markup.py:311-337 | a group whose one tag sets or unsets a flag, with no colour and no macro active, yields one span styled by the stack with that flag changed |
| SpanBuilder.FlagsBuild | zenith/markup.py:311-337 | a run of such flag groups, from an uncoloured stack with no macro active, yields one span per group, each styled by the stack its flag change leaves (`FlagRun`) |
| SpanBuilder.BoldItalicSpans | zenith/markup.py:311-337 | `[bold]a[italic]b[/bold]c` yields `a` bold, `b` bold and italic, and `c` italic only |
| SpanBuilder.SpansOfPrinted | zenith/markup.py:245-337 | a text written from well-formed groups yields the spans of exactly those groups: the `][` replacement changes nothing in it |
| SpanBuilder.ExecuteTags | zenith/markup.py:247-309 | the imperative `_apply_tag` loop computes the functional tag application |
| SpanBuilder.MarkupSpans | zenith/markup.py:209-337 | `markup_spans` yields the spans of the specification, or its first error |
| Serializer.DiffSpec | zenith/markup.py:368-383 | only changed keys (and the hyperlink) leave the base style in `stack`, and `unset` holds exactly the changed keys that are off |
| Serializer.Cleared | zenith/markup.py:378-383 | `unset` holds exactly the keys that changed and are off |
| Serializer.DiffLoop | zenith/markup.py:368-383 | the loop over the span's attributes builds exactly that `stack` and `unset` |
| Serializer.UnsetHyperlinkOnly | zenith/markup.py:385-396 | unsetting only the hyperlink emits only the OSC 8 close; nothing to unset emits nothing |
| Serializer.UnsetBatched | zenith/markup.py:385-396 | other unsetters are batched into one SGR sequence, followed by the OSC 8 close when the hyperlink is unset |
| Serializer.FullResetStep | zenith/markup.py:358-366 | `FULL_RESET` writes `CSI 0 m` and resets the tracked style but keeps the hyperlink |
| Serializer.AnyStyledSpec | zenith/markup.py:403-405 | the final reset is written exactly when some non-hyperlink attribute of the last span is on |
| Serializer.NoSpans | zenith/markup.py:403-410 | no spans give the empty string |
| Serializer.SerializeAppend | zenith/markup.py:358-401 | serialising two runs of spans continues from the state the first leaves |
| Serializer.PlainSpan | zenith/markup.py:358-410 | one span in the base style is its rendering alone, with no codes around it |
| Serializer.FlagSpan | zenith/markup.py:358-410 | one span with a flag on is its rendering followed by a final reset |
| Serializer.AsWrittenTracked | zenith/markup.py:401 | as written, the tracked style after a span keeps only the changed and set keys and the hyperlink |
| Serializer.CorrectedTracked | zenith/markup.py:401 | corrected, the tracked style after a span is the span's own style |
| Serializer.CorrectedUnsets | zenith/markup.py:378-383 | corrected, a key on in one span and off in the next is unset, and one changed to on is set |
| Serializer.AsWrittenForgets | zenith/markup.py:401 | as written, a key set and then kept on is tracked as off, so a later span with it off does not unset it |
| Serializer.CorrectedRemembers | zenith/markup.py:401 | corrected, a key on in one span and off in the next is unset |
| Serializer.AsWrittenForgetsBold | zenith/markup.py:401 | as written, `[bold]a[italic]b[/bold]c` yields the spans `a`, `b`, `c`, and after `a` and `b` bold is tracked off, so it is never unset before `c` |
| Serializer.CorrectedUnsetsBold | zenith/markup.py:401 | corrected, the same three spans of `[bold]a[italic]b[/bold]c` unset bold before `c` |
| Serializer.SpanStep | zenith/markup.py:358-401 | one pass of the loop computes the step function |
| Serializer.ParseSpans | zenith/markup.py:340-410 | `parse_spans` computes the serialisation the functions specify |
| MarkupCache.HashableKeyInjective | zenith/markup.py:187-206 | two calls share a key exactly when text, both tables (in order) and prefix agree |
| MarkupCache.EmptyCoherent | zenith/markup.py:24 | the empty cache holds no wrong entry, for either tracking of the terminal state |
| MarkupCache.Markup | zenith/markup.py:413-440 | the result is the markup of the inputs (as written or corrected), hit or miss, and the cache stays coherent; a hit leaves the table alone and moves the key to the most recent end, a successful miss stores the result as `cache[key] = value` does, and a failure leaves the cache as it was |
| MarkupCache.PlainMarkup | zenith/markup.py:413-440 | bracket-free text is rendered in the base style with no codes added |
| MarkupCache.FlagMarkup | zenith/markup.py:413-440 | `[flag]text` is the text rendered with the flag on, followed by a reset |

## Left out

- `Color.luminance` works on floating point. `Palette.light` stands for its comparison with 0.179, and fails when a component is not a number.
- `zenith/color_info.py` is not part of this model. `COLOR_TABLE` and `CSS_COLORS` are the maps of `Palette`.
- `zenith/palette.py` is not part of this model. None of the core's operations use it.
- The macros of `zenith/macros.py` other than `transform` are left out. They are callables the core runs through `Env.runMacro`, and several of them read the clock or a palette.
- The CLI (`zenith/__main__.py`) and the experiments are left out. They are I/O around the core.
- `GLOBAL_CONTEXT` and the global `_markup_cache` are explicit parameters (`Context`, `LruCache`) rather than module globals.
- `Span` rendering and `UNSETTERS` come from the `slate`/`gunmetal` libraries, which are not part of this model. `Renderer` is a parameter, and its `unsetter` is total, so `UNSETTERS.get` never yields `None`.
- Span attributes are visited in the twelve-field order of `BASE_STYLE_STACK`. A key a span lacks reads as its base value, as a `Span` field default does.
- `markup_spans` is a generator. The model yields the whole list or the first error, so spans yielded before an error are not modelled.
- Python's recursion limit becomes a fuel of 1000 alias levels (`AliasDepthLimit`), and the two do not agree in either direction. Python's limit counts every frame on the stack: `markup`, `parse_spans`, the `markup_spans` generator and each nested `_apply_tag`. So a chain somewhat shorter than 1000 aliases already raises `RecursionError` in Python, while the model expands it. A chain deeper than 1000 always fails as too deep in the model, but Python accepts it when the recursion limit has been raised.
- `int()` and `isdigit()` cover ASCII digits only. Underscores, signs, surrounding whitespace and non-ASCII digits are not modelled.
- In `RE_COLOR`, `$` can also match just before a trailing newline. This is not modelled.
- `Errors.Repr` uses the ASCII escapes of `repr()`. Non-ASCII characters that are not printable are passed through unescaped.
- `MarkupCache.Coherent` assumes pure macros and a fixed palette and renderer. The source cache would also return stale strings if a macro's output or the palette changed.

## Findings

| source | as written | input that shows it | evidently intended | confidence | as-written member | corrected member |
|---|---|---|---|---|---|---|
| zenith/markup.py:401 | the tracked style is updated with `stack`. That record holds only the keys changed and on (and the hyperlink); every other key goes back to its base value | `[bold]a[italic]b[/bold]c`: bold is tracked off after `b`, so no unsetter is written before `c` and `c` stays bold | track the style each span leaves the terminal in, so that bold is unset before `c` | not executed | Serializer.AsWrittenForgetsBold | Serializer.CorrectedUnsetsBold |
| zenith/markup.py:126-128 | the `ValueError` message lacks the `f` prefix and shows `{identifier!r}` literally | `define("upper", f)` and `define("lower", f)` raise the same message | the message names the bad identifier through its `repr` | not executed | Errors.DefineMessageIgnoresIdentifier | Errors.DefineMessageNamesIdentifier |
