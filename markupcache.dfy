/** `_get_hashable_key` and `markup` of zenith/markup.py: markup text to an ANSI string,
    through a least-recently-used cache keyed by the text, the context and the prefix. */
module MarkupCache {
  import opened Results
  import opened Text
  import opened Lru
  import opened Dict
  import opened Tags = Markup
  import opened SpanBuilder
  import opened Serializer

  /** The capacity of `_markup_cache`. */
  const CacheCapacity: int := 1024

  /** The hashable key: the text, the items of both tables in insertion order, each under
      its name, and the prefix. */
  datatype CacheKey = CacheKey(
    text: string,
    aliases: (string, Table<string>),
    macros: (string, Table<MacroId>),
    prefix: string)

  /** `_get_hashable_key(text, ctx, prefix)`. */
  function HashableKey(text: string, ctx: Snapshot, prefix: string): CacheKey {
    CacheKey(text, ("aliases", ctx.aliases), ("macros", ctx.macros), prefix)
  }

  /** Two calls share a key exactly when their text, both tables (items in order) and
      prefix are the same, so a cached string is never returned for other inputs. */
  lemma HashableKeyInjective(t1: string, c1: Snapshot, p1: string, t2: string, c2: Snapshot, p2: string)
    ensures HashableKey(t1, c1, p1) == HashableKey(t2, c2, p2) <==> t1 == t2 && c1 == c2 && p1 == p2
  {
    if HashableKey(t1, c1, p1) == HashableKey(t2, c2, p2) {
      assert c1.aliases == HashableKey(t1, c1, p1).aliases.1;
      assert c1.macros == HashableKey(t1, c1, p1).macros.1;
    }
  }

  /** `parse_spans(markup_spans(text, ctx, prefix))`, with the tracking of the terminal
      state as written (`AsWritten`) or corrected (`Corrected`); a failure of `markup_spans`
      is raised and nothing is returned. */
  function MarkupText(mode: Tracking, env: Env, r: Renderer, ctx: Snapshot, text: string, prefix: string): Result<string> {
    var spans :- SpansOf(env, ctx, prefix, text);
    Ok(Serialize(mode, r, spans))
  }

  /** Every cached string is the markup of the text, context and prefix of its key. */
  ghost predicate Coherent(mode: Tracking, env: Env, r: Renderer, cache: LruCache<CacheKey, string>)
    reads cache
  {
    forall text, ctx, prefix :: HashableKey(text, ctx, prefix) in cache.entries
      ==> Ok(cache.entries[HashableKey(text, ctx, prefix)]) == MarkupText(mode, env, r, ctx, text, prefix)
  }

  /** `_markup_cache = LRUCache(1024)`: empty, hence coherent with any environment. */
  method NewCache() returns (cache: LruCache<CacheKey, string>)
    ensures fresh(cache) && cache.Valid()
    ensures cache.capacity == CacheCapacity && cache.entries == map[]
  {
    cache := new LruCache(CacheCapacity);
  }

  lemma EmptyCoherent(mode: Tracking, env: Env, r: Renderer, cache: LruCache<CacheKey, string>)
    requires cache.entries == map[]
    ensures Coherent(mode, env, r, cache)
  {
  }

  /** `markup(text, ctx, prefix)`: a hit returns the cached string and refreshes it; a miss
      computes the string and stores it; a failure leaves the cache as it was. Either way the
      result is the markup of the inputs. */
  method Markup(mode: Tracking, env: Env, r: Renderer, cache: LruCache<CacheKey, string>, ctx: Context, text: string, prefix: string)
    returns (out: Result<string>)
    requires cache.Valid() && Coherent(mode, env, r, cache)
    modifies cache
    ensures cache.Valid() && Coherent(mode, env, r, cache)
    ensures out == MarkupText(mode, env, r, ctx.Current(), text, prefix)
    ensures var key := HashableKey(text, ctx.Current(), prefix);
      if key in old(cache.entries) then
        cache.entries == old(cache.entries) && cache.order == MoveToEnd(old(cache.order), key)
      else if out.Ok? then
        cache.order == OrderAfterSet(cache.capacity, old(cache.order), key)
        && cache.entries == EntriesAfterSet(cache.capacity, old(cache.order), old(cache.entries), key, out.value)
      else
        cache.entries == old(cache.entries) && cache.order == old(cache.order)
    ensures out.Ok? && cache.capacity >= 1 ==> HashableKey(text, ctx.Current(), prefix) in cache.entries
  {
    var key := HashableKey(text, ctx.Current(), prefix);
    var hit := cache.Contains(key);
    if hit {
      var cached := cache.GetItem(key);
      out := Ok(cached.value);
      return;
    }
    var spans := MarkupSpans(env, ctx, prefix, text);
    if spans.Err? {
      return Err(spans.error);
    }
    var buff := ParseSpans(mode, r, spans.value);
    out := Ok(buff);
    SetThenRead(cache.capacity, cache.order, cache.entries, key, buff);
    cache.SetItem(key, buff);
    forall t, c, p | HashableKey(t, c, p) in cache.entries
      ensures Ok(cache.entries[HashableKey(t, c, p)]) == MarkupText(mode, env, r, c, t, p)
    {
      HashableKeyInjective(t, c, p, text, ctx.Current(), prefix);
    }
  }

  /** A text without brackets is rendered in the base style, or is empty. */
  lemma PlainMarkup(mode: Tracking, env: Env, r: Renderer, ctx: Snapshot, prefix: string, text: string)
    requires BracketFree(text)
    ensures MarkupText(mode, env, r, ctx, text, prefix)
         == Ok(if text == "" then "" else RemoveSuffix(r.render(text, BaseStack), CloseLink))
  {
    PlainTextSpans(env, ctx, prefix, text);
    if text == "" {
      NoSpans(mode, r);
    } else {
      PlainSpan(mode, r, text);
    }
  }

  /** `[bold]text`, and each other flag: the text rendered with that flag on, then a reset. */
  lemma FlagMarkup(mode: Tracking, env: Env, r: Renderer, ctx: Snapshot, prefix: string, a: Attr, plain: string)
    requires a !in {Foreground, Background, Hyperlink}
    requires plain != "" && BracketFree(plain)
    ensures MarkupText(mode, env, r, ctx, "[" + AttrName(a) + "]" + plain, prefix)
         == Ok(RemoveSuffix(r.render(plain, BaseStack[a := Bool(true)]), CloseLink) + ResetAll)
  {
    FlagGroupSpans(env, ctx, prefix, a, plain);
    FlagSpan(mode, r, plain, a);
  }
}
