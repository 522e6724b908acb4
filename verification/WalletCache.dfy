/**
  The wallet balance cache (src/backend/workerCore.ts): text keys, a time to live and invalidation by key
  prefix.  What a caller can observe is a plain lookup by address and unordered token list.
*/
module WalletCache {
  import opened Wrappers
  import opened JsText
  import TextSort

  const TTL_MS := 30_000

  datatype Token = Token(network: string, mint: string)
  datatype Query = Query(address: string, tokens: seq<Token>)
  datatype Entry<V> = Entry(expiresAt: int, value: V)

  function TokenText(t: Token): string {
    t.network + [':'] + t.mint
  }

  function TokenTexts(tokens: seq<Token>): (texts: seq<string>)
    ensures |texts| == |tokens| && forall i :: 0 <= i < |tokens| ==> texts[i] == TokenText(tokens[i])
  {
    if tokens == [] then [] else [TokenText(tokens[0])] + TokenTexts(tokens[1..])
  }

  function CacheKey(q: Query): string {
    q.address + ['|'] + Join(TextSort.Sorted(TokenTexts(q.tokens)), '|')
  }

  function Prefix(address: string): string {
    address + ['|']
  }

  predicate StartsWith(s: string, prefix: string) {
    |prefix| <= |s| && s[..|prefix|] == prefix
  }

  // ---------------------------------------------------------------- keys

  /** The fields hold no separator of the key. */
  predicate WellFormed(q: Query) {
    Free(q.address, '|')
    && forall i :: 0 <= i < |q.tokens| ==>
         Free(q.tokens[i].network, '|') && Free(q.tokens[i].network, ':') && Free(q.tokens[i].mint, '|')
  }

  predicate Same(p: Query, q: Query) {
    p.address == q.address && multiset(p.tokens) == multiset(q.tokens)
  }

  lemma TokenTextInjective(s: Token, t: Token)
    requires Free(s.network, ':') && Free(t.network, ':')
    requires TokenText(s) == TokenText(t)
    ensures s == t
  {
    SplitFirst(s.network, s.mint, t.network, t.mint, ':');
  }

  predicate ColonFree(tokens: seq<Token>) {
    forall i :: 0 <= i < |tokens| ==> Free(tokens[i].network, ':')
  }

  lemma HeadCount<T>(head: T, rest: seq<T>, x: T)
    ensures multiset([head] + rest)[x] == multiset(rest)[x] + if head == x then 1 else 0
  {
  }

  /** Counting a token's text among the texts counts the token. */
  lemma {:induction false} TextCount(tokens: seq<Token>, t: Token)
    requires Free(t.network, ':') && ColonFree(tokens)
    ensures multiset(TokenTexts(tokens))[TokenText(t)] == multiset(tokens)[t]
  {
    if tokens != [] {
      var first, rest := tokens[0], tokens[1..];
      TextCount(rest, t);
      assert tokens == [first] + rest;
      HeadCount(first, rest, t);
      HeadCount(TokenText(first), TokenTexts(rest), TokenText(t));
      if TokenText(first) == TokenText(t) { TokenTextInjective(first, t); }
    }
  }

  /** A text that occurs in one list occurs as often in any list with the same tokens. */
  lemma TextCountsAgree(s: seq<Token>, t: seq<Token>, x: string)
    requires ColonFree(s) && ColonFree(t) && multiset(s) == multiset(t) && x in TokenTexts(s)
    ensures multiset(TokenTexts(s))[x] == multiset(TokenTexts(t))[x]
  {
    var i :| 0 <= i < |TokenTexts(s)| && TokenTexts(s)[i] == x;
    TextCount(s, s[i]);
    TextCount(t, s[i]);
  }

  lemma SameTextsOfSame(s: seq<Token>, t: seq<Token>)
    requires ColonFree(s) && ColonFree(t) && multiset(s) == multiset(t)
    ensures multiset(TokenTexts(s)) == multiset(TokenTexts(t))
  {
    var a, b := TokenTexts(s), TokenTexts(t);
    forall x ensures multiset(a)[x] == multiset(b)[x] {
      if x in a {
        TextCountsAgree(s, t, x);
      } else if x in b {
        TextCountsAgree(t, s, x);
      } else {
        assert x !in multiset(a) && x !in multiset(b);
      }
    }
  }

  lemma SameOfSameTexts(s: seq<Token>, t: seq<Token>)
    requires ColonFree(s) && ColonFree(t) && multiset(TokenTexts(s)) == multiset(TokenTexts(t))
    ensures multiset(s) == multiset(t)
  {
    forall x ensures multiset(s)[x] == multiset(t)[x] {
      if x in s || x in t {
        TextCount(s, x);
        TextCount(t, x);
      } else {
        assert x !in multiset(s) && x !in multiset(t);
      }
    }
  }

  lemma SortedTextsFree(q: Query)
    requires WellFormed(q)
    ensures var texts := TextSort.Sorted(TokenTexts(q.tokens));
            AllFree(texts, '|') && |texts| == |q.tokens| && forall i :: 0 <= i < |texts| ==> texts[i] != ""
  {
    var raw := TokenTexts(q.tokens);
    var texts := TextSort.Sorted(raw);
    TextSort.SortedLaw(raw);
    assert |texts| == |multiset(texts)| == |multiset(raw)| == |raw|;
    forall i | 0 <= i < |texts| ensures Free(texts[i], '|') && texts[i] != "" {
      assert texts[i] in multiset(texts);
      assert texts[i] in raw;
    }
  }

  lemma JoinedEmpty(p: seq<string>)
    requires forall i :: 0 <= i < |p| ==> p[i] != ""
    ensures Join(p, '|') == "" <==> p == []
  {
  }

  /** For separator-free fields, a key stands for one address and one unordered token list. */
  lemma KeysAgree(p: Query, q: Query)
    requires WellFormed(p) && WellFormed(q)
    ensures CacheKey(p) == CacheKey(q) <==> Same(p, q)
  {
    var s, t := TextSort.Sorted(TokenTexts(p.tokens)), TextSort.Sorted(TokenTexts(q.tokens));
    SortedTextsFree(p);
    SortedTextsFree(q);
    TextSort.SortedEqual(TokenTexts(p.tokens), TokenTexts(q.tokens));
    if multiset(p.tokens) == multiset(q.tokens) { SameTextsOfSame(p.tokens, q.tokens); }
    if s == t { SameOfSameTexts(p.tokens, q.tokens); }
    if CacheKey(p) == CacheKey(q) {
      SplitFirst(p.address, Join(s, '|'), q.address, Join(t, '|'), '|');
      JoinedEmpty(s);
      JoinedEmpty(t);
      if s != [] && t != [] { JoinInjective(s, t, '|'); }
    }
  }

  /** A key has the prefix of an address exactly when it is a key of that address. */
  lemma PrefixIsAddress(q: Query, address: string)
    requires WellFormed(q) && Free(address, '|')
    ensures StartsWith(CacheKey(q), Prefix(address)) <==> q.address == address
  {
    var key, rest := CacheKey(q), Join(TextSort.Sorted(TokenTexts(q.tokens)), '|');
    if StartsWith(key, Prefix(address)) {
      assert key == address + ['|'] + key[|address| + 1..];
      SplitFirst(q.address, rest, address, key[|address| + 1..], '|');
    }
  }

  // ---------------------------------------------------------------- the cache

  function Hit<V>(entries: map<string, Entry<V>>, key: string, now: int): Option<V> {
    if key in entries && now < entries[key].expiresAt then Some(entries[key].value) else None
  }

  function AfterRead<V>(entries: map<string, Entry<V>>, key: string, now: int): map<string, Entry<V>> {
    if key in entries && entries[key].expiresAt <= now then entries - {key} else entries
  }

  function AfterInvalidate<V>(entries: map<string, Entry<V>>, address: string): map<string, Entry<V>> {
    map k | k in entries && !StartsWith(k, Prefix(address)) :: entries[k]
  }

  class Cache<V> {
    var entries: map<string, Entry<V>>

    constructor ()
      ensures entries == map[]
    {
      entries := map[];
    }

    method Read(key: string, now: int) returns (r: Option<V>)
      modifies this
      ensures r == Hit(old(entries), key, now)
      ensures entries == AfterRead(old(entries), key, now)
      ensures key in entries <==> key in old(entries) && old(entries)[key].expiresAt > now
      ensures entries - {key} == old(entries) - {key}
    {
      if key !in entries {
        return None;
      }
      var cached := entries[key];
      if cached.expiresAt <= now {
        entries := entries - {key};
        return None;
      }
      r := Some(cached.value);
    }

    method Write(key: string, value: V, now: int)
      modifies this
      ensures entries == old(entries)[key := Entry(now + 30_000, value)]
    {
      entries := entries[key := Entry(now + TTL_MS, value)];
    }

    method Invalidate(address: string)
      modifies this
      ensures entries == AfterInvalidate(old(entries), address)
    {
      var prefix := Prefix(address);
      ghost var before := entries;
      var todo := entries.Keys;
      while todo != {}
        invariant todo <= before.Keys
        invariant forall k :: k in entries <==> k in before && (k in todo || !StartsWith(k, prefix))
        invariant forall k :: k in entries ==> entries[k] == before[k]
      {
        var key :| key in todo;
        if StartsWith(key, prefix) {
          entries := entries - {key};
        }
        todo := todo - {key};
      }
    }
  }

  // ---------------------------------------------------------------- what a caller sees

  datatype Event<V> = Wrote(query: Query, value: V, at: int) | DidRead(query: Query, at: int)
                    | Invalidated(address: string, at: int)

  /** Separator-free fields, and a clock that does not run backwards. */
  predicate Legal<V>(history: seq<Event<V>>) {
    forall i :: 0 <= i < |history| ==>
      && (if history[i].Invalidated? then Free(history[i].address, '|') else WellFormed(history[i].query))
      && forall j :: 0 <= j < i ==> history[j].at <= history[i].at
  }

  function Entries<V>(history: seq<Event<V>>): map<string, Entry<V>> {
    if history == [] then map[]
    else
      var before := Entries(history[..|history| - 1]);
      match history[|history| - 1]
      case Wrote(q, v, at) => before[CacheKey(q) := Entry(at + TTL_MS, v)]
      case DidRead(q, at) => AfterRead(before, CacheKey(q), at)
      case Invalidated(address, at) => AfterInvalidate(before, address)
  }

  /** The last value written for the address and tokens since the address was invalidated, for 30 seconds. */
  function Visible<V>(history: seq<Event<V>>, q: Query, now: int): Option<V> {
    if history == [] then None
    else
      match history[|history| - 1]
      case Wrote(p, v, at) =>
        if Same(p, q) then (if now - at < 30_000 then Some(v) else None)
        else Visible(history[..|history| - 1], q, now)
      case DidRead(_, _) => Visible(history[..|history| - 1], q, now)
      case Invalidated(address, _) =>
        if address == q.address then None else Visible(history[..|history| - 1], q, now)
  }

  /** The cache refines that lookup, whatever was read, written and invalidated before. */
  lemma {:induction false} CacheRefinesLookup<V>(history: seq<Event<V>>, q: Query, now: int)
    requires Legal(history) && WellFormed(q)
    requires forall i :: 0 <= i < |history| ==> history[i].at <= now
    ensures Hit(Entries(history), CacheKey(q), now) == Visible(history, q, now)
  {
    if history != [] {
      var front, last := history[..|history| - 1], history[|history| - 1];
      CacheRefinesLookup(front, q, now);
      match last
      case Wrote(p, v, at) => KeysAgree(p, q);
      case DidRead(p, at) =>
      case Invalidated(address, at) => PrefixIsAddress(q, address);
    }
  }

  lemma {:induction false} NothingVisible<V>(history: seq<Event<V>>, later: seq<Event<V>>, at: int, q: Query, now: int)
    requires forall i :: 0 <= i < |later| ==> later[i].Wrote? ==> !Same(later[i].query, q)
    ensures Visible(history + [Invalidated(q.address, at)] + later, q, now) == None
  {
    var all := history + [Invalidated(q.address, at)] + later;
    if later == [] {
      assert all[|all| - 1] == Invalidated(q.address, at);
    } else {
      var n := |later| - 1;
      NothingVisible(history, later[..n], at, q, now);
      assert all[..|all| - 1] == history + [Invalidated(q.address, at)] + later[..n];
      assert all[|all| - 1] == later[n];
    }
  }

  /** After an invalidation every read for the address misses until that very query is written again. */
  lemma MissesUntilRewritten<V>(history: seq<Event<V>>, later: seq<Event<V>>, at: int, q: Query, now: int)
    requires var all := history + [Invalidated(q.address, at)] + later;
             Legal(all) && forall i :: 0 <= i < |all| ==> all[i].at <= now
    requires WellFormed(q)
    requires forall i :: 0 <= i < |later| ==> later[i].Wrote? ==> !Same(later[i].query, q)
    ensures Hit(Entries(history + [Invalidated(q.address, at)] + later), CacheKey(q), now) == None
  {
    NothingVisible(history, later, at, q, now);
    CacheRefinesLookup(history + [Invalidated(q.address, at)] + later, q, now);
  }
}
