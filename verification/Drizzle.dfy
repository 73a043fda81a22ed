/** The drizzle query builder: a list of raw text and bound parameters. */
module Drizzle {
  import opened LockConfigurations
  import opened NamedParams
  import opened Binding

  /** A parameter chunk remembers its name, so that the text can be written back. */
  datatype Chunk<T> = Raw(text: string) | Bind(name: string, value: T)

  /** A text without placeholders of its own, as a bound query. */
  function Literal<T>(text: string): (r: seq<Bound<T>>)
    ensures |r| == |text| && forall i :: 0 <= i < |text| ==> r[i] == Lit(text[i])
  {
    seq(|text|, i requires 0 <= i < |text| => Lit(text[i]))
  }

  /** What the joined chunks mean to the driver. */
  function Denote<T>(chunks: seq<Chunk<T>>): seq<Bound<T>> {
    if chunks == [] then []
    else (match chunks[0] case Raw(text) => Literal(text) case Bind(_, v) => [Val(v)]) + Denote(chunks[1..])
  }

  /** Each parameter chunk written back as `:name`. */
  function WrittenBack<T>(chunks: seq<Chunk<T>>): string {
    if chunks == [] then ""
    else (match chunks[0] case Raw(text) => text case Bind(name, _) => ":" + name) + WrittenBack(chunks[1..])
  }

  lemma {:induction false} DirectText<T>(text: string, tokens: seq<Token>, params: map<string, T>)
    requires Covers(params, tokens)
    ensures Covers(params, Texts(text) + tokens)
    ensures Direct(Texts(text) + tokens, params) == Literal(text) + Direct(tokens, params)
    decreases |text|
  {
    if text == [] {
      assert Texts(text) + tokens == tokens;
    } else {
      var all, rest := Texts(text) + tokens, Texts(text[1..]) + tokens;
      assert all[1..] == rest;
      DirectText(text[1..], tokens, params);
      CoversBoth(params, [all[0]], rest);
      assert all == [all[0]] + rest;
      assert Direct(all, params) == [Lit(text[0])] + (Literal(text[1..]) + Direct(tokens, params));
      assert Literal<T>(text) == [Lit(text[0])] + Literal(text[1..]);
    }
  }

  function NameAt(s: string, start: nat): string
    requires start < |s|
  {
    s[start + 1..MatchEnd(s, start)]
  }

  lemma Rejoin(s: string, a: nat, b: nat)
    requires a <= b <= |s|
    ensures s[a..] == s[a..b] + s[b..]
  {
  }

  lemma MarkedName(name: string, rest: string)
    ensures [':'] + (name + rest) == ":" + name + rest
  {
  }

  /** A match, with the text before it, in the text. */
  lemma SplitText(s: string, at: nat, start: nat)
    requires at <= start < |s| && s[start] == ':'
    ensures s[at..] == s[at..start] + (":" + NameAt(s, start) + s[MatchEnd(s, start)..])
  {
    Rejoin(s, at, start);
    Rejoin(s, start, start + 1);
    Rejoin(s, start + 1, MatchEnd(s, start));
    assert s[start..start + 1] == [':'];
    MarkedName(NameAt(s, start), s[MatchEnd(s, start)..]);
  }

  /** And in its tokens. */
  lemma SplitTokens(s: string, at: nat, start: nat)
    requires at <= start < |s| && start == NextMatch(':', s, at)
    ensures Scan(':', s[at..]) == Texts(s[at..start]) + ([Param(NameAt(s, start))] + Scan(':', s[MatchEnd(s, start)..]))
  {
    ScanSkipsText(':', s, at, start);
    ScanTakesMatch(':', s, start);
  }

  lemma CoversBoth<T>(params: map<string, T>, a: seq<Token>, b: seq<Token>)
    ensures Covers(params, a + b) <==> Covers(params, a) && Covers(params, b)
  {
    assert forall i :: 0 <= i < |a| ==> (a + b)[i] == a[i];
    assert forall i :: 0 <= i < |b| ==> (a + b)[|a| + i] == b[i];
    assert forall i :: |a| <= i < |a + b| ==> (a + b)[i] == b[i - |a|];
  }

  lemma CoversTail<T>(params: map<string, T>, text: seq<Token>, name: string, rest: seq<Token>)
    requires forall i :: 0 <= i < |text| ==> text[i].Text?
    ensures Covers(params, text + ([Param(name)] + rest)) <==> name in params && Covers(params, rest)
    ensures Covers(params, [Param(name)] + rest) <==> name in params && Covers(params, rest)
  {
    var one := [Param(name)];
    assert Covers(params, one) <==> name in params by { assert one[0] == Param(name); }
    CoversBoth(params, one, rest);
    CoversBoth(params, text, one + rest);
  }

  // ---- The query

  function RawChunk<T>(text: string): seq<Chunk<T>> {
    if text == "" then [] else [Raw(text)]
  }

  /** The chunks of the text from `at` on, or the first name without a value. */
  function Chunks<T>(s: string, at: nat, params: map<string, T>): Result<seq<Chunk<T>>>
    requires at <= |s|
    decreases |s| - at
  {
    var start := NextMatch(':', s, at);
    if start == |s| then Returned(RawChunk(s[at..]))
    else
      var name := NameAt(s, start);
      if name !in params then Thrown(MissingParam(name))
      else After(RawChunk(s[at..start]), After([Bind(name, params[name])], Chunks(s, MatchEnd(s, start), params)))
  }

  /** Chunks before those still to come. */
  function After<T>(chunks: seq<Chunk<T>>, rest: Result<seq<Chunk<T>>>): Result<seq<Chunk<T>>> {
    match rest case Thrown(m) => Thrown(m) case Returned(more) => Returned(chunks + more)
  }

  function Query<T>(rawSql: string, params: map<string, T>): Result<seq<Chunk<T>>> {
    var r := Chunks(rawSql, 0, params);
    if r == Returned([]) then Returned([Raw(rawSql)]) else r
  }

  lemma RawChunkMeans<T>(text: string, rest: seq<Chunk<T>>)
    ensures Denote(RawChunk(text) + rest) == Literal(text) + Denote(rest)
    ensures WrittenBack(RawChunk(text) + rest) == text + WrittenBack(rest)
  {
    if text == "" {
      assert RawChunk(text) + rest == rest;
    } else {
      assert (RawChunk(text) + rest)[1..] == rest;
    }
  }

  lemma RawMeans<T>(text: string)
    ensures Denote<T>([Raw(text)]) == Literal<T>(text) && WrittenBack<T>([Raw(text)]) == text
  {
    var one: seq<Chunk<T>> := [Raw(text)];
    assert one[1..] == [];
    assert Literal<T>(text) + [] == Literal<T>(text) && text + "" == text;
  }

  lemma BindMeans<T>(name: string, value: T, rest: seq<Chunk<T>>)
    ensures Denote([Bind(name, value)] + rest) == [Val(value)] + Denote(rest)
    ensures WrittenBack([Bind(name, value)] + rest) == ":" + name + WrittenBack(rest)
  {
    assert ([Bind(name, value)] + rest)[1..] == rest;
  }

  /** The chunks mean the direct substitution and write back to the text, and there are any
      exactly when no name lacks a value. */
  ghost predicate Fit<T>(r: Result<seq<Chunk<T>>>, text: string, tokens: seq<Token>, params: map<string, T>) {
    && (r.Returned? <==> Covers(params, tokens))
    && (r.Returned? && Covers(params, tokens) ==> Denote(r.value) == Direct(tokens, params) && WrittenBack(r.value) == text)
  }

  lemma TextFits<T>(text: string, params: map<string, T>)
    ensures Fit(Returned(RawChunk(text)), text, Texts(text), params)
  {
    DirectText(text, [], params);
    RawChunkMeans<T>(text, []);
    assert Texts(text) + [] == Texts(text) && text + "" == text;
    assert RawChunk<T>(text) + [] == RawChunk<T>(text) && Literal<T>(text) + [] == Literal<T>(text);
  }

  lemma MatchFits<T>(before: string, name: string, rest: Result<seq<Chunk<T>>>, text: string, tokens: seq<Token>, params: map<string, T>)
    requires name in params && Fit(rest, text, tokens, params)
    ensures Fit(After(RawChunk(before), After([Bind(name, params[name])], rest)),
                before + (":" + name + text), Texts(before) + ([Param(name)] + tokens), params)
  {
    CoversTail(params, Texts(before), name, tokens);
    if rest.Returned? {
      BindMeans(name, params[name], rest.value);
      RawChunkMeans(before, [Bind(name, params[name])] + rest.value);
      assert ([Param(name)] + tokens)[1..] == tokens;
      DirectText(before, [Param(name)] + tokens, params);
    }
  }

  lemma {:induction false} ChunksMean<T>(s: string, at: nat, params: map<string, T>)
    requires at <= |s|
    ensures Fit(Chunks(s, at, params), s[at..], Scan(':', s[at..]), params)
    decreases |s| - at
  {
    var start := NextMatch(':', s, at);
    if start == |s| {
      ScanSkipsText(':', s, at, |s|);
      assert s[|s|..] == [] && s[at..|s|] == s[at..] && Texts(s[at..]) + [] == Texts(s[at..]);
      TextFits(s[at..], params);
    } else {
      SplitText(s, at, start);
      SplitTokens(s, at, start);
      if NameAt(s, start) in params {
        ChunksMean(s, MatchEnd(s, start), params);
        MatchFits(s[at..start], NameAt(s, start), Chunks(s, MatchEnd(s, start), params), s[MatchEnd(s, start)..],
                  Scan(':', s[MatchEnd(s, start)..]), params);
      } else {
        CoversTail(params, Texts(s[at..start]), NameAt(s, start), Scan(':', s[MatchEnd(s, start)..]));
      }
    }
  }

  /** The query means the direct substitution, writing it back restores the text, and a missing
      parameter is reported exactly when there is one. */
  lemma QueryMeans<T>(rawSql: string, params: map<string, T>)
    ensures var r := Query(rawSql, params); var tokens := Scan(':', rawSql);
      && (r.Returned? <==> Covers(params, tokens))
      && (r.Returned? && Covers(params, tokens) ==>
            r.value != [] && Denote(r.value) == Direct(tokens, params) && WrittenBack(r.value) == rawSql)
  {
    assert rawSql[0..] == rawSql;
    ChunksMean(rawSql, 0, params);
    if Chunks(rawSql, 0, params) == Returned([]) {
      assert rawSql == "";
      RawMeans<T>(rawSql);
    }
  }

  /** The loop yields the query, and with it the query's meaning. */
  method BuildDrizzleQuery<T>(rawSql: string, params: map<string, T>) returns (query: Result<seq<Chunk<T>>>)
    ensures query == Query(rawSql, params)
    ensures query.Returned? <==> Covers(params, Scan(':', rawSql))
    ensures query.Returned? && Covers(params, Scan(':', rawSql)) ==>
      && query.value != []
      && Denote(query.value) == Direct(Scan(':', rawSql), params)
      && WrittenBack(query.value) == rawSql
  {
    var chunks: seq<Chunk<T>> := [];
    var lastIndex := 0;
    Prefixed(chunks, Chunks(rawSql, 0, params));
    var index := NextMatch(':', rawSql, 0);
    while index < |rawSql|
      invariant lastIndex <= index <= |rawSql| && index == NextMatch(':', rawSql, lastIndex)
      invariant Chunks(rawSql, 0, params) == After(chunks, Chunks(rawSql, lastIndex, params))
      decreases |rawSql| - lastIndex
    {
      ghost var before := chunks;
      if index > lastIndex { chunks := chunks + [Raw(rawSql[lastIndex..index])]; }
      var name := NameAt(rawSql, index);
      if name !in params {
        MissingName(before, rawSql, lastIndex, index, params);
        QueryMeans(rawSql, params);
        return Thrown(MissingParam(name));
      }
      chunks := chunks + [Bind(name, params[name])];
      PushedMatch(before, rawSql, lastIndex, index, params, chunks);
      lastIndex := MatchEnd(rawSql, index);
      index := NextMatch(':', rawSql, lastIndex);
    }
    LastChunk(chunks, rawSql, lastIndex, params);
    if lastIndex < |rawSql| { chunks := chunks + [Raw(rawSql[lastIndex..])]; }
    QueryMeans(rawSql, params);
    if |chunks| == 0 { return Returned([Raw(rawSql)]); }
    return Returned(chunks);
  }

  lemma Prefixed<T>(none: seq<Chunk<T>>, r: Result<seq<Chunk<T>>>)
    requires none == []
    ensures After(none, r) == r
  {
    if r.Returned? { assert none + r.value == r.value; }
  }

  lemma Regrouped<T>(a: seq<Chunk<T>>, b: seq<Chunk<T>>, c: seq<Chunk<T>>, d: seq<Chunk<T>>)
    ensures a + b + c + d == a + (b + (c + d))
  {
  }

  lemma MissingName<T>(before: seq<Chunk<T>>, s: string, at: nat, start: nat, params: map<string, T>)
    requires at <= start < |s| && start == NextMatch(':', s, at)
    requires NameAt(s, start) !in params
    ensures After(before, Chunks(s, at, params)) == Thrown(MissingParam(NameAt(s, start)))
  {
  }

  lemma LastChunk<T>(before: seq<Chunk<T>>, s: string, at: nat, params: map<string, T>)
    requires at <= |s| && NextMatch(':', s, at) == |s|
    ensures After(before, Chunks(s, at, params)) == Returned(if at < |s| then before + [Raw(s[at..])] else before)
  {
    assert before + [] == before;
  }

  lemma PushedMatch<T>(before: seq<Chunk<T>>, s: string, at: nat, start: nat, params: map<string, T>, pushed: seq<Chunk<T>>)
    requires at <= start < |s| && start == NextMatch(':', s, at)
    requires NameAt(s, start) in params
    requires var name := NameAt(s, start);
      pushed == (if start > at then before + [Raw(s[at..start])] else before) + [Bind(name, params[name])]
    ensures After(before, Chunks(s, at, params)) == After(pushed, Chunks(s, MatchEnd(s, start), params))
  {
    var name, rest := NameAt(s, start), Chunks(s, MatchEnd(s, start), params);
    var raw, bind := RawChunk<T>(s[at..start]), [Bind(name, params[name])];
    assert pushed == before + raw + bind;
    if rest.Returned? { Regrouped(before, raw, bind, rest.value); }
  }
}
