/** SQL text with `:name` placeholders, and its renderings for the drivers. */
module NamedParams {
  import opened LockConfigurations

  // ---- The placeholder pattern

  predicate IsDigit(c: char) {
    '0' <= c <= '9'
  }

  predicate IsStart(c: char) {
    'a' <= c <= 'z' || 'A' <= c <= 'Z' || c == '_'
  }

  predicate IsWord(c: char) {
    IsStart(c) || IsDigit(c)
  }

  /** The length of the longest prefix of word characters. */
  function WordLength(s: string): (n: nat)
    ensures n <= |s|
    ensures forall i :: 0 <= i < n ==> IsWord(s[i])
    ensures n < |s| ==> !IsWord(s[n])
  {
    if s == [] || !IsWord(s[0]) then 0 else 1 + WordLength(s[1..])
  }

  predicate MatchesAt(mark: char, s: string, i: nat) {
    i + 1 < |s| && s[i] == mark && IsStart(s[i + 1])
  }

  function MatchEnd(s: string, i: nat): (end: nat)
    requires i < |s|
    ensures i < end <= |s|
  {
    i + 1 + WordLength(s[i + 1..])
  }

  /** What a text consists of: characters that stand for themselves, and placeholders. */
  datatype Token = Text(c: char) | Param(name: string)

  function Scan(mark: char, s: string): seq<Token>
    decreases |s|
  {
    if s == [] then []
    else if MatchesAt(mark, s, 0) then [Param(s[1..MatchEnd(s, 0)])] + Scan(mark, s[MatchEnd(s, 0)..])
    else [Text(s[0])] + Scan(mark, s[1..])
  }

  function Texts(s: string): (t: seq<Token>)
    ensures |t| == |s| && forall i :: 0 <= i < |s| ==> t[i] == Text(s[i])
  {
    seq(|s|, i requires 0 <= i < |s| => Text(s[i]))
  }

  /** `regex.exec`: the first match at or after `from`, or the end of the text. */
  function NextMatch(mark: char, s: string, from: nat): (i: nat)
    requires from <= |s|
    ensures from <= i <= |s|
    ensures i < |s| ==> MatchesAt(mark, s, i)
    ensures forall j :: from <= j < i ==> !MatchesAt(mark, s, j)
    decreases |s| - from
  {
    if from == |s| || MatchesAt(mark, s, from) then from else NextMatch(mark, s, from + 1)
  }

  lemma ScanSkipsOne(mark: char, s: string, at: nat)
    requires at < |s| && !MatchesAt(mark, s, at)
    ensures Scan(mark, s[at..]) == [Text(s[at])] + Scan(mark, s[at + 1..])
  {
    assert s[at..][1..] == s[at + 1..];
  }

  lemma FirstText(s: string, from: nat, end: nat)
    requires from < end <= |s|
    ensures Texts(s[from..end]) == [Text(s[from])] + Texts(s[from + 1..end])
  {
  }

  lemma RegroupTokens(a: seq<Token>, b: seq<Token>, c: seq<Token>)
    ensures a + (b + c) == a + b + c
  {
  }

  /** Scanning resumes after the text up to the next match. */
  lemma {:induction false} ScanSkipsText(mark: char, s: string, from: nat, end: nat)
    requires from <= end <= |s| && forall j :: from <= j < end ==> !MatchesAt(mark, s, j)
    ensures Scan(mark, s[from..]) == Texts(s[from..end]) + Scan(mark, s[end..])
    decreases end - from
  {
    if from == end {
      assert Texts(s[from..end]) == [];
    } else {
      ScanSkipsOne(mark, s, from);
      ScanSkipsText(mark, s, from + 1, end);
      FirstText(s, from, end);
      RegroupTokens([Text(s[from])], Texts(s[from + 1..end]), Scan(mark, s[end..]));
    }
  }

  lemma ScanTakesMatch(mark: char, s: string, i: nat)
    requires MatchesAt(mark, s, i)
    ensures Scan(mark, s[i..]) == [Param(s[i + 1..MatchEnd(s, i)])] + Scan(mark, s[MatchEnd(s, i)..])
  {
    var t := s[i..];
    assert t[1..] == s[i + 1..];
    assert MatchEnd(t, 0) == MatchEnd(s, i) - i;
    assert t[1..MatchEnd(t, 0)] == s[i + 1..MatchEnd(s, i)];
    assert t[MatchEnd(t, 0)..] == s[MatchEnd(s, i)..];
  }

  function Names(tokens: seq<Token>): seq<string> {
    if tokens == [] then []
    else (if tokens[0].Param? then [tokens[0].name] else []) + Names(tokens[1..])
  }

  /** Writing every placeholder back restores the text. */
  function Written(mark: char, tokens: seq<Token>): string {
    if tokens == [] then []
    else (match tokens[0] case Text(c) => [c] case Param(name) => [mark] + name) + Written(mark, tokens[1..])
  }

  lemma {:induction false} ScanLosesNothing(mark: char, s: string)
    ensures Written(mark, Scan(mark, s)) == s
    decreases |s|
  {
    if s != [] {
      if MatchesAt(mark, s, 0) {
        var end := MatchEnd(s, 0);
        ScanLosesNothing(mark, s[end..]);
        assert s == [mark] + s[1..end] + s[end..];
      } else {
        ScanLosesNothing(mark, s[1..]);
      }
    }
  }

  /** A placeholder takes all the word characters there are, and its name is an identifier. */
  ghost predicate Munched(tokens: seq<Token>) {
    && (forall i :: 0 <= i < |tokens| - 1 && tokens[i].Param? && tokens[i + 1].Text? ==> !IsWord(tokens[i + 1].c))
    && (forall i :: 0 <= i < |tokens| && tokens[i].Param? ==> IsName(tokens[i].name))
  }

  predicate IsName(name: string) {
    name != [] && IsStart(name[0]) && WordLength(name) == |name|
  }

  lemma {:induction false} AllWords(s: string)
    requires forall c <- s :: IsWord(c)
    ensures WordLength(s) == |s|
    decreases |s|
  {
    if s != [] { AllWords(s[1..]); }
  }

  lemma {:induction false} ScanMunches(mark: char, s: string)
    requires !IsWord(mark)
    ensures Munched(Scan(mark, s))
    decreases |s|
  {
    if s != [] {
      if MatchesAt(mark, s, 0) {
        var end := MatchEnd(s, 0);
        ScanMunches(mark, s[end..]);
        AllWords(s[1..end]);
        assert end < |s| ==> !IsWord(s[end]);
      } else {
        ScanMunches(mark, s[1..]);
      }
    }
  }

  // ---- What a query means

  /** A text once its values are bound. */
  datatype Bound<T> = Lit(c: char) | Val(v: T)

  ghost predicate Covers<T>(params: map<string, T>, tokens: seq<Token>) {
    forall i :: 0 <= i < |tokens| && tokens[i].Param? ==> tokens[i].name in params
  }

  /** Substituting the value of each name directly. */
  ghost function Direct<T>(tokens: seq<Token>, params: map<string, T>): seq<Bound<T>>
    requires Covers(params, tokens)
  {
    if tokens == [] then []
    else [match tokens[0] case Text(c) => Lit(c) case Param(name) => Val(params[name])] + Direct(tokens[1..], params)
  }

  // ---- Rendering for a driver

  datatype Style = Dollar | Question | Prefix(mark: char)

  function Digit(n: nat): (c: char)
    requires n < 10
    ensures IsDigit(c) && DigitValue(c) == n
  {
    '0' + n as char
  }

  function DigitValue(c: char): nat
    requires IsDigit(c)
  {
    (c - '0') as nat
  }

  function Decimal(n: nat): (s: string)
    ensures s != [] && forall c <- s :: IsDigit(c)
  {
    if n < 10 then [Digit(n)] else Decimal(n / 10) + [Digit(n % 10)]
  }

  function Render(style: Style, name: string, index: nat): string {
    match style
    case Dollar => "$" + Decimal(index)
    case Question => "?"
    case Prefix(mark) => [mark] + name
  }

  function MissingParam(name: string): string {
    "Missing param: " + name
  }

  function Find(names: seq<string>, name: string): (i: nat)
    requires name in names
    ensures i < |names| && names[i] == name
  {
    if names[0] == name then 0 else 1 + Find(names[1..], name)
  }

  /** The renderings of the tokens after names already `seen` and values already collected. */
  function Replaced<T>(style: Style, tokens: seq<Token>, params: map<string, T>, seen: seq<string>, values: seq<T>): Result<(string, seq<T>)>
    decreases |tokens|
  {
    if tokens == [] then Returned(("", values))
    else match tokens[0]
      case Text(c) => Prepend([c], Replaced(style, tokens[1..], params, seen, values))
      case Param(name) =>
        if name !in params then Thrown(MissingParam(name))
        else if name !in seen then
          Prepend(Render(style, name, |seen| + 1), Replaced(style, tokens[1..], params, seen + [name], values + [params[name]]))
        else
          var placeholder := Render(style, name, Find(seen, name) + 1);
          Prepend(placeholder, Replaced(style, tokens[1..], params, seen, if placeholder == "?" then values + [params[name]] else values))
  }

  function Prepend<T>(text: string, r: Result<(string, seq<T>)>): Result<(string, seq<T>)> {
    match r case Thrown(m) => Thrown(m) case Returned((rest, values)) => Returned((text + rest, values))
  }

  lemma PrependTwice<T>(a: string, b: string, r: Result<(string, seq<T>)>)
    ensures Prepend("", r) == r
    ensures Prepend(a, Prepend(b, r)) == Prepend(a + b, r)
  {
    if r.Returned? { assert "" + r.value.0 == r.value.0 && a + (b + r.value.0) == (a + b) + r.value.0; }
  }

  lemma {:induction false} ReplacedText<T>(style: Style, text: string, tokens: seq<Token>, params: map<string, T>, seen: seq<string>, values: seq<T>)
    ensures Replaced(style, Texts(text) + tokens, params, seen, values) == Prepend(text, Replaced(style, tokens, params, seen, values))
    decreases |text|
  {
    if text == [] {
      assert Texts(text) + tokens == tokens;
      PrependTwice("", "", Replaced(style, tokens, params, seen, values));
    } else {
      ReplacedText(style, text[1..], tokens, params, seen, values);
      assert (Texts(text) + tokens)[1..] == Texts(text[1..]) + tokens;
      assert [text[0]] + text[1..] == text;
      PrependTwice([text[0]], text[1..], Replaced(style, tokens, params, seen, values));
    }
  }

  /** Handling one placeholder: what is written, and the names and values from then on. */
  function Placed<T>(style: Style, name: string, params: map<string, T>, seen: seq<string>, values: seq<T>): (string, seq<string>, seq<T>)
    requires name in params
  {
    if name !in seen then (Render(style, name, |seen| + 1), seen + [name], values + [params[name]])
    else
      var placeholder := Render(style, name, Find(seen, name) + 1);
      (placeholder, seen, if placeholder == "?" then values + [params[name]] else values)
  }

  lemma ReplacedParam<T>(style: Style, name: string, rest: seq<Token>, params: map<string, T>, seen: seq<string>, values: seq<T>)
    ensures Replaced(style, [Param(name)] + rest, params, seen, values) ==
      if name !in params then Thrown(MissingParam(name))
      else var (text, seen', values') := Placed(style, name, params, seen, values);
           Prepend(text, Replaced(style, rest, params, seen', values'))
  {
    assert ([Param(name)] + rest)[1..] == rest;
  }

  /** One turn of the loop: the text up to the next match, and then the match. */
  lemma ReplacedAtMatch<T>(style: Style, s: string, at: nat, start: nat, params: map<string, T>, seen: seq<string>, values: seq<T>)
    requires at <= start < |s| && start == NextMatch(':', s, at)
    ensures var name := s[start + 1..MatchEnd(s, start)];
      Replaced(style, Scan(':', s[at..]), params, seen, values) ==
      if name !in params then Thrown(MissingParam(name))
      else var (text, seen', values') := Placed(style, name, params, seen, values);
           Prepend(s[at..start] + text, Replaced(style, Scan(':', s[MatchEnd(s, start)..]), params, seen', values'))
  {
    var name := s[start + 1..MatchEnd(s, start)];
    var rest := Scan(':', s[MatchEnd(s, start)..]);
    assert Scan(':', s[at..]) == Texts(s[at..start]) + ([Param(name)] + rest) by {
      ScanSkipsText(':', s, at, start);
      ScanTakesMatch(':', s, start);
    }
    ReplacedText(style, s[at..start], [Param(name)] + rest, params, seen, values);
    ReplacedParam(style, name, rest, params, seen, values);
    if name in params {
      var (text, seen', values') := Placed(style, name, params, seen, values);
      PrependTwice(s[at..start], text, Replaced(style, rest, params, seen', values'));
    }
  }

  /** The last turn: no match is left. */
  lemma ReplacedAtEnd<T>(style: Style, s: string, at: nat, params: map<string, T>, seen: seq<string>, values: seq<T>)
    requires at <= |s| && NextMatch(':', s, at) == |s|
    ensures Replaced(style, Scan(':', s[at..]), params, seen, values) == Returned((s[at..], values))
  {
    ScanSkipsText(':', s, at, |s|);
    assert s[|s|..] == [] && s[at..|s|] == s[at..];
    ReplacedText(style, s[at..], [], params, seen, values);
    assert s[at..] + "" == s[at..];
  }

  /** The names numbered so far, as the map the loop keeps them in. */
  ghost predicate Numbers(seen: map<string, nat>, names: seq<string>) {
    (forall n :: n in seen <==> n in names) && (forall n <- names :: seen[n] == Find(names, n) + 1)
  }

  /** The shared replacement loop of `translateNamedParams` and `prefixNamedParams`. */
  method ReplaceNamedParams<T>(sql: string, params: map<string, T>, style: Style) returns (r: Result<(string, seq<T>)>)
    ensures r == Replaced(style, Scan(':', sql), params, [], [])
  {
    var seen: map<string, nat> := map[];
    var values: seq<T> := [];
    var counter := 0;
    var result := "";
    var at := 0;
    ghost var names: seq<string> := [];
    ghost var goal := Replaced(style, Scan(':', sql), params, [], []);
    assert sql[0..] == sql;
    PrependTwice("", "", goal);
    var start := NextMatch(':', sql, 0);
    while start < |sql|
      invariant at <= start <= |sql| && start == NextMatch(':', sql, at)
      invariant counter == |names| && Numbers(seen, names)
      invariant goal == Prepend(result, Replaced(style, Scan(':', sql[at..]), params, names, values))
      decreases |sql| - at
    {
      ReplacedAtMatch(style, sql, at, start, params, names, values);
      var before := at;
      at := MatchEnd(sql, start);
      var name := sql[start + 1..at];
      if name !in params { return Thrown(MissingParam(name)); }
      ghost var placed := Placed(style, name, params, names, values);
      var placeholder;
      placeholder, seen, counter, values := Place(name, params, style, seen, counter, values, names);
      names := placed.1;
      PrependTwice(result, sql[before..start] + placeholder, Replaced(style, Scan(':', sql[at..]), params, names, values));
      result := result + (sql[before..start] + placeholder);
      start := NextMatch(':', sql, at);
    }
    ReplacedAtEnd(style, sql, at, params, names, values);
    return Returned((result + sql[at..], values));
  }

  /** The replacement callback, for a name that has a value. */
  method Place<T>(name: string, params: map<string, T>, style: Style, seen: map<string, nat>, counter: nat, values: seq<T>, ghost names: seq<string>)
    returns (placeholder: string, seen': map<string, nat>, counter': nat, values': seq<T>)
    requires name in params && counter == |names| && Numbers(seen, names)
    ensures var placed := Placed(style, name, params, names, values);
      placeholder == placed.0 && Numbers(seen', placed.1) && counter' == |placed.1| && values' == placed.2
  {
    seen', counter', values' := seen, counter, values;
    if name !in seen {
      counter' := counter + 1;
      seen' := seen[name := counter'];
      values' := values + [params[name]];
      FindAppend(names, name);
      return Render(style, name, counter'), seen', counter', values';
    }
    placeholder := Render(style, name, seen[name]);
    if placeholder == "?" { values' := values + [params[name]]; }
  }

  lemma {:induction false} FindAppend(names: seq<string>, name: string)
    requires name !in names
    ensures Find(names + [name], name) == |names|
    ensures forall n <- names :: Find(names + [name], n) == Find(names, n)
    decreases |names|
  {
    if names != [] {
      assert (names + [name])[1..] == names[1..] + [name];
      FindAppend(names[1..], name);
    }
  }
}
