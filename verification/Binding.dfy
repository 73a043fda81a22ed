/** What a driver makes of a rendered query, and when that is what the named query means. */
module Binding {
  import opened LockConfigurations
  import opened NamedParams

  // ---- The drivers, reading the rendered text from scratch

  function DigitLength(s: string): (n: nat)
    ensures n <= |s|
    ensures forall i :: 0 <= i < n ==> IsDigit(s[i])
    ensures n < |s| ==> !IsDigit(s[n])
  {
    if s == [] || !IsDigit(s[0]) then 0 else 1 + DigitLength(s[1..])
  }

  function ParseDecimal(s: string): nat
    requires forall c <- s :: IsDigit(c)
  {
    if s == [] then 0 else ParseDecimal(s[..|s| - 1]) * 10 + DigitValue(s[|s| - 1])
  }

  predicate DollarAt(s: string) {
    |s| > 1 && s[0] == '$' && IsDigit(s[1])
  }

  ghost function Push<T>(b: Bound<T>, rest: Option<seq<Bound<T>>>): Option<seq<Bound<T>>> {
    match rest case None => None case Some(bs) => Some([b] + bs)
  }

  /** `$n` stands for the n-th value. */
  ghost function BindDollar<T>(s: string, values: seq<T>): Option<seq<Bound<T>>>
    decreases |s|
  {
    if s == [] then Some([])
    else if DollarAt(s) then
      var n := DigitLength(s[1..]);
      var index := ParseDecimal(s[1..][..n]);
      if 1 <= index <= |values| then Push(Val(values[index - 1]), BindDollar(s[1..][n..], values)) else None
    else Push(Lit(s[0]), BindDollar(s[1..], values))
  }

  /** Each `?` takes the next value, and none may be left over. */
  ghost function BindQuestion<T>(s: string, values: seq<T>): Option<seq<Bound<T>>>
    decreases |s|
  {
    if s == [] then if values == [] then Some([]) else None
    else if s[0] == '?' then
      if values == [] then None else Push(Val(values[0]), BindQuestion(s[1..], values[1..]))
    else Push(Lit(s[0]), BindQuestion(s[1..], values))
  }

  /** A marked name stands for the value bound to it. */
  ghost function BindMarked<T>(mark: char, s: string, params: map<string, T>): Option<seq<Bound<T>>> {
    var tokens := Scan(mark, s);
    if Covers(params, tokens) then Some(Direct(tokens, params)) else None
  }

  // ---- Decimal numerals

  lemma {:induction false} DecimalParses(n: nat)
    ensures ParseDecimal(Decimal(n)) == n
  {
    var s := Decimal(n);
    if n < 10 {
      assert s[..0] == [];
      assert ParseDecimal(s[..|s| - 1]) == 0;
    } else {
      DecimalParses(n / 10);
      assert s[..|s| - 1] == Decimal(n / 10);
    }
  }

  lemma {:induction false} DigitsEnd(digits: string, rest: string)
    requires forall c <- digits :: IsDigit(c)
    requires rest == [] || !IsDigit(rest[0])
    ensures DigitLength(digits + rest) == |digits|
    decreases |digits|
  {
    if digits == [] {
      assert digits + rest == rest;
    } else {
      assert (digits + rest)[1..] == digits[1..] + rest;
      DigitsEnd(digits[1..], rest);
    }
  }

  lemma BindDollarAtNumeral<T>(n: nat, rest: string, values: seq<T>)
    requires 1 <= n <= |values| && (rest == [] || !IsDigit(rest[0]))
    ensures BindDollar("$" + Decimal(n) + rest, values) == Push(Val(values[n - 1]), BindDollar(rest, values))
  {
    NumeralReads(n, rest);
    BindDollarAtDigits(Decimal(n), rest, values);
  }

  /** A numeral before anything but a digit is read as that number. */
  lemma NumeralReads(n: nat, rest: string)
    requires rest == [] || !IsDigit(rest[0])
    ensures IsDigit(Decimal(n)[0]) && DigitLength(Decimal(n) + rest) == |Decimal(n)| && ParseDecimal(Decimal(n)) == n
  {
    DigitsEnd(Decimal(n), rest);
    DecimalParses(n);
    assert Decimal(n)[0] in Decimal(n);
  }

  lemma BindDollarAtDigits<T>(digits: string, rest: string, values: seq<T>)
    requires digits != [] && IsDigit(digits[0]) && DigitLength(digits + rest) == |digits|
    requires (forall c <- digits :: IsDigit(c)) && 1 <= ParseDecimal(digits) <= |values|
    ensures BindDollar("$" + digits + rest, values) == Push(Val(values[ParseDecimal(digits) - 1]), BindDollar(rest, values))
  {
    var s := "$" + digits + rest;
    assert s[1..] == digits + rest;
    assert (digits + rest)[..|digits|] == digits && (digits + rest)[|digits|..] == rest;
    BindDollarUnfolds(s, digits, rest, values);
  }

  lemma BindDollarUnfolds<T>(s: string, digits: string, rest: string, values: seq<T>)
    requires DollarAt(s) && digits == s[1..][..DigitLength(s[1..])] && rest == s[1..][DigitLength(s[1..])..]
    requires 1 <= ParseDecimal(digits) <= |values|
    ensures BindDollar(s, values) == Push(Val(values[ParseDecimal(digits) - 1]), BindDollar(rest, values))
  {
  }

  // ---- `$n`

  /** The text itself has something the driver takes for a numbered placeholder. */
  ghost predicate LooksNumbered(tokens: seq<Token>) {
    exists i :: 0 <= i < |tokens| - 1 && tokens[i] == Text('$') && tokens[i + 1].Text? && IsDigit(tokens[i + 1].c)
  }

  /** The i-th value is that of the i-th name. */
  ghost predicate Aligned<T>(names: seq<string>, values: seq<T>, params: map<string, T>) {
    |names| == |values| && forall i :: 0 <= i < |names| ==> names[i] in params && values[i] == params[names[i]]
  }

  /** The distinct names in order of first occurrence, after those already seen. */
  function DistinctNames(tokens: seq<Token>, seen: seq<string>): seq<string> {
    if tokens == [] then seen
    else if tokens[0].Param? && tokens[0].name !in seen then DistinctNames(tokens[1..], seen + [tokens[0].name])
    else DistinctNames(tokens[1..], seen)
  }

  lemma {:induction false} DistinctExtends(tokens: seq<Token>, seen: seq<string>)
    ensures seen <= DistinctNames(tokens, seen)
    ensures forall i :: 0 <= i < |tokens| && tokens[i].Param? ==> tokens[i].name in DistinctNames(tokens, seen)
    ensures forall n <- DistinctNames(tokens, seen) :: n in seen || Param(n) in tokens
    ensures (forall i, j :: 0 <= i < j < |seen| ==> seen[i] != seen[j]) ==>
      forall i, j :: 0 <= i < j < |DistinctNames(tokens, seen)| ==> DistinctNames(tokens, seen)[i] != DistinctNames(tokens, seen)[j]
    decreases |tokens|
  {
    if tokens != [] {
      var next := if tokens[0].Param? && tokens[0].name !in seen then seen + [tokens[0].name] else seen;
      DistinctExtends(tokens[1..], next);
      forall i | 0 <= i < |tokens| && tokens[i].Param? ensures tokens[i].name in DistinctNames(tokens, seen) {
        if i == 0 { assert tokens[0].name in next; } else { assert tokens[i] == tokens[1..][i - 1]; }
      }
    }
  }

  /** Rendering succeeds exactly with a value per distinct name, in order of first occurrence. */
  lemma {:induction false} DollarValues<T>(tokens: seq<Token>, params: map<string, T>, seen: seq<string>, values: seq<T>)
    requires Covers(params, tokens) && Aligned(seen, values, params)
    ensures var r := Replaced(Dollar, tokens, params, seen, values);
      r.Returned? && values <= r.value.1 && Aligned(DistinctNames(tokens, seen), r.value.1, params)
    decreases |tokens|
  {
    if tokens != [] {
      match tokens[0]
      case Text(_) => DollarValues(tokens[1..], params, seen, values);
      case Param(name) =>
        if name in seen {
          assert |Render(Dollar, name, Find(seen, name) + 1)| > 1;
          DollarValues(tokens[1..], params, seen, values);
        } else {
          DollarValues(tokens[1..], params, seen + [name], values + [params[name]]);
        }
    }
  }

  lemma PushInjective<T>(b: Bound<T>, x: Option<seq<Bound<T>>>, d: seq<Bound<T>>)
    ensures Push(b, x) == Some([b] + d) <==> x == Some(d)
  {
    if x.Some? && [b] + x.value == [b] + d { assert ([b] + x.value)[1..] == x.value && ([b] + d)[1..] == d; }
  }

  lemma DifferentHead<T>(b: Bound<T>, x: Option<seq<Bound<T>>>, c: Bound<T>, d: seq<Bound<T>>)
    requires b != c
    ensures Push(b, x) != Some([c] + d)
  {
    if x.Some? { assert ([b] + x.value)[0] == b && ([c] + d)[0] == c; }
  }

  /** How a rendering begins. */
  lemma FirstCharacter<T>(style: Style, tokens: seq<Token>, params: map<string, T>, seen: seq<string>, values: seq<T>)
    requires Replaced(style, tokens, params, seen, values).Returned?
    ensures var text := Replaced(style, tokens, params, seen, values).value.0;
      if tokens == [] then text == ""
      else text != [] && text[0] == match tokens[0]
        case Text(c) => c
        case Param(_) => match style case Dollar => '$' case Question => '?' case Prefix(mark) => mark
  {
  }

  lemma MunchedTail(tokens: seq<Token>)
    requires Munched(tokens) && tokens != []
    ensures Munched(tokens[1..])
  {
    var rest := tokens[1..];
    forall i | 0 <= i < |rest| - 1 && rest[i].Param? && rest[i + 1].Text? ensures !IsWord(rest[i + 1].c) {
      assert tokens[i + 1].Param? && tokens[i + 1 + 1].Text?;
    }
  }

  lemma LooksNumberedTail(tokens: seq<Token>)
    requires tokens != []
    ensures LooksNumbered(tokens) <==>
      || LooksNumbered(tokens[1..])
      || (|tokens| > 1 && tokens[0] == Text('$') && tokens[1].Text? && IsDigit(tokens[1].c))
  {
    var rest := tokens[1..];
    if LooksNumbered(rest) {
      var i :| 0 <= i < |rest| - 1 && rest[i] == Text('$') && rest[i + 1].Text? && IsDigit(rest[i + 1].c);
      assert tokens[i + 1] == Text('$') && tokens[i + 1 + 1].Text?;
    }
    if LooksNumbered(tokens) {
      var i :| 0 <= i < |tokens| - 1 && tokens[i] == Text('$') && tokens[i + 1].Text? && IsDigit(tokens[i + 1].c);
      if i > 0 { assert rest[i - 1] == Text('$') && rest[i - 1 + 1].Text?; }
    }
  }

  /** Reading the `$n` rendering back gives the direct meaning exactly when the text itself has
      no dollar followed by a digit. */
  lemma {:induction false} DollarBinds<T>(tokens: seq<Token>, params: map<string, T>, seen: seq<string>, values: seq<T>, all: seq<T>)
    requires Munched(tokens) && Covers(params, tokens) && Aligned(seen, values, params)
    requires Replaced(Dollar, tokens, params, seen, values).Returned? && Replaced(Dollar, tokens, params, seen, values).value.1 == all
    ensures BindDollar(Replaced(Dollar, tokens, params, seen, values).value.0, all) == Some(Direct(tokens, params)) <==> !LooksNumbered(tokens)
    decreases |tokens|
  {
    if tokens != [] {
      var rest := tokens[1..];
      MunchedTail(tokens);
      LooksNumberedTail(tokens);
      match tokens[0]
      case Text(c) => DollarBindsText(c, rest, params, seen, values, all);
      case Param(name) => DollarBindsParam(name, rest, params, seen, values, all);
      assert [tokens[0]] + rest == tokens;
    }
  }

  lemma DollarBindsText<T>(c: char, rest: seq<Token>, params: map<string, T>, seen: seq<string>, values: seq<T>, all: seq<T>)
    requires Munched(rest) && Covers(params, rest) && Aligned(seen, values, params)
    requires Replaced(Dollar, rest, params, seen, values).Returned? && Replaced(Dollar, rest, params, seen, values).value.1 == all
    ensures BindDollar([c] + Replaced(Dollar, rest, params, seen, values).value.0, all) == Some([Lit(c)] + Direct(rest, params))
      <==> !LooksNumbered(rest) && !(c == '$' && rest != [] && rest[0].Text? && IsDigit(rest[0].c))
    decreases |rest| + 1, 0
  {
    var text := Replaced(Dollar, rest, params, seen, values).value.0;
    var s := [c] + text;
    FirstCharacter(Dollar, rest, params, seen, values);
    DollarBinds(rest, params, seen, values, all);
    assert s[1..] == text;
    if DollarAt(s) {
      var index := ParseDecimal(s[1..][..DigitLength(s[1..])]);
      if 1 <= index <= |all| {
        DifferentHead(Val(all[index - 1]), BindDollar(s[1..][DigitLength(s[1..])..], all), Lit(c), Direct(rest, params));
      }
    } else {
      PushInjective(Lit(c), BindDollar(text, all), Direct(rest, params));
    }
  }

  lemma DollarBindsParam<T>(name: string, rest: seq<Token>, params: map<string, T>, seen: seq<string>, values: seq<T>, all: seq<T>)
    requires Munched(rest) && Covers(params, rest) && Aligned(seen, values, params) && name in params
    requires rest != [] && rest[0].Text? ==> !IsWord(rest[0].c)
    requires Replaced(Dollar, [Param(name)] + rest, params, seen, values).Returned?
    requires Replaced(Dollar, [Param(name)] + rest, params, seen, values).value.1 == all
    ensures BindDollar(Replaced(Dollar, [Param(name)] + rest, params, seen, values).value.0, all) == Some([Val(params[name])] + Direct(rest, params))
      <==> !LooksNumbered(rest)
    decreases |rest| + 1, 0
  {
    ReplacedParam(Dollar, name, rest, params, seen, values);
    var (placeholder, seen', values') := Placed(Dollar, name, params, seen, values);
    assert |placeholder| > 1;
    assert Aligned(seen', values', params);
    DollarValues(rest, params, seen', values');
    var text := Replaced(Dollar, rest, params, seen', values').value.0;
    FirstCharacter(Dollar, rest, params, seen', values');
    DollarBinds(rest, params, seen', values', all);
    var index := Find(seen', name) + 1;
    if name !in seen { FindAppend(seen, name); }
    assert placeholder == "$" + Decimal(index) && all[index - 1] == params[name];
    BindDollarAtNumeral(index, text, all);
    PushInjective(Val(params[name]), BindDollar(text, all), Direct(rest, params));
  }

  // ---- `?`

  /** The value of every placeholder, in order. */
  ghost function Occurrences<T>(tokens: seq<Token>, params: map<string, T>): seq<T>
    requires Covers(params, tokens)
  {
    if tokens == [] then []
    else (if tokens[0].Param? then [params[tokens[0].name]] else []) + Occurrences(tokens[1..], params)
  }

  lemma RegroupValues<T>(a: seq<T>, b: seq<T>, c: seq<T>)
    ensures a + b + c == a + (b + c)
  {
  }

  lemma {:induction false} QuestionValues<T>(tokens: seq<Token>, params: map<string, T>, seen: seq<string>, values: seq<T>)
    requires Covers(params, tokens)
    ensures Replaced(Question, tokens, params, seen, values).Returned?
    ensures Replaced(Question, tokens, params, seen, values).value.1 == values + Occurrences(tokens, params)
    decreases |tokens|
  {
    if tokens != [] {
      match tokens[0]
      case Text(_) =>
        QuestionValues(tokens[1..], params, seen, values);
        assert [] + Occurrences(tokens[1..], params) == Occurrences(tokens[1..], params);
      case Param(name) =>
        var more := values + [params[name]];
        QuestionValues(tokens[1..], params, if name in seen then seen else seen + [name], more);
        RegroupValues(values, [params[name]], Occurrences(tokens[1..], params));
    }
  }

  /** Reading the `?` rendering back gives the direct meaning exactly when the text itself has
      no question mark. */
  lemma {:induction false} QuestionBinds<T>(tokens: seq<Token>, params: map<string, T>, seen: seq<string>, values: seq<T>)
    requires Covers(params, tokens)
    requires Replaced(Question, tokens, params, seen, values).Returned?
    ensures BindQuestion(Replaced(Question, tokens, params, seen, values).value.0, Occurrences(tokens, params)) == Some(Direct(tokens, params))
      <==> Text('?') !in tokens
    decreases |tokens|
  {
    if tokens != [] {
      var rest := tokens[1..];
      var occurrences := Occurrences(rest, params);
      match tokens[0]
      case Text(c) =>
        QuestionBinds(rest, params, seen, values);
        var text := Replaced(Question, rest, params, seen, values).value.0;
        assert ([c] + text)[1..] == text;
        assert Occurrences(tokens, params) == occurrences;
        if c == '?' {
          if occurrences != [] {
            DifferentHead(Val(occurrences[0]), BindQuestion(text, occurrences[1..]), Lit(c), Direct(rest, params));
          }
        } else {
          PushInjective(Lit(c), BindQuestion(text, occurrences), Direct(rest, params));
        }
      case Param(name) =>
        var (_, seen', values') := Placed(Question, name, params, seen, values);
        QuestionValues(rest, params, seen', values');
        QuestionBinds(rest, params, seen', values');
        var text := Replaced(Question, rest, params, seen', values').value.0;
        assert ("?" + text)[1..] == text;
        assert ([params[name]] + occurrences)[1..] == occurrences;
        PushInjective(Val(params[name]), BindQuestion(text, occurrences), Direct(rest, params));
    }
  }

  // ---- Marked names

  ghost predicate LooksMarked(mark: char, tokens: seq<Token>) {
    exists i :: 0 <= i < |tokens| - 1 && tokens[i] == Text(mark) && tokens[i + 1].Text? && IsStart(tokens[i + 1].c)
  }

  lemma LooksMarkedTail(mark: char, tokens: seq<Token>)
    requires tokens != []
    ensures LooksMarked(mark, tokens) <==>
      || LooksMarked(mark, tokens[1..])
      || (|tokens| > 1 && tokens[0] == Text(mark) && tokens[1].Text? && IsStart(tokens[1].c))
  {
    var rest := tokens[1..];
    if LooksMarked(mark, rest) {
      var i :| 0 <= i < |rest| - 1 && rest[i] == Text(mark) && rest[i + 1].Text? && IsStart(rest[i + 1].c);
      assert tokens[i + 1] == Text(mark) && tokens[i + 1 + 1].Text?;
    }
    if LooksMarked(mark, tokens) {
      var i :| 0 <= i < |tokens| - 1 && tokens[i] == Text(mark) && tokens[i + 1].Text? && IsStart(tokens[i + 1].c);
      if i > 0 { assert rest[i - 1] == Text(mark) && rest[i - 1 + 1].Text?; }
    }
  }

  lemma {:induction false} WordEnds(word: string, rest: string)
    requires WordLength(word) == |word| && (rest == [] || !IsWord(rest[0]))
    ensures WordLength(word + rest) == |word|
    decreases |word|
  {
    if word == [] {
      assert word + rest == rest;
    } else {
      assert (word + rest)[1..] == word[1..] + rest;
      WordEnds(word[1..], rest);
    }
  }

  /** Scanning the prefixed text for its mark finds the original tokens, exactly when the text
      itself has no marked name. */
  lemma {:induction false} PrefixScans<T>(mark: char, tokens: seq<Token>, params: map<string, T>, seen: seq<string>, values: seq<T>)
    requires !IsWord(mark) && Munched(tokens) && Covers(params, tokens)
    requires Replaced(Prefix(mark), tokens, params, seen, values).Returned?
    ensures Scan(mark, Replaced(Prefix(mark), tokens, params, seen, values).value.0) == tokens <==> !LooksMarked(mark, tokens)
    decreases |tokens|
  {
    if tokens != [] {
      var rest := tokens[1..];
      MunchedTail(tokens);
      LooksMarkedTail(mark, tokens);
      assert [tokens[0]] + rest == tokens;
      match tokens[0]
      case Text(c) => PrefixScansText(mark, c, rest, params, seen, values);
      case Param(name) => PrefixScansParam(mark, name, rest, params, seen, values);
    }
  }

  lemma PrefixScansText<T>(mark: char, c: char, rest: seq<Token>, params: map<string, T>, seen: seq<string>, values: seq<T>)
    requires !IsWord(mark) && Munched(rest) && Covers(params, rest)
    requires Replaced(Prefix(mark), rest, params, seen, values).Returned?
    ensures Scan(mark, [c] + Replaced(Prefix(mark), rest, params, seen, values).value.0) == [Text(c)] + rest
      <==> !LooksMarked(mark, rest) && !(c == mark && rest != [] && rest[0].Text? && IsStart(rest[0].c))
    decreases |rest| + 1, 0
  {
    PrefixScans(mark, rest, params, seen, values);
    FirstCharacter(Prefix(mark), rest, params, seen, values);
    var text := Replaced(Prefix(mark), rest, params, seen, values).value.0;
    var s := [c] + text;
    assert s[1..] == text;
    if MatchesAt(mark, s, 0) {
      assert Scan(mark, s)[0].Param?;
    } else {
      assert ([Text(c)] + Scan(mark, text))[1..] == Scan(mark, text) && ([Text(c)] + rest)[1..] == rest;
    }
  }

  lemma PrefixScansParam<T>(mark: char, name: string, rest: seq<Token>, params: map<string, T>, seen: seq<string>, values: seq<T>)
    requires !IsWord(mark) && Munched(rest) && Covers(params, rest) && name in params && IsName(name)
    requires rest != [] && rest[0].Text? ==> !IsWord(rest[0].c)
    requires Replaced(Prefix(mark), [Param(name)] + rest, params, seen, values).Returned?
    ensures Scan(mark, Replaced(Prefix(mark), [Param(name)] + rest, params, seen, values).value.0) == [Param(name)] + rest
      <==> !LooksMarked(mark, rest)
    decreases |rest| + 1, 0
  {
    ReplacedParam(Prefix(mark), name, rest, params, seen, values);
    var (_, seen', values') := Placed(Prefix(mark), name, params, seen, values);
    PrefixScans(mark, rest, params, seen', values');
    FirstCharacter(Prefix(mark), rest, params, seen', values');
    var text := Replaced(Prefix(mark), rest, params, seen', values').value.0;
    MarkedNameScans(mark, name, text);
    assert ([Param(name)] + Scan(mark, text))[1..] == Scan(mark, text) && ([Param(name)] + rest)[1..] == rest;
  }

  lemma MarkedNameScans(mark: char, name: string, text: string)
    requires IsName(name) && (text == [] || !IsWord(text[0]))
    ensures Scan(mark, [mark] + name + text) == [Param(name)] + Scan(mark, text)
  {
    var s := [mark] + name + text;
    assert s[1..] == name + text;
    WordEnds(name, text);
    var end := MatchEnd(s, 0);
    assert end == 1 + |name|;
    assert s[1..end] == name && s[end..] == text;
  }

  lemma ConsDirect<T>(token: Token, rest: seq<Token>, params: map<string, T>)
    ensures Covers(params, [token] + rest) <==> (token.Param? ==> token.name in params) && Covers(params, rest)
    ensures Covers(params, [token] + rest) ==>
      Direct([token] + rest, params) == [if token.Param? then Val(params[token.name]) else Lit(token.c)] + Direct(rest, params)
  {
    var all := [token] + rest;
    assert all[1..] == rest;
    assert Covers(params, all) ==> Covers(params, rest) by {
      assert forall i :: 0 <= i < |rest| ==> all[i + 1] == rest[i];
    }
    assert forall i :: 0 < i < |all| ==> all[i] == rest[i - 1];
    assert all[0] == token;
  }

  /** Reading one token of a marked text, and then the rest. */
  lemma BindMarkedAtToken<T>(mark: char, s: string, token: Token, rest: string, params: map<string, T>)
    requires Scan(mark, s) == [token] + Scan(mark, rest)
    ensures BindMarked(mark, s, params) ==
      if token.Text? then Push(Lit(token.c), BindMarked(mark, rest, params))
      else if token.name in params then Push(Val(params[token.name]), BindMarked(mark, rest, params))
      else None
  {
    ConsDirect(token, Scan(mark, rest), params);
  }

  /** Reading the prefixed text back gives the direct meaning exactly when the text itself has no
      marked name. */
  lemma {:induction false} PrefixBinds<T>(mark: char, tokens: seq<Token>, params: map<string, T>, seen: seq<string>, values: seq<T>)
    requires !IsWord(mark) && Munched(tokens) && Covers(params, tokens)
    requires Replaced(Prefix(mark), tokens, params, seen, values).Returned?
    ensures BindMarked(mark, Replaced(Prefix(mark), tokens, params, seen, values).value.0, params) == Some(Direct(tokens, params))
      <==> !LooksMarked(mark, tokens)
    decreases |tokens|
  {
    if tokens == [] {
      assert Scan(mark, "") == [];
    } else {
      var rest := tokens[1..];
      MunchedTail(tokens);
      LooksMarkedTail(mark, tokens);
      assert [tokens[0]] + rest == tokens;
      match tokens[0]
      case Text(c) => PrefixBindsText(mark, c, rest, params, seen, values);
      case Param(name) => PrefixBindsParam(mark, name, rest, params, seen, values);
    }
  }

  lemma PrefixBindsText<T>(mark: char, c: char, rest: seq<Token>, params: map<string, T>, seen: seq<string>, values: seq<T>)
    requires !IsWord(mark) && Munched(rest) && Covers(params, rest)
    requires Replaced(Prefix(mark), rest, params, seen, values).Returned?
    ensures BindMarked(mark, [c] + Replaced(Prefix(mark), rest, params, seen, values).value.0, params) == Some([Lit(c)] + Direct(rest, params))
      <==> !LooksMarked(mark, rest) && !(c == mark && rest != [] && rest[0].Text? && IsStart(rest[0].c))
    decreases |rest| + 1, 0
  {
    PrefixBinds(mark, rest, params, seen, values);
    FirstCharacter(Prefix(mark), rest, params, seen, values);
    var text := Replaced(Prefix(mark), rest, params, seen, values).value.0;
    var s := [c] + text;
    assert s[1..] == text;
    if MatchesAt(mark, s, 0) {
      var end := MatchEnd(s, 0);
      BindMarkedAtToken(mark, s, Param(s[1..end]), s[end..], params);
      if s[1..end] in params {
        DifferentHead(Val(params[s[1..end]]), BindMarked(mark, s[end..], params), Lit(c), Direct(rest, params));
      }
    } else {
      BindMarkedAtToken(mark, s, Text(c), text, params);
      PushInjective(Lit(c), BindMarked(mark, text, params), Direct(rest, params));
    }
  }

  lemma PrefixBindsParam<T>(mark: char, name: string, rest: seq<Token>, params: map<string, T>, seen: seq<string>, values: seq<T>)
    requires !IsWord(mark) && Munched(rest) && Covers(params, rest) && name in params && IsName(name)
    requires rest != [] && rest[0].Text? ==> !IsWord(rest[0].c)
    requires Replaced(Prefix(mark), [Param(name)] + rest, params, seen, values).Returned?
    ensures BindMarked(mark, Replaced(Prefix(mark), [Param(name)] + rest, params, seen, values).value.0, params) ==
        Some([Val(params[name])] + Direct(rest, params))
      <==> !LooksMarked(mark, rest)
    decreases |rest| + 1, 0
  {
    ReplacedParam(Prefix(mark), name, rest, params, seen, values);
    var (_, seen', values') := Placed(Prefix(mark), name, params, seen, values);
    PrefixBinds(mark, rest, params, seen', values');
    FirstCharacter(Prefix(mark), rest, params, seen', values');
    var text := Replaced(Prefix(mark), rest, params, seen', values').value.0;
    MarkedNameScans(mark, name, text);
    BindMarkedAtToken(mark, [mark] + name + text, Param(name), text, params);
    PushInjective(Val(params[name]), BindMarked(mark, text, params), Direct(rest, params));
  }

  // ---- The theorems

  /** With a value for every name, each rendering is produced and means the named query exactly
      when the text holds nothing its driver would mistake for a placeholder. `$n` gets one value
      per distinct name, `?` one per occurrence. */
  lemma RenderingsPreserveMeaning<T>(sql: string, params: map<string, T>)
    requires Covers(params, Scan(':', sql))
    ensures var tokens := Scan(':', sql);
      && (var r := Replaced(Dollar, tokens, params, [], []);
          && r.Returned?
          && Aligned(DistinctNames(tokens, []), r.value.1, params)
          && (BindDollar(r.value.0, r.value.1) == Some(Direct(tokens, params)) <==> !LooksNumbered(tokens)))
      && (var r := Replaced(Question, tokens, params, [], []);
          && r.Returned?
          && r.value.1 == Occurrences(tokens, params)
          && (BindQuestion(r.value.0, r.value.1) == Some(Direct(tokens, params)) <==> Text('?') !in tokens))
  {
    var tokens := Scan(':', sql);
    ScanMunches(':', sql);
    DollarValues(tokens, params, [], []);
    DollarBinds(tokens, params, [], [], Replaced(Dollar, tokens, params, [], []).value.1);
    QuestionValues(tokens, params, [], []);
    assert [] + Occurrences(tokens, params) == Occurrences(tokens, params);
    QuestionBinds(tokens, params, [], []);
  }

  /** The names numbered by `$n` are the names of the query, each once. */
  lemma DollarNamesAreDistinct(sql: string)
    ensures var names := DistinctNames(Scan(':', sql), []);
      && (forall n :: n in names <==> Param(n) in Scan(':', sql))
      && (forall i, j :: 0 <= i < j < |names| ==> names[i] != names[j])
  {
    DistinctExtends(Scan(':', sql), []);
  }

  /** The prefixed rendering has the same tokens, and means the named query, exactly when the text
      has no marked name of its own. */
  lemma PrefixPreservesMeaning<T>(mark: char, sql: string, params: map<string, T>)
    requires !IsWord(mark) && Covers(params, Scan(':', sql))
    ensures var tokens := Scan(':', sql);
      var r := Replaced(Prefix(mark), tokens, params, [], []);
      && r.Returned?
      && (Scan(mark, r.value.0) == tokens <==> !LooksMarked(mark, tokens))
      && (BindMarked(mark, r.value.0, params) == Some(Direct(tokens, params)) <==> !LooksMarked(mark, tokens))
  {
    ScanMunches(':', sql);
    ReturnsWhenCovered(Prefix(mark), Scan(':', sql), params, [], []);
    PrefixScans(mark, Scan(':', sql), params, [], []);
    PrefixBinds(mark, Scan(':', sql), params, [], []);
  }

  /** Rendering reports a missing parameter exactly when some placeholder has no value. */
  lemma {:induction false} ReturnsWhenCovered<T>(style: Style, tokens: seq<Token>, params: map<string, T>, seen: seq<string>, values: seq<T>)
    ensures Replaced(style, tokens, params, seen, values).Returned? <==> Covers(params, tokens)
    decreases |tokens|
  {
    if tokens != [] {
      assert Covers(params, tokens) <==> (tokens[0].Param? ==> tokens[0].name in params) && Covers(params, tokens[1..]) by {
        assert forall i :: 0 <= i < |tokens[1..]| ==> tokens[1..][i] == tokens[i + 1];
        assert forall i :: 0 < i < |tokens| ==> tokens[i] == tokens[1..][i - 1];
      }
      match tokens[0]
      case Text(_) => ReturnsWhenCovered(style, tokens[1..], params, seen, values);
      case Param(name) =>
        if name in params {
          var (_, seen', values') := Placed(style, name, params, seen, values);
          ReturnsWhenCovered(style, tokens[1..], params, seen', values');
        }
    }
  }
}
