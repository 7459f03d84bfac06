/**
 * Pattern normalisation (`patternToRegex`): a fingerprint pattern is either a
 * delimited regular expression `/body/flags` or a literal string, which is
 * escaped and matched case-insensitively.
 *
 * The JavaScript regular-expression engine is not modelled: it is a parameter
 * (`RegexEngine`) that says which sources compile and what they match. The one
 * fragment the model interprets itself is the plain-string fragment that the
 * literal mode produces: a source whose every metacharacter is escaped denotes
 * exactly the unescaped string, matched as a substring.
 */
module Patterns {
  import opened Wrappers
  import opened Strings

  /** The characters the literal mode escapes: `. * + ? ^ $ { } ( ) | [ ] \`. */
  predicate IsMeta(c: char)
  {
    c in ".*+?^${}()|[]\\"
  }

  /** Literal mode's escaping: a backslash goes before every metacharacter. */
  function Escape(p: string): string
  {
    if |p| == 0 then ""
    else (if IsMeta(p[0]) then ['\\', p[0]] else [p[0]]) + Escape(p[1..])
  }

  /**
   * A regular-expression source that denotes a plain string: no bare
   * metacharacter, and every backslash escapes a metacharacter.
   */
  predicate IsEscapedLiteral(s: string)
    decreases |s|
  {
    || |s| == 0
    || (|s| >= 2 && s[0] == '\\' && IsMeta(s[1]) && IsEscapedLiteral(s[2..]))
    || (!IsMeta(s[0]) && IsEscapedLiteral(s[1..]))
  }

  /** The string an escaped source denotes: each escaping backslash removed. */
  function Unescape(s: string): string
    decreases |s|
  {
    if |s| == 0 then ""
    else if |s| >= 2 && s[0] == '\\' then [s[1]] + Unescape(s[2..])
    else [s[0]] + Unescape(s[1..])
  }

  /** Escaping always yields a plain-string source. */
  lemma {:induction false} EscapeIsLiteral(p: string)
    ensures IsEscapedLiteral(Escape(p))
  {
    if |p| > 0 {
      EscapeIsLiteral(p[1..]);
      var rest := Escape(p[1..]);
      if IsMeta(p[0]) {
        assert (['\\', p[0]] + rest)[2..] == rest;
      } else {
        assert ([p[0]] + rest)[1..] == rest;
      }
    }
  }

  /** Unescaping undoes escaping: the literal pattern is recovered exactly. */
  lemma {:induction false} UnescapeEscape(p: string)
    ensures Unescape(Escape(p)) == p
  {
    if |p| > 0 {
      UnescapeEscape(p[1..]);
      var rest := Escape(p[1..]);
      if IsMeta(p[0]) {
        assert (['\\', p[0]] + rest)[2..] == rest;
      } else {
        assert ([p[0]] + rest)[1..] == rest;
      }
      assert p == [p[0]] + p[1..];
    }
  }

  /** Escaping undoes unescaping on every plain-string source. */
  lemma {:induction false} EscapeUnescape(s: string)
    requires IsEscapedLiteral(s)
    ensures Escape(Unescape(s)) == s
    decreases |s|
  {
    if |s| > 0 {
      if s[0] == '\\' {
        var u := Unescape(s[2..]);
        EscapeUnescape(s[2..]);
        assert ([s[1]] + u)[1..] == u;
        assert s == ['\\', s[1]] + s[2..];
      } else {
        var u := Unescape(s[1..]);
        EscapeUnescape(s[1..]);
        assert ([s[0]] + u)[1..] == u;
        assert s == [s[0]] + s[1..];
      }
    }
  }

  /** How `patternToRegex` reads a pattern string. */
  datatype PatternMode = RegexMode(body: string, flags: string) | LiteralMode(text: string)

  /**
   * Regex mode when the pattern starts with `/` and its last `/` is past
   * index 0; the body lies strictly between the first and the last slash and
   * the flags are everything after the last slash.
   */
  function Mode(p: string): (m: PatternMode)
    ensures m.RegexMode? ==> p == "/" + m.body + "/" + m.flags && '/' !in m.flags
    ensures m.LiteralMode? ==> m.text == p
  {
    var last := LastIndexOf(p, '/');
    if |p| > 0 && p[0] == '/' && last > 0 then
      assert p == "/" + p[1..last] + "/" + p[last + 1..];
      RegexMode(p[1..last], p[last + 1..])
    else LiteralMode(p)
  }

  /** Every `/body/flags` string whose flags hold no slash is read in regex mode, as written. */
  lemma DelimitedIsRegexMode(body: string, flags: string)
    requires '/' !in flags
    ensures Mode("/" + body + "/" + flags) == RegexMode(body, flags)
  {
    var p := "/" + body + "/" + flags;
    var last := LastIndexOf(p, '/');
    assert p[|body| + 1] == '/';
    assert p[|body| + 2..] == flags;
    assert last == |body| + 1;
    assert p[1..last] == body;
  }

  /** A compiled JavaScript `RegExp`: its source text and its flags. */
  datatype RegExp = RegExp(source: string, flags: string)

  /** The engine: which (source, flags) pairs compile and what a compiled pair matches. */
  datatype RegexEngine = RegexEngine(
    compiles: (string, string) -> bool,
    test: (string, string, string) -> bool)

  /** The `SyntaxError` `new RegExp` throws, with the offending pattern. */
  datatype CompileError = SyntaxError(pattern: string)

  /** The plain-string fragment: an escaped source with no flags or only `i`. */
  predicate InLiteralFragment(source: string, flags: string)
  {
    IsEscapedLiteral(source) && (flags == "" || flags == "i")
  }

  /** `new RegExp(source, flags)` succeeds. */
  predicate Compiles(eng: RegexEngine, source: string, flags: string)
  {
    InLiteralFragment(source, flags) || eng.compiles(source, flags)
  }

  /** `rx.test(text)` (a fresh `RegExp`, so the `g` flag's `lastIndex` plays no part). */
  predicate Test(eng: RegexEngine, rx: RegExp, text: string)
  {
    if IsEscapedLiteral(rx.source) && rx.flags == "i" then ContainsIgnoreCase(text, Unescape(rx.source))
    else if IsEscapedLiteral(rx.source) && rx.flags == "" then Contains(text, Unescape(rx.source))
    else eng.test(rx.source, rx.flags, text)
  }

  /** `patternToRegex`: the compiled expression, or the error `new RegExp` throws. */
  function PatternToRegex(eng: RegexEngine, p: string): (r: Result<RegExp, CompileError>)
    ensures r.Err? ==> r.error == SyntaxError(p)
    ensures r.Ok? ==> r.value.flags == "i" || Mode(p).RegexMode?
  {
    match Mode(p)
    case RegexMode(body, flags) =>
      if Compiles(eng, body, flags) then Ok(RegExp(body, flags)) else Err(SyntaxError(p))
    case LiteralMode(_) => Ok(RegExp(Escape(p), "i"))
  }

  /** Compile `p` and test it against `text`, as the channels do. */
  function Matches(eng: RegexEngine, p: string, text: string): Result<bool, CompileError>
  {
    var rx :- PatternToRegex(eng, p);
    Ok(Test(eng, rx, text))
  }

  /**
   * A pattern in literal mode always compiles, to the escaped pattern with
   * flag `i`, and matches a text exactly when it occurs in it ignoring case.
   */
  lemma LiteralPatternMatches(eng: RegexEngine, p: string, text: string)
    requires Mode(p).LiteralMode?
    ensures PatternToRegex(eng, p) == Ok(RegExp(Escape(p), "i"))
    ensures Matches(eng, p, text) == Ok(ContainsIgnoreCase(text, p))
  {
    EscapeIsLiteral(p);
    UnescapeEscape(p);
  }

  /** A regex-mode pattern compiles exactly when the engine accepts its body and flags. */
  lemma RegexPatternCompiles(eng: RegexEngine, p: string)
    requires Mode(p).RegexMode?
    ensures PatternToRegex(eng, p).Ok? <==> Compiles(eng, Mode(p).body, Mode(p).flags)
    ensures PatternToRegex(eng, p).Ok? ==> PatternToRegex(eng, p).value == RegExp(Mode(p).body, Mode(p).flags)
  {
  }

  /** `"/foo.*bar/i"` is the expression `foo.*bar` with flag `i`, whatever the engine makes of it. */
  lemma DelimitedExample(eng: RegexEngine)
    requires eng.compiles("foo.*bar", "i")
    ensures PatternToRegex(eng, "/foo.*bar/i") == Ok(RegExp("foo.*bar", "i"))
  {
    DelimitedIsRegexMode("foo.*bar", "i");
    assert "/foo.*bar/i" == "/" + "foo.*bar" + "/" + "i";
  }

  /** Metacharacters in a literal pattern are matched literally: `a.c` does not match `abc`. */
  lemma LiteralMetaIsLiteral(eng: RegexEngine)
    ensures Matches(eng, "a.c", "abc") == Ok(false)
  {
    assert LastIndexOf("a.c", '/') == -1;
    LiteralPatternMatches(eng, "a.c", "abc");
    var t, q := LowerAll("abc"), LowerAll("a.c");
    assert t[1] == 'b' && q[1] == '.';
    ContainsSameLength(t, q);
  }

  /** A literal pattern ignores case in the text: lower-casing the text changes no verdict. */
  lemma LiteralIgnoresCase(eng: RegexEngine, p: string, text: string)
    requires Mode(p).LiteralMode?
    ensures Matches(eng, p, text) == Matches(eng, p, LowerAll(text))
  {
    LiteralPatternMatches(eng, p, text);
    LiteralPatternMatches(eng, p, LowerAll(text));
    LowerAllIdempotent(text);
  }
}
