/**
 * Filtering of a list by a pattern with stars (lib/util/wildcard.js:26-53). The regular expressions
 * built there only hold escaped literals and `.*`; `Parse` reads that part of the syntax.
 */
module Wildcard {
  import opened Wrappers
  import opened Text

  /* ---------- what a pattern means ---------- */

  predicate EndsLine(c: char)
  {
    c == '\n' || c == '\r' || c == '\U{2028}' || c == '\U{2029}'
  }

  /** A star stands for any text; `lines` tells whether that text may hold line terminators. */
  predicate Glob(pattern: string, text: string, lines: bool)
    decreases |pattern| + |text|
  {
    if pattern == "" then text == ""
    else if pattern[0] != '*' then text != "" && text[0] == pattern[0] && Glob(pattern[1..], text[1..], lines)
    else
      || Glob(pattern[1..], text, lines)
      || (text != "" && (lines || !EndsLine(text[0])) && Glob(pattern, text[1..], lines))
  }

  predicate OneLine(text: string)
  {
    forall c <- text :: !EndsLine(c)
  }

  lemma {:induction false} GlobOnOneLine(pattern: string, text: string)
    requires OneLine(text)
    ensures Glob(pattern, text, true) <==> Glob(pattern, text, false)
    decreases |pattern| + |text|
  {
    if pattern != "" {
      GlobOnOneLine(pattern[1..], text);
      if text != "" {
        GlobOnOneLine(pattern[1..], text[1..]);
        GlobOnOneLine(pattern, text[1..]);
      }
    }
  }

  /* ---------- regular expressions made of literals and `.*` ---------- */

  datatype Token = Literal(c: char) | DotStar

  /** The anchored match. */
  predicate Matches(tokens: seq<Token>, text: string)
    decreases |tokens| + |text|
  {
    if tokens == [] then text == ""
    else if tokens[0].Literal? then text != "" && text[0] == tokens[0].c && Matches(tokens[1..], text[1..])
    else Matches(tokens[1..], text) || (text != "" && !EndsLine(text[0]) && Matches(tokens, text[1..]))
  }

  /** The syntax characters of regular expressions: unescaped they are no literals, and only they are escaped. */
  predicate Syntax(c: char)
  {
    || c == '^' || c == '$' || c == '\\' || c == '.' || c == '*' || c == '+' || c == '?' || c == '(' || c == ')'
    || c == '[' || c == ']' || c == '{' || c == '}' || c == '|'
  }

  /** The characters that lodash's `escapeRegExp` escapes. */
  predicate Special(c: char)
  {
    || c == '\\' || c == '^' || c == '$' || c == '.' || c == '*' || c == '+' || c == '?' || c == '(' || c == ')'
    || c == '[' || c == ']' || c == '{' || c == '}' || c == '|'
  }

  /** lodash's `escapeRegExp`. */
  function EscapeRegExp(s: string): string
  {
    if s == "" then "" else EscapeOne(s[0]) + EscapeRegExp(s[1..])
  }

  function Parse(source: string): Option<seq<Token>>
  {
    if source == "" then Some([])
    else if source[0] == '\\' && |source| >= 2 && Syntax(source[1]) then Then(Literal(source[1]), Parse(source[2..]))
    else if source[0] == '.' && |source| >= 2 && source[1] == '*' then Then(DotStar, Parse(source[2..]))
    else if Syntax(source[0]) then None
    else Then(Literal(source[0]), Parse(source[1..]))
  }

  function Then(token: Token, rest: Option<seq<Token>>): Option<seq<Token>>
  {
    if rest.Some? then Some([token] + rest.value) else None
  }

  /* ---------- the source's function ---------- */

  /** Parts are kept when they are not empty, and at both ends. */
  function Collapse(parts: seq<string>): (kept: seq<string>)
    requires parts != []
    ensures kept != [] && kept[0] == parts[0]
  {
    [parts[0]] + CollapseAfter(parts[1..])
  }

  function CollapseAfter(parts: seq<string>): seq<string>
  {
    if |parts| <= 1 then parts
    else if parts[0] == "" then CollapseAfter(parts[1..])
    else [parts[0]] + CollapseAfter(parts[1..])
  }

  function EscapeAll(parts: seq<string>): seq<string>
  {
    if parts == [] then [] else [EscapeRegExp(parts[0])] + EscapeAll(parts[1..])
  }

  function WildCardPattern(pattern: string): string
  {
    Join(EscapeAll(Collapse(Split(pattern, '*'))), ".*")
  }

  predicate Test(pattern: string, item: string)
  {
    var regex := Parse(WildCardPattern(pattern));
    regex.Some? && Matches(regex.value, item)
  }

  function Without(pattern: string, list: seq<string>): seq<string>
  {
    if list == [] then []
    else (if Test(pattern, list[0]) then [] else [list[0]]) + Without(pattern, list[1..])
  }

  function Match(pattern: string, list: seq<string>): seq<string>
  {
    if pattern == "*" then list
    else if WildCardPattern(pattern) == ".*" then list
    else Without(pattern, list)
  }

  /* ---------- the regular expression means the pattern ---------- */

  function Literals(s: string): (r: seq<Token>)
    ensures |r| == |s| && forall i :: 0 <= i < |s| ==> r[i] == Literal(s[i])
  {
    if s == "" then [] else [Literal(s[0])] + Literals(s[1..])
  }

  /** A star, then the part, for each part. */
  function Starred(parts: seq<string>): seq<Token>
  {
    if parts == [] then [] else [DotStar] + Literals(parts[0]) + Starred(parts[1..])
  }

  function Tokens(parts: seq<string>): seq<Token>
    requires parts != []
  {
    Literals(parts[0]) + Starred(parts[1..])
  }

  function EscapeOne(c: char): string
  {
    if Special(c) then ['\\', c] else [c]
  }

  /** Left unescaped, a syntax character other than those of `.*` is no part of such an expression. */
  lemma UnescapedIsRefused(c: char, rest: string)
    requires Syntax(c) && c != '\\' && c != '.'
    ensures Parse([c] + rest).None? && Parse(EscapeOne(c) + rest) == Then(Literal(c), Parse(rest))
  {
    ParseOne(c, rest);
  }

  lemma ParseOne(c: char, rest: string)
    ensures Parse(EscapeOne(c) + rest) == Then(Literal(c), Parse(rest))
  {
    assert (EscapeOne(c) + rest)[|EscapeOne(c)|..] == rest;
  }

  lemma {:induction false} ParseEscaped(s: string, rest: string)
    requires Parse(rest).Some?
    ensures Parse(EscapeRegExp(s) + rest) == Some(Literals(s) + Parse(rest).value)
  {
    if s == "" {
      assert EscapeRegExp(s) + rest == rest && Literals(s) + Parse(rest).value == Parse(rest).value;
    } else {
      ParseEscaped(s[1..], rest);
      ParseOne(s[0], EscapeRegExp(s[1..]) + rest);
      Regroup(EscapeOne(s[0]), EscapeRegExp(s[1..]), rest);
      Regroup([Literal(s[0])], Literals(s[1..]), Parse(rest).value);
    }
  }

  /** Reading the source of the expression back gives the parts with a `.*` between them. */
  lemma {:induction false} ParseJoined(parts: seq<string>)
    requires parts != []
    ensures Parse(Join(EscapeAll(parts), ".*")) == Some(Tokens(parts))
  {
    if |parts| == 1 {
      assert EscapeRegExp(parts[0]) + "" == EscapeRegExp(parts[0]);
      ParseEscaped(parts[0], "");
    } else {
      var tail := parts[1..];
      ParseJoined(tail);
      ParseStar(Join(EscapeAll(tail), ".*"));
      JoinEscaped(parts);
      ParseEscaped(parts[0], ".*" + Join(EscapeAll(tail), ".*"));
      StarredParts(tail);
    }
  }

  lemma StarredParts(parts: seq<string>)
    requires parts != []
    ensures Starred(parts) == [DotStar] + Tokens(parts)
  {
    Regroup([DotStar], Literals(parts[0]), Starred(parts[1..]));
  }

  lemma ParseStar(rest: string)
    ensures Parse(".*" + rest) == Then(DotStar, Parse(rest))
  {
    assert (".*" + rest)[2..] == rest;
  }

  lemma JoinEscaped(parts: seq<string>)
    requires |parts| > 1
    ensures Join(EscapeAll(parts), ".*") == EscapeRegExp(parts[0]) + (".*" + Join(EscapeAll(parts[1..]), ".*"))
  {
    var escaped := EscapeAll(parts);
    assert escaped[1..] == EscapeAll(parts[1..]) && escaped[0] == EscapeRegExp(parts[0]);
    assert |EscapeAll(parts[1..])| > 0;
    Regroup(escaped[0], ".*", Join(escaped[1..], ".*"));
  }

  /** Equivalent ends make equivalent expressions. */
  lemma {:induction false} SamePrefix(prefix: seq<Token>, a: seq<Token>, b: seq<Token>, text: string)
    requires forall t :: Matches(a, t) <==> Matches(b, t)
    ensures Matches(prefix + a, text) <==> Matches(prefix + b, text)
    decreases |prefix| + |text|
  {
    if prefix == [] {
      assert prefix + a == a && prefix + b == b;
    } else {
      assert (prefix + a)[1..] == prefix[1..] + a && (prefix + b)[1..] == prefix[1..] + b;
      SamePrefix(prefix[1..], a, b, text);
      if text != "" {
        SamePrefix(prefix[1..], a, b, text[1..]);
        SamePrefix(prefix, a, b, text[1..]);
      }
    }
  }

  /** Two stars in a row accept what one accepts. */
  lemma {:induction false} DoubleStar(rest: seq<Token>, text: string)
    ensures Matches([DotStar, DotStar] + rest, text) <==> Matches([DotStar] + rest, text)
  {
    assert ([DotStar, DotStar] + rest)[1..] == [DotStar] + rest;
    if text != "" {
      DoubleStar(rest, text[1..]);
    }
  }

  lemma {:induction false} CollapseAfterKeepsMeaning(parts: seq<string>, text: string)
    ensures Matches(Starred(CollapseAfter(parts)), text) <==> Matches(Starred(parts), text)
    decreases |parts|
  {
    if |parts| > 1 {
      forall t ensures Matches(Starred(CollapseAfter(parts[1..])), t) <==> Matches(Starred(parts[1..]), t) {
        CollapseAfterKeepsMeaning(parts[1..], t);
      }
      if parts[0] == "" {
        var rest := Literals(parts[1]) + Starred(parts[2..]);
        assert parts[1..][1..] == parts[2..];
        assert Starred(parts[1..]) == [DotStar] + rest;
        assert Starred(parts) == [DotStar, DotStar] + rest;
        DoubleStar(rest, text);
      } else {
        SamePrefix([DotStar] + Literals(parts[0]), Starred(CollapseAfter(parts[1..])), Starred(parts[1..]), text);
        assert ([parts[0]] + CollapseAfter(parts[1..]))[1..] == CollapseAfter(parts[1..]);
      }
    }
  }

  /** The stars of a pattern separate its parts. */
  function PatternTokens(pattern: string): seq<Token>
  {
    if pattern == "" then []
    else [if pattern[0] == '*' then DotStar else Literal(pattern[0])] + PatternTokens(pattern[1..])
  }

  lemma {:induction false} SplitTokens(pattern: string)
    ensures Tokens(Split(pattern, '*')) == PatternTokens(pattern)
  {
    if pattern != "" {
      SplitTokens(pattern[1..]);
      var rest := Split(pattern[1..], '*');
      var parts := Split(pattern, '*');
      if pattern[0] == '*' {
        assert parts[1..] == rest;
        assert Starred(rest) == [DotStar] + Tokens(rest);
      } else {
        assert parts[1..] == rest[1..];
        assert Literals(parts[0]) == [Literal(pattern[0])] + Literals(rest[0]);
      }
    }
  }

  lemma {:induction false} PatternTokensMean(pattern: string, text: string)
    ensures Matches(PatternTokens(pattern), text) <==> Glob(pattern, text, false)
    decreases |pattern| + |text|
  {
    if pattern != "" {
      assert PatternTokens(pattern)[1..] == PatternTokens(pattern[1..]);
      PatternTokensMean(pattern[1..], text);
      if text != "" {
        PatternTokensMean(pattern[1..], text[1..]);
        PatternTokensMean(pattern, text[1..]);
      }
    }
  }

  /**
   * The expression built from a pattern is well formed and accepts exactly what the pattern means, repeated stars or
   * not.
   */
  lemma TestMeansGlob(pattern: string, text: string)
    ensures Parse(WildCardPattern(pattern)).Some?
    ensures Test(pattern, text) <==> Glob(pattern, text, false)
  {
    var parts := Split(pattern, '*');
    ParseJoined(Collapse(parts));
    forall t ensures Matches(Starred(CollapseAfter(parts[1..])), t) <==> Matches(Starred(parts[1..]), t) {
      CollapseAfterKeepsMeaning(parts[1..], t);
    }
    SamePrefix(Literals(parts[0]), Starred(CollapseAfter(parts[1..])), Starred(parts[1..]), text);
    assert Collapse(parts)[1..] == CollapseAfter(parts[1..]);
    SplitTokens(pattern);
    PatternTokensMean(pattern, text);
  }

  /* ---------- what the filter keeps ---------- */

  /** The items a pattern means, line terminators being nothing special. */
  function Meant(pattern: string, list: seq<string>): seq<string>
  {
    if list == [] then []
    else (if Glob(pattern, list[0], true) then [list[0]] else []) + Meant(pattern, list[1..])
  }

  predicate OnlyStars(pattern: string)
  {
    pattern != "" && forall c <- pattern :: c == '*'
  }

  lemma {:induction false} OnlyStarsMeansAll(pattern: string, text: string)
    requires OnlyStars(pattern)
    ensures Glob(pattern, text, true)
    decreases |pattern| + |text|
  {
    assert pattern[0] in pattern;
    if text != "" {
      OnlyStarsMeansAll(pattern, text[1..]);
    } else if |pattern| > 1 {
      assert forall c <- pattern[1..] :: c in pattern;
      OnlyStarsMeansAll(pattern[1..], text);
    }
  }


  lemma {:induction false} EmptyTextMeansStars(pattern: string)
    requires Glob(pattern, "", false)
    ensures pattern == "" || OnlyStars(pattern)
  {
    if pattern != "" {
      EmptyTextMeansStars(pattern[1..]);
      assert pattern == [pattern[0]] + pattern[1..];
    }
  }

  /** Only empty parts, at least two of them. */
  lemma {:induction false} SplitOfStars(pattern: string)
    requires pattern == "" || OnlyStars(pattern)
    ensures var parts := Split(pattern, '*');
            |parts| == |pattern| + 1 && parts[0] == "" && (|parts| > 1 ==> CollapseAfter(parts[1..]) == [""])
  {
    if pattern != "" {
      assert pattern[0] in pattern;
      assert forall c <- pattern[1..] :: c in pattern;
      SplitOfStars(pattern[1..]);
      var rest := Split(pattern[1..], '*');
      assert Split(pattern, '*')[1..] == rest;
      assert rest == [rest[0]] + rest[1..];
    }
  }

  /** The second shortcut is taken for the patterns made of stars. */
  lemma ShortcutIffOnlyStars(pattern: string)
    ensures WildCardPattern(pattern) == ".*" <==> OnlyStars(pattern)
  {
    if WildCardPattern(pattern) == ".*" {
      assert ".*" + "" == ".*";
      ParseStar("");
      assert Matches([DotStar], "") by {
        assert Matches([DotStar][1..], "");
      }
      TestMeansGlob(pattern, "");
      EmptyTextMeansStars(pattern);
    } else if OnlyStars(pattern) {
      SplitOfStars(pattern);
      var kept: seq<string> := Collapse(Split(pattern, '*'));
      assert kept == ["", ""];
      assert kept[1..] == [""];
      assert EscapeAll([""]) == [""];
      assert EscapeAll(kept) == ["", ""];
      JoinEscaped(kept);
    }
  }

  /** The pattern means the text, but only with a star that runs over a line terminator. */
  predicate MeantAcrossLines(pattern: string, text: string)
  {
    Glob(pattern, text, true) && !Glob(pattern, text, false)
  }

  /**
   * The items kept are those the pattern means exactly when the pattern is made of stars, or when
   * every item, if there is any, is meant across lines: the list is filtered the other way round.
   */
  lemma MatchKeepsMeantIff(pattern: string, list: seq<string>)
    ensures Match(pattern, list) == Meant(pattern, list)
            <==> OnlyStars(pattern) || forall item <- list :: MeantAcrossLines(pattern, item)
    ensures OnlyStars(pattern) ==> Match(pattern, list) == list
    ensures !OnlyStars(pattern) ==> Match(pattern, list) == Without(pattern, list)
  {
    ShortcutIffOnlyStars(pattern);
    if OnlyStars(pattern) {
      AllMeant(pattern, list);
    } else {
      Opposite(pattern, list);
      if Match(pattern, list) == Meant(pattern, list) {
        forall item | item in list ensures MeantAcrossLines(pattern, item) {
          GlobAcrossLines(pattern, item);
        }
      }
      if forall item <- list :: MeantAcrossLines(pattern, item) {
        AllAcrossLines(pattern, list);
      }
    }
  }

  /** Without line terminators, a list is filtered as intended only if it is empty or the pattern is made of stars. */
  lemma OneLineItems(pattern: string, list: seq<string>)
    requires forall item <- list :: OneLine(item)
    ensures Match(pattern, list) == Meant(pattern, list) <==> OnlyStars(pattern) || list == []
  {
    MatchKeepsMeantIff(pattern, list);
    if list != [] {
      assert list[0] in list;
      GlobOnOneLine(pattern, list[0]);
    }
  }

  lemma {:induction false} GlobAcrossLines(pattern: string, text: string)
    ensures Glob(pattern, text, false) ==> Glob(pattern, text, true)
    decreases |pattern| + |text|
  {
    if pattern != "" && Glob(pattern, text, false) {
      if pattern[0] != '*' {
        GlobAcrossLines(pattern[1..], text[1..]);
      } else if Glob(pattern[1..], text, false) {
        GlobAcrossLines(pattern[1..], text);
      } else {
        GlobAcrossLines(pattern, text[1..]);
      }
    }
  }

  lemma {:induction false} AllAcrossLines(pattern: string, list: seq<string>)
    requires forall item <- list :: MeantAcrossLines(pattern, item)
    ensures Without(pattern, list) == list && Meant(pattern, list) == list
  {
    if list != [] {
      assert list[0] in list;
      assert forall item <- list[1..] :: item in list;
      TestMeansGlob(pattern, list[0]);
      AllAcrossLines(pattern, list[1..]);
    }
  }

  lemma {:induction false} AllMeant(pattern: string, list: seq<string>)
    requires OnlyStars(pattern)
    ensures Meant(pattern, list) == list
  {
    if list != [] {
      OnlyStarsMeansAll(pattern, list[0]);
      AllMeant(pattern, list[1..]);
    }
  }

  /** The general path keeps exactly the items that the pattern does not mean within a line. */
  lemma {:induction false} Opposite(pattern: string, list: seq<string>)
    ensures forall item :: item in Without(pattern, list) <==> item in list && !Glob(pattern, item, false)
    ensures forall item :: item in Meant(pattern, list) <==> item in list && Glob(pattern, item, true)
  {
    if list != [] {
      Opposite(pattern, list[1..]);
      TestMeansGlob(pattern, list[0]);
      assert list == [list[0]] + list[1..];
    }
  }
}
