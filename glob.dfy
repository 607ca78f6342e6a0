/**
 * Shell-style wildcard matching with the rules of Python's `fnmatch.fnmatch`
 * on a POSIX host (no case folding): `*` matches any run of characters,
 * `?` any one character, `[seq]` one character of the set, `[!seq]` one
 * character outside it, and a `[` with no closing `]` is an ordinary
 * character. The pattern is read into tokens first, the way `fnmatch`
 * translates it, and the name is then matched against the whole token list.
 */
module Glob {
  import opened Text

  /** One member of a bracket expression: a single character or a range `lo-hi` (empty when `lo > hi`). */
  datatype ClassItem = Single(c: char) | Span(lo: char, hi: char)

  datatype Token =
    | Star                                               // `*`
    | AnyChar                                            // `?`
    | Literal(c: char)                                   // any other character, or a `[` left unclosed
    | CharClass(negated: bool, items: seq<ClassItem>)    // `[...]` or `[!...]`

  predicate ItemHas(item: ClassItem, c: char) {
    match item
    case Single(x) => c == x
    case Span(lo, hi) => lo <= c <= hi
  }

  predicate InClass(items: seq<ClassItem>, c: char) {
    exists i :: 0 <= i < |items| && ItemHas(items[i], c)
  }

  /** Whether a single-character token accepts `c`. */
  predicate Accepts(t: Token, c: char)
    requires !t.Star?
  {
    match t
    case AnyChar => true
    case Literal(x) => c == x
    case CharClass(negated, items) => InClass(items, c) != negated
  }

  /** The members of a bracket body, read left to right: `x-y` with a character after the hyphen is a range. */
  function ParseItems(body: string): seq<ClassItem>
    decreases |body|
  {
    if |body| == 0 then []
    else if |body| >= 3 && body[1] == '-' then [Span(body[0], body[2])] + ParseItems(body[3..])
    else [Single(body[0])] + ParseItems(body[1..])
  }

  /** The first index at or after `j` that holds `]`, or `|p|` when there is none. */
  function CloseIndex(p: string, j: nat): (k: nat)
    requires j <= |p|
    ensures j <= k <= |p|
    ensures k < |p| ==> p[k] == ']'
    ensures forall i :: j <= i < k ==> p[i] != ']'
    decreases |p| - j
  {
    if j == |p| || p[j] == ']' then j else CloseIndex(p, j + 1)
  }

  /**
   * For a pattern starting with `[`: the index of the `]` that closes it, or
   * `|p|` when it is unclosed. A `!` right after the `[`, and then a `]` right
   * after that, belong to the bracket body.
   */
  function BracketEnd(p: string): (k: nat)
    requires |p| >= 1 && p[0] == '['
    ensures 2 <= k <= |p| || k == |p|
    ensures k < |p| ==> p[k] == ']'
  {
    var j := if 1 < |p| && p[1] == '!' then 2 else 1;
    var j' := if j < |p| && p[j] == ']' then j + 1 else j;
    CloseIndex(p, j')
  }

  /** The token for a closed bracket body (the text between `[` and `]`). */
  function ClassToken(body: string): Token {
    if |body| > 0 && body[0] == '!' then CharClass(true, ParseItems(body[1..]))
    else CharClass(false, ParseItems(body))
  }

  function Tokenize(p: string): seq<Token>
    decreases |p|
  {
    if p == [] then []
    else if p[0] == '*' then [Star] + Tokenize(p[1..])
    else if p[0] == '?' then [AnyChar] + Tokenize(p[1..])
    else if p[0] == '[' then
      var k := BracketEnd(p);
      if k >= |p| then [Literal('[')] + Tokenize(p[1..])
      else [ClassToken(p[1..k])] + Tokenize(p[k + 1..])
    else [Literal(p[0])] + Tokenize(p[1..])
  }

  /** Whether the whole of `s` matches the token list `ts`. */
  predicate Matches(s: string, ts: seq<Token>)
    decreases |ts|, |s|
  {
    if ts == [] then s == []
    else if ts[0].Star? then Matches(s, ts[1..]) || (s != [] && Matches(s[1..], ts))
    else s != [] && Accepts(ts[0], s[0]) && Matches(s[1..], ts[1..])
  }

  /** `fnmatch.fnmatch(name, pattern)` with POSIX (identity) case normalisation. */
  predicate GlobMatch(name: string, pattern: string) {
    Matches(name, Tokenize(pattern))
  }

  /** The pattern contains none of the wildcard characters `*`, `?`, `[`. */
  predicate NoWildcards(p: string) {
    forall i :: 0 <= i < |p| ==> p[i] != '*' && p[i] != '?' && p[i] != '['
  }

  /** A pattern without wildcards matches exactly the name equal to it. */
  lemma {:induction false} LiteralPatternMatchesItself(name: string, p: string)
    requires NoWildcards(p)
    ensures GlobMatch(name, p) <==> name == p
  {
    if p != [] {
      assert Tokenize(p) == [Literal(p[0])] + Tokenize(p[1..]);
      assert NoWildcards(p[1..]) by {
        forall i | 0 <= i < |p[1..]| ensures p[1..][i] != '*' && p[1..][i] != '?' && p[1..][i] != '[' {
          assert p[1..][i] == p[i + 1];
        }
      }
      if name != [] {
        LiteralPatternMatchesItself(name[1..], p[1..]);
        assert name == [name[0]] + name[1..];
        assert p == [p[0]] + p[1..];
      }
    }
  }

  lemma {:induction false} StarMatchesAnything(s: string)
    ensures Matches(s, [Star])
  {
    if s != [] {
      StarMatchesAnything(s[1..]);
    }
  }

  /** `*` alone matches every name. */
  lemma StarPatternMatchesEverything(name: string)
    ensures GlobMatch(name, "*")
  {
    assert Tokenize("*") == [Star];
    StarMatchesAnything(name);
  }

  lemma {:induction false} LiteralTokens(name: string, lit: string)
    requires NoWildcards(lit)
    ensures Matches(name, Tokenize(lit)) <==> name == lit
  {
    LiteralPatternMatchesItself(name, lit);
  }

  lemma {:induction false} StarThenLiteral(s: string, lit: string)
    requires NoWildcards(lit)
    ensures Matches(s, [Star] + Tokenize(lit)) <==> EndsWith(s, lit)
    decreases |s|
  {
    var ts := [Star] + Tokenize(lit);
    assert ts[1..] == Tokenize(lit);
    LiteralTokens(s, lit);
    if s != [] {
      StarThenLiteral(s[1..], lit);
      if |lit| < |s| {
        assert s[|s| - |lit|..] == s[1..][|s[1..]| - |lit|..];
      }
    }
  }

  /** A pattern `*suffix` without further wildcards matches exactly the names ending with `suffix`. */
  lemma StarSuffixMatchesEndings(name: string, suffix: string)
    requires NoWildcards(suffix)
    ensures GlobMatch(name, "*" + suffix) <==> EndsWith(name, suffix)
  {
    var p := "*" + suffix;
    assert p[1..] == suffix;
    assert Tokenize(p) == [Star] + Tokenize(suffix);
    StarThenLiteral(name, suffix);
  }

  lemma OneCharacterToken(name: string, t: Token)
    requires !t.Star?
    ensures Matches(name, [t]) <==> |name| == 1 && Accepts(t, name[0])
  {
    if name != [] {
      assert [t][1..] == [];
    }
  }

  /** `?` matches exactly the one-character names. */
  lemma QuestionMarkMatchesOneCharacter(name: string)
    ensures GlobMatch(name, "?") <==> |name| == 1
  {
    assert Tokenize("?") == [AnyChar];
    OneCharacterToken(name, AnyChar);
  }

  lemma {:induction false} CloseIndexOfBody(p: string, j: nat)
    requires 1 <= j <= |p| - 1 && p[|p| - 1] == ']'
    requires forall i :: j <= i < |p| - 1 ==> p[i] != ']'
    ensures CloseIndex(p, j) == |p| - 1
    decreases |p| - j
  {
    if j < |p| - 1 {
      CloseIndexOfBody(p, j + 1);
    }
  }

  lemma BracketEndOfClosed(p: string)
    requires |p| >= 3 && p[0] == '[' && p[|p| - 1] == ']' && p != "[!]"
    requires forall i :: 1 <= i < |p| - 1 ==> p[i] != ']'
    ensures BracketEnd(p) == |p| - 1
  {
    var j := if p[1] == '!' then 2 else 1;
    assert |p| == 3 ==> p == [p[0], p[1], p[2]];
    CloseIndexOfBody(p, j);
  }

  lemma TokenizeClosedBracket(p: string)
    requires |p| >= 3 && p[0] == '[' && p[|p| - 1] == ']' && p != "[!]"
    requires forall i :: 1 <= i < |p| - 1 ==> p[i] != ']'
    ensures Tokenize(p) == [ClassToken(p[1..|p| - 1])]
  {
    BracketEndOfClosed(p);
    assert p[|p|..] == [];
  }

  /**
   * A closed bracket expression `[seq]` matches one character of the set;
   * `[!seq]` one outside it. (`[!]` alone is unclosed, like `[`.)
   */
  lemma BracketMatchesOneCharacter(name: string, body: string)
    requires |body| > 0 && body != "!"
    requires forall i :: 0 <= i < |body| ==> body[i] != ']'
    ensures GlobMatch(name, "[" + body + "]") <==>
              |name| == 1 && (if body[0] == '!' then !InClass(ParseItems(body[1..]), name[0])
                              else InClass(ParseItems(body), name[0]))
  {
    var p := "[" + body + "]";
    assert p[1..|p| - 1] == body;
    assert p != "[!]" by {
      if |body| == 1 {
        assert p[1] == body[0] && body == [body[0]];
      }
    }
    forall i | 1 <= i < |p| - 1 ensures p[i] != ']' {
      assert p[i] == body[i - 1];
    }
    TokenizeClosedBracket(p);
    OneCharacterToken(name, ClassToken(body));
  }

  /** A pattern that is one closed bracket expression matches one character, the one its body accepts. */
  lemma ClosedBracketMatchesOneCharacter(name: string, p: string)
    requires |p| >= 1 && p[0] == '[' && BracketEnd(p) == |p| - 1
    ensures GlobMatch(name, p) <==> |name| == 1 && Accepts(ClassToken(p[1..|p| - 1]), name[0])
  {
    assert p[|p|..] == [];
    assert Tokenize(p) == [ClassToken(p[1..|p| - 1])];
    OneCharacterToken(name, ClassToken(p[1..|p| - 1]));
  }

  /** Where a bracket expression whose body starts with `]` (after an optional `!`) ends. */
  lemma LeadingCloseBracketEnd(negated: bool, rest: string)
    requires forall i :: 0 <= i < |rest| ==> rest[i] != ']'
    ensures var p := (if negated then "[!]" else "[]") + rest + "]";
            && BracketEnd(p) == |p| - 1
            && p[1..|p| - 1] == (if negated then "!" + ("]" + rest) else "]" + rest)
  {
    var p := (if negated then "[!]" else "[]") + rest + "]";
    var start := if negated then 3 else 2;
    assert p[start - 1] == ']' && (negated ==> p[1] == '!') && (!negated ==> p[1] == ']');
    forall i | start <= i < |p| - 1 ensures p[i] != ']' {
      assert p[i] == rest[i - start];
    }
    CloseIndexOfBody(p, start);
    assert p[1..|p| - 1] == (if negated then "!" + ("]" + rest) else "]" + rest);
  }

  /**
   * A `]` right after `[` or `[!` is a member of the set, not its end:
   * `[]a]` matches `]` or `a`, `[!]a]` any other single character.
   */
  lemma LeadingCloseBracketIsMember(name: string, negated: bool, rest: string)
    requires forall i :: 0 <= i < |rest| ==> rest[i] != ']'
    ensures GlobMatch(name, (if negated then "[!]" else "[]") + rest + "]") <==>
              |name| == 1 && InClass(ParseItems("]" + rest), name[0]) != negated
  {
    var p := (if negated then "[!]" else "[]") + rest + "]";
    var items := "]" + rest;
    LeadingCloseBracketEnd(negated, rest);
    if negated {
      assert ("!" + items)[1..] == items;
      assert ClassToken("!" + items) == CharClass(true, ParseItems(items));
    } else {
      assert ClassToken(items) == CharClass(false, ParseItems(items));
    }
    ClosedBracketMatchesOneCharacter(name, p);
  }

  /** No `]` from the third character on leaves a leading `[` unclosed. */
  lemma {:induction false} NoCloseLeavesOpen(p: string)
    requires |p| >= 1 && p[0] == '['
    requires forall i :: 2 <= i < |p| ==> p[i] != ']'
    ensures BracketEnd(p) == |p|
  {
    var j := if 1 < |p| && p[1] == '!' then 2 else 1;
    var j' := if j < |p| && p[j] == ']' then j + 1 else j;
    assert forall i :: j' <= i < |p| ==> p[i] != ']';
    CloseIndexReachesEnd(p, j');
  }

  lemma {:induction false} CloseIndexReachesEnd(p: string, j: nat)
    requires j <= |p| && forall i :: j <= i < |p| ==> p[i] != ']'
    ensures CloseIndex(p, j) == |p|
    decreases |p| - j
  {
    if j < |p| {
      CloseIndexReachesEnd(p, j + 1);
    }
  }

  /** A `[` that nothing closes stands for itself, and matching goes on with the next pattern character. */
  lemma UnclosedBracket(name: string, p: string)
    requires |p| >= 1 && p[0] == '[' && BracketEnd(p) == |p|
    ensures Tokenize(p) == [Literal('[')] + Tokenize(p[1..])
    ensures GlobMatch(name, p) <==> name != [] && name[0] == '[' && GlobMatch(name[1..], p[1..])
  {
    var ts := Tokenize(p);
    assert ts[0] == Literal('[') && ts[1..] == Tokenize(p[1..]);
  }

  /** An unclosed `[` is an ordinary character: `[abc` matches only the name `[abc`. */
  lemma UnclosedBracketIsLiteral()
    ensures GlobMatch("[abc", "[abc")
    ensures !GlobMatch("a", "[abc")
  {
    assert BracketEnd("[abc") == 4;
    assert "[abc"[1..] == "abc";
    assert Tokenize("abc") == [Literal('a'), Literal('b'), Literal('c')] by {
      assert "abc"[1..] == "bc";
      assert "bc"[1..] == "c";
      assert "c"[1..] == "";
    }
    assert Tokenize("[abc") == [Literal('[')] + Tokenize("abc");
  }
}
