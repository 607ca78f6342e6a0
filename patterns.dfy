/**
 * The scanner's pattern handling: reading a comma-separated pattern list
 * (`Scanner.parse_patterns`) and choosing the pattern that a folder name or
 * a file name matches (`Scanner.match_folder`, `Scanner.match_file`).
 */
module Patterns {
  import opened Wrappers
  import opened Text
  import opened Glob

  /** Python's truth value of a `str | None`: `None` and `""` are both false. */
  predicate Truthy(m: Option<string>) {
    m.Some? && m.value != ""
  }

  // ---------------------------------------------------------------- parse_patterns

  /** The patterns a list is made of: non-empty, without surrounding white space or commas. */
  predicate WellFormedList(ps: seq<string>) {
    forall i :: 0 <= i < |ps| ==> ps[i] != "" && IsStripped(ps[i]) && ',' !in ps[i]
  }

  /** The stripped pieces that are not blank, in order. */
  function KeepNonBlank(pieces: seq<string>): (r: seq<string>)
    ensures |r| <= |pieces|
  {
    if pieces == [] then []
    else
      var rest := KeepNonBlank(pieces[1..]);
      if Strip(pieces[0]) != "" then [Strip(pieces[0])] + rest else rest
  }

  /** Pieces without commas give a well-formed list. */
  lemma {:induction false} KeepNonBlankWellFormed(pieces: seq<string>)
    requires forall j :: 0 <= j < |pieces| ==> ',' !in pieces[j]
    ensures WellFormedList(KeepNonBlank(pieces))
  {
    if pieces != [] {
      var tail := pieces[1..];
      assert forall j :: 0 <= j < |tail| ==> tail[j] == pieces[j + 1];
      KeepNonBlankWellFormed(tail);
      var p := Strip(pieces[0]);
      if p != "" {
        StripSpec(pieces[0]);
        var rest := KeepNonBlank(tail);
        var r := [p] + rest;
        forall i | 0 <= i < |r| ensures r[i] != "" && IsStripped(r[i]) && ',' !in r[i] {
          if i > 0 {
            assert r[i] == rest[i - 1];
          }
        }
      }
    }
  }

  /** `Scanner.parse_patterns`: split on commas, strip every piece and drop the empty ones. */
  function ParsePatterns(s: string): (r: seq<string>)
    ensures WellFormedList(r)
    ensures Blank(s) ==> r == []
  {
    if Strip(s) == "" then []
    else
      KeepNonBlankWellFormed(SplitComma(s));
      KeepNonBlank(SplitComma(s))
  }

  lemma {:induction false} KeepNonBlankAppend(a: seq<string>, b: seq<string>)
    ensures KeepNonBlank(a + b) == KeepNonBlank(a) + KeepNonBlank(b)
  {
    if a != [] {
      var head := if Strip(a[0]) != "" then [Strip(a[0])] else [];
      assert (a + b)[0] == a[0];
      assert (a + b)[1..] == a[1..] + b;
      assert KeepNonBlank(a + b) == head + KeepNonBlank(a[1..] + b);
      KeepNonBlankAppend(a[1..], b);
      assert KeepNonBlank(a) == head + KeepNonBlank(a[1..]);
    } else {
      assert a + b == b;
    }
  }

  lemma {:induction false} SplitCommaAppend(a: string, b: string)
    ensures SplitComma(a + "," + b) == SplitComma(a) + SplitComma(b)
  {
    var s := a + "," + b;
    if a == [] {
      assert s[1..] == b;
    } else {
      assert s[0] == a[0];
      assert s[1..] == a[1..] + "," + b;
      SplitCommaAppend(a[1..], b);
    }
  }

  lemma {:induction false} BlankPieces(s: string)
    requires Blank(s)
    ensures forall i :: 0 <= i < |SplitComma(s)| ==> Blank(SplitComma(s)[i])
  {
    if s != [] {
      assert Blank(s[1..]) by {
        forall i | 0 <= i < |s[1..]| ensures IsSpace(s[1..][i]) {
          assert s[1..][i] == s[i + 1];
        }
      }
      BlankPieces(s[1..]);
      var t := SplitComma(s[1..]);
      if s[0] != ',' {
        var head := [s[0]] + t[0];
        assert Blank(head) by {
          forall i | 0 <= i < |head| ensures IsSpace(head[i]) {
            if i > 0 {
              assert head[i] == t[0][i - 1];
            }
          }
        }
        var r := [head] + t[1..];
        assert SplitComma(s) == r;
        forall i | 0 <= i < |r| ensures Blank(r[i]) {
          if i > 0 {
            assert r[i] == t[i];
          }
        }
      }
    }
  }

  lemma {:induction false} KeepNothingBlank(pieces: seq<string>)
    requires forall i :: 0 <= i < |pieces| ==> Blank(pieces[i])
    ensures KeepNonBlank(pieces) == []
  {
    if pieces != [] {
      assert forall i :: 0 <= i < |pieces[1..]| ==> pieces[1..][i] == pieces[i + 1];
      KeepNothingBlank(pieces[1..]);
    }
  }

  /** The early return for blank input agrees with the comprehension: it is only a shortcut. */
  lemma ParsePatternsGuardIsShortcut(s: string)
    ensures ParsePatterns(s) == KeepNonBlank(SplitComma(s))
  {
    if Strip(s) == "" {
      BlankPieces(s);
      KeepNothingBlank(SplitComma(s));
    }
  }

  /** A comma separates the list into two independently parsed halves, kept in input order. */
  lemma ParsePatternsOfComma(a: string, b: string)
    ensures ParsePatterns(a + "," + b) == ParsePatterns(a) + ParsePatterns(b)
  {
    ParsePatternsGuardIsShortcut(a + "," + b);
    ParsePatternsGuardIsShortcut(a);
    ParsePatternsGuardIsShortcut(b);
    SplitCommaAppend(a, b);
    KeepNonBlankAppend(SplitComma(a), SplitComma(b));
  }

  /** A piece without commas gives its stripped self, or nothing when it is blank. */
  lemma ParsePatternsOfPiece(a: string)
    requires ',' !in a
    ensures ParsePatterns(a) == if Blank(a) then [] else [Strip(a)]
  {
    ParsePatternsGuardIsShortcut(a);
    SplitCommaFree(a);
    assert [a][1..] == [];
  }

  /** A single well-formed pattern parses to itself. */
  lemma ParsePatternsOfPattern(p: string)
    requires p != "" && IsStripped(p) && ',' !in p
    ensures ParsePatterns(p) == [p]
  {
    ParsePatternsOfPiece(p);
    StrippedIsFixed(p);
    assert !IsSpace(p[0]);
  }

  /** Writing a well-formed list with commas and parsing it back gives the list. */
  lemma {:induction false} ParsePatternsRoundTrip(ps: seq<string>)
    requires WellFormedList(ps)
    ensures ParsePatterns(JoinComma(ps)) == ps
  {
    if |ps| == 1 {
      ParsePatternsOfPattern(ps[0]);
    } else if |ps| > 1 {
      WellFormedTail(ps);
      ParsePatternsRoundTrip(ps[1..]);
      RoundTripStep(ps);
    }
  }

  lemma WellFormedTail(ps: seq<string>)
    requires WellFormedList(ps) && ps != []
    ensures WellFormedList(ps[1..])
  {
    forall i | 0 <= i < |ps[1..]| ensures ps[1..][i] == ps[i + 1] { }
  }

  /** The first pattern and the rest of a list written with commas parse separately. */
  lemma RoundTripStep(ps: seq<string>)
    requires |ps| > 1 && ps[0] != "" && IsStripped(ps[0]) && ',' !in ps[0]
    requires ParsePatterns(JoinComma(ps[1..])) == ps[1..]
    ensures ParsePatterns(JoinComma(ps)) == ps
  {
    var joined := JoinComma(ps[1..]);
    assert JoinComma(ps) == ps[0] + "," + joined;
    ParsePatternsOfComma(ps[0], joined);
    ParsePatternsOfPattern(ps[0]);
    assert [ps[0]] + ps[1..] == ps;
  }

  /** Parsing what was parsed and written back changes nothing. */
  lemma ParsePatternsIdempotent(s: string)
    ensures ParsePatterns(JoinComma(ParsePatterns(s))) == ParsePatterns(s)
  {
    ParsePatternsRoundTrip(ParsePatterns(s));
  }

  lemma StripTrailingExample()
    ensures Strip("tmp ") == "tmp"
  {
    assert TrimStart("tmp ") == "tmp ";
    assert TrimEnd("tmp ") == "tmp" by { assert "tmp "[..3] == "tmp"; }
  }

  lemma ParseWordExample()
    ensures ParsePatterns("dist") == ["dist"]
  {
    assert !IsSpace('d') && !IsSpace('t');
    ParsePatternsOfPattern("dist");
  }

  lemma ParseBlankExample()
    ensures ParsePatterns(" ") == []
  {
    assert Blank(" ") by { assert " "[0] == ' '; }
  }

  lemma ParsePaddedExample()
    ensures ParsePatterns("tmp ") == ["tmp"]
  {
    ParsePatternsOfPiece("tmp ");
    assert !Blank("tmp ") by { assert "tmp "[0] == 't'; }
    StripTrailingExample();
  }

  // ---------------------------------------------------------------- match_folder

  /** The test `match_folder` applies to one pattern: a glob match or plain equality. */
  predicate FolderHit(name: string, pattern: string) {
    GlobMatch(name, pattern) || name == pattern
  }

  /** `Scanner.match_folder`: the first pattern that the folder name hits, or `None`. */
  function MatchFolder(name: string, patterns: seq<string>): Option<string> {
    if patterns == [] then None
    else if FolderHit(name, patterns[0]) then Some(patterns[0])
    else MatchFolder(name, patterns[1..])
  }

  /** `MatchFolder` answers `None` exactly when no pattern is hit, and otherwise one of the patterns that is hit. */
  lemma {:induction false} MatchFolderSpec(name: string, patterns: seq<string>)
    ensures MatchFolder(name, patterns).None? <==> forall i :: 0 <= i < |patterns| ==> !FolderHit(name, patterns[i])
    ensures MatchFolder(name, patterns).Some? ==> MatchFolder(name, patterns).value in patterns && FolderHit(name, MatchFolder(name, patterns).value)
  {
    if patterns != [] && !FolderHit(name, patterns[0]) {
      MatchFolderSpec(name, patterns[1..]);
      assert forall i :: 1 <= i < |patterns| ==> patterns[i] == patterns[1..][i - 1];
    }
  }

  /** `match_folder` answers with the first hit in list order. */
  lemma {:induction false} MatchFolderFirst(name: string, patterns: seq<string>, i: int)
    requires 0 <= i < |patterns| && FolderHit(name, patterns[i])
    requires forall j :: 0 <= j < i ==> !FolderHit(name, patterns[j])
    ensures MatchFolder(name, patterns) == Some(patterns[i])
  {
    if i > 0 {
      assert !FolderHit(name, patterns[0]);
      forall j | 0 <= j < i - 1 ensures !FolderHit(name, patterns[1..][j]) {
        assert patterns[1..][j] == patterns[j + 1];
      }
      MatchFolderFirst(name, patterns[1..], i - 1);
    }
  }

  /** A name equal to a pattern is matched even when the glob reading of the pattern does not match it. */
  lemma MatchFolderByEquality()
    ensures !GlobMatch("[ab]", "[ab]")
    ensures MatchFolder("[ab]", ["[ab]"]) == Some("[ab]")
  {
    BracketMatchesOneCharacter("[ab]", "ab");
  }

  /** The first hit wins even when a later pattern names the folder exactly. */
  lemma MatchFolderExampleFirst()
    ensures MatchFolder("build", ["b*", "build"]) == Some("b*")
  {
    var p := "b*";
    assert Tokenize(p) == [Literal('b')] + Tokenize("*") by { assert p[1..] == "*"; }
    assert Tokenize("*") == [Star];
    StarMatchesAnything("uild");
    assert "build"[1..] == "uild";
  }

  lemma MatchFolderExampleMiss()
    ensures MatchFolder("src", ["node_modules"]) == None
  {
    assert NoWildcards("node_modules");
    LiteralPatternMatchesItself("src", "node_modules");
  }

  // ---------------------------------------------------------------- match_file

  /** The suffix a file pattern is compared against: the pattern with a leading dot added when it has none. */
  function Dotted(ext: string): (r: string)
    ensures StartsWith(r, ".")
    ensures StartsWith(ext, ".") ==> r == ext
    ensures !StartsWith(ext, ".") ==> r == "." + ext
  {
    if StartsWith(ext, ".") then ext else "." + ext
  }

  /** The test `match_file` applies to one pattern. */
  predicate FileHit(name: string, ext: string) {
    EndsWith(name, Dotted(ext)) || name == TrimLeadingDots(ext)
  }

  /** `Scanner.match_file`: the first pattern, as written, that the file name hits, or `None`. */
  function MatchFile(name: string, patterns: seq<string>): Option<string> {
    if patterns == [] then None
    else if FileHit(name, patterns[0]) then Some(patterns[0])
    else MatchFile(name, patterns[1..])
  }

  /** `MatchFile` answers `None` exactly when no pattern is hit, and otherwise one of the patterns that is hit. */
  lemma {:induction false} MatchFileSpec(name: string, patterns: seq<string>)
    ensures MatchFile(name, patterns).None? <==> forall i :: 0 <= i < |patterns| ==> !FileHit(name, patterns[i])
    ensures MatchFile(name, patterns).Some? ==> MatchFile(name, patterns).value in patterns && FileHit(name, MatchFile(name, patterns).value)
  {
    if patterns != [] && !FileHit(name, patterns[0]) {
      MatchFileSpec(name, patterns[1..]);
      assert forall i :: 1 <= i < |patterns| ==> patterns[i] == patterns[1..][i - 1];
    }
  }

  /** `match_file` answers with the first hit in list order. */
  lemma {:induction false} MatchFileFirst(name: string, patterns: seq<string>, i: int)
    requires 0 <= i < |patterns| && FileHit(name, patterns[i])
    requires forall j :: 0 <= j < i ==> !FileHit(name, patterns[j])
    ensures MatchFile(name, patterns) == Some(patterns[i])
  {
    if i > 0 {
      assert !FileHit(name, patterns[0]);
      forall j | 0 <= j < i - 1 ensures !FileHit(name, patterns[1..][j]) {
        assert patterns[1..][j] == patterns[j + 1];
      }
      MatchFileFirst(name, patterns[1..], i - 1);
    }
  }

  /** Writing a file pattern with or without its leading dot makes no difference to which names it hits. */
  lemma LeadingDotIsOptional(name: string, ext: string)
    ensures FileHit(name, Dotted(ext)) <==> FileHit(name, ext)
  {
    if !StartsWith(ext, ".") {
      var d := "." + ext;
      assert d[1..] == ext;
      assert TrimLeadingDots(d) == TrimLeadingDots(ext);
    }
  }

  function AddDots(patterns: seq<string>): (r: seq<string>)
    ensures |r| == |patterns|
    ensures forall i :: 0 <= i < |r| ==> r[i] == Dotted(patterns[i])
  {
    if patterns == [] then [] else [Dotted(patterns[0])] + AddDots(patterns[1..])
  }

  /**
   * Adding the dots to a whole pattern list changes no match into a miss or
   * back: the same position wins, and only the returned string differs.
   */
  lemma {:induction false} MatchFileWithDots(name: string, patterns: seq<string>)
    ensures MatchFile(name, AddDots(patterns)) ==
              if MatchFile(name, patterns).Some? then Some(Dotted(MatchFile(name, patterns).value)) else None
  {
    if patterns != [] {
      LeadingDotIsOptional(name, patterns[0]);
      assert AddDots(patterns)[1..] == AddDots(patterns[1..]);
      MatchFileWithDots(name, patterns[1..]);
    }
  }

  lemma MatchFileExampleUndotted()
    ensures MatchFile("app.log", ["log"]) == Some("log")
  {
    assert Dotted("log") == ".log" by { assert "log"[..1][0] != '.'; assert "." + "log" == ".log"; }
    assert EndsWith("app.log", ".log") by { assert "app.log"[3..] == ".log"; }
  }

  lemma MatchFileExampleDotted()
    ensures MatchFile("app.log", [".log"]) == Some(".log")
  {
    assert Dotted(".log") == ".log" by { assert ".log"[..1] == "."; }
    assert EndsWith("app.log", ".log") by { assert "app.log"[3..] == ".log"; }
  }

  /** A dotted pattern also hits the file named by the pattern without its dots. */
  lemma MatchFileExampleBareName()
    ensures MatchFile("env", [".env"]) == Some(".env")
  {
    assert TrimLeadingDots(".env") == "env" by { assert ".env"[1..] == "env"; }
  }

  lemma MatchFileExampleMiss()
    ensures MatchFile("notes.txt", ["log", "tmp"]) == None
  {
    assert !FileHit("notes.txt", "log") by {
      assert Dotted("log") == ".log" by { assert "log"[..1][0] != '.'; assert "." + "log" == ".log"; }
      assert !EndsWith("notes.txt", ".log") by { assert "notes.txt"[5..][1] != ".log"[1]; }
      assert TrimLeadingDots("log") == "log";
    }
    assert !FileHit("notes.txt", "tmp") by {
      assert Dotted("tmp") == ".tmp" by { assert "tmp"[..1][0] != '.'; assert "." + "tmp" == ".tmp"; }
      assert !EndsWith("notes.txt", ".tmp") by { assert "notes.txt"[5..][3] != ".tmp"[3]; }
      assert TrimLeadingDots("tmp") == "tmp";
    }
    assert ["log", "tmp"][1..] == ["tmp"];
  }

  /** An empty pattern can be the match and is then not truthy, so nothing is recorded for it. */
  lemma EmptyPatternMatchIsFalsy()
    ensures MatchFile("backup.", [""]) == Some("")
    ensures !Truthy(MatchFile("backup.", [""]))
  {
    assert Dotted("") == "." by {
      assert !StartsWith("", ".");
      assert "." + "" == ".";
    }
    assert EndsWith("backup.", ".") by { assert "backup."[6..] == "."; }
    assert FileHit("backup.", "");
  }

  /** With the non-empty patterns `parse_patterns` produces, being truthy and being a match coincide. */
  lemma TruthyIffMatched(name: string, patterns: seq<string>)
    requires forall i :: 0 <= i < |patterns| ==> patterns[i] != ""
    ensures Truthy(MatchFolder(name, patterns)) <==> MatchFolder(name, patterns).Some?
    ensures Truthy(MatchFile(name, patterns)) <==> MatchFile(name, patterns).Some?
  {
    MatchFolderSpec(name, patterns);
    MatchFileSpec(name, patterns);
  }
}
