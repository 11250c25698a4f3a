/**
 * `shellFormatter` of history.go: decide from the name of the first word of a
 * `created_by` command whether it runs a shell, and if so hand the whole command to
 * the mvdan.cc/sh parser and printer. The parser and printer together are the
 * parameter `parsePrint`: `Failure(msg)` when parsing fails, otherwise
 * `Success(text)` with the printed program.
 */
module ShellFormat {
  import opened Wrappers
  import opened Strings

  /** The class `\s` of Go's RE2 syntax: tab, newline, form feed, carriage return, space. */
  predicate IsSpace(c: char)
  {
    c == ' ' || c == '\t' || c == '\n' || c == '\U{000C}' || c == '\r'
  }

  /**
   * `regexp.MustCompile(`\s+`).Split(oper, 2)[0]`: the longest prefix free of white
   * space ("" when the command starts with white space or is empty).
   */
  function FirstField(s: string): (r: string)
    ensures r <= s
    ensures forall i :: 0 <= i < |r| ==> !IsSpace(r[i])
    ensures |r| < |s| ==> IsSpace(s[|r|])
  {
    if s == [] || IsSpace(s[0]) then "" else [s[0]] + FirstField(s[1..])
  }

  /** `path` without its trailing slashes. */
  function TrimTrailingSlashes(path: string): (r: string)
    ensures r <= path
    ensures forall i :: |r| <= i < |path| ==> path[i] == '/'
    ensures r == [] || r[|r| - 1] != '/'
  {
    if path != [] && path[|path| - 1] == '/' then TrimTrailingSlashes(path[..|path| - 1]) else path
  }

  /** Index of the last slash of `path`, or -1 when it has none. */
  function LastSlash(path: string): (r: int)
    ensures -1 <= r < |path|
    ensures r >= 0 ==> path[r] == '/'
    ensures forall i :: r < i < |path| ==> path[i] != '/'
  {
    if path == [] then -1
    else if path[|path| - 1] == '/' then |path| - 1
    else LastSlash(path[..|path| - 1])
  }

  /**
   * `filepath.Base` on a Unix system: "." for the empty path, "/" for a path of
   * slashes only, otherwise what follows the last slash once trailing slashes are dropped.
   * It is never empty, and only the root "/" holds a slash.
   */
  function Base(path: string): (r: string)
    ensures r != "" && (r == "/" || '/' !in r)
  {
    if path == "" then "."
    else
      var trimmed := TrimTrailingSlashes(path);
      var element := trimmed[LastSlash(trimmed) + 1..];
      assert forall j :: 0 <= j < |element| ==> element[j] == trimmed[LastSlash(trimmed) + 1 + j];
      if element == "" then "/" else element
  }

  /**
   * `Base` is the last element of the path: the slash-free suffix of the path without
   * its trailing slashes that starts at the beginning or right after a slash; "." for
   * the empty path and "/" for a path of slashes.
   */
  lemma BaseOfPath(path: string)
    ensures path == "" ==> Base(path) == "."
    ensures path != "" && (forall i :: 0 <= i < |path| ==> path[i] == '/') ==> Base(path) == "/"
    ensures path != "" && TrimTrailingSlashes(path) != "" ==>
      var t, b := TrimTrailingSlashes(path), Base(path);
      '/' !in b && 0 < |b| <= |t| && t[|t| - |b|..] == b && (|b| == |t| || t[|t| - |b| - 1] == '/')
    ensures Base(path) != "." && Base(path) != "/" ==>
      '/' !in Base(path) && Base(path) != "" && Contains(path, Base(path))
  {
    if path != "" {
      var t := TrimTrailingSlashes(path);
      if t != "" {
        assert path[|t| - 1] == t[|t| - 1] != '/';
        BaseOfTrimmed(path);
      } else {
        assert Base(path) == "/";
      }
    }
  }

  /** When something is left once trailing slashes are dropped, `Base` is its last element. */
  lemma BaseOfTrimmed(path: string)
    requires path != "" && TrimTrailingSlashes(path) != ""
    ensures var t, b := TrimTrailingSlashes(path), Base(path);
      '/' !in b && 0 < |b| <= |t| && t[|t| - |b|..] == b && (|b| == |t| || t[|t| - |b| - 1] == '/')
    ensures Contains(path, Base(path))
  {
    var t := TrimTrailingSlashes(path);
    var k := BaseIsElement(path);
    LastElementShape(t, k);
    PieceOfPrefix(path, t, k);
  }

  /** `Base` is the end of the trimmed path that follows its last slash, and that end is a proper element. */
  lemma BaseIsElement(path: string) returns (k: nat)
    requires path != "" && TrimTrailingSlashes(path) != ""
    ensures var t := TrimTrailingSlashes(path);
      k < |t| && '/' !in t[k..] && (k == 0 || t[k - 1] == '/') && Base(path) == t[k..]
  {
    var t := TrimTrailingSlashes(path);
    LastElementOf(t);
    k := LastSlash(t) + 1;
  }

  /** A slash-free end of `t` that starts at 0 or after a slash, seen from the end of `t`. */
  lemma LastElementShape(t: string, k: nat)
    requires k < |t| && '/' !in t[k..] && (k == 0 || t[k - 1] == '/')
    ensures var b := t[k..];
      '/' !in b && 0 < |b| <= |t| && t[|t| - |b|..] == b && (|b| == |t| || t[|t| - |b| - 1] == '/')
  {
  }

  /** A suffix of a prefix of `path` occurs in `path`. */
  lemma PieceOfPrefix(path: string, t: string, k: nat)
    requires t <= path && k <= |t|
    ensures Contains(path, t[k..])
  {
    assert path[k..k + |t[k..]|] == t[k..];
    ContainsAt(path, t[k..], k);
  }

  /** What follows the last slash of a path that does not end in one is a non-empty element. */
  lemma LastElementOf(t: string)
    requires t != "" && t[|t| - 1] != '/'
    ensures var k := LastSlash(t) + 1;
      k < |t| && '/' !in t[k..] && (k == 0 || t[k - 1] == '/')
  {
    var k := LastSlash(t) + 1;
    assert forall j :: 0 <= j < |t| - k ==> t[k..][j] == t[k + j];
  }

  /**
   * The name tested against the shell pattern: the base name of the first word. It is
   * a non-empty word without white space, and "." when the command starts with white space.
   */
  function ShellName(oper: string): (r: string)
    ensures r != "" && forall i :: 0 <= i < |r| ==> !IsSpace(r[i])
    ensures FirstField(oper) == "" ==> r == "."
  {
    BaseOfWord(FirstField(oper));
    Base(FirstField(oper))
  }

  /** The base name of a word without white space has no white space either. */
  lemma BaseOfWord(word: string)
    requires forall i :: 0 <= i < |word| ==> !IsSpace(word[i])
    ensures forall i :: 0 <= i < |Base(word)| ==> !IsSpace(Base(word)[i])
  {
    if word != "" {
      var t := TrimTrailingSlashes(word);
      var k := LastSlash(t) + 1;
      assert forall j :: 0 <= j < |t| ==> t[j] == word[j];
      assert forall j :: 0 <= j < |t| - k ==> t[k..][j] == t[k + j];
    }
  }

  /**
   * `regexp.MustCompile(`sh|bash`).Match`: unanchored, so any occurrence of either word;
   * since "bash" contains "sh", the pattern is nothing more than "contains sh".
   */
  predicate MatchesShellPattern(name: string)
    ensures MatchesShellPattern(name) <==> Contains(name, "sh")
  {
    BashContainsSh(name);
    Contains(name, "sh") || Contains(name, "bash")
  }

  /** Whatever contains "bash" contains "sh". */
  lemma BashContainsSh(name: string)
    ensures Contains(name, "bash") ==> Contains(name, "sh")
  {
    if Contains(name, "bash") {
      assert "bash"[2..4] == "sh";
      ContainsAt("bash", "sh", 2);
      ContainsTransitive(name, "bash", "sh");
    }
  }

  /** A shell name always occurs in the command's first word. */
  lemma ShellNameInFirstWord(oper: string)
    ensures Contains(ShellName(oper), "sh") ==> Contains(FirstField(oper), "sh")
  {
    BaseOfPath(FirstField(oper));
    if Contains(ShellName(oper), "sh") {
      assert ShellName(oper) != "." && ShellName(oper) != "/" by {
        if ShellName(oper) == "." || ShellName(oper) == "/" {
          var k := ContainsOffset(ShellName(oper), "sh");
        }
      }
      ContainsTransitive(FirstField(oper), ShellName(oper), "sh");
    }
  }

  /** What `shellFormatter` returns: the command text and the parser's error, if any. */
  datatype Formatted = Formatted(text: string, error: Option<string>)

  /**
   * `shellFormatter`: commands whose shell name does not contain "sh" come back as they
   * are, without error; the others are parsed and reprinted, minus one trailing newline,
   * or come back unchanged with the parser's error.
   */
  function ShellFormatter(oper: string, parsePrint: string -> Result<string, string>): (r: Formatted)
    ensures !Contains(ShellName(oper), "sh") ==> r == Formatted(oper, None)
    ensures Contains(ShellName(oper), "sh") && parsePrint(oper).Failure? ==>
      r == Formatted(oper, Some(parsePrint(oper).error))
    ensures Contains(ShellName(oper), "sh") && parsePrint(oper).Success? ==>
      r.error == None &&
      (parsePrint(oper).value == r.text || parsePrint(oper).value == r.text + "\n") &&
      ((|parsePrint(oper).value| > 0 && parsePrint(oper).value[|parsePrint(oper).value| - 1] == '\n')
        ==> parsePrint(oper).value == r.text + "\n")
    ensures r.error.Some? ==> r.text == oper
  {
    var name := ShellName(oper);
    if MatchesShellPattern(name) then
      match parsePrint(oper)
      case Failure(msg) => Formatted(oper, Some(msg))
      case Success(printed) => Formatted(TrimNewline(printed), None)
    else
      Formatted(oper, None)
  }

  /** A white-space-free word ended by white space or by the end is the first field. */
  lemma FirstFieldOfWord(word: string, rest: string)
    requires forall i :: 0 <= i < |word| ==> !IsSpace(word[i])
    requires rest == [] || IsSpace(rest[0])
    ensures FirstField(word + rest) == word
  {
    var s := word + rest;
    assert forall j :: 0 <= j < |word| ==> !IsSpace(s[j]);
    assert rest != [] ==> s[|word|] == rest[0];
    assert FirstField(s) == word;
  }

  /** A first word free of white space and slashes is its own shell name. */
  lemma PlainWordIsShellName(word: string, rest: string)
    requires word != [] && '/' !in word
    requires forall i :: 0 <= i < |word| ==> !IsSpace(word[i])
    requires rest == [] || IsSpace(rest[0])
    ensures ShellName(word + rest) == word
  {
    FirstFieldOfWord(word, rest);
    assert TrimTrailingSlashes(word) == word by {
      assert word[|word| - 1] != '/';
    }
    assert forall j :: 0 <= j < |word| ==> word[j] != '/';
    assert LastSlash(word) == -1;
    assert word[LastSlash(word) + 1..] == word;
  }

  /**
   * A first word given as a path, such as `/bin/sh`, has its last element as shell name,
   * whatever directory precedes it.
   */
  lemma PathWordIsShellName(dir: string, word: string, rest: string)
    requires word != [] && '/' !in word
    requires forall i :: 0 <= i < |dir| ==> !IsSpace(dir[i])
    requires forall i :: 0 <= i < |word| ==> !IsSpace(word[i])
    requires rest == [] || IsSpace(rest[0])
    ensures ShellName(dir + "/" + word + rest) == word
  {
    var path := dir + "/" + word;
    forall i | 0 <= i < |path|
      ensures !IsSpace(path[i])
    {
      if i > |dir| {
        assert path[i] == word[i - |dir| - 1];
      }
    }
    assert path + rest == dir + "/" + word + rest;
    FirstFieldOfWord(path, rest);
    assert path[|path| - 1] == word[|word| - 1] != '/';
    assert TrimTrailingSlashes(path) == path;
    forall i | |dir| < i < |path|
      ensures path[i] != '/'
    {
      assert path[i] == word[i - |dir| - 1];
    }
    assert path[|dir|] == '/';
    assert LastSlash(path) == |dir|;
    assert path[|dir| + 1..] == word;
  }

  /** The usual shell of a Dockerfile `RUN` step, `/bin/sh -c`, is recognised as one. */
  lemma BinShIsShell(script: string)
    ensures ShellName("/bin/sh -c " + script) == "sh"
    ensures MatchesShellPattern(ShellName("/bin/sh -c " + script))
  {
    assert "/bin/sh -c " + script == "/bin" + "/" + "sh" + (" -c " + script);
    PathWordIsShellName("/bin", "sh", " -c " + script);
    assert "sh"[0..2] == "sh";
    ContainsAt("sh", "sh", 0);
  }

  /**
   * The unanchored pattern lets through every first word that merely contains "sh":
   * `ssh`, `zsh`, `fish` or `bashrc` steps are handed to the shell parser like `sh` ones.
   */
  lemma UnanchoredPatternAcceptsOtherPrograms(before: string, after: string, rest: string)
    requires '/' !in before && '/' !in after
    requires forall i :: 0 <= i < |before| ==> !IsSpace(before[i])
    requires forall i :: 0 <= i < |after| ==> !IsSpace(after[i])
    requires rest == [] || IsSpace(rest[0])
    ensures ShellName(before + "sh" + after + rest) == before + "sh" + after
    ensures MatchesShellPattern(ShellName(before + "sh" + after + rest))
  {
    var word := before + "sh" + after;
    forall i | 0 <= i < |word|
      ensures !IsSpace(word[i]) && word[i] != '/'
    {
      if i < |before| {
        assert word[i] == before[i];
      } else if i >= |before| + 2 {
        assert word[i] == after[i - |before| - 2];
      }
    }
    PlainWordIsShellName(word, rest);
    assert word[|before|..|before| + 2] == "sh";
    ContainsAt(word, "sh", |before|);
  }
}
