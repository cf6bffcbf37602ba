/**
 * `SSHTunnelService.parse` and `createSubprocess`: the three-state tokenizer
 * that splits a shell command string into arguments, and the default shell
 * it is applied to.
 *
 * A double quote opens or closes a group, so `a"b c"d` is one argument. A
 * backslash escapes the character after it, but only inside a group;
 * elsewhere it is an ordinary character.
 */
module ShellParse {
  import opened JavaLang

  datatype ParseState = Plain | Whitespace | InQuote

  /** `Character.isWhitespace`: the ASCII controls 9-13 and 28-31, and the Unicode space, line and paragraph separators other than the three no-break spaces. */
  predicate IsWhitespace(c: char)
  {
    var n := c as int;
    || (9 <= n <= 13) || (28 <= n <= 32)
    || n == 0x1680 || (0x2000 <= n <= 0x200A && n != 0x2007)
    || n == 0x2028 || n == 0x2029 || n == 0x205F || n == 0x3000
  }

  /**
   * The tokenizer's loop from position `i`, in state `state`, with the
   * token under construction `builder` and the tokens found so far `result`.
   */
  function Scan(cmd: string, i: nat, state: ParseState, builder: string, result: seq<string>): seq<string>
    requires i <= |cmd|
    decreases |cmd| - i
  {
    if i == |cmd| then
      if |builder| > 0 then result + [builder] else result
    else
      var c := cmd[i];
      match state
      case Plain =>
        if IsWhitespace(c) then Scan(cmd, i + 1, Whitespace, "", result + [builder])
        else if c == '"' then Scan(cmd, i + 1, InQuote, builder, result)
        else Scan(cmd, i + 1, Plain, builder + [c], result)
      case Whitespace =>
        if IsWhitespace(c) then Scan(cmd, i + 1, Whitespace, builder, result)
        else if c == '"' then Scan(cmd, i + 1, InQuote, builder, result)
        else Scan(cmd, i + 1, Plain, builder + [c], result)
      case InQuote =>
        if c == '\\' then
          if i + 1 < |cmd| then Scan(cmd, i + 2, InQuote, builder + [cmd[i + 1]], result)
          else Scan(cmd, i + 1, InQuote, builder, result)
        else if c == '"' then Scan(cmd, i + 1, Plain, builder, result)
        else Scan(cmd, i + 1, InQuote, builder + [c], result)
  }

  /** The tokens `parse(cmd)` returns. */
  function Tokens(cmd: string): seq<string>
  {
    Scan(cmd, 0, Whitespace, "", [])
  }

  method Parse(cmd: string) returns (result: seq<string>)
    ensures result == Tokens(cmd)
  {
    var state := Whitespace;
    result := [];
    var cmdLen := |cmd|;
    var builder := "";
    var i := 0;
    while i < cmdLen
      invariant 0 <= i <= cmdLen
      invariant Scan(cmd, i, state, builder, result) == Tokens(cmd)
      decreases cmdLen - i
    {
      var c := cmd[i];
      if state == Plain {
        if IsWhitespace(c) {
          result := result + [builder];
          builder := "";
          state := Whitespace;
        } else if c == '"' {
          state := InQuote;
        } else {
          builder := builder + [c];
        }
      } else if state == Whitespace {
        if IsWhitespace(c) {
          // nothing to do
        } else if c == '"' {
          state := InQuote;
        } else {
          state := Plain;
          builder := builder + [c];
        }
      } else {
        if c == '\\' {
          if i + 1 < cmdLen {
            i := i + 1;
            builder := builder + [cmd[i]];
          }
        } else if c == '"' {
          state := Plain;
        } else {
          builder := builder + [c];
        }
      }
      i := i + 1;
    }
    if |builder| > 0 {
      result := result + [builder];
    }
  }

  // ---------------------------------------------------------------------
  // An independent definition for quote-free input: whitespace-separated words.
  // ---------------------------------------------------------------------

  /** The longest prefix of `s` holding no whitespace. */
  function WordAt(s: string): (w: string)
    ensures |w| <= |s| && w == s[..|w|]
    ensures forall k :: 0 <= k < |w| ==> !IsWhitespace(w[k])
    ensures |w| < |s| ==> IsWhitespace(s[|w|])
  {
    if s == [] || IsWhitespace(s[0]) then [] else [s[0]] + WordAt(s[1..])
  }

  /** The maximal runs of non-whitespace characters of `s`, in order. */
  function Words(s: string): seq<string>
    decreases |s|
  {
    if s == [] then []
    else if IsWhitespace(s[0]) then Words(s[1..])
    else
      var w := WordAt(s);
      [w] + Words(s[|w|..])
  }

  /** Every word is non-empty and holds no whitespace. */
  lemma {:induction false} WordsAreNonEmpty(s: string)
    ensures forall t :: t in Words(s) ==> |t| > 0 && forall k :: 0 <= k < |t| ==> !IsWhitespace(t[k])
    decreases |s|
  {
    if s != [] {
      if IsWhitespace(s[0]) {
        WordsAreNonEmpty(s[1..]);
      } else {
        WordsAreNonEmpty(s[|WordAt(s)|..]);
      }
    }
  }

  ghost predicate QuoteFree(s: string)
  {
    forall k :: 0 <= k < |s| ==> s[k] != '"'
  }

  /** Between words: the tokenizer emits exactly the remaining words. */
  lemma {:induction false} ScanWhitespaceIsWords(cmd: string, i: nat, acc: seq<string>)
    requires i <= |cmd| && QuoteFree(cmd[i..])
    ensures Scan(cmd, i, Whitespace, "", acc) == acc + Words(cmd[i..])
    decreases |cmd| - i, 1
  {
    if i < |cmd| {
      var rest := cmd[i..];
      assert rest[0] == cmd[i];
      assert rest[1..] == cmd[i + 1..];
      if IsWhitespace(cmd[i]) {
        ScanWhitespaceIsWords(cmd, i + 1, acc);
      } else {
        assert cmd[i] != '"';
        ScanPlainIsWord(cmd, i + 1, [cmd[i]], acc);
        WordStarts(cmd, i, acc);
      }
    } else {
      assert cmd[i..] == [];
    }
  }

  /** The word-character step of ScanWhitespaceIsWords. */
  lemma WordStarts(cmd: string, i: nat, acc: seq<string>)
    requires i < |cmd| && !IsWhitespace(cmd[i]) && cmd[i] != '"'
    requires
      var w := WordAt(cmd[i + 1..]);
      Scan(cmd, i + 1, Plain, [cmd[i]], acc) == acc + [[cmd[i]] + w] + Words(cmd[i + 1 + |w|..])
    ensures Scan(cmd, i, Whitespace, "", acc) == acc + Words(cmd[i..])
  {
    assert "" + [cmd[i]] == [cmd[i]];
    WordAtStep(cmd, i);
    var rest := cmd[i..];
    assert rest[0] == cmd[i];
    var w := WordAt(rest);
    assert rest[|w|..] == cmd[i + |w|..];
    assert Words(rest) == [w] + Words(rest[|w|..]);
    AppendAssoc(acc, [w], Words(rest[|w|..]));
  }

  /** Inside a word: the tokenizer finishes the word with the rest of the run, then emits the remaining words. */
  lemma {:induction false} ScanPlainIsWord(cmd: string, i: nat, b: string, acc: seq<string>)
    requires i <= |cmd| && QuoteFree(cmd[i..]) && |b| > 0
    ensures
      var w := WordAt(cmd[i..]);
      Scan(cmd, i, Plain, b, acc) == acc + [b + w] + Words(cmd[i + |w|..])
    decreases |cmd| - i, 0
  {
    if i == |cmd| {
      PlainAtEnd(cmd, b, acc);
    } else if IsWhitespace(cmd[i]) {
      assert cmd[i..][1..] == cmd[i + 1..];
      ScanWhitespaceIsWords(cmd, i + 1, acc + [b]);
      PlainEndsAtSpace(cmd, i, b, acc);
    } else {
      assert cmd[i..][0] == cmd[i] && cmd[i..][1..] == cmd[i + 1..];
      ScanPlainIsWord(cmd, i + 1, b + [cmd[i]], acc);
      PlainExtends(cmd, i, b, acc);
    }
  }

  /** The end-of-input step of ScanPlainIsWord. */
  lemma PlainAtEnd(cmd: string, b: string, acc: seq<string>)
    requires |b| > 0
    ensures
      var w := WordAt(cmd[|cmd|..]);
      Scan(cmd, |cmd|, Plain, b, acc) == acc + [b + w] + Words(cmd[|cmd| + |w|..])
  {
    assert cmd[|cmd|..] == [];
    assert b + [] == b;
  }

  /** The whitespace step of ScanPlainIsWord. */
  lemma PlainEndsAtSpace(cmd: string, i: nat, b: string, acc: seq<string>)
    requires i < |cmd| && IsWhitespace(cmd[i])
    requires Scan(cmd, i + 1, Whitespace, "", acc + [b]) == acc + [b] + Words(cmd[i + 1..])
    ensures
      var w := WordAt(cmd[i..]);
      Scan(cmd, i, Plain, b, acc) == acc + [b + w] + Words(cmd[i + |w|..])
  {
    assert cmd[i..][0] == cmd[i];
    assert WordAt(cmd[i..]) == [];
    assert b + [] == b;
  }

  /** The word-character step of ScanPlainIsWord. */
  lemma PlainExtends(cmd: string, i: nat, b: string, acc: seq<string>)
    requires i < |cmd| && !IsWhitespace(cmd[i]) && cmd[i] != '"'
    requires
      var w := WordAt(cmd[i + 1..]);
      Scan(cmd, i + 1, Plain, b + [cmd[i]], acc) == acc + [b + [cmd[i]] + w] + Words(cmd[i + 1 + |w|..])
    ensures
      var w := WordAt(cmd[i..]);
      Scan(cmd, i, Plain, b, acc) == acc + [b + w] + Words(cmd[i + |w|..])
  {
    PlainStep(cmd, i, b, acc);
    WordAtStep(cmd, i);
    AppendAssoc(b, [cmd[i]], WordAt(cmd[i + 1..]));
  }

  /** One word character read outside quotes. */
  lemma PlainStep(cmd: string, i: nat, b: string, acc: seq<string>)
    requires i < |cmd| && !IsWhitespace(cmd[i]) && cmd[i] != '"'
    ensures Scan(cmd, i, Plain, b, acc) == Scan(cmd, i + 1, Plain, b + [cmd[i]], acc)
  {
  }

  /** A word starting at a non-whitespace character is that character followed by the word after it. */
  lemma WordAtStep(cmd: string, i: nat)
    requires i < |cmd| && !IsWhitespace(cmd[i])
    ensures WordAt(cmd[i..]) == [cmd[i]] + WordAt(cmd[i + 1..])
  {
    assert cmd[i..][0] == cmd[i] && cmd[i..][1..] == cmd[i + 1..];
  }

  /** Without double quotes, `parse` splits into the whitespace-separated words, none of them empty. */
  lemma QuoteFreeIsWords(cmd: string)
    requires QuoteFree(cmd)
    ensures Tokens(cmd) == Words(cmd)
    ensures forall t :: t in Tokens(cmd) ==> |t| > 0
  {
    assert cmd[0..] == cmd;
    ScanWhitespaceIsWords(cmd, 0, []);
    WordsAreNonEmpty(cmd);
  }

  // ---------------------------------------------------------------------
  // Words of a text assembled from pieces.
  // ---------------------------------------------------------------------

  ghost predicate NoWhitespace(s: string)
  {
    forall k :: 0 <= k < |s| ==> !IsWhitespace(s[k])
  }

  /** Whitespace at the seam between two pieces: no word straddles it. */
  ghost predicate Seam(x: string, y: string)
  {
    (|x| > 0 && IsWhitespace(x[|x| - 1])) || (|y| > 0 && IsWhitespace(y[0]))
  }

  lemma {:induction false} WordAtSeam(x: string, y: string)
    requires Seam(x, y)
    ensures WordAt(x + y) == WordAt(x)
    decreases |x|
  {
    if x == [] {
      assert x + y == y;
    } else if !IsWhitespace(x[0]) {
      assert (x + y)[0] == x[0] && (x + y)[1..] == x[1..] + y;
      assert Seam(x[1..], y);
      WordAtSeam(x[1..], y);
    }
  }

  /** The words of two pieces with whitespace at the seam are the words of the first, then of the second. */
  lemma {:induction false} WordsAtSeam(x: string, y: string)
    requires Seam(x, y)
    ensures Words(x + y) == Words(x) + Words(y)
    decreases |x|
  {
    if x == [] {
      assert x + y == y;
    } else if IsWhitespace(x[0]) {
      assert (x + y)[0] == x[0] && (x + y)[1..] == x[1..] + y;
      if |x| == 1 {
        assert x[1..] + y == y;
      } else {
        WordsAtSeam(x[1..], y);
      }
    } else {
      var w := WordAt(x);
      WordAtSeam(x, y);
      assert (x + y)[0] == x[0] && (x + y)[|w|..] == x[|w|..] + y;
      assert x[|w|..] == [] || Seam(x[|w|..], y);
      if x[|w|..] == [] {
        assert x[|w|..] + y == y;
      } else {
        WordsAtSeam(x[|w|..], y);
      }
      AppendAssoc([w], Words(x[|w|..]), Words(y));
    }
  }

  lemma {:induction false} WordAtWhole(w: string)
    requires NoWhitespace(w)
    ensures WordAt(w) == w
    decreases |w|
  {
    if w != [] {
      WordAtWhole(w[1..]);
      assert [w[0]] + w[1..] == w;
    }
  }

  /** A non-empty run without whitespace is one word, and so is it with a space after it. */
  lemma OneWordText(w: string)
    requires |w| > 0 && NoWhitespace(w)
    ensures Words(w) == [w]
    ensures Words(w + " ") == [w]
  {
    WordAtWhole(w);
    assert w[|w|..] == [];
    WordsAtSeam(w, " ");
    assert Words(" ") == Words(" "[1..]);
  }

  /** A space and one more run without whitespace add that run as the last word. */
  lemma AppendWord(x: string, w: string)
    requires |w| > 0 && NoWhitespace(w)
    ensures Words(x + " " + w) == Words(x) + [w]
  {
    OneWordText(w);
    WordsAtSeam(x, " ");
    WordsAtSeam(x + " ", w);
    assert Words(" ") == Words(" "[1..]);
  }

  lemma NoWhitespaceConcat(x: string, y: string)
    requires NoWhitespace(x) && NoWhitespace(y)
    ensures NoWhitespace(x + y)
  {
  }

  // ---------------------------------------------------------------------
  // Runs of ordinary characters, for the worked examples below.
  // ---------------------------------------------------------------------

  ghost predicate WordChars(w: string)
  {
    forall k :: 0 <= k < |w| ==> !IsWhitespace(w[k]) && w[k] != '"'
  }

  ghost predicate QuotedChars(w: string)
  {
    forall k :: 0 <= k < |w| ==> w[k] != '"' && w[k] != '\\'
  }

  /** Outside quotes a run of ordinary characters (backslashes included) is appended to the token. */
  lemma {:induction false} PlainRun(cmd: string, i: nat, j: nat, b: string, acc: seq<string>)
    requires i <= j <= |cmd| && WordChars(cmd[i..j])
    ensures Scan(cmd, i, Plain, b, acc) == Scan(cmd, j, Plain, b + cmd[i..j], acc)
    decreases j - i
  {
    if i < j {
      assert cmd[i] == cmd[i..j][0];
      assert cmd[i + 1..j] == cmd[i..j][1..];
      PlainRun(cmd, i + 1, j, b + [cmd[i]], acc);
      assert b + [cmd[i]] + cmd[i + 1..j] == b + cmd[i..j];
    } else {
      assert b + cmd[i..j] == b;
    }
  }

  /** Inside quotes a run without quote or backslash is appended, whitespace included. */
  lemma {:induction false} QuotedRun(cmd: string, i: nat, j: nat, b: string, acc: seq<string>)
    requires i <= j <= |cmd| && QuotedChars(cmd[i..j])
    ensures Scan(cmd, i, InQuote, b, acc) == Scan(cmd, j, InQuote, b + cmd[i..j], acc)
    decreases j - i
  {
    if i < j {
      assert cmd[i] == cmd[i..j][0];
      assert cmd[i + 1..j] == cmd[i..j][1..];
      QuotedRun(cmd, i + 1, j, b + [cmd[i]], acc);
      assert b + [cmd[i]] + cmd[i + 1..j] == b + cmd[i..j];
    } else {
      assert b + cmd[i..j] == b;
    }
  }

  /** The default shell line splits into the program and its one argument. */
  lemma DefaultShellTokens()
    ensures Tokens(DEFAULT_SHELL) == ["/system/bin/sh", "-"]
  {
    assert DEFAULT_SHELL == "/system/bin/sh" + " " + "-";
    assert WordChars("/system/bin/sh") && WordChars("-");
    TwoWords("/system/bin/sh", "-");
  }

  /** Two runs of ordinary characters separated by one space are two tokens. */
  lemma TwoWords(a: string, b: string)
    requires |a| > 0 && |b| > 0 && WordChars(a) && WordChars(b)
    ensures Tokens(a + " " + b) == [a, b]
  {
    var s := a + " " + b;
    var none: seq<string> := [];
    var n := |a|;
    assert s[0] == a[0] && s[n] == ' ' && s[1..n] == a[1..] && s[n + 1] == b[0] && s[n + 2..|s|] == b[1..];
    assert WordChars(a[1..]) && WordChars(b[1..]);
    assert IsWhitespace(s[n]);
    WordStep(s, 0, "", none);
    PlainRun(s, 1, n, "" + [a[0]], none);
    assert "" + [a[0]] + a[1..] == a;
    assert Tokens(s) == Scan(s, n, Plain, a, none);
    SpaceStep(s, n, a, none);
    WordStep(s, n + 1, "", none + [a]);
    PlainRun(s, n + 2, |s|, "" + [b[0]], none + [a]);
    assert "" + [b[0]] + b[1..] == b;
    assert Tokens(s) == Scan(s, |s|, Plain, b, none + [a]);
    assert none + [a] + [b] == [a, b];
  }

  /** A word character read between tokens starts a token. */
  lemma WordStep(cmd: string, i: nat, b: string, acc: seq<string>)
    requires i < |cmd| && !IsWhitespace(cmd[i]) && cmd[i] != '"'
    ensures Scan(cmd, i, Whitespace, b, acc) == Scan(cmd, i + 1, Plain, b + [cmd[i]], acc)
  {
  }

  /** Whitespace read inside a token ends it. */
  lemma SpaceStep(cmd: string, i: nat, b: string, acc: seq<string>)
    requires i < |cmd| && IsWhitespace(cmd[i])
    ensures Scan(cmd, i, Plain, b, acc) == Scan(cmd, i + 1, Whitespace, "", acc + [b])
  {
  }

  /** A group in the middle of a word joins its neighbours: `a"b c"d` is one token. */
  lemma QuotedGroupJoins()
    ensures Tokens("a\"b c\"d") == ["ab cd"]
  {
    var s := "a\"b c\"d";
    var none: seq<string> := [];
    assert s[0] == 'a' && s[1] == '"' && s[5] == '"' && s[6] == 'd';
    assert "" + ['a'] == "a";
    assert Tokens(s) == Scan(s, 2, InQuote, "a", []);
    assert s[2..5] == "b c";
    assert QuotedChars("b c");
    QuotedRun(s, 2, 5, "a", []);
    assert "a" + "b c" == "ab c";
    assert "ab c" + ['d'] == "ab cd";
    assert Scan(s, 5, InQuote, "ab c", []) == Scan(s, 7, Plain, "ab cd", []);
    assert none + ["ab cd"] == ["ab cd"];
  }

  /**
   * Inside quotes a backslash takes the next character literally, whatever it
   * is: `"a\xb"` is the one token `a` `x` `b`, even when `x` is a quote.
   */
  lemma EscapeInsideQuotes(a: string, x: char, b: string)
    requires QuotedChars(a) && QuotedChars(b)
    ensures Tokens("\"" + a + "\\" + [x] + b + "\"") == [a + [x] + b]
  {
    var s := "\"" + a + "\\" + [x] + b + "\"";
    var none: seq<string> := [];
    var n := |a|;
    var m := n + 3 + |b|;
    assert s[0] == '"' && s[n + 1] == '\\' && s[n + 2] == x && s[m] == '"' && |s| == m + 1;
    assert s[1..n + 1] == a && s[n + 3..m] == b;
    assert Tokens(s) == Scan(s, 1, InQuote, "", none);
    QuotedRun(s, 1, n + 1, "", none);
    assert "" + a == a;
    assert Scan(s, n + 1, InQuote, a, none) == Scan(s, n + 3, InQuote, a + [x], none);
    QuotedRun(s, n + 3, m, a + [x], none);
    assert Scan(s, m, InQuote, a + [x] + b, none) == Scan(s, m + 1, Plain, a + [x] + b, none);
    assert none + [a + [x] + b] == [a + [x] + b];
  }

  /** A non-empty run of ordinary characters, backslashes included, is one token. */
  lemma OneWord(w: string)
    requires |w| > 0 && WordChars(w)
    ensures Tokens(w) == [w]
  {
    var none: seq<string> := [];
    assert w[1..|w|] == w[1..];
    assert WordChars(w[1..]);
    WordStep(w, 0, "", none);
    PlainRun(w, 1, |w|, "" + [w[0]], none);
    assert "" + [w[0]] + w[1..] == w;
    assert none + [w] == [w];
  }

  /** Outside quotes a backslash is an ordinary character: `u\v` is one token, kept as it is. */
  lemma BackslashOutsideQuotes(u: string, v: string)
    requires WordChars(u) && WordChars(v)
    ensures Tokens(u + "\\" + v) == [u + "\\" + v]
  {
    var w := u + "\\" + v;
    assert !IsWhitespace('\\');
    assert forall k :: 0 <= k < |w| ==> w[k] == (if k < |u| then u[k] else if k == |u| then '\\' else v[k - |u| - 1]);
    OneWord(w);
  }

  /** A trailing empty token is dropped, but an empty group followed by whitespace is kept. */
  lemma EmptyGroups()
    ensures Tokens("\"\"") == []
    ensures Tokens("\"\" x") == ["", "x"]
  {
    var s := "\"\"";
    assert s[0] == '"' && s[1] == '"';
    assert Tokens(s) == Scan(s, 2, Plain, "", []);
    var t := "\"\" x";
    var none: seq<string> := [];
    assert t[0] == '"' && t[1] == '"' && t[2] == ' ' && t[3] == 'x';
    assert none + [""] == [""];
    assert "" + ['x'] == "x";
    assert Tokens(t) == Scan(t, 3, Whitespace, "", [""]);
    assert Scan(t, 3, Whitespace, "", [""]) == Scan(t, 4, Plain, "x", [""]);
    assert [""] + ["x"] == ["", "x"];
  }

  // ---------------------------------------------------------------------
  // createSubprocess
  // ---------------------------------------------------------------------

  const DEFAULT_SHELL: string := "/system/bin/sh -"

  /** The program and up to two arguments handed to the process-spawning primitive. */
  datatype ExecArgs = ExecArgs(arg0: string, arg1: Option<string>, arg2: Option<string>)

  /**
   * The argument selection of `createSubprocess`: a missing or empty shell
   * line means the default shell; `args.get(0)` throws on an empty token
   * list, reported here as `None`.
   */
  method CreateSubprocessArgs(shell: Option<string>) returns (r: Option<ExecArgs>)
    ensures var line := if shell == None || shell == Some("") then DEFAULT_SHELL else shell.value;
      var t := Tokens(line);
      && (r == None <==> t == [])
      && (r.Some? ==>
            && r.value.arg0 == t[0]
            && r.value.arg1 == (if |t| >= 2 then Some(t[1]) else None)
            && r.value.arg2 == (if |t| >= 3 then Some(t[2]) else None))
    ensures shell == None || shell == Some("") ==> r == Some(ExecArgs("/system/bin/sh", Some("-"), None))
  {
    DefaultShellTokens();
    var line := if shell == None || shell == Some("") then DEFAULT_SHELL else shell.value;
    var args := Parse(line);
    if |args| == 0 {
      return None;
    }
    var arg0 := args[0];
    var arg1: Option<string> := None;
    var arg2: Option<string> := None;
    if |args| >= 2 {
      arg1 := Some(args[1]);
    }
    if |args| >= 3 {
      arg2 := Some(args[2]);
    }
    return Some(ExecArgs(arg0, arg1, arg2));
  }
}
