/**
 * Kotlin's `line.split("\\s+".toRegex())`, used by the model-file loaders.
 * The line is cut at every maximal run of whitespace; unlike Java's
 * `String.split`, leading and trailing empty strings are kept, and the
 * empty line gives one empty token.
 */
module Tokenizer {

  /** The characters of the regular-expression class `\s`: space, \t, \n, \u000B, \f, \r. */
  predicate IsWhitespace(c: char) {
    c == ' ' || c == '\t' || c == '\n' || c == '\r' || c as int == 0x0B || c as int == 0x0C
  }

  predicate NoWhitespace(s: string) {
    forall i :: 0 <= i < |s| ==> !IsWhitespace(s[i])
  }

  /** The maximal run of whitespace at the front of `s`, removed. */
  function SkipWhitespace(s: string): (rest: string)
    ensures |rest| <= |s|
  {
    if s != [] && IsWhitespace(s[0]) then SkipWhitespace(s[1..]) else s
  }

  /**
   * What `SkipWhitespace` removes is a run of whitespace, and the run is
   * maximal: what remains is a suffix of `s` that does not start with whitespace.
   */
  lemma {:induction false} SkipWhitespaceRun(s: string)
    ensures var rest := SkipWhitespace(s); rest == s[|s| - |rest|..]
    ensures forall i :: 0 <= i < |s| - |SkipWhitespace(s)| ==> IsWhitespace(s[i])
    ensures SkipWhitespace(s) == [] || !IsWhitespace(SkipWhitespace(s)[0])
  {
    SkipSuffix(s);
    SkipPrefix(s);
    SkipStops(s);
  }

  lemma {:induction false} SkipSuffix(s: string)
    ensures SkipWhitespace(s) == s[|s| - |SkipWhitespace(s)|..]
  {
    if s != [] && IsWhitespace(s[0]) {
      SkipSuffix(s[1..]);
      var n := |SkipWhitespace(s[1..])|;
      assert s[1..][|s| - 1 - n..] == s[|s| - n..];
    }
  }

  lemma {:induction false} SkipPrefix(s: string)
    ensures forall i :: 0 <= i < |s| - |SkipWhitespace(s)| ==> IsWhitespace(s[i])
  {
    if s != [] && IsWhitespace(s[0]) {
      SkipPrefix(s[1..]);
      var n := |SkipWhitespace(s[1..])|;
      forall i | 0 < i < |s| - n
        ensures IsWhitespace(s[i])
      {
        assert s[i] == s[1..][i - 1];
      }
    }
  }

  lemma {:induction false} SkipStops(s: string)
    ensures SkipWhitespace(s) == [] || !IsWhitespace(SkipWhitespace(s)[0])
  {
    if s != [] && IsWhitespace(s[0]) {
      SkipStops(s[1..]);
    }
  }

  /** `s.split(Regex("\\s+"))`. */
  function SplitWhitespace(s: string): (tokens: seq<string>)
    ensures |tokens| >= 1
    ensures forall k :: 0 <= k < |tokens| ==> NoWhitespace(tokens[k])
    decreases |s|
  {
    if s == [] then [""]
    else if IsWhitespace(s[0]) then [""] + SplitWhitespace(SkipWhitespace(s))
    else
      var rest := SplitWhitespace(s[1..]);
      [[s[0]] + rest[0]] + rest[1..]
  }

  /**
   * The token lists `SplitWhitespace` can produce: at least one token, none
   * holding whitespace, and only the first and the last may be empty.
   */
  predicate WellFormed(tokens: seq<string>) {
    |tokens| >= 1 &&
    (forall k :: 0 <= k < |tokens| ==> NoWhitespace(tokens[k])) &&
    (forall k :: 0 < k < |tokens| - 1 ==> tokens[k] != [])
  }

  /** The last token. */
  function Last(tokens: seq<string>): string
    requires |tokens| >= 1
  {
    tokens[|tokens| - 1]
  }

  /** The tokens written back with one space between each two. */
  function JoinSpace(tokens: seq<string>): (s: string)
    requires |tokens| >= 1
  {
    if |tokens| == 1 then tokens[0] else tokens[0] + " " + JoinSpace(tokens[1..])
  }

  /** The tokens concatenated, with nothing between them. */
  function Concat(tokens: seq<string>): string {
    if tokens == [] then [] else tokens[0] + Concat(tokens[1..])
  }

  /** The non-whitespace characters of `s`, in order. */
  function RemoveWhitespace(s: string): (r: string)
    ensures NoWhitespace(r) && |r| <= |s|
  {
    if s == [] then []
    else if IsWhitespace(s[0]) then RemoveWhitespace(s[1..])
    else [s[0]] + RemoveWhitespace(s[1..])
  }

  /**
   * The first token is empty exactly when the line is empty or starts with
   * whitespace; the last is empty exactly when the line is empty or ends with
   * whitespace; no token in between is empty.
   */
  lemma {:induction false} SplitEdges(s: string)
    ensures SplitWhitespace(s)[0] == [] <==> s == [] || IsWhitespace(s[0])
    ensures var t := SplitWhitespace(s);
      t[|t| - 1] == [] <==> s == [] || IsWhitespace(s[|s| - 1])
    ensures var t := SplitWhitespace(s);
      forall k :: 0 < k < |t| - 1 ==> t[k] != []
  {
    SplitLast(s);
    SplitInner(s);
  }

  /** The last token is empty exactly when the line is empty or ends with whitespace. */
  lemma {:induction false} SplitLast(s: string)
    ensures Last(SplitWhitespace(s)) == [] <==> s == [] || IsWhitespace(s[|s| - 1])
    decreases |s|, 1
  {
    if s != [] {
      if IsWhitespace(s[0]) {
        SplitLastAfterSpace(s);
      } else if |s| == 1 {
        SplitNoWhitespace(s);
      } else {
        SplitLastAfterChar(s);
      }
    }
  }

  /** `SplitLast` for a line that starts with whitespace: the last token is that of the rest after the run. */
  lemma {:induction false} SplitLastAfterSpace(s: string)
    requires s != [] && IsWhitespace(s[0])
    ensures Last(SplitWhitespace(s)) == [] <==> IsWhitespace(s[|s| - 1])
    decreases |s|, 0
  {
    var t, r := SplitWhitespace(s), SkipWhitespace(s);
    SplitLast(r);
    SkipEnd(s);
    assert t == [""] + SplitWhitespace(r);
    assert Last(t) == Last(SplitWhitespace(r));
    assert (r == [] || IsWhitespace(r[|r| - 1])) == IsWhitespace(s[|s| - 1]);
  }

  /** `SplitLast` for a line of two or more characters that starts with a token character. */
  lemma {:induction false} SplitLastAfterChar(s: string)
    requires |s| > 1 && !IsWhitespace(s[0])
    ensures Last(SplitWhitespace(s)) == [] <==> IsWhitespace(s[|s| - 1])
    decreases |s|, 0
  {
    var t, u := SplitWhitespace(s), SplitWhitespace(s[1..]);
    SplitLast(s[1..]);
    SplitHead(s[1..]);
    assert t == [[s[0]] + u[0]] + u[1..];
    assert s[1..][|s| - 2] == s[|s| - 1];
    if |u| == 1 {
      assert Last(t) == [s[0]] + u[0] && Last(u) == u[0] != [];
    } else {
      assert |t| == |u| && t[|t| - 1] == u[1..][|u| - 2] == u[|u| - 1];
    }
  }

  /** The first token of a nonempty line: empty, with more to follow, exactly when the line starts with whitespace. */
  lemma SplitHead(s: string)
    requires s != []
    ensures IsWhitespace(s[0]) ==> |SplitWhitespace(s)| >= 2 && SplitWhitespace(s)[0] == []
    ensures !IsWhitespace(s[0]) ==> SplitWhitespace(s)[0] != []
  {
  }

  /** What skipping leading whitespace leaves at the end of the line. */
  lemma SkipEnd(s: string)
    ensures SkipWhitespace(s) == [] ==> s == [] || IsWhitespace(s[|s| - 1])
    ensures SkipWhitespace(s) != [] ==> s[|s| - 1] == SkipWhitespace(s)[|SkipWhitespace(s)| - 1]
  {
    var r := SkipWhitespace(s);
    SkipWhitespaceRun(s);
    if r == [] {
      assert |s| - 1 < |s| - |r|;
    } else {
      assert r[|r| - 1] == s[|s| - |r|..][|r| - 1];
    }
  }

  /** No token strictly between the first and the last is empty. */
  lemma {:induction false} SplitInner(s: string)
    ensures forall k :: 0 < k < |SplitWhitespace(s)| - 1 ==> SplitWhitespace(s)[k] != []
    decreases |s|
  {
    if s != [] {
      var t := SplitWhitespace(s);
      if IsWhitespace(s[0]) {
        var r := SkipWhitespace(s);
        SplitInner(r);
        var u := SplitWhitespace(r);
        assert t == [""] + u;
        if r != [] {
          SkipWhitespaceRun(s);
          assert !IsWhitespace(r[0]);
          var v := SplitWhitespace(r[1..]);
          assert u == [[r[0]] + v[0]] + v[1..];
        }
        forall k | 0 < k < |t| - 1
          ensures t[k] != []
        {
          assert t[k] == u[k - 1];
          if k == 1 {
            assert r != [];
            assert u[0] != [];
          } else {
            assert 0 < k - 1 < |u| - 1;
          }
        }
      } else {
        SplitInner(s[1..]);
        var u := SplitWhitespace(s[1..]);
        assert t == [[s[0]] + u[0]] + u[1..];
        forall k | 0 < k < |t| - 1
          ensures t[k] != []
        {
          assert t[k] == u[k] && 0 < k < |u| - 1;
        }
      }
    }
  }

  /** Every result of `SplitWhitespace` is well formed. */
  lemma SplitWellFormed(s: string)
    ensures WellFormed(SplitWhitespace(s))
  {
    SplitEdges(s);
  }

  /** Splitting loses no non-whitespace character and adds none. */
  lemma {:induction false} SplitContents(s: string)
    ensures Concat(SplitWhitespace(s)) == RemoveWhitespace(s)
    decreases |s|
  {
    if s != [] {
      if IsWhitespace(s[0]) {
        var r := SkipWhitespace(s);
        SplitContents(r);
        SkipKeepsContents(s);
        assert SplitWhitespace(s) == [""] + SplitWhitespace(r);
        assert Concat([""] + SplitWhitespace(r)) == Concat(SplitWhitespace(r));
      } else {
        var u := SplitWhitespace(s[1..]);
        SplitContents(s[1..]);
        assert SplitWhitespace(s) == [[s[0]] + u[0]] + u[1..];
        assert Concat(u) == u[0] + Concat(u[1..]);
        assert Concat([[s[0]] + u[0]] + u[1..]) == [s[0]] + u[0] + Concat(u[1..]);
      }
    }
  }

  lemma {:induction false} SkipKeepsContents(s: string)
    ensures RemoveWhitespace(SkipWhitespace(s)) == RemoveWhitespace(s)
  {
    if s != [] && IsWhitespace(s[0]) {
      SkipKeepsContents(s[1..]);
    }
  }

  /** A line without whitespace is one token: itself. */
  lemma {:induction false} SplitNoWhitespace(t: string)
    requires NoWhitespace(t)
    ensures SplitWhitespace(t) == [t]
  {
    if t != [] {
      SplitNoWhitespace(t[1..]);
      assert [t[0]] + t[1..] == t;
    }
  }

  /** One space after a whitespace-free token ends that token and nothing more. */
  lemma {:induction false} SplitAfterToken(t: string, rest: string)
    requires NoWhitespace(t)
    requires rest == [] || !IsWhitespace(rest[0])
    ensures SplitWhitespace(t + " " + rest) == [t] + SplitWhitespace(rest)
  {
    if t == [] {
      assert t + " " + rest == " " + rest;
      SplitAfterSpace(rest);
    } else {
      var s := t + " " + rest;
      SplitAfterToken(t[1..], rest);
      assert s[1..] == t[1..] + " " + rest;
      assert [t[0]] + t[1..] == t;
    }
  }

  /** A line that is one space and then a token starts with one empty token. */
  lemma SplitAfterSpace(rest: string)
    requires rest == [] || !IsWhitespace(rest[0])
    ensures SplitWhitespace(" " + rest) == [""] + SplitWhitespace(rest)
  {
    var s := " " + rest;
    assert s[0] == ' ' && s[1..] == rest;
    assert SkipWhitespace(s) == SkipWhitespace(rest) == rest;
  }

  /** Splitting undoes joining with single spaces, for every well-formed token list. */
  lemma {:induction false} SplitJoin(tokens: seq<string>)
    requires WellFormed(tokens)
    ensures SplitWhitespace(JoinSpace(tokens)) == tokens
  {
    if |tokens| == 1 {
      SplitNoWhitespace(tokens[0]);
    } else {
      var tail := tokens[1..];
      WellFormedTail(tokens);
      SplitJoin(tail);
      var rest := JoinSpace(tail);
      assert tail[0] == tokens[1];
      JoinStart(tail);
      SplitAfterToken(tokens[0], rest);
      assert [tokens[0]] + tail == tokens;
    }
  }

  /** Dropping the first token of a well-formed list leaves a well-formed list. */
  lemma WellFormedTail(tokens: seq<string>)
    requires WellFormed(tokens) && |tokens| >= 2
    ensures WellFormed(tokens[1..])
  {
    var tail := tokens[1..];
    forall k | 0 <= k < |tail| ensures NoWhitespace(tail[k]) {
      assert tail[k] == tokens[k + 1];
    }
    forall k | 0 < k < |tail| - 1 ensures tail[k] != [] {
      assert tail[k] == tokens[k + 1];
    }
  }

  /** Joined tokens whose first one is whitespace-free, and not empty when more follow, never start with whitespace. */
  lemma JoinStart(tokens: seq<string>)
    requires |tokens| >= 1 && NoWhitespace(tokens[0]) && (|tokens| > 1 ==> tokens[0] != [])
    ensures var s := JoinSpace(tokens); s == [] || !IsWhitespace(s[0])
  {
    if |tokens| > 1 {
      assert tokens[0] != [] && JoinSpace(tokens) == tokens[0] + " " + JoinSpace(tokens[1..]);
      assert JoinSpace(tokens)[0] == tokens[0][0];
    }
  }
}
