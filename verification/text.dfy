/** Line and word splitting as the object parsers of git-graph.py use them:
    `content.split('\n')` and the argument-less `line.split()` of Python strings. */
module Text {

  /** The characters Python's `str.split()` (no separator) treats as whitespace. */
  predicate IsSpace(c: char)
  {
    || ('\t' <= c <= '\r')
    || ('\U{1C}' <= c <= '\U{1F}')
    || c == ' ' || c == '\U{85}' || c == '\U{A0}' || c == '\U{1680}'
    || ('\U{2000}' <= c <= '\U{200A}')
    || c == '\U{2028}' || c == '\U{2029}' || c == '\U{202F}' || c == '\U{205F}' || c == '\U{3000}'
  }

  /** A token as `str.split()` produces it: non-empty, free of whitespace. */
  predicate IsWord(w: string)
  {
    w != [] && forall i :: 0 <= i < |w| ==> !IsSpace(w[i])
  }

  // ---------------------------------------------------------------------------
  // Lines

  /** `s.split('\n')`: the pieces between newline characters, always at least one. */
  function SplitLines(s: string): (lines: seq<string>)
    ensures |lines| >= 1
    ensures forall i :: 0 <= i < |lines| ==> '\n' !in lines[i]
    decreases |s|
  {
    if s == [] then [[]]
    else
      var rest := SplitLines(s[1..]);
      if s[0] == '\n' then [[]] + rest
      else [[s[0]] + rest[0]] + rest[1..]
  }

  /** The inverse of SplitLines: `'\n'.join(lines)`. */
  function JoinLines(lines: seq<string>): string
    requires |lines| >= 1
    decreases |lines|
  {
    if |lines| == 1 then lines[0] else lines[0] + "\n" + JoinLines(lines[1..])
  }

  lemma {:induction false} JoinSplitLines(s: string)
    ensures JoinLines(SplitLines(s)) == s
    decreases |s|
  {
    if s != [] {
      JoinSplitLines(s[1..]);
      var rest := SplitLines(s[1..]);
      if s[0] == '\n' {
        assert SplitLines(s)[1..] == rest;
      } else if |rest| == 1 {
        assert s == [s[0]] + s[1..];
      } else {
        assert JoinLines(SplitLines(s)) == [s[0]] + rest[0] + "\n" + JoinLines(rest[1..]);
        assert s == [s[0]] + s[1..];
      }
    }
  }

  /** A line prefixed to text that starts a new line: the split gains that line in front. */
  lemma {:induction false} SplitLinesPrefix(l: string, s: string)
    requires '\n' !in l
    ensures SplitLines(l + "\n" + s) == [l] + SplitLines(s)
    decreases |l|
  {
    if l == [] {
      assert l + "\n" + s == "\n" + s;
      assert ("\n" + s)[1..] == s;
    } else {
      var t := l + "\n" + s;
      assert t[1..] == l[1..] + "\n" + s;
      SplitLinesPrefix(l[1..], s);
      assert [l[0]] + l[1..] == l;
    }
  }

  /** A text without newline is a single line. */
  lemma {:induction false} SplitLinesSingle(l: string)
    requires '\n' !in l
    ensures SplitLines(l) == [l]
    decreases |l|
  {
    if l != [] {
      SplitLinesSingle(l[1..]);
      assert [l[0]] + l[1..] == l;
    }
  }

  lemma {:induction false} SplitJoinLines(lines: seq<string>)
    requires |lines| >= 1
    requires forall i :: 0 <= i < |lines| ==> '\n' !in lines[i]
    ensures SplitLines(JoinLines(lines)) == lines
    decreases |lines|
  {
    if |lines| == 1 {
      SplitLinesSingle(lines[0]);
    } else {
      SplitJoinLines(lines[1..]);
      SplitLinesPrefix(lines[0], JoinLines(lines[1..]));
      assert [lines[0]] + lines[1..] == lines;
    }
  }

  // ---------------------------------------------------------------------------
  // Words

  /** The longest prefix of `s` free of whitespace. */
  function Word(s: string): (w: string)
    ensures |w| <= |s| && w == s[..|w|]
    ensures forall i :: 0 <= i < |w| ==> !IsSpace(w[i])
    ensures |w| < |s| ==> IsSpace(s[|w|])
    decreases |s|
  {
    if s == [] || IsSpace(s[0]) then [] else [s[0]] + Word(s[1..])
  }

  /** `s.split()`: the maximal runs of non-whitespace characters, in order;
      leading, trailing and repeated whitespace produce no empty tokens. */
  function Tokens(s: string): (ts: seq<string>)
    ensures forall i :: 0 <= i < |ts| ==> IsWord(ts[i])
    decreases |s|
  {
    if s == [] then []
    else if IsSpace(s[0]) then Tokens(s[1..])
    else
      var w := Word(s);
      [w] + Tokens(s[|w|..])
  }

  /** Together the tokens hold exactly the non-whitespace characters of `s`, in order. */
  lemma {:induction false} TokensKeepNonSpace(s: string)
    ensures Concat(Tokens(s)) == NonSpace(s)
    decreases |s|
  {
    if s != [] {
      if IsSpace(s[0]) {
        TokensKeepNonSpace(s[1..]);
      } else {
        var w := Word(s);
        TokensKeepNonSpace(s[|w|..]);
        NonSpaceOfWord(s, |w|);
        assert Concat(Tokens(s)) == w + Concat(Tokens(s[|w|..]));
      }
    }
  }

  /** `s` with every whitespace character removed. */
  function NonSpace(s: string): string
    decreases |s|
  {
    if s == [] then [] else (if IsSpace(s[0]) then [] else [s[0]]) + NonSpace(s[1..])
  }

  function Concat(ts: seq<string>): string
    decreases |ts|
  {
    if ts == [] then [] else ts[0] + Concat(ts[1..])
  }

  lemma {:induction false} NonSpaceOfWord(s: string, n: nat)
    requires n <= |s|
    requires forall i :: 0 <= i < n ==> !IsSpace(s[i])
    ensures NonSpace(s) == s[..n] + NonSpace(s[n..])
    decreases n
  {
    if n > 0 {
      NonSpaceOfWord(s[1..], n - 1);
      assert s[1..][n - 1..] == s[n..];
      assert s[..n] == [s[0]] + s[1..][..n - 1];
    }
  }

  /** `' '.join(ts)`: the words separated by single spaces. */
  function Unwords(ts: seq<string>): string
    decreases |ts|
  {
    if ts == [] then "" else if |ts| == 1 then ts[0] else ts[0] + " " + Unwords(ts[1..])
  }

  lemma {:induction false} WordOfWordThenSpace(w: string, rest: string)
    requires IsWord(w)
    requires rest == [] || IsSpace(rest[0])
    ensures Word(w + rest) == w
    decreases |w|
  {
    if |w| == 1 {
      assert (w + rest)[1..] == rest;
    } else {
      assert (w + rest)[1..] == w[1..] + rest;
      WordOfWordThenSpace(w[1..], rest);
      assert [w[0]] + w[1..] == w;
    }
  }

  /** A word on its own is a single token: `split()` never breaks a run of
      non-whitespace characters. */
  lemma TokensOfWord(w: string)
    requires IsWord(w)
    ensures Tokens(w) == [w]
  {
    WordOfWordThenSpace(w, []);
    assert w + [] == w;
    assert w[|w|..] == [];
  }

  /** A word that stops before the end of `a` stops there whatever follows `a`. */
  lemma {:induction false} WordStopsInside(a: string, rest: string)
    requires |Word(a)| < |a|
    ensures Word(a + rest) == Word(a)
    decreases |a|
  {
    if !IsSpace(a[0]) {
      assert (a + rest)[1..] == a[1..] + rest;
      WordStopsInside(a[1..], rest);
    }
  }

  /** A whitespace character separates tokens: the tokens of the text around it
      are the tokens on its left followed by those on its right. With
      TokensOfWord this determines `split()` on every text. */
  lemma {:induction false} TokensSeparated(a: string, c: char, b: string)
    requires IsSpace(c)
    ensures Tokens(a + [c] + b) == Tokens(a) + Tokens(b)
    decreases |a|
  {
    var s := a + [c] + b;
    if a == [] {
      assert s == [c] + b && s[1..] == b;
    } else if IsSpace(a[0]) {
      assert s[0] == a[0] && s[1..] == a[1..] + [c] + b;
      TokensSeparated(a[1..], c, b);
    } else {
      var w := Word(a);
      if |w| < |a| {
        TokensSeparated(a[|w|..], c, b);
      }
      TokensSeparatedAtWord(a, c, b);
    }
  }

  /** The step of TokensSeparated for a text that starts with a word: it
      carries over from the text after that word. */
  lemma TokensSeparatedAtWord(a: string, c: char, b: string)
    requires IsSpace(c) && a != [] && !IsSpace(a[0])
    requires |Word(a)| < |a| ==>
               Tokens(a[|Word(a)|..] + [c] + b) == Tokens(a[|Word(a)|..]) + Tokens(b)
    ensures Tokens(a + [c] + b) == Tokens(a) + Tokens(b)
  {
    TokensAfterWord(a, c, b);
  }

  /** The first token of `a + [c] + b`, when `a` starts with one, is that of `a`. */
  lemma TokensAfterWord(a: string, c: char, b: string)
    requires IsSpace(c) && a != [] && !IsSpace(a[0])
    ensures Tokens(a) == [Word(a)] + Tokens(a[|Word(a)|..])
    ensures |Word(a)| == |a| ==> Tokens(a + [c] + b) == [a] + Tokens(b) && Tokens(a) == [a]
    ensures |Word(a)| < |a| ==>
              Tokens(a + [c] + b) == [Word(a)] + Tokens(a[|Word(a)|..] + [c] + b)
  {
    var s, w := a + [c] + b, Word(a);
    assert s[0] == a[0];
    if |w| == |a| {
      assert w == a;
      WordOfWordThenSpace(a, [c] + b);
      assert s == a + ([c] + b);
      assert s[|w|..] == [c] + b;
      assert ([c] + b)[1..] == b;
      assert a[|w|..] == [];
    } else {
      WordStopsInside(a, [c] + b);
      assert s == a + ([c] + b);
      assert s[|w|..] == a[|w|..] + [c] + b;
    }
  }

  /** Splitting words that were joined with spaces gives the words back. */
  lemma {:induction false} TokensUnwords(ts: seq<string>)
    requires forall i :: 0 <= i < |ts| ==> IsWord(ts[i])
    ensures Tokens(Unwords(ts)) == ts
    decreases |ts|
  {
    if |ts| == 1 {
      WordOfWordThenSpace(ts[0], []);
      assert ts[0] + [] == ts[0];
      assert ts[0][|ts[0]|..] == [];
    } else if |ts| > 1 {
      var rest := " " + Unwords(ts[1..]);
      WordOfWordThenSpace(ts[0], rest);
      var s := ts[0] + rest;
      assert s == Unwords(ts);
      assert s[0] == ts[0][0] && !IsSpace(s[0]);
      assert s[|ts[0]|..] == rest;
      assert Tokens(s) == [ts[0]] + Tokens(rest);
      assert rest[1..] == Unwords(ts[1..]);
      assert Tokens(rest) == Tokens(Unwords(ts[1..]));
      TokensUnwords(ts[1..]);
      assert [ts[0]] + ts[1..] == ts;
    }
  }

  /** A line built from words holds no newline. */
  lemma {:induction false} UnwordsHasNoNewline(ts: seq<string>)
    requires forall i :: 0 <= i < |ts| ==> IsWord(ts[i])
    ensures '\n' !in Unwords(ts)
    decreases |ts|
  {
    if |ts| > 1 {
      UnwordsHasNoNewline(ts[1..]);
      assert forall i :: 0 <= i < |ts[0]| ==> ts[0][i] != '\n';
    } else if |ts| == 1 {
      assert forall i :: 0 <= i < |ts[0]| ==> ts[0][i] != '\n';
    }
  }
}
