/** Workspace slugs, app/services/workspace.py:24-27: lower-case, replace every run of characters
    outside [a-z0-9] by one hyphen, strip hyphens at both ends.

    The reference definition is by words: the maximal runs of [a-z0-9], joined by hyphens. */
module Slug {
  import opened Text

  predicate Alnum(c: char) {
    'a' <= c <= 'z' || '0' <= c <= '9'
  }

  /** The characters of [a-z0-9], by their codes. */
  lemma AlnumIsAscii(c: char)
    ensures Alnum(c) <==> 0x61 <= c as int <= 0x7a || 0x30 <= c as int <= 0x39
  {
  }

  const HYPHEN: set<char> := {'-'}

  function SkipSeparators(s: string): (r: string)
    ensures |r| <= |s|
    ensures r != [] ==> Alnum(r[0])
    ensures s != [] && !Alnum(s[0]) ==> |r| < |s|
  {
    if s != [] && !Alnum(s[0]) then SkipSeparators(s[1..]) else s
  }

  /** `re.sub(r"[^a-z0-9]+", "-", s)` */
  function Collapse(s: string): string
    decreases |s|
  {
    if s == [] then []
    else if Alnum(s[0]) then [s[0]] + Collapse(s[1..])
    else ['-'] + Collapse(SkipSeparators(s))
  }

  function GenerateSlug(lower: Casing, name: string): string {
    Strip(Collapse(Lower(lower, name)), HYPHEN)
  }

  // ----- The reference definition

  function WordLength(s: string): (n: nat)
    ensures n <= |s|
    ensures forall i | 0 <= i < n :: Alnum(s[i])
    ensures n < |s| ==> !Alnum(s[n])
  {
    if s == [] || !Alnum(s[0]) then 0 else 1 + WordLength(s[1..])
  }

  predicate IsWord(w: string) {
    w != [] && forall i | 0 <= i < |w| :: Alnum(w[i])
  }

  function Words(s: string): (ws: seq<string>)
    decreases |s|
    ensures forall i | 0 <= i < |ws| :: IsWord(ws[i])
  {
    if s == [] then []
    else if !Alnum(s[0]) then Words(s[1..])
    else [s[..WordLength(s)]] + Words(s[WordLength(s)..])
  }

  lemma {:induction false} WordsSkip(s: string)
    ensures Words(s) == Words(SkipSeparators(s))
  {
    if s != [] && !Alnum(s[0]) {
      WordsSkip(s[1..]);
    }
  }

  lemma {:induction false} CollapseKeepsWord(word: string, rest: string)
    requires forall i | 0 <= i < |word| :: Alnum(word[i])
    ensures Collapse(word + rest) == word + Collapse(rest)
  {
    if word == [] {
      assert word + rest == rest;
    } else {
      assert (word + rest)[1..] == word[1..] + rest;
      CollapseKeepsWord(word[1..], rest);
      assert [word[0]] + (word[1..] + Collapse(rest)) == word + Collapse(rest);
    }
  }

  lemma CollapseWord(s: string)
    ensures var n := WordLength(s); Collapse(s) == s[..n] + Collapse(s[n..])
  {
    var n := WordLength(s);
    assert s == s[..n] + s[n..];
    CollapseKeepsWord(s[..n], s[n..]);
  }

  lemma StripRightOfHyphen(y: string)
    ensures StripRight(['-'] + y, HYPHEN) == if StripRight(y, HYPHEN) == [] then [] else ['-'] + StripRight(y, HYPHEN)
  {
    assert StripRight(['-'], HYPHEN) == StripRight([], HYPHEN) == [];
    StripRightConcat(['-'], y, HYPHEN);
  }

  lemma StripRightOfWord(word: string, y: string)
    requires IsWord(word)
    ensures StripRight(word, HYPHEN) == word
    ensures StripRight(word + (['-'] + y), HYPHEN)
         == if StripRight(y, HYPHEN) == [] then word else word + ['-'] + StripRight(y, HYPHEN)
  {
    StripRightOfHyphen(y);
    StripRightConcat(word, ['-'] + y, HYPHEN);
    assert word + (['-'] + StripRight(y, HYPHEN)) == word + ['-'] + StripRight(y, HYPHEN);
  }

  lemma {:induction false} StripRightOfCollapse(s: string)
    requires s == [] || Alnum(s[0])
    ensures StripRight(Collapse(s), HYPHEN) == Join(Words(s), '-')
    ensures s != [] ==> Words(s) != [] && Join(Words(s), '-') != []
    decreases |s|
  {
    if s != [] {
      var n := WordLength(s);
      var word, rest := s[..n], s[n..];
      var next := SkipSeparators(rest);
      CollapseWord(s);
      WordsSkip(rest);
      StripRightOfCollapse(next);
      StripRightOfWord(word, Collapse(next));
      if rest == [] {
        assert word + Collapse(rest) == word;
      }
    }
  }

  lemma StripLeftOfCollapse(s: string)
    ensures StripLeft(Collapse(s), HYPHEN) == Collapse(SkipSeparators(s))
  {
    var c, t := Collapse(s), Collapse(SkipSeparators(s));
    assert StripLeft(t, HYPHEN) == t;
    if s != [] && !Alnum(s[0]) {
      assert c[1..] == t;
    }
  }

  /** Main result: the regular expression and the two strips compute the words joined by hyphens. */
  lemma SlugIsJoinedWords(lower: Casing, name: string)
    ensures GenerateSlug(lower, name) == Join(Words(Lower(lower, name)), '-')
  {
    var s := Lower(lower, name);
    StripLeftOfCollapse(s);
    StripRightOfCollapse(SkipSeparators(s));
    WordsSkip(s);
  }

  // ----- Normal form

  predicate NormalForm(s: string) {
    && (forall i | 0 <= i < |s| :: Alnum(s[i]) || s[i] == '-')
    && (s != [] ==> s[0] != '-' && s[|s| - 1] != '-')
    && (forall i | 0 < i < |s| :: s[i - 1] != '-' || s[i] != '-')
  }

  function Alnums(s: string): string {
    if s == [] then []
    else if Alnum(s[0]) then [s[0]] + Alnums(s[1..])
    else Alnums(s[1..])
  }

  lemma {:induction false} JoinIsNormal(words: seq<string>)
    requires forall i | 0 <= i < |words| :: IsWord(words[i])
    ensures NormalForm(Join(words, '-'))
    ensures words != [] ==> Join(words, '-') != []
  {
    if words != [] {
      WordIsNormal(words[0]);
      if |words| > 1 {
        JoinIsNormal(words[1..]);
        HyphenIsNormal(words[0], Join(words[1..], '-'));
      }
    }
  }

  lemma WordIsNormal(w: string)
    requires IsWord(w)
    ensures NormalForm(w)
  {
  }

  lemma HyphenIsNormal(x: string, y: string)
    requires NormalForm(x) && NormalForm(y) && x != [] && y != []
    ensures NormalForm(x + ['-'] + y)
  {
    var s := x + ['-'] + y;
    assert forall i | 0 <= i < |s| :: s[i] == if i < |x| then x[i] else if i == |x| then '-' else y[i - |x| - 1];
  }

  lemma {:induction false} AlnumsConcat(x: string, y: string)
    ensures Alnums(x + y) == Alnums(x) + Alnums(y)
  {
    if x == [] {
      assert x + y == y;
    } else {
      assert (x + y)[1..] == x[1..] + y;
      AlnumsConcat(x[1..], y);
      assert [x[0]] + (Alnums(x[1..]) + Alnums(y)) == [x[0]] + Alnums(x[1..]) + Alnums(y);
    }
  }

  lemma {:induction false} AlnumsOfWord(w: string)
    requires forall i | 0 <= i < |w| :: Alnum(w[i])
    ensures Alnums(w) == w
  {
    if w != [] {
      AlnumsOfWord(w[1..]);
    }
  }

  lemma {:induction false} WordsKeepAlnums(s: string)
    ensures Alnums(Join(Words(s), '-')) == Alnums(s)
    decreases |s|
  {
    if s == [] {
    } else if !Alnum(s[0]) {
      WordsKeepAlnums(s[1..]);
    } else {
      var n := WordLength(s);
      var word, rest := s[..n], s[n..];
      WordsKeepAlnums(rest);
      assert s == word + rest;
      AlnumsConcat(word, rest);
      if Words(rest) != [] {
        AlnumsConcat(word + ['-'], Join(Words(rest), '-'));
        AlnumsConcat(word, ['-']);
      } else {
        assert Words(s) == [word];
        AlnumsOfWord(word);
      }
    }
  }

  lemma NormalAfterHyphen(s: string, n: nat)
    requires NormalForm(s) && n < |s| && s[n] == '-'
    ensures n + 1 < |s| && Alnum(s[n + 1]) && NormalForm(s[n + 1..])
  {
    var t := s[n + 1..];
    assert forall i | 0 <= i < |t| :: t[i] == s[n + 1 + i];
    assert t != [] ==> t[|t| - 1] == s[|s| - 1];
  }

  lemma {:induction false} NormalFormIsFixed(s: string)
    requires NormalForm(s)
    ensures Join(Words(s), '-') == s
    decreases |s|
  {
    if s != [] {
      var n := WordLength(s);
      if n == |s| {
        assert s[..n] == s && s[n..] == [];
      } else {
        NormalAfterHyphen(s, n);
        NormalFormIsFixed(s[n + 1..]);
        assert s[n..][1..] == s[n + 1..];
        assert s == s[..n] + ['-'] + s[n + 1..];
      }
    }
  }

  /** For every name: a slug is in normal form, and its letters and digits are those of the
      lower-cased name, in order. */
  lemma SlugIsNormal(lower: Casing, name: string)
    ensures NormalForm(GenerateSlug(lower, name))
    ensures Alnums(GenerateSlug(lower, name)) == Alnums(Lower(lower, name))
  {
    var s := Lower(lower, name);
    SlugIsJoinedWords(lower, name);
    JoinIsNormal(Words(s));
    WordsKeepAlnums(s);
  }

  /** The slugs are exactly the strings that slugging leaves alone. */
  lemma SlugsAreTheFixedPoints(lower: Casing, s: string)
    requires forall c | Alnum(c) || c == '-' :: lower(c) == [c]
    ensures GenerateSlug(lower, s) == s <==> NormalForm(s)
  {
    SlugIsNormal(lower, s);
    if NormalForm(s) {
      SlugIsJoinedWords(lower, s);
      LowerFixed(lower, s);
      NormalFormIsFixed(s);
    }
  }

  lemma SluggingTwice(lower: Casing, name: string)
    requires forall c | Alnum(c) || c == '-' :: lower(c) == [c]
    ensures GenerateSlug(lower, GenerateSlug(lower, name)) == GenerateSlug(lower, name)
  {
    SlugIsNormal(lower, name);
    SlugsAreTheFixedPoints(lower, GenerateSlug(lower, name));
  }
}
