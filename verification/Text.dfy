/** The string operations the services share: lower-casing, stripping, joining with a separator.

    Lower-casing is a parameter that maps each character to a string, as Unicode does, so that
    the results hold for every such mapping with the stated properties. */
module Text {

  type Casing = char -> string

  /** What a lower-cased character consists of is lower-case already. */
  ghost predicate Stable(lower: Casing) {
    forall c, x | x in lower(c) :: lower(x) == [x]
  }

  function Lower(lower: Casing, s: string): string {
    if s == [] then [] else lower(s[0]) + Lower(lower, s[1..])
  }

  lemma {:induction false} LowerIsLower(lower: Casing, s: string)
    requires Stable(lower)
    ensures forall x | x in Lower(lower, s) :: lower(x) == [x]
  {
    if s != [] {
      LowerIsLower(lower, s[1..]);
    }
  }

  lemma {:induction false} LowerFixed(lower: Casing, s: string)
    requires forall x | x in s :: lower(x) == [x]
    ensures Lower(lower, s) == s
  {
    if s != [] {
      LowerFixed(lower, s[1..]);
    }
  }

  // ----- Stripping

  function StripLeft(s: string, drop: set<char>): (r: string)
    ensures r == [] || r[0] !in drop
  {
    if s != [] && s[0] in drop then StripLeft(s[1..], drop) else s
  }

  function StripRight(s: string, drop: set<char>): (r: string)
    ensures r == [] || r[|r| - 1] !in drop
  {
    if s != [] && s[|s| - 1] in drop then StripRight(s[..|s| - 1], drop) else s
  }

  function Strip(s: string, drop: set<char>): string {
    StripRight(StripLeft(s, drop), drop)
  }

  lemma {:induction false} StripLeftIsSuffix(s: string, drop: set<char>)
    ensures exists i | 0 <= i <= |s| :: StripLeft(s, drop) == s[i..]
  {
    if s != [] && s[0] in drop {
      StripLeftIsSuffix(s[1..], drop);
      var i :| 0 <= i <= |s[1..]| && StripLeft(s[1..], drop) == s[1..][i..];
      assert s[1..][i..] == s[i + 1..];
    } else {
      assert s == s[0..];
    }
  }

  lemma {:induction false} StripRightIsPrefix(s: string, drop: set<char>)
    ensures StripRight(s, drop) <= s
  {
    if s != [] && s[|s| - 1] in drop {
      StripRightIsPrefix(s[..|s| - 1], drop);
    }
  }

  /** Stripping once is enough, and what it leaves are characters of the original. */
  lemma StripIsFinal(s: string, drop: set<char>)
    ensures var r := Strip(s, drop);
            && Strip(r, drop) == r
            && (r == [] || (r[0] !in drop && r[|r| - 1] !in drop))
            && forall x | x in r :: x in s
  {
    var l, r := StripLeft(s, drop), Strip(s, drop);
    StripRightIsPrefix(l, drop);
    StripLeftIsSuffix(s, drop);
    assert r != [] ==> r[0] == l[0];
    assert StripLeft(r, drop) == r;
    assert StripRight(r, drop) == r;
    forall x | x in r ensures x in s {
      assert x in l;
    }
  }

  lemma {:induction false} StripRightConcat(x: string, y: string, drop: set<char>)
    ensures StripRight(x + y, drop)
         == if StripRight(y, drop) == [] then StripRight(x, drop) else x + StripRight(y, drop)
    decreases |y|
  {
    if y == [] {
      assert x + y == x;
    } else if y[|y| - 1] in drop {
      assert (x + y)[..|x + y| - 1] == x + y[..|y| - 1];
      StripRightConcat(x, y[..|y| - 1], drop);
    }
  }

  // ----- Joining

  function Join(parts: seq<string>, separator: char): string {
    if parts == [] then []
    else if |parts| == 1 then parts[0]
    else parts[0] + [separator] + Join(parts[1..], separator)
  }

  // ----- Addresses

  const SPACES: set<char> := {' ', '\t', '\n', '\r'}

  /** `email.lower().strip()` */
  function NormalEmail(lower: Casing, email: string): string {
    Strip(Lower(lower, email), SPACES)
  }

  lemma NormalEmailIsFinal(lower: Casing, email: string)
    requires Stable(lower)
    ensures NormalEmail(lower, NormalEmail(lower, email)) == NormalEmail(lower, email)
  {
    var n := NormalEmail(lower, email);
    LowerIsLower(lower, email);
    StripIsFinal(Lower(lower, email), SPACES);
    LowerFixed(lower, n);
  }

  lemma {:induction false} LowerConcat(lower: Casing, x: string, y: string)
    ensures Lower(lower, x + y) == Lower(lower, x) + Lower(lower, y)
  {
    if x == [] {
      assert x + y == y;
    } else {
      assert (x + y)[1..] == x[1..] + y;
      LowerConcat(lower, x[1..], y);
    }
  }

  lemma {:induction false} StripLeftConcat(x: string, y: string, drop: set<char>)
    ensures StripLeft(x + y, drop)
         == if StripLeft(x, drop) == [] then StripLeft(y, drop) else StripLeft(x, drop) + y
  {
    if x == [] {
      assert x + y == y;
    } else if x[0] in drop {
      assert (x + y)[1..] == x[1..] + y;
      StripLeftConcat(x[1..], y, drop);
    }
  }

  lemma {:induction false} StripAllLeft(s: string, drop: set<char>)
    requires forall c | c in s :: c in drop
    ensures StripLeft(s, drop) == []
  {
    if s != [] {
      StripAllLeft(s[1..], drop);
    }
  }

  lemma {:induction false} StripAllRight(s: string, drop: set<char>)
    requires forall c | c in s :: c in drop
    ensures StripRight(s, drop) == []
  {
    if s != [] {
      StripAllRight(s[..|s| - 1], drop);
    }
  }

  /** Characters to drop on either side make no difference. */
  lemma StripIgnoresOuter(pre: string, s: string, post: string, drop: set<char>)
    requires (forall c | c in pre :: c in drop) && (forall c | c in post :: c in drop)
    ensures Strip(pre + s + post, drop) == Strip(s, drop)
  {
    StripAllLeft(pre, drop);
    StripAllLeft(post, drop);
    StripAllRight(post, drop);
    StripLeftConcat(pre, s, drop);
    StripLeftConcat(pre + s, post, drop);
    StripRightConcat(StripLeft(s, drop), post, drop);
  }

  /** What stays of a string without such characters at its ends is the string. */
  lemma StripKeeps(s: string, drop: set<char>)
    requires s != [] ==> s[0] !in drop && s[|s| - 1] !in drop
    ensures Strip(s, drop) == s
  {
  }

  lemma {:induction false} LowerSpaces(lower: Casing, s: string)
    requires forall c | c in s :: lower(c) == [c]
    ensures Lower(lower, s) == s
  {
    LowerFixed(lower, s);
  }

  /** Two spellings of an address that differ in case or in outer spaces only are one address. */
  lemma SpellingsAgree(lower: Casing, x: string, y: string, pre: string, post: string)
    requires Lower(lower, x) == Lower(lower, y)
    requires forall c | c in SPACES :: lower(c) == [c]
    requires (forall c | c in pre :: c in SPACES) && (forall c | c in post :: c in SPACES)
    ensures NormalEmail(lower, pre + x + post) == NormalEmail(lower, y)
  {
    LowerConcat(lower, pre + x, post);
    LowerConcat(lower, pre, x);
    LowerSpaces(lower, pre);
    LowerSpaces(lower, post);
    StripIgnoresOuter(pre, Lower(lower, x), post, SPACES);
  }

  /** An address in lower case without outer spaces is left as it is, and any spelling of it in another
      case is brought to it. */
  lemma SpellingIsNormalised(lower: Casing, x: string, y: string)
    requires Lower(lower, x) == y && (y != [] ==> y[0] !in SPACES && y[|y| - 1] !in SPACES)
    ensures NormalEmail(lower, x) == y
  {
    StripKeeps(y, SPACES);
  }
}
