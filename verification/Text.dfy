/** The part of Python's `str` methods that the models use. */
module Text {
  import opened Ordering

  /** White space, as `str.strip()` and `str.split()` see it. */
  predicate IsSpace(c: char) {
    || '\U{0009}' <= c <= '\U{000D}' || '\U{001C}' <= c <= '\U{0020}'
    || c == '\U{0085}' || c == '\U{00A0}' || c == '\U{1680}' || '\U{2000}' <= c <= '\U{200A}'
    || c == '\U{2028}' || c == '\U{2029}' || c == '\U{202F}' || c == '\U{205F}' || c == '\U{3000}'
  }

  predicate IsBlank(s: string) {
    forall i :: 0 <= i < |s| ==> IsSpace(s[i])
  }

  function StripLeft(s: string): string {
    if s != [] && IsSpace(s[0]) then StripLeft(s[1..]) else s
  }

  function StripRight(s: string): string {
    if s != [] && IsSpace(s[|s| - 1]) then StripRight(s[..|s| - 1]) else s
  }

  function Strip(s: string): string {
    StripRight(StripLeft(s))
  }

  /** A non-empty string without white space. */
  predicate IsWord(s: string) {
    s != [] && forall i :: 0 <= i < |s| ==> !IsSpace(s[i])
  }

  function FirstWord(s: string): (w: string)
    ensures w <= s
    ensures |w| < |s| ==> IsSpace(s[|w|])
    ensures forall i :: 0 <= i < |w| ==> !IsSpace(w[i])
  {
    if s == [] || IsSpace(s[0]) then [] else [s[0]] + FirstWord(s[1..])
  }

  lemma {:induction false} StripLeftFacts(s: string)
    ensures |StripLeft(s)| <= |s|
    ensures StripLeft(s) != [] ==> !IsSpace(StripLeft(s)[0])
  {
    if s != [] && IsSpace(s[0]) {
      StripLeftFacts(s[1..]);
    }
  }

  lemma {:induction false} StripLeftTells(s: string)
    ensures |StripLeft(s)| <= |s| && IsBlank(s[..|s| - |StripLeft(s)|])
    ensures s[|s| - |StripLeft(s)|..] == StripLeft(s)
    ensures StripLeft(s) != [] ==> !IsSpace(StripLeft(s)[0])
  {
    if s != [] && IsSpace(s[0]) {
      var rest := s[1..];
      StripLeftTells(rest);
      var n := |rest| - |StripLeft(rest)|;
      assert s[..n + 1] == [s[0]] + rest[..n] && s[n + 1..] == rest[n..];
    }
  }

  lemma {:induction false} StripRightTells(s: string)
    ensures |StripRight(s)| <= |s| && IsBlank(s[|StripRight(s)|..])
    ensures s[..|StripRight(s)|] == StripRight(s)
    ensures StripRight(s) != [] ==> !IsSpace(StripRight(s)[|StripRight(s)| - 1])
  {
    if s != [] && IsSpace(s[|s| - 1]) {
      var init := s[..|s| - 1];
      StripRightTells(init);
      var n := |StripRight(init)|;
      assert s[n..] == init[n..] + [s[|s| - 1]] && s[..n] == init[..n];
    }
  }

  /** Stripping removes white space at both ends and nothing else. */
  lemma StripTells(s: string) returns (i: nat, j: nat)
    ensures i <= j <= |s| && Strip(s) == s[i..j] && IsBlank(s[..i]) && IsBlank(s[j..])
    ensures i < j ==> !IsSpace(s[i]) && !IsSpace(s[j - 1])
  {
    var left := StripLeft(s);
    StripLeftTells(s);
    StripRightTells(left);
    i := |s| - |left|;
    j := i + |Strip(s)|;
    assert s[i..] == left && s[j..] == left[|Strip(s)|..] && s[i..j] == left[..|Strip(s)|];
    if i < j {
      assert left[0] == s[i] && Strip(s)[0] == left[0];
    }
  }

  lemma StripBlankIff(s: string)
    ensures Strip(s) == "" <==> IsBlank(s)
  {
    var i, j := StripTells(s);
    if Strip(s) == "" {
      forall k | 0 <= k < |s|
        ensures IsSpace(s[k])
      {
        assert k < i ==> s[..i][k] == s[k];
        assert k >= j ==> s[j..][k - j] == s[k];
      }
    }
  }

  /** `s.split()`. */
  function Words(s: string): seq<string>
    decreases |s|
  {
    StripLeftFacts(s);
    var t := StripLeft(s);
    if t == [] then [] else [FirstWord(t)] + Words(t[|FirstWord(t)|..])
  }

  lemma {:induction false} WordsAreWords(s: string)
    ensures forall w :: w in Words(s) ==> IsWord(w)
    decreases |s|
  {
    StripLeftFacts(s);
    var t := StripLeft(s);
    if t != [] {
      WordsAreWords(t[|FirstWord(t)|..]);
    }
  }

  lemma {:induction false} FirstWordOf(w: string, rest: string)
    requires forall i :: 0 <= i < |w| ==> !IsSpace(w[i])
    requires rest == [] || IsSpace(rest[0])
    ensures FirstWord(w + rest) == w
  {
    if w == [] {
      assert w + rest == rest;
    } else {
      assert (w + rest)[1..] == w[1..] + rest;
      FirstWordOf(w[1..], rest);
    }
  }

  /** A word that is followed by white space is the first of the words. */
  lemma WordThenRest(w: string, rest: string)
    requires IsWord(w) && (rest == [] || IsSpace(rest[0]))
    ensures Words(w + rest) == [w] + Words(rest)
  {
    assert StripLeft(w + rest) == w + rest;
    FirstWordOf(w, rest);
    assert (w + rest)[|w|..] == rest;
  }

  lemma LeadingSpace(c: char, rest: string)
    requires IsSpace(c)
    ensures Words([c] + rest) == Words(rest)
  {
    assert ([c] + rest)[1..] == rest;
  }

  lemma {:induction false} StripLeftThenSpace(s: string, c: char)
    requires IsSpace(c)
    ensures StripLeft(s + [c]) == if StripLeft(s) == [] then [] else StripLeft(s) + [c]
  {
    if s != [] {
      assert (s + [c])[0] == s[0] && (s + [c])[1..] == s[1..] + [c];
      if IsSpace(s[0]) {
        StripLeftThenSpace(s[1..], c);
      }
    } else {
      assert s + [c] == [c] && [c][1..] == [];
    }
  }

  lemma {:induction false} TrailingSpace(s: string, c: char)
    requires IsSpace(c)
    ensures Words(s + [c]) == Words(s)
    decreases |s|
  {
    StripLeftFacts(s);
    StripLeftThenSpace(s, c);
    var t := StripLeft(s);
    if t != [] {
      var w := FirstWord(t);
      assert t == w + t[|w|..] && t + [c] == w + (t[|w|..] + [c]);
      FirstWordOf(w, t[|w|..] + [c]);
      assert (t + [c])[|w|..] == t[|w|..] + [c];
      TrailingSpace(t[|w|..], c);
    }
  }

  lemma {:induction false} WordsOfStripRight(s: string)
    ensures Words(StripRight(s)) == Words(s)
  {
    if s != [] && IsSpace(s[|s| - 1]) {
      assert s == s[..|s| - 1] + [s[|s| - 1]];
      TrailingSpace(s[..|s| - 1], s[|s| - 1]);
      WordsOfStripRight(s[..|s| - 1]);
    }
  }

  /** Stripping does not change the words. */
  lemma WordsOfStrip(s: string)
    ensures Words(Strip(s)) == Words(s)
  {
    StripLeftFacts(s);
    assert StripLeft(StripLeft(s)) == StripLeft(s);
    WordsOfStripRight(StripLeft(s));
  }

  lemma {:induction false} StripLeftThenMore(s: string, rest: string)
    requires !IsBlank(s)
    ensures StripLeft(s) != [] && StripLeft(s + rest) == StripLeft(s) + rest
  {
    assert (s + rest)[0] == s[0] && (s + rest)[1..] == s[1..] + rest;
    if IsSpace(s[0]) {
      StripLeftThenMore(s[1..], rest);
    }
  }

  lemma {:induction false} FirstWordThenMore(t: string, rest: string)
    requires rest != [] && IsSpace(rest[0])
    ensures FirstWord(t + rest) == FirstWord(t)
  {
    if t == [] {
      assert t + rest == rest;
    } else {
      assert (t + rest)[0] == t[0] && (t + rest)[1..] == t[1..] + rest;
      if !IsSpace(t[0]) {
        FirstWordThenMore(t[1..], rest);
      }
    }
  }

  /** What follows a text after white space does not change its first word. */
  lemma FirstOfWords(s: string, rest: string)
    requires !IsBlank(s) && rest != [] && IsSpace(rest[0])
    ensures Words(s) != [] && Words(s + rest) != [] && Words(s + rest)[0] == Words(s)[0]
  {
    StripLeftThenMore(s, rest);
    FirstWordThenMore(StripLeft(s), rest);
  }
}
