/** Generic elision (`stripGenerics`): every character met while the `<`/`>` nesting
    counter is non-zero is dropped, and the text fails if the counter does not end at zero.
    The counter is the one the source keeps: it rises on `<`, falls on `>`, may go
    negative, and only the characters read at nesting zero are kept. */
module Generics {
  import opened Failures
  import opened Text

  /** What one character does to the nesting counter. */
  function Step(c: char): int {
    if c == '<' then 1 else if c == '>' then -1 else 0
  }

  /** The nesting counter after reading all of `s` from the left. */
  function Depth(s: string): int {
    if s == [] then 0 else Depth(s[..|s| - 1]) + Step(s[|s| - 1])
  }

  /** The characters the scan copies: neither `<` nor `>`, read while the counter is zero. */
  function Visible(s: string): string {
    if s == [] then []
    else
      var init, c := s[..|s| - 1], s[|s| - 1];
      Visible(init) + (if c != '<' && c != '>' && Depth(init) == 0 then [c] else [])
  }

  /** `stripGenerics`: the text verbatim when it holds no `<` (even if it holds `>`),
      otherwise the visible characters, or a failure when the counter ends non-zero. */
  function Stripped(s: string): Result<string> {
    if '<' !in s then Success(s)
    else if Depth(s) != 0 then Failure(MismatchedGenerics(s))
    else Success(Visible(s))
  }

  /** The final counter is the number of `<` less the number of `>`. */
  lemma {:induction false} DepthCounts(s: string)
    ensures Depth(s) == Count(s, '<') - Count(s, '>')
  {
    if s != [] {
      DepthCounts(s[..|s| - 1]);
    }
  }

  /** With a `<` present, stripping fails exactly when `<` and `>` are not equally many. */
  lemma StrippedFailsIffUnbalanced(s: string)
    requires '<' in s
    ensures Stripped(s).Failure? <==> Count(s, '<') != Count(s, '>')
    ensures Stripped(s).Failure? ==> Stripped(s).error == MismatchedGenerics(s)
  {
    DepthCounts(s);
  }

  /** The copied characters keep their order and come from the input: the result is
      obtained from `s` by deleting characters. */
  lemma {:induction false} VisibleIsSubsequence(s: string)
    ensures IsSubsequence(Visible(s), s)
  {
    if s != [] {
      var init, c := s[..|s| - 1], s[|s| - 1];
      VisibleIsSubsequence(init);
      SubsequenceExtend(Visible(init), init, c, c != '<' && c != '>' && Depth(init) == 0);
      assert init + [c] == s;
    }
  }

  /** `t` is `s` with some characters deleted. */
  predicate IsSubsequence(t: string, s: string)
    decreases |s|
  {
    t == []
    || (s != [] && (IsSubsequence(t, s[..|s| - 1])
                    || (t[|t| - 1] == s[|s| - 1] && IsSubsequence(t[..|t| - 1], s[..|s| - 1]))))
  }

  lemma SubsequenceExtend(t: string, s: string, c: char, keep: bool)
    requires IsSubsequence(t, s)
    ensures IsSubsequence(t + (if keep then [c] else []), s + [c])
  {
    var u := t + (if keep then [c] else []);
    assert (s + [c])[..|s|] == s;
    if keep {
      assert u[..|u| - 1] == t;
    } else {
      assert u == t;
    }
  }

  /** Neither angle bracket survives stripping. */
  lemma {:induction false} VisibleHasNoAngles(s: string)
    ensures '<' !in Visible(s) && '>' !in Visible(s)
  {
    if s != [] {
      VisibleHasNoAngles(s[..|s| - 1]);
    }
  }

  /** A successful strip leaves nothing further to strip. */
  lemma StrippedIdempotent(s: string)
    requires Stripped(s).Success?
    ensures Stripped(Stripped(s).value) == Stripped(s)
  {
    if '<' in s {
      VisibleHasNoAngles(s);
    }
  }

  /** Elision composes at nesting zero: after a prefix that closes all it opens, the rest
      is stripped as if on its own. */
  lemma {:induction false} VisibleAppend(a: string, b: string)
    requires Depth(a) == 0
    ensures Visible(a + b) == Visible(a) + Visible(b)
    ensures Depth(a + b) == Depth(b)
  {
    if b == [] {
      assert a + b == a;
    } else {
      var b', c := b[..|b| - 1], b[|b| - 1];
      VisibleAppend(a, b');
      assert (a + b)[..|a + b| - 1] == a + b';
    }
  }
}
