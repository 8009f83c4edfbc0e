/** Character classes of the translator's regular expressions, maximal runs of one class,
    and small sequence helpers. TYPE_DECL and METHOD_SPLIT are compiled with
    UNICODE_CHARACTER_CLASS, so their `\s` and `\w` are the Unicode classes; PARAM_SPLIT is
    not, so its `\s` is ASCII white space only. */
module Text {

  /** `\s` under UNICODE_CHARACTER_CLASS: the Unicode White_Space property. */
  predicate IsSpace(c: char) {
    ('\t' <= c <= '\r') || c == ' ' || c == '\U{85}' || c == '\U{A0}' || c == '\U{1680}'
    || ('\U{2000}' <= c <= '\U{200A}') || c == '\U{2028}' || c == '\U{2029}'
    || c == '\U{202F}' || c == '\U{205F}' || c == '\U{3000}'
  }

  /** `\s` without UNICODE_CHARACTER_CLASS: `[ \t\n\x0B\f\r]`. */
  predicate IsAsciiSpace(c: char) {
    c == ' ' || ('\t' <= c <= '\r')
  }

  /** The characters `.` does not match when DOTALL is off. */
  predicate IsLineBreak(c: char) {
    c == '\n' || c == '\r' || c == '\U{85}' || c == '\U{2028}' || c == '\U{2029}'
  }

  /** `\w` under UNICODE_CHARACTER_CLASS: exact on ASCII; every non-ASCII character that
      is not white space counts as a word character. */
  predicate IsWordChar(c: char) {
    ('a' <= c <= 'z') || ('A' <= c <= 'Z') || ('0' <= c <= '9') || c == '_'
    || ('\U{80}' <= c && !IsSpace(c))
  }

  /** The classes the regexes repeat: `[\w\d.$]`, `[\[\]\s]`, `\s` and `.` under
      UNICODE_CHARACTER_CLASS, and the ASCII `\s` of PARAM_SPLIT. */
  datatype CharClass = IdentChar | ArrayChar | SpaceChar | LineChar | AsciiSpaceChar

  predicate In(c: char, k: CharClass) {
    match k
    case IdentChar => IsWordChar(c) || c == '.' || c == '$'
    case ArrayChar => c == '[' || c == ']' || IsSpace(c)
    case SpaceChar => IsSpace(c)
    case LineChar => !IsLineBreak(c)
    case AsciiSpaceChar => IsAsciiSpace(c)
  }

  predicate AllIn(s: string, k: CharClass) {
    forall i :: 0 <= i < |s| ==> In(s[i], k)
  }

  /** `\w[\w\d.$]*`: a dotted, `$`-nested name that starts with a word character. */
  predicate IsIdentifier(s: string) {
    |s| > 0 && IsWordChar(s[0]) && AllIn(s, IdentChar)
  }

  /** The longest run of class `k` at the head of `s`, and what follows it: what a greedy
      `k*` consumes and leaves. */
  function TakeRun(s: string, k: CharClass): (p: (string, string))
    ensures s == p.0 + p.1
    ensures AllIn(p.0, k)
    ensures p.1 == [] || !In(p.1[0], k)
  {
    if s != [] && In(s[0], k) then
      var (run, rest) := TakeRun(s[1..], k);
      ConsRun(s, run, rest, k);
      ([s[0]] + run, rest)
    else ([], s)
  }

  /** One more character of class `k` in front of a run. */
  lemma ConsRun(s: string, run: string, rest: string, k: CharClass)
    requires s != [] && In(s[0], k) && s[1..] == run + rest && AllIn(run, k)
    ensures s == [s[0]] + run + rest && AllIn([s[0]] + run, k)
  {
    assert s == [s[0]] + s[1..];
  }

  /** A run of class `k` that cannot be extended is the greedy one. */
  lemma {:induction false} TakeRunIs(run: string, rest: string, k: CharClass)
    requires AllIn(run, k)
    requires rest == [] || !In(rest[0], k)
    ensures TakeRun(run + rest, k) == (run, rest)
  {
    if run == [] {
      assert run + rest == rest;
    } else {
      assert (run + rest)[1..] == run[1..] + rest;
      TakeRunIs(run[1..], rest, k);
      assert [run[0]] + run[1..] == run;
    }
  }

  /** Number of occurrences of `c` in `s` (`s.chars().filter(ch -> ch == c).count()`). */
  function Count(s: string, c: char): nat {
    if s == [] then 0 else Count(s[..|s| - 1], c) + (if s[|s| - 1] == c then 1 else 0)
  }

  lemma {:induction false} CountIsMultiplicity(s: string, c: char)
    ensures Count(s, c) == multiset(s)[c]
  {
    if s != [] {
      CountIsMultiplicity(s[..|s| - 1], c);
      assert s == s[..|s| - 1] + [s[|s| - 1]];
    }
  }

  lemma {:induction false} CountAppend(a: string, b: string, c: char)
    ensures Count(a + b, c) == Count(a, c) + Count(b, c)
  {
    CountIsMultiplicity(a + b, c);
    CountIsMultiplicity(a, c);
    CountIsMultiplicity(b, c);
  }

  /** A run that holds no `c` counts none of it. */
  lemma {:induction false} CountAbsent(s: string, c: char)
    requires c !in s
    ensures Count(s, c) == 0
  {
    if s != [] {
      CountAbsent(s[..|s| - 1], c);
    }
  }

  /** `n` copies of `c`. */
  function Repeat(c: char, n: nat): (s: string)
    ensures |s| == n && forall i :: 0 <= i < n ==> s[i] == c
  {
    if n == 0 then [] else Repeat(c, n - 1) + [c]
  }

  /** Number of `c` at the head of `s`: the array dimensions a descriptor states. */
  function Leading(s: string, c: char): (n: nat)
    ensures n <= |s|
  {
    if s != [] && s[0] == c then 1 + Leading(s[1..], c) else 0
  }

  lemma {:induction false} LeadingRepeat(c: char, n: nat, rest: string)
    requires rest == [] || rest[0] != c
    ensures Leading(Repeat(c, n) + rest, c) == n
  {
    if n > 0 {
      assert (Repeat(c, n) + rest)[1..] == Repeat(c, n - 1) + rest;
      LeadingRepeat(c, n - 1, rest);
    } else {
      assert Repeat(c, n) + rest == rest;
    }
  }

  /** A prefix one element longer is the prefix and that element. */
  lemma PrefixExtend<T>(s: seq<T>, i: nat)
    requires i < |s|
    ensures s[..i + 1] == s[..i] + [s[i]]
  {
  }

  lemma Associative(a: string, b: string, c: string)
    ensures a + b + c == a + (b + c)
  {
  }

  lemma Regroup(a: string, b: string, c: string, d: string)
    ensures a + (b + (c + d)) == a + b + c + d
  {
  }
}
