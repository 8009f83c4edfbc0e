/** The translator's three regular expressions as scanners over strings.
    `matches()` either fails or picks, by leftmost-greedy backtracking, one assignment of
    the capture groups. What is proved of each scanner is that it inverts the reassembly
    of its groups: ParseTypeDecl and TypeDeclGroups for TYPE_DECL, MethodSplitSound and
    MethodSplitComplete for METHOD_SPLIT, SplitJoin, JoinSplit and TrimmedFrom for
    PARAM_SPLIT. That the groups chosen are the greedy ones is argued in the comments
    beside each scanner, from the maximal runs it takes. TYPE_DECL and METHOD_SPLIT use
    Unicode `\s` and `\w`; PARAM_SPLIT uses ASCII `\s`.

      TYPE_DECL    = (ID)([\[\]\s]*)\s*(ID)?([\[\]\s]*)?
      METHOD_SPLIT = (ID)([\[\]\s]*)\s+(ID)\s*\(\s*(.*)\s*\);?
      PARAM_SPLIT  = \s*,\s*
    where ID = \w[\w\d.$]*. */
module Grammar {
  import opened Failures
  import opened Text

  /** A character of an identifier is never a bracket or white space. */
  lemma ClassesDisjoint(c: char)
    ensures In(c, IdentChar) ==> !In(c, ArrayChar) && !In(c, SpaceChar)
    ensures IsWordChar(c) ==> In(c, IdentChar)
    ensures In(c, SpaceChar) ==> In(c, ArrayChar)
  {
  }

  // ---------------------------------------------------------------- TYPE_DECL

  /** The four groups of TYPE_DECL: base type, brackets before the name, the optional name
      (null in the source when absent) and brackets after it. */
  datatype TypeDecl = TypeDecl(baseType: string, arrays: string, name: Option<string>, trailing: string)

  function NameText(n: Option<string>): string {
    match n
    case None => []
    case Some(x) => x
  }

  /** TYPE_DECL.matcher(s).matches() and its groups. The groups put back together give
      `s`, and the base type is the longest identifier at the head of `s`. */
  function ParseTypeDecl(s: string): (r: Option<TypeDecl>)
    ensures r.Some? ==> s == r.value.baseType + r.value.arrays + NameText(r.value.name) + r.value.trailing
    ensures r.Some? ==> IsIdentifier(r.value.baseType) && AllIn(r.value.arrays, ArrayChar)
                        && AllIn(r.value.trailing, ArrayChar)
                        && (r.value.name.Some? ==> IsIdentifier(r.value.name.value))
    ensures r.Some? && |r.value.baseType| < |s| ==> !In(s[|r.value.baseType|], IdentChar)
    ensures r.Some? && r.value.name.None? ==> r.value.trailing == []
  {
    if s == [] || !IsWordChar(s[0]) then None
    else
      var (base, afterBase) := TakeRun(s, IdentChar);
      var (arrays, afterArrays) := TakeRun(afterBase, ArrayChar);
      if afterArrays == [] then
        Regroup(base, arrays, [], []);
        Some(TypeDecl(base, arrays, None, []))
      else if !IsWordChar(afterArrays[0]) then None
      else
        var (name, afterName) := TakeRun(afterArrays, IdentChar);
        var (trailing, rest) := TakeRun(afterName, ArrayChar);
        if rest == [] then
          assert afterName == trailing;
          Regroup(base, arrays, name, trailing);
          Some(TypeDecl(base, arrays, Some(name), trailing))
        else None
  }

  /** Every text of the shape "type [brackets] [name] [brackets]" matches, with these
      groups: a name needs brackets or white space before it, otherwise it is read as
      the tail of the base type. With the soundness clauses of ParseTypeDecl this makes
      parsing and reassembling the groups inverse to each other. */
  lemma TypeDeclGroups(b: string, a1: string, n: string, a2: string)
    requires IsIdentifier(b) && AllIn(a1, ArrayChar) && AllIn(a2, ArrayChar)
    requires n == [] || IsIdentifier(n)
    ensures ParseTypeDecl(b + a1 + n + a2)
            == if a1 != [] && n != [] then Some(TypeDecl(b, a1, Some(n), a2))
               else Some(TypeDecl(b + n, a1 + a2, None, []))
  {
    if a1 != [] && n != [] {
      TypeDeclNamed(b, a1, n, a2);
    } else {
      TypeDeclUnnamed(b + n, a1 + a2);
      Merge(b, a1, n, a2);
    }
  }

  /** With no brackets before it, a name joins the base type; with no name, the two
      bracket runs join. */
  lemma Merge(b: string, a1: string, n: string, a2: string)
    requires a1 == [] || n == []
    ensures b + a1 + n + a2 == (b + n) + (a1 + a2)
  {
    if a1 == [] {
      assert b + a1 == b;
    } else {
      assert a1 + n == a1;
    }
  }

  lemma TypeDeclNamed(b: string, a1: string, n: string, a2: string)
    requires IsIdentifier(b) && AllIn(a1, ArrayChar) && AllIn(a2, ArrayChar)
    requires a1 != [] && IsIdentifier(n)
    ensures ParseTypeDecl(b + a1 + n + a2) == Some(TypeDecl(b, a1, Some(n), a2))
  {
    ClassesDisjoint(a1[0]);
    Regroup(b, a1, n, a2);
    TakeRunIs(b, a1 + (n + a2), IdentChar);
    ClassesDisjoint(n[0]);
    TakeRunIs(a1, n + a2, ArrayChar);
    if a2 != [] {
      ClassesDisjoint(a2[0]);
    }
    TakeRunIs(n, a2, IdentChar);
    assert a2 == a2 + [];
    TakeRunIs(a2, [], ArrayChar);
  }

  lemma TypeDeclUnnamed(head: string, rest: string)
    requires IsIdentifier(head) && AllIn(rest, ArrayChar)
    ensures ParseTypeDecl(head + rest) == Some(TypeDecl(head, rest, None, []))
  {
    if rest != [] {
      ClassesDisjoint(rest[0]);
    }
    TakeRunIs(head, rest, IdentChar);
    assert rest == rest + [];
    TakeRunIs(rest, [], ArrayChar);
  }

  // ---------------------------------------------------------------- METHOD_SPLIT

  /** The groups of METHOD_SPLIT: the return type (groups 1 and 2 joined, as the source
      joins them), the method name (group 3) and the raw parameter text (group 4). */
  datatype MethodParts = MethodParts(returnType: string, name: string, params: string)

  /** `\);?` at the end of `t`: the text before the final `)` or `);`. */
  function BeforeClose(t: string): (r: Option<string>)
    ensures r.Some? ==> t == r.value + ")" || t == r.value + ");"
  {
    if |t| >= 1 && t[|t| - 1] == ')' then Some(t[..|t| - 1])
    else if |t| >= 2 && t[|t| - 2..] == ");" then Some(t[..|t| - 2])
    else None
  }

  /** `\s*(.*)\s*\);?` read after the `(`: group 4 is the longest text up to the final `)`
      (or `);`) that holds no line break, and what lies between it and that `)` must be
      white space. The leading white space goes to the first `\s*`. */
  function ParamsText(t: string): (r: Option<string>)
    ensures r.Some? ==> AllIn(r.value, LineChar)
  {
    var (lead, inner) := TakeRun(t, SpaceChar);
    match BeforeClose(inner)
    case None => None
    case Some(body) =>
      var (params, tail) := TakeRun(body, LineChar);
      if AllIn(tail, SpaceChar) then Some(params) else None
  }

  /** `(ID)([\[\]\s]*)\s+(ID)` at the head of `s`: the return type (groups 1 and 2), the
      name (group 3) and the text after the name. Group 2 gives back the last white space
      character of its bracket run, because `\s+` needs one before the name. */
  function ReturnTypeAndName(s: string): (r: Option<(string, string, string)>)
    ensures r.Some? ==> IsIdentifier(r.value.1)
  {
    if s == [] || !IsWordChar(s[0]) then None
    else
      var (base, afterBase) := TakeRun(s, IdentChar);
      var (arrays, afterArrays) := TakeRun(afterBase, ArrayChar);
      if arrays == [] || !IsSpace(arrays[|arrays| - 1]) || afterArrays == [] || !IsWordChar(afterArrays[0]) then None
      else
        var (name, afterName) := TakeRun(afterArrays, IdentChar);
        Some((base + arrays[..|arrays| - 1], name, afterName))
  }

  /** METHOD_SPLIT.matcher(s).matches() and its groups. */
  function ParseMethod(s: string): (r: Option<MethodParts>)
    ensures r.Some? ==> IsIdentifier(r.value.name) && AllIn(r.value.params, LineChar)
  {
    match ReturnTypeAndName(s)
    case None => None
    case Some((returnType, name, afterName)) =>
      var (gap, open) := TakeRun(afterName, SpaceChar);
      if open == [] || open[0] != '(' then None
      else
        match ParamsText(open[1..])
        case None => None
        case Some(params) => Some(MethodParts(returnType, name, params))
  }

  /** `(ID)([\[\]\s]*)`: a type with brackets and no name. */
  predicate IsBareType(t: string) {
    var (base, arrays) := TakeRun(t, IdentChar);
    IsIdentifier(base) && AllIn(arrays, ArrayChar)
  }

  /** The white space and punctuation METHOD_SPLIT reads around the groups: the white space
      character before the name, the gap before `(`, the white space after `(`, the white
      space from the first line break on, and whether `;` follows `)`. */
  datatype Layout = Layout(separator: char, gap: string, lead: string, tail: string, semicolon: bool)

  function Close(semicolon: bool): string {
    if semicolon then ");" else ")"
  }

  function Assemble(p: MethodParts, l: Layout): string {
    p.returnType + [l.separator] + p.name + l.gap + "(" + (l.lead + p.params + l.tail + Close(l.semicolon))
  }

  /** What may follow `(` around group 4: white space, parameter text without line breaks
      that does not start with white space, white space that starts at a line break. */
  predicate ParamsLaidOut(lead: string, params: string, tail: string) {
    AllIn(lead, SpaceChar)
    && AllIn(params, LineChar) && (params == [] || !IsSpace(params[0]))
    && AllIn(tail, SpaceChar) && (tail == [] || IsLineBreak(tail[0]))
  }

  /** The groups and layouts METHOD_SPLIT can read: a bare return type, an identifier for
      a name, white space where white space goes, and the parameter text laid out as above. */
  predicate LaidOut(p: MethodParts, l: Layout) {
    IsBareType(p.returnType)
    && IsSpace(l.separator) && IsIdentifier(p.name) && AllIn(l.gap, SpaceChar)
    && ParamsLaidOut(l.lead, p.params, l.tail)
  }

  lemma ParamsTextComplete(lead: string, params: string, tail: string, semicolon: bool)
    requires ParamsLaidOut(lead, params, tail)
    ensures ParamsText(lead + params + tail + Close(semicolon)) == Some(params)
  {
    if params == [] {
      assert lead + params + tail == lead + tail;
      EmptyParamsText(lead + tail, semicolon);
    } else {
      assert lead + params + tail + Close(semicolon) == lead + (params + tail + Close(semicolon));
      TakeRunIs(lead, params + tail + Close(semicolon), SpaceChar);
      BeforeCloseOf(params + tail, semicolon);
      TakeRunIs(params, tail, LineChar);
    }
  }

  lemma EmptyParamsText(spaces: string, semicolon: bool)
    requires AllIn(spaces, SpaceChar)
    ensures ParamsText(spaces + Close(semicolon)) == Some([])
  {
    TakeRunIs(spaces, Close(semicolon), SpaceChar);
    assert BeforeClose(Close(semicolon)) == Some([]);
    assert TakeRun([], LineChar) == ([], []);
  }

  lemma BeforeCloseOf(body: string, semicolon: bool)
    ensures BeforeClose(body + Close(semicolon)) == Some(body)
  {
    var t := body + Close(semicolon);
    if semicolon {
      assert t[..|t| - 2] == body;
    } else {
      assert t[..|t| - 1] == body;
    }
  }

  lemma ParamsTextSound(t: string)
    requires ParamsText(t).Some?
    ensures exists lead, tail, semicolon :: ParamsLaidOut(lead, ParamsText(t).value, tail)
                                            && t == lead + ParamsText(t).value + tail + Close(semicolon)
  {
    var (lead, inner) := TakeRun(t, SpaceChar);
    var body := BeforeClose(inner).value;
    var (params, tail) := TakeRun(body, LineChar);
    var semicolon := inner != body + ")";
    assert ParamsText(t) == Some(params);
    ParamsParts(t, lead, inner, body, params, tail, semicolon);
  }

  /** The pieces `\s*(.*)\s*\);?` reads after the `(`, put back together. */
  lemma ParamsParts(t: string, lead: string, inner: string, body: string, params: string, tail: string,
                    semicolon: bool)
    requires t == lead + inner && AllIn(lead, SpaceChar) && (inner == [] || !IsSpace(inner[0]))
    requires inner == body + Close(semicolon) && body == params + tail
    requires AllIn(params, LineChar) && AllIn(tail, SpaceChar) && (tail == [] || IsLineBreak(tail[0]))
    ensures ParamsLaidOut(lead, params, tail) && t == lead + params + tail + Close(semicolon)
  {
    if params != [] {
      assert params[0] == body[0] == inner[0];
    }
  }

  lemma HeadComplete(base: string, arrays: string, separator: char, name: string, rest: string)
    requires IsIdentifier(base) && AllIn(arrays, ArrayChar)
    requires IsSpace(separator) && IsIdentifier(name)
    requires rest == [] || !In(rest[0], IdentChar)
    ensures ReturnTypeAndName(base + arrays + [separator] + name + rest) == Some((base + arrays, name, rest))
  {
    var arrays' := arrays + [separator];
    var afterArrays := name + rest;
    assert base + arrays + [separator] + name + rest == base + (arrays' + afterArrays);
    ClassesDisjoint(arrays'[0]);
    TakeRunIs(base, arrays' + afterArrays, IdentChar);
    ClassesDisjoint(name[0]);
    TakeRunIs(arrays', afterArrays, ArrayChar);
    TakeRunIs(name, rest, IdentChar);
    assert arrays'[..|arrays'| - 1] == arrays;
  }

  lemma HeadSound(s: string)
    requires ReturnTypeAndName(s).Some?
    ensures var (returnType, name, rest) := ReturnTypeAndName(s).value;
            IsBareType(returnType) && |returnType| < |s| && IsSpace(s[|returnType|])
            && s == returnType + [s[|returnType|]] + name + rest
            && (rest == [] || !In(rest[0], IdentChar))
  {
    var (base, afterBase) := TakeRun(s, IdentChar);
    var (arrays, afterArrays) := TakeRun(afterBase, ArrayChar);
    var (name, afterName) := TakeRun(afterArrays, IdentChar);
    assert ReturnTypeAndName(s) == Some((base + arrays[..|arrays| - 1], name, afterName));
    assert base[0] == s[0];
    HeadParts(s, base, afterBase, arrays, afterArrays, name, afterName);
  }

  /** The pieces the head of METHOD_SPLIT reads, put back together. */
  lemma HeadParts(s: string, base: string, afterBase: string, arrays: string, afterArrays: string,
                  name: string, afterName: string)
    requires IsIdentifier(base) && s == base + afterBase
    requires AllIn(arrays, ArrayChar) && afterBase == arrays + afterArrays
    requires arrays != [] && IsSpace(arrays[|arrays| - 1])
    requires afterArrays == name + afterName
    ensures var returnType := base + arrays[..|arrays| - 1];
            IsBareType(returnType) && |returnType| < |s| && IsSpace(s[|returnType|])
            && s == returnType + [s[|returnType|]] + name + afterName
  {
    var bare, sep := arrays[..|arrays| - 1], arrays[|arrays| - 1];
    assert arrays == bare + [sep];
    BareTypeOf(base, bare);
    assert s == (base + bare) + [sep] + name + afterName;
  }

  lemma BareTypeOf(base: string, arrays: string)
    requires IsIdentifier(base) && AllIn(arrays, ArrayChar)
    ensures IsBareType(base + arrays)
  {
    if arrays != [] {
      ClassesDisjoint(arrays[0]);
    }
    TakeRunIs(base, arrays, IdentChar);
  }

  /** A bare type is what TYPE_DECL reads as a type without a name. */
  lemma BareTypeDecl(t: string)
    requires IsBareType(t)
    ensures ParseTypeDecl(t).Some? && ParseTypeDecl(t).value.name.None?
  {
    var (base, arrays) := TakeRun(t, IdentChar);
    TypeDeclGroups(base, arrays, [], []);
    assert base + arrays + [] + [] == t;
  }

  /** A declaration laid out as METHOD_SPLIT expects is split back into its own groups. */
  lemma MethodSplitComplete(p: MethodParts, l: Layout)
    requires LaidOut(p, l)
    ensures ParseMethod(Assemble(p, l)) == Some(p)
  {
    var inner := l.lead + p.params + l.tail + Close(l.semicolon);
    var open := "(" + inner;
    var afterName := l.gap + open;
    assert open[1..] == inner;
    AssembleParts(p, l, open);
    assert ReturnTypeAndName(Assemble(p, l)) == Some((p.returnType, p.name, afterName)) by {
      ClassesDisjoint(if l.gap == [] then '(' else l.gap[0]);
      var (base, arrays) := TakeRun(p.returnType, IdentChar);
      HeadComplete(base, arrays, l.separator, p.name, afterName);
    }
    assert TakeRun(afterName, SpaceChar) == (l.gap, open) by {
      TakeRunIs(l.gap, open, SpaceChar);
    }
    assert ParamsText(open[1..]) == Some(p.params) by {
      ParamsTextComplete(l.lead, p.params, l.tail, l.semicolon);
    }
    ParseMethodOf(Assemble(p, l), p.returnType, p.name, afterName, l.gap, open, p.params);
  }

  /** ParseMethod from the results of its three stages. */
  lemma ParseMethodOf(s: string, returnType: string, name: string, afterName: string, gap: string,
                      open: string, params: string)
    requires ReturnTypeAndName(s) == Some((returnType, name, afterName))
    requires TakeRun(afterName, SpaceChar) == (gap, open) && open != [] && open[0] == '('
    requires ParamsText(open[1..]) == Some(params)
    ensures ParseMethod(s) == Some(MethodParts(returnType, name, params))
  {
  }

  /** Whatever METHOD_SPLIT accepts is laid out as it expects: the groups and the white
      space it skipped put back together give the text. */
  lemma MethodSplitSound(s: string)
    requires ParseMethod(s).Some?
    ensures exists l: Layout :: LaidOut(ParseMethod(s).value, l) && s == Assemble(ParseMethod(s).value, l)
  {
    HeadSound(s);
    var (returnType, name, afterName) := ReturnTypeAndName(s).value;
    var (gap, open) := TakeRun(afterName, SpaceChar);
    var params := ParamsText(open[1..]).value;
    var p := MethodParts(returnType, name, params);
    assert ParseMethod(s) == Some(p);
    ParamsTextSound(open[1..]);
    var lead, tail, semicolon :| ParamsLaidOut(lead, params, tail)
                                 && open[1..] == lead + params + tail + Close(semicolon);
    var l := Layout(s[|returnType|], gap, lead, tail, semicolon);
    AssembleParts(p, l, open);
    assert LaidOut(p, l);
  }

  lemma AssembleParts(p: MethodParts, l: Layout, open: string)
    requires open != [] && open[0] == '('
    requires open[1..] == l.lead + p.params + l.tail + Close(l.semicolon)
    ensures Assemble(p, l) == p.returnType + [l.separator] + p.name + (l.gap + open)
  {
    assert open == "(" + open[1..];
  }

  /** A type followed at once by `(`, with no method name, is not a method declaration. */
  lemma MissingNameRejected(t: string, rest: string)
    requires IsIdentifier(t)
    ensures ParseMethod(t + "(" + rest) == None
  {
    assert t + "(" + rest == t + ("(" + rest);
    TakeRunIs(t, "(" + rest, IdentChar);
    assert "(" + rest == [] + ("(" + rest);
    TakeRunIs([], "(" + rest, ArrayChar);
    assert ReturnTypeAndName(t + "(" + rest) == None;
  }

  // ---------------------------------------------------------------- PARAM_SPLIT

  /** The text cut at every comma. */
  function SplitAtCommas(s: string): (pieces: seq<string>)
    ensures |pieces| >= 1
    ensures forall i :: 0 <= i < |pieces| ==> ',' !in pieces[i]
  {
    if s == [] then [[]]
    else
      var rest := SplitAtCommas(s[1..]);
      if s[0] == ',' then [[]] + rest else [[s[0]] + rest[0]] + rest[1..]
  }

  /** The pieces joined back with commas. */
  function JoinWithCommas(pieces: seq<string>): string
    requires |pieces| >= 1
  {
    if |pieces| == 1 then pieces[0] else pieces[0] + "," + JoinWithCommas(pieces[1..])
  }

  /** Cutting at commas loses nothing: the pieces rejoin to the text. */
  lemma {:induction false} SplitJoin(s: string)
    ensures JoinWithCommas(SplitAtCommas(s)) == s
  {
    if s != [] {
      var rest := SplitAtCommas(s[1..]);
      SplitJoin(s[1..]);
      if s[0] != ',' {
        var pieces := SplitAtCommas(s);
        assert pieces[1..] == rest[1..];
        if |rest| > 1 {
          assert rest == [rest[0]] + rest[1..];
        }
      }
    }
  }

  /** Comma-free pieces are recovered from their join. */
  lemma {:induction false} JoinSplit(pieces: seq<string>)
    requires |pieces| >= 1 && forall i :: 0 <= i < |pieces| ==> ',' !in pieces[i]
    ensures SplitAtCommas(JoinWithCommas(pieces)) == pieces
    decreases |pieces|, |pieces[0]|
  {
    var p := pieces[0];
    if p == [] {
      if |pieces| > 1 {
        JoinSplit(pieces[1..]);
        assert JoinWithCommas(pieces) == [','] + JoinWithCommas(pieces[1..]);
        assert [[]] + pieces[1..] == pieces;
      }
    } else {
      var shorter := [p[1..]] + pieces[1..];
      assert shorter[1..] == pieces[1..];
      JoinSplit(shorter);
      assert JoinWithCommas(pieces) == [p[0]] + JoinWithCommas(shorter) by {
        if |pieces| > 1 {
          assert p == [p[0]] + p[1..];
        }
      }
      assert [p[0]] + p[1..] == p;
      assert [p] + pieces[1..] == pieces;
    }
  }

  /** `s` without its leading PARAM_SPLIT white space. */
  function TrimStart(s: string): (t: string)
    ensures |t| <= |s| && t == s[|s| - |t|..] && AllIn(s[..|s| - |t|], AsciiSpaceChar)
    ensures t == [] || !IsAsciiSpace(t[0])
  {
    var (run, rest) := TakeRun(s, AsciiSpaceChar);
    assert s[..|run|] == run;
    rest
  }

  /** `s` without its trailing PARAM_SPLIT white space. */
  function TrimEnd(s: string): (t: string)
    ensures |t| <= |s| && t == s[..|t|] && AllIn(s[|t|..], AsciiSpaceChar)
    ensures t == [] || !IsAsciiSpace(t[|t| - 1])
  {
    if s != [] && IsAsciiSpace(s[|s| - 1]) then
      var t := TrimEnd(s[..|s| - 1]);
      assert s[|t|..] == s[..|s| - 1][|t|..] + [s[|s| - 1]];
      t
    else s
  }

  /** `t` is `piece` less the white space at its ends: all of it on a side that touches a
      comma, none of it on the side that begins or ends the text. */
  predicate TrimmedFrom(t: string, piece: string, first: bool, last: bool) {
    (exists k :: 0 <= k <= |piece| - |t| && piece[k..k + |t|] == t
                 && AllIn(piece[..k], AsciiSpaceChar) && AllIn(piece[k + |t|..], AsciiSpaceChar)
                 && (first ==> k == 0) && (last ==> k + |t| == |piece|))
    && (!first ==> t == [] || !IsAsciiSpace(t[0]))
    && (!last ==> t == [] || !IsAsciiSpace(t[|t| - 1]))
  }

  /** PARAM_SPLIT.split(s): the pieces between commas, each losing the white space next to
      a comma (the first piece keeps what leads it, the last what trails it). Java also
      drops trailing empty pieces; the caller skips empty pieces, so they are kept here.
      With SplitJoin, the fragments and the white space trimmed off them make up `s`. */
  function Fragments(s: string): (fs: seq<string>)
    ensures |fs| == |SplitAtCommas(s)|
    ensures forall i :: 0 <= i < |fs| ==> TrimmedFrom(fs[i], SplitAtCommas(s)[i], i == 0, i == |fs| - 1)
    ensures forall i :: 0 <= i < |fs| ==> ',' !in fs[i]
  {
    var pieces := SplitAtCommas(s);
    seq(|pieces|, i requires 0 <= i < |pieces| => TrimPiece(pieces[i], i == 0, i == |pieces| - 1))
  }

  /** One piece between commas, trimmed on each side that touches a comma. */
  function TrimPiece(piece: string, first: bool, last: bool): (t: string)
    ensures TrimmedFrom(t, piece, first, last)
    ensures ',' !in piece ==> ',' !in t
  {
    var left := if first then piece else TrimStart(piece);
    var t := if last then left else TrimEnd(left);
    TrimmedOf(piece, left, t, first, last);
    t
  }

  /** The two trimming steps of TrimPiece, and the comma it cannot introduce. */
  lemma TrimmedOf(piece: string, left: string, t: string, first: bool, last: bool)
    requires |left| <= |piece| && left == piece[|piece| - |left|..]
    requires AllIn(piece[..|piece| - |left|], AsciiSpaceChar) && (first ==> left == piece)
    requires !first ==> left == [] || !IsAsciiSpace(left[0])
    requires |t| <= |left| && t == left[..|t|] && AllIn(left[|t|..], AsciiSpaceChar) && (last ==> t == left)
    requires !last ==> t == [] || !IsAsciiSpace(t[|t| - 1])
    ensures TrimmedFrom(t, piece, first, last)
    ensures ',' !in piece ==> ',' !in t
  {
    var k := |piece| - |left|;
    assert piece[k..k + |t|] == t;
    assert piece[k + |t|..] == left[|t|..];
  }

  /** Names written as a Java parameter list is usually written: `a, b, c`. */
  function JoinCommaSpace(ws: seq<string>): string
    requires |ws| >= 1
  {
    if |ws| == 1 then ws[0] else ws[0] + ", " + JoinCommaSpace(ws[1..])
  }

  /** The pieces between the commas of `a, b, c`: each name after the first keeps the
      space that follows its comma. */
  function Spaced(ws: seq<string>): (pieces: seq<string>)
    requires |ws| >= 1
    ensures |pieces| == |ws| && pieces[0] == ws[0]
    ensures forall i :: 0 < i < |ws| ==> pieces[i] == " " + ws[i]
  {
    [ws[0]] + seq(|ws| - 1, i requires 0 <= i < |ws| - 1 => " " + ws[i + 1])
  }

  lemma {:induction false} JoinSpaced(ws: seq<string>)
    requires |ws| >= 1
    ensures JoinWithCommas(Spaced(ws)) == JoinCommaSpace(ws)
  {
    if |ws| > 1 {
      var rest := ws[1..];
      var shifted := [" " + rest[0]] + Spaced(rest)[1..];
      assert Spaced(ws)[1..] == shifted;
      JoinSpaced(rest);
      if |rest| == 1 {
        assert JoinWithCommas(shifted) == " " + JoinWithCommas(Spaced(rest));
      } else {
        assert JoinWithCommas(shifted) == " " + rest[0] + "," + JoinWithCommas(Spaced(rest)[1..]);
        assert Spaced(rest)[1..] == Spaced(rest)[1..];
        assert JoinWithCommas(Spaced(rest)) == rest[0] + "," + JoinWithCommas(Spaced(rest)[1..]);
      }
    }
  }

  /** An identifier holds no comma and neither starts nor ends with white space. */
  lemma IdentifierTrims(w: string)
    requires IsIdentifier(w)
    ensures ',' !in w && !IsAsciiSpace(w[0]) && !IsAsciiSpace(w[|w| - 1])
  {
    forall i | 0 <= i < |w|
      ensures w[i] != ',' && !IsAsciiSpace(w[i])
    {
      assert In(w[i], IdentChar);
    }
  }

  /** A name, with or without the space that follows its comma, is its own fragment. */
  lemma TrimmedName(w: string, first: bool, last: bool)
    requires IsIdentifier(w)
    ensures TrimPiece(w, first, last) == w
    ensures TrimPiece(" " + w, false, last) == w
  {
    IdentifierTrims(w);
    assert TrimEnd(w) == w;
    TakeRunIs(" ", w, AsciiSpaceChar);
    assert TrimStart(" " + w) == w;
  }

  /** `a, b, c` splits into the names `a`, `b` and `c`. */
  lemma CommaSpaceSplit(ws: seq<string>)
    requires |ws| >= 1 && forall i :: 0 <= i < |ws| ==> IsIdentifier(ws[i])
    ensures Fragments(JoinCommaSpace(ws)) == ws
  {
    var pieces := Spaced(ws);
    forall i | 0 <= i < |pieces|
      ensures ',' !in pieces[i]
    {
      IdentifierTrims(ws[i]);
    }
    JoinSpaced(ws);
    JoinSplit(pieces);
    FragmentsOfNames(JoinCommaSpace(ws), ws);
  }

  lemma FragmentsOfNames(s: string, ws: seq<string>)
    requires |ws| >= 1 && forall i :: 0 <= i < |ws| ==> IsIdentifier(ws[i])
    requires SplitAtCommas(s) == Spaced(ws)
    ensures Fragments(s) == ws
  {
    var fs := Fragments(s);
    forall i | 0 <= i < |ws|
      ensures fs[i] == ws[i]
    {
      TrimmedName(ws[i], i == 0, i == |ws| - 1);
    }
  }

  /** Text without a comma is one fragment, kept whole. */
  lemma {:induction false} NoCommaOneFragment(s: string)
    requires ',' !in s
    ensures SplitAtCommas(s) == [s]
    ensures Fragments(s) == [s]
  {
    if s != [] {
      NoCommaOneFragment(s[1..]);
      assert [s[0]] + s[1..] == s;
    }
  }
}
