/** The behaviour the translator's tests expect, proved for every input of the tested
    shape rather than for one string. */
module Examples {
  import opened Failures
  import opened Text
  import opened Generics
  import opened Grammar
  import opened Descriptors

  /** Every primitive keyword is an identifier. */
  lemma KnownTypesAreIdentifiers(t: string)
    requires t in KnownTypes
    ensures IsIdentifier(t)
  {
  }

  lemma NoOpenAngle(s: string, k: CharClass)
    requires AllIn(s, k) && (k == IdentChar || k == SpaceChar)
    ensures '<' !in s
  {
    forall i | 0 <= i < |s|
      ensures s[i] != '<'
    {
      assert In(s[i], k);
    }
  }

  /** A primitive keyword on its own is its letter, with no name. */
  lemma PrimitiveAlone(imported: seq<string>, loader: Loader, t: string)
    requires t in KnownTypes
    ensures Emitted(imported, loader, t) == Success(Field(None, KnownTypes[t]))
  {
    KnownTypesAreIdentifiers(t);
    EmittedUnnamed(imported, loader, t, []);
    assert t + [] == t;
    assert Repeat('[', Count([], '[')) + KnownTypes[t] == KnownTypes[t];
  }

  /** An empty parameter text has no parameter descriptors. */
  lemma NoParameters(imported: seq<string>, loader: Loader)
    ensures Params(imported, loader, Fragments("")) == Success("")
  {
    assert Fragments("") == [""];
    ParamsStep(imported, loader, [], "");
    assert [] + [""] == [""];
  }

  /** `t name()` and `t name();` with a primitive keyword `t`: an empty parameter list and
      the keyword's letter, whatever the imports and the loader. */
  lemma PrimitiveReturnNoParameters(imported: seq<string>, loader: Loader, t: string, separator: char,
                                    name: string, gap: string, semicolon: bool, decl: string)
    requires t in KnownTypes && IsSpace(separator) && IsIdentifier(name) && AllIn(gap, SpaceChar)
    requires decl == t + [separator] + name + gap + "(" + Close(semicolon)
    ensures MethodDescriptor(imported, loader, decl) == Success(Method(name, "()" + KnownTypes[t]))
  {
    var p := MethodParts(t, name, []);
    var l := Layout(separator, gap, [], [], semicolon);
    assert Assemble(p, l) == decl;
    assert LaidOut(p, l) by {
      KnownTypesAreIdentifiers(t);
      BareTypeOf(t, []);
      assert t + [] == t;
    }
    assert '<' !in decl by {
      KnownTypesAreIdentifiers(t);
      NoOpenAngle(t, IdentChar);
      NoOpenAngle(name, IdentChar);
      NoOpenAngle(gap, SpaceChar);
    }
    MethodOfLayout(imported, loader, p, l);
    NoParameters(imported, loader);
    PrimitiveAlone(imported, loader, t);
    EmptyParentheses(KnownTypes[t]);
  }

  lemma EmptyParentheses(ret: string)
    ensures "(" + "" + ")" + ret == "()" + ret
  {
  }

  /** A method with one parameter: that parameter's descriptor in parentheses, then the
      return type's; a parameter that fails fails the method first. */
  lemma OneParameter(imported: seq<string>, loader: Loader, p: MethodParts, l: Layout)
    requires LaidOut(p, l) && '<' !in Assemble(p, l)
    requires p.params != [] && ',' !in p.params
    ensures MethodDescriptor(imported, loader, Assemble(p, l))
            == match Emitted(imported, loader, p.params)
               case Failure(e) => Failure(e)
               case Success(param) =>
                 match Emitted(imported, loader, p.returnType)
                 case Failure(e) => Failure(e)
                 case Success(ret) => Success(Method(p.name, "(" + param.descriptor + ")" + ret.descriptor))
  {
    MethodOfLayout(imported, loader, p, l);
    NoCommaOneFragment(p.params);
    ParamsSingle(imported, loader, p.params);
  }

  /** `char [  ] blah [ ]`, `char   [] [ ] blah` and `char blah[ ] [ ]` are all a
      two-dimensional char array named `blah`: brackets count wherever they stand. */
  lemma BracketsAroundName(imported: seq<string>, loader: Loader, decl: string)
    requires decl == "char [  ] blah [ ]"
    ensures Emitted(imported, loader, decl) == Success(Field(Some("blah"), "[[C"))
  {
    BracketCounts();
    CharArrayBlah(imported, loader, decl, " [  ] ", " [ ]");
  }

  lemma BracketsBeforeName(imported: seq<string>, loader: Loader, decl: string)
    requires decl == "char   [] [ ] blah"
    ensures Emitted(imported, loader, decl) == Success(Field(Some("blah"), "[[C"))
  {
    BracketCounts();
    CharArrayBlah(imported, loader, decl, "   [] [ ] ", "");
  }

  lemma BracketsAfterName(imported: seq<string>, loader: Loader, decl: string)
    requires decl == "char blah[ ] [ ]"
    ensures Emitted(imported, loader, decl) == Success(Field(Some("blah"), "[[C"))
  {
    BracketCounts();
    CharArrayBlah(imported, loader, decl, " ", "[ ] [ ]");
  }

  lemma CharArrayBlah(imported: seq<string>, loader: Loader, decl: string, before: string, after: string)
    requires AllIn(before, ArrayChar) && AllIn(after, ArrayChar) && before != []
    requires Count(before, '[') + Count(after, '[') == 2
    requires decl == "char" + before + "blah" + after
    ensures Emitted(imported, loader, decl) == Success(Field(Some("blah"), "[[C"))
  {
    CharBlah();
    EmittedNamed(imported, loader, decl, "char", before, "blah", after);
    CharDescriptor(imported, loader);
  }

  lemma BracketCounts()
    ensures Count(" [  ] ", '[') == 1 && Count(" [ ]", '[') == 1
    ensures Count("   [] [ ] ", '[') == 2 && Count("", '[') == 0
    ensures Count(" ", '[') == 0 && Count("[ ] [ ]", '[') == 2
  {
    CountIsMultiplicity(" [  ] ", '[');
    CountIsMultiplicity(" [ ]", '[');
    CountIsMultiplicity("   [] [ ] ", '[');
    CountIsMultiplicity(" ", '[');
    CountIsMultiplicity("[ ] [ ]", '[');
  }

  lemma CharBlah()
    ensures IsIdentifier("char") && IsIdentifier("blah")
  {
  }

  lemma CharDescriptor(imported: seq<string>, loader: Loader)
    ensures BaseDescriptor(imported, loader, "char") == Success("C")
    ensures Repeat('[', 2) + "C" == "[[C"
  {
  }

  /** `void(int)` has no method name and is rejected. */
  lemma NoMethodName(imported: seq<string>, loader: Loader, decl: string)
    requires decl == "void(int)"
    ensures MethodDescriptor(imported, loader, decl) == Failure(InvalidMethod(decl))
  {
    assert ParseMethod(decl).None? by {
      assert IsIdentifier("void");
      MissingNameRejected("void", "int)");
      assert "void" + "(" + "int)" == decl;
    }
    assert '<' !in decl;
    NotAMethod(imported, loader, decl);
  }

  /** A signature without generics that METHOD_SPLIT rejects fails as an invalid method. */
  lemma NotAMethod(imported: seq<string>, loader: Loader, sig: string)
    requires '<' !in sig && ParseMethod(sig).None?
    ensures MethodDescriptor(imported, loader, sig) == Failure(InvalidMethod(sig))
  {
  }

  // ---------------------------------------------------------------- whole signatures

  /** `ret name(params)`: one space before the name, none around the parentheses. */
  lemma SimpleMethod(imported: seq<string>, loader: Loader, ret: string, name: string, params: string,
                     ps: string, r: Field)
    requires IsBareType(ret) && IsIdentifier(name) && AllIn(params, LineChar)
    requires params == [] || !IsSpace(params[0])
    requires '<' !in ret && '<' !in name && '<' !in params
    requires Params(imported, loader, Fragments(params)) == Success(ps)
    requires Emitted(imported, loader, ret) == Success(r)
    ensures MethodDescriptor(imported, loader, ret + " " + name + "(" + params + ")")
            == Success(Method(name, "(" + ps + ")" + r.descriptor))
  {
    var p := MethodParts(ret, name, params);
    var l := Layout(' ', "", "", "", false);
    SimpleLaidOut(ret, name, params);
    MethodOfLayout(imported, loader, p, l);
  }

  lemma SimpleLaidOut(ret: string, name: string, params: string)
    requires IsBareType(ret) && IsIdentifier(name) && AllIn(params, LineChar)
    requires params == [] || !IsSpace(params[0])
    requires '<' !in ret && '<' !in name && '<' !in params
    ensures Assemble(MethodParts(ret, name, params), Layout(' ', "", "", "", false))
            == ret + " " + name + "(" + params + ")"
    ensures LaidOut(MethodParts(ret, name, params), Layout(' ', "", "", "", false))
    ensures '<' !in ret + " " + name + "(" + params + ")"
  {
    assert ParamsLaidOut("", params, "");
  }

  // ---------------------------------------------------------------- several parameters

  /** The descriptor letters of a list of primitive keywords, in order. */
  function Letters(ts: seq<string>): string
    requires forall i :: 0 <= i < |ts| ==> ts[i] in KnownTypes
  {
    if ts == [] then "" else Letters(ts[..|ts| - 1]) + KnownTypes[ts[|ts| - 1]]
  }

  /** Primitive parameters need no lookup: they give their letters, in order. */
  lemma {:induction false} PrimitiveParams(imported: seq<string>, loader: Loader, ts: seq<string>)
    requires forall i :: 0 <= i < |ts| ==> ts[i] in KnownTypes
    ensures Params(imported, loader, ts) == Success(Letters(ts))
  {
    if ts != [] {
      var init, last := ts[..|ts| - 1], ts[|ts| - 1];
      assert ts == init + [last];
      PrimitiveParams(imported, loader, init);
      ParamsStep(imported, loader, init, last);
      KnownTypesAreIdentifiers(last);
      PrimitiveAlone(imported, loader, last);
    }
  }

  /** Identifiers joined with `, ` hold no line break and no `<`, and do not start with
      white space. */
  lemma {:induction false} CommaSpaceChars(ws: seq<string>)
    requires |ws| >= 1 && forall i :: 0 <= i < |ws| ==> IsIdentifier(ws[i])
    ensures AllIn(JoinCommaSpace(ws), LineChar) && '<' !in JoinCommaSpace(ws)
    ensures JoinCommaSpace(ws) != [] && !IsSpace(JoinCommaSpace(ws)[0])
  {
    assert IsIdentifier(ws[0]);
    NoOpenAngle(ws[0], IdentChar);
    forall i | 0 <= i < |ws[0]|
      ensures In(ws[0][i], LineChar)
    {
      assert In(ws[0][i], IdentChar);
    }
    if |ws| > 1 {
      CommaSpaceChars(ws[1..]);
    }
  }

  /** `ret name(a, b, c)` with primitive keywords only: `(` the parameters' letters `)`
      and the return type's letter, whatever the imports and the loader. */
  lemma PrimitiveSignature(imported: seq<string>, loader: Loader, ret: string, name: string, ws: seq<string>)
    requires ret in KnownTypes && IsIdentifier(name)
    requires |ws| >= 1 && forall i :: 0 <= i < |ws| ==> ws[i] in KnownTypes
    ensures MethodDescriptor(imported, loader, ret + " " + name + "(" + JoinCommaSpace(ws) + ")")
            == Success(Method(name, "(" + Letters(ws) + ")" + KnownTypes[ret]))
  {
    forall i | 0 <= i < |ws|
      ensures IsIdentifier(ws[i])
    {
      KnownTypesAreIdentifiers(ws[i]);
    }
    CommaSpaceChars(ws);
    CommaSpaceSplit(ws);
    PrimitiveParams(imported, loader, ws);
    KnownTypesAreIdentifiers(ret);
    BareTypeOf(ret, []);
    assert ret + [] == ret;
    NoOpenAngle(ret, IdentChar);
    NoOpenAngle(name, IdentChar);
    PrimitiveAlone(imported, loader, ret);
    SimpleMethod(imported, loader, ret, name, JoinCommaSpace(ws), Letters(ws), Field(None, KnownTypes[ret]));
  }

  /** `void foo(boolean, char, byte, short, int, long, float, double)` is `foo` with
      descriptor `(ZCBSIJFD)V`, whatever the imports and the loader. */
  lemma PrimitiveParameters(imported: seq<string>, loader: Loader, decl: string)
    requires decl == "void foo(boolean, char, byte, short, int, long, float, double)"
    ensures MethodDescriptor(imported, loader, decl) == Success(Method("foo", "(ZCBSIJFD)V"))
  {
    var front := ["boolean", "char", "byte", "short"];
    var back := ["int", "long", "float", "double"];
    PrimitiveLetters();
    assert forall i :: 0 <= i < |front + back| ==> (front + back)[i] in KnownTypes;
    FooName();
    PrimitiveSignature(imported, loader, "void", "foo", front + back);
    EightPrimitives(front, back);
    EightPrimitivesDecl(decl, "boolean, char, byte, short", "int, long, float, double");
    EightLettersVoid();
  }

  lemma EightLettersVoid()
    ensures "(" + "ZCBSIJFD" + ")" + "V" == "(ZCBSIJFD)V"
  {
  }

  /** The letters of the eight primitive parameter types and of `void`. */
  lemma PrimitiveLetters()
    ensures "boolean" in KnownTypes && KnownTypes["boolean"] == "Z"
    ensures "char" in KnownTypes && KnownTypes["char"] == "C"
    ensures "byte" in KnownTypes && KnownTypes["byte"] == "B"
    ensures "short" in KnownTypes && KnownTypes["short"] == "S"
    ensures "int" in KnownTypes && KnownTypes["int"] == "I"
    ensures "long" in KnownTypes && KnownTypes["long"] == "J"
    ensures "float" in KnownTypes && KnownTypes["float"] == "F"
    ensures "double" in KnownTypes && KnownTypes["double"] == "D"
    ensures "void" in KnownTypes && KnownTypes["void"] == "V"
  {
  }

  /** Joining two lists with `, ` is joining their joins with `, `. */
  lemma {:induction false} CommaSpaceAppend(xs: seq<string>, ys: seq<string>)
    requires |xs| >= 1 && |ys| >= 1
    ensures JoinCommaSpace(xs + ys) == JoinCommaSpace(xs) + ", " + JoinCommaSpace(ys)
  {
    if |xs| > 1 {
      assert (xs + ys)[1..] == xs[1..] + ys;
      CommaSpaceAppend(xs[1..], ys);
    }
  }

  /** The letters of two lists of keywords, one after the other. */
  lemma {:induction false} LettersAppend(xs: seq<string>, ys: seq<string>)
    requires forall i :: 0 <= i < |xs| ==> xs[i] in KnownTypes
    requires forall i :: 0 <= i < |ys| ==> ys[i] in KnownTypes
    ensures forall i :: 0 <= i < |xs + ys| ==> (xs + ys)[i] in KnownTypes
    ensures Letters(xs + ys) == Letters(xs) + Letters(ys)
  {
    assert forall i :: 0 <= i < |xs + ys| ==> (xs + ys)[i] in KnownTypes by {
      forall i | 0 <= i < |xs + ys|
        ensures (xs + ys)[i] in KnownTypes
      {
        if i >= |xs| {
          assert (xs + ys)[i] == ys[i - |xs|];
        }
      }
    }
    if ys == [] {
      assert xs + ys == xs;
    } else {
      var init := ys[..|ys| - 1];
      assert (xs + ys)[..|xs + ys| - 1] == xs + init;
      LettersAppend(xs, init);
    }
  }

  lemma FourLetters(a: string, b: string, c: string, d: string)
    requires a in KnownTypes && b in KnownTypes && c in KnownTypes && d in KnownTypes
    ensures Letters([a, b, c, d]) == KnownTypes[a] + KnownTypes[b] + KnownTypes[c] + KnownTypes[d]
  {
    assert [a, b, c, d][..3] == [a, b, c];
    assert [a, b, c][..2] == [a, b];
    assert [a, b][..1] == [a];
    assert [a][..0] == [];
    assert Letters([a]) == KnownTypes[a];
    assert Letters([a, b]) == KnownTypes[a] + KnownTypes[b];
    assert Letters([a, b, c]) == KnownTypes[a] + KnownTypes[b] + KnownTypes[c];
  }

  lemma FourJoined(a: string, b: string, c: string, d: string)
    ensures JoinCommaSpace([a, b, c, d]) == (a + ", " + b) + ", " + (c + ", " + d)
  {
    CommaSpaceAppend([a, b], [c, d]);
    assert [a, b] + [c, d] == [a, b, c, d];
    assert [a, b][1..] == [b];
    assert [c, d][1..] == [d];
  }

  lemma EightPrimitives(front: seq<string>, back: seq<string>)
    requires front == ["boolean", "char", "byte", "short"] && back == ["int", "long", "float", "double"]
    requires forall i :: 0 <= i < |front + back| ==> (front + back)[i] in KnownTypes
    ensures JoinCommaSpace(front + back) == "boolean, char, byte, short" + ", " + "int, long, float, double"
    ensures Letters(front + back) == "ZCBSIJFD"
  {
    CommaSpaceAppend(front, back);
    FourJoined("boolean", "char", "byte", "short");
    FourJoined("int", "long", "float", "double");
    FrontText();
    BackText();
    EightLetters(front, back);
  }

  lemma FrontText()
    ensures ("boolean" + ", " + "char") + ", " + ("byte" + ", " + "short") == "boolean, char, byte, short"
  {
    assert "boolean" + ", " + "char" == "boolean, char";
    assert "byte" + ", " + "short" == "byte, short";
  }

  lemma BackText()
    ensures ("int" + ", " + "long") + ", " + ("float" + ", " + "double") == "int, long, float, double"
  {
    assert "int" + ", " + "long" == "int, long";
    assert "float" + ", " + "double" == "float, double";
  }

  lemma EightLetters(front: seq<string>, back: seq<string>)
    requires front == ["boolean", "char", "byte", "short"] && back == ["int", "long", "float", "double"]
    requires forall i :: 0 <= i < |front + back| ==> (front + back)[i] in KnownTypes
    ensures Letters(front + back) == "ZCBSIJFD"
  {
    PrimitiveLetters();
    LettersAppend(front, back);
    FourLetters("boolean", "char", "byte", "short");
    FourLetters("int", "long", "float", "double");
    assert "Z" + "C" + "B" + "S" + ("I" + "J" + "F" + "D") == "ZCBSIJFD";
  }

  lemma EightPrimitivesDecl(decl: string, front: string, back: string)
    requires decl == "void foo(boolean, char, byte, short, int, long, float, double)"
    requires front == "boolean, char, byte, short" && back == "int, long, float, double"
    ensures "void" + " " + "foo" + "(" + (front + ", " + back) + ")" == decl
  {
    EightPrimitivesHalves(decl);
    EightPrimitivesFront(front);
    EightPrimitivesBack(back);
    VoidFooRegroup(decl, front, back, "void foo(boolean, char, byte, short, ", "int, long, float, double)");
  }

  lemma VoidFooRegroup(decl: string, front: string, back: string, head: string, tail: string)
    requires decl == head + tail && head == "void foo(" + front + ", " && tail == back + ")"
    ensures "void" + " " + "foo" + "(" + (front + ", " + back) + ")" == decl
  {
    VoidFoo();
    Regroup("void foo(", front, ", ", back + ")");
  }

  lemma EightPrimitivesHalves(decl: string)
    requires decl == "void foo(boolean, char, byte, short, int, long, float, double)"
    ensures decl == "void foo(boolean, char, byte, short, " + "int, long, float, double)"
  {
  }

  lemma EightPrimitivesFront(front: string)
    requires front == "boolean, char, byte, short"
    ensures "void foo(boolean, char, byte, short, " == "void foo(" + front + ", "
  {
  }

  lemma EightPrimitivesBack(back: string)
    requires back == "int, long, float, double"
    ensures "int, long, float, double)" == back + ")"
  {
  }

  lemma VoidFoo()
    ensures "void" + " " + "foo" + "(" == "void foo("
  {
  }

  // ---------------------------------------------------------------- whole array methods

  /** `int[] foo(`params`)` with each tested placement of the parameter's brackets is
      `foo` with descriptor `([[C)[I`. */
  lemma PrimitiveArrays(imported: seq<string>, loader: Loader, params: string, decl: string)
    requires params == "char   [] [ ] blah" || params == "char [  ] blah [ ]" || params == "char blah[ ] [ ]"
    requires decl == "int[] foo(" + params + ")"
    ensures MethodDescriptor(imported, loader, decl) == Success(Method("foo", "([[C)[I"))
  {
    if params == "char   [] [ ] blah" {
      BracketsBeforeName(imported, loader, params);
      BracketsBeforeNameText(params);
    } else if params == "char [  ] blah [ ]" {
      BracketsAroundName(imported, loader, params);
      BracketsAroundNameText(params);
    } else {
      BracketsAfterName(imported, loader, params);
      BracketsAfterNameText(params);
    }
    CharArrayParameter(imported, loader, params, decl);
  }

  lemma CharArrayParameter(imported: seq<string>, loader: Loader, params: string, decl: string)
    requires AllIn(params, LineChar) && params != [] && !IsSpace(params[0])
    requires '<' !in params && ',' !in params
    requires Emitted(imported, loader, params) == Success(Field(Some("blah"), "[[C"))
    requires decl == "int[] foo(" + params + ")"
    ensures MethodDescriptor(imported, loader, decl) == Success(Method("foo", "([[C)[I"))
  {
    IntArrayMethod(imported, loader, params, decl, Field(Some("blah"), "[[C"));
    CharArrayDescriptor();
  }

  lemma CharArrayDescriptor()
    ensures "(" + "[[C" + ")" + "[I" == "([[C)[I"
  {
  }

  lemma BracketsBeforeNameText(params: string)
    requires params == "char   [] [ ] blah"
    ensures AllIn(params, LineChar) && params != [] && !IsSpace(params[0])
    ensures '<' !in params && ',' !in params
  {
  }

  lemma BracketsAroundNameText(params: string)
    requires params == "char [  ] blah [ ]"
    ensures AllIn(params, LineChar) && params != [] && !IsSpace(params[0])
    ensures '<' !in params && ',' !in params
  {
  }

  lemma BracketsAfterNameText(params: string)
    requires params == "char blah[ ] [ ]"
    ensures AllIn(params, LineChar) && params != [] && !IsSpace(params[0])
    ensures '<' !in params && ',' !in params
  {
  }

  /** `int[] foo(p)` with one parameter `p` that has no line break and starts with no
      white space: the parameter's descriptor in parentheses, then `[I`. */
  lemma IntArrayMethod(imported: seq<string>, loader: Loader, params: string, decl: string, f: Field)
    requires AllIn(params, LineChar) && params != [] && !IsSpace(params[0])
    requires '<' !in params && ',' !in params
    requires Emitted(imported, loader, params) == Success(f)
    requires decl == "int[] foo(" + params + ")"
    ensures MethodDescriptor(imported, loader, decl) == Success(Method("foo", "(" + f.descriptor + ")" + "[I"))
  {
    NoCommaOneFragment(params);
    ParamsSingle(imported, loader, params);
    IntArray(imported, loader);
    IntArrayType();
    FooName();
    SimpleMethod(imported, loader, "int[]", "foo", params, f.descriptor, Field(None, "[I"));
    IntArrayFoo(params);
  }

  lemma IntArrayType()
    ensures IsBareType("int[]") && '<' !in "int[]"
  {
    BareTypeOf("int", "[]");
    assert "int" + "[]" == "int[]";
  }

  lemma FooName()
    ensures IsIdentifier("foo") && '<' !in "foo"
  {
  }

  lemma IntArrayFoo(params: string)
    ensures "int[]" + " " + "foo" + "(" + params + ")" == "int[] foo(" + params + ")"
  {
  }

  lemma IntArray(imported: seq<string>, loader: Loader)
    ensures Emitted(imported, loader, "int[]") == Success(Field(None, "[I"))
  {
    EmittedUnnamed(imported, loader, "int", "[]");
    assert "int" + "[]" == "int[]";
    CountIsMultiplicity("[]", '[');
    assert Repeat('[', 1) + "I" == "[I";
  }

  // ---------------------------------------------------------------- PARAM_SPLIT's white space

  /** PARAM_SPLIT trims ASCII white space only: the no-break space after the comma of
      `void foo(int,\u00A0long)` stays on the parameter, which TYPE_DECL then rejects. */
  lemma NoBreakSpaceKept(imported: seq<string>, loader: Loader, decl: string)
    requires decl == "void foo(int,\U{A0}long)"
    ensures MethodDescriptor(imported, loader, decl) == Failure(InvalidDeclaration("\U{A0}long"))
  {
    var params := "int,\U{A0}long";
    NoBreakText(params, "int", "\U{A0}long");
    TwoFragments("int", "\U{A0}long");
    NoBreakParams(imported, loader, "int", "\U{A0}long");
    VoidType();
    FooName();
    SimpleLaidOut("void", "foo", params);
    ParamsFailMethod(imported, loader, MethodParts("void", "foo", params), Layout(' ', "", "", "", false));
    NoBreakDecl(decl, params);
  }

  /** `a,b` with nothing to trim beside the comma is the fragments `a` and `b`. */
  lemma TwoFragments(a: string, b: string)
    requires ',' !in a && ',' !in b
    requires a != [] && !IsAsciiSpace(a[|a| - 1]) && b != [] && !IsAsciiSpace(b[0])
    ensures Fragments(a + "," + b) == [a, b]
  {
    JoinSplit([a, b]);
    assert JoinWithCommas([a, b]) == a + "," + b by {
      assert [a, b][1..] == [b];
    }
    assert TrimEnd(a) == a;
    TakeRunIs([], b, AsciiSpaceChar);
    assert [] + b == b;
  }

  lemma NoBreakText(params: string, a: string, b: string)
    requires params == "int,\U{A0}long" && a == "int" && b == "\U{A0}long"
    ensures params == a + "," + b
    ensures ',' !in a && ',' !in b
    ensures a != [] && !IsAsciiSpace(a[|a| - 1]) && b != [] && !IsAsciiSpace(b[0])
    ensures AllIn(params, LineChar) && params != [] && !IsSpace(params[0]) && '<' !in params
  {
  }

  /** The first parameter is fine; the second does not start with a word character. */
  lemma NoBreakParams(imported: seq<string>, loader: Loader, a: string, b: string)
    requires a == "int" && b == "\U{A0}long"
    ensures Params(imported, loader, [a, b]) == Failure(InvalidDeclaration(b))
  {
    IntParameter(imported, loader, a);
    NoBreakRejected(b);
    SecondRejected(imported, loader, a, b, "I");
  }

  lemma IntParameter(imported: seq<string>, loader: Loader, a: string)
    requires a == "int"
    ensures Params(imported, loader, [a]) == Success("I")
  {
    PrimitiveLetters();
    PrimitiveAlone(imported, loader, a);
    ParamsSingle(imported, loader, a);
  }

  lemma NoBreakRejected(b: string)
    requires b == "\U{A0}long"
    ensures b != [] && ParseTypeDecl(b).None?
  {
  }

  /** A second, non-empty parameter that TYPE_DECL rejects fails the list after a good
      first one. */
  lemma SecondRejected(imported: seq<string>, loader: Loader, a: string, b: string, da: string)
    requires Params(imported, loader, [a]) == Success(da) && b != [] && ParseTypeDecl(b).None?
    ensures Params(imported, loader, [a, b]) == Failure(InvalidDeclaration(b))
  {
    ParamsStep(imported, loader, [a], b);
    assert [a] + [b] == [a, b];
  }

  lemma VoidType()
    ensures IsBareType("void") && '<' !in "void"
  {
    BareTypeOf("void", []);
    assert "void" + [] == "void";
  }

  lemma NoBreakDecl(decl: string, params: string)
    requires decl == "void foo(int,\U{A0}long)" && params == "int,\U{A0}long"
    ensures "void" + " " + "foo" + "(" + params + ")" == decl
  {
  }

  /** Parameters that fail fail the method, before the return type is looked at. */
  lemma ParamsFailMethod(imported: seq<string>, loader: Loader, p: MethodParts, l: Layout)
    requires LaidOut(p, l) && '<' !in Assemble(p, l)
    requires Params(imported, loader, Fragments(p.params)).Failure?
    ensures MethodDescriptor(imported, loader, Assemble(p, l)) == Failure(Params(imported, loader, Fragments(p.params)).error)
  {
    MethodOfLayout(imported, loader, p, l);
  }
}
