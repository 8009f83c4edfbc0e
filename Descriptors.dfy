/** What the translator emits, as functions of the text, the import list and the class
    loader: KNOWN_TYPES, class-name resolution, the descriptor `append` adds for one
    declaration, and the three public translations built on it. */
module Descriptors {
  import opened Failures
  import opened Text
  import opened Generics
  import opened Grammar

  /** `Class.forName(n).getName()` as a table: a name the loader can load maps to the
      loaded class's own name; a name it lacks is a ClassNotFoundException. */
  type Loader = map<string, string>

  /** KNOWN_TYPES: the nine primitive keywords and their descriptor letters. */
  const KnownTypes: map<string, string> := map[
    "byte" := "B", "char" := "C", "double" := "D", "float" := "F", "int" := "I",
    "long" := "J", "short" := "S", "boolean" := "Z", "void" := "V"]

  /** The field name (absent for a bare type) and descriptor `toFieldDescriptor` returns. */
  datatype Field = Field(name: Option<string>, descriptor: string)

  /** The method name and descriptor `toMethodDescriptor` returns. */
  datatype Method = Method(name: string, descriptor: string)

  /** An import prefix, completed with `.` when it does not end in one, before a name. */
  function Qualify(pkg: string, name: string): string {
    (if pkg != [] && pkg[|pkg| - 1] == '.' then pkg else pkg + ".") + name
  }

  /** The names handed to the loader, in order: the name as written, then the name under
      each import. */
  function Probes(imported: seq<string>, name: string): (ps: seq<string>)
    ensures |ps| == |imported| + 1 && ps[0] == name
    ensures forall i :: 0 <= i < |imported| ==> ps[i + 1] == Qualify(imported[i], name)
  {
    [name] + seq(|imported|, i requires 0 <= i < |imported| => Qualify(imported[i], name))
  }

  /** The first of `names` the loader can load. */
  function FirstLoadable(loader: Loader, names: seq<string>): (r: Option<nat>)
    ensures r.Some? ==> r.value < |names| && names[r.value] in loader
                        && forall j :: 0 <= j < r.value ==> names[j] !in loader
    ensures r.None? <==> forall j :: 0 <= j < |names| ==> names[j] !in loader
  {
    if names == [] then None
    else if names[0] in loader then Some(0)
    else
      match FirstLoadable(loader, names[1..])
      case None => None
      case Some(i) => Some(i + 1)
  }

  /** The descriptor of a base type: its letter when it is a primitive keyword (no class is
      looked up), else `L` + the loaded class's name + `;` for the first probe that loads. */
  function BaseDescriptor(imported: seq<string>, loader: Loader, base: string): Result<string> {
    if base in KnownTypes then Success(KnownTypes[base])
    else
      var probes := Probes(imported, base);
      match FirstLoadable(loader, probes)
      case None => Failure(UnknownType(base))
      case Some(i) => Success("L" + loader[probes[i]] + ";")
  }

  /** `append(desc, decl)`: what it adds to `desc` and the name it returns. One `[` for
      each `[` anywhere in the declaration, then the base type's descriptor. */
  function Emitted(imported: seq<string>, loader: Loader, decl: string): Result<Field> {
    match ParseTypeDecl(decl)
    case None => Failure(InvalidDeclaration(decl))
    case Some(d) =>
      var base :- BaseDescriptor(imported, loader, d.baseType);
      Success(Field(d.name, Repeat('[', Count(decl, '[')) + base))
  }

  /** `toDescriptor(type)`. */
  function Descriptor(imported: seq<string>, loader: Loader, t: string): Result<string> {
    var s :- Stripped(t);
    var f :- Emitted(imported, loader, s);
    Success(f.descriptor)
  }

  /** `toFieldDescriptor(decl)`. */
  function FieldDescriptor(imported: seq<string>, loader: Loader, decl: string): Result<Field> {
    var s :- Stripped(decl);
    Emitted(imported, loader, s)
  }

  /** The descriptors of the parameter fragments, in order, skipping empty fragments; the
      first fragment that fails decides the failure. */
  function Params(imported: seq<string>, loader: Loader, frags: seq<string>): Result<string> {
    if frags == [] then Success([])
    else
      var init :- Params(imported, loader, frags[..|frags| - 1]);
      var last := frags[|frags| - 1];
      if last == [] then Success(init)
      else
        var f :- Emitted(imported, loader, last);
        Success(init + f.descriptor)
  }

  /** `toMethodDescriptor(decl)`: the parameters' descriptors in parentheses, then the
      return type's. Parameters are translated before the return type, so their failures
      come first. */
  function MethodDescriptor(imported: seq<string>, loader: Loader, decl: string): Result<Method> {
    var sig :- Stripped(decl);
    match ParseMethod(sig)
    case None => Failure(InvalidMethod(sig))
    case Some(m) =>
      var ps :- Params(imported, loader, Fragments(m.params));
      var ret :- Emitted(imported, loader, m.returnType);
      Success(Method(m.name, "(" + ps + ")" + ret.descriptor))
  }

  // ---------------------------------------------------------------- array dimensions

  /** A base type's descriptor is never empty and never starts with `[`. */
  lemma BaseDescriptorHead(imported: seq<string>, loader: Loader, base: string)
    requires BaseDescriptor(imported, loader, base).Success?
    ensures var d := BaseDescriptor(imported, loader, base).value; d != [] && d[0] != '['
  {
  }

  /** The descriptor starts with exactly one `[` per `[` in the declaration, wherever the
      brackets stand: before the name, after it, or split between the two. */
  lemma ArrayDimensions(imported: seq<string>, loader: Loader, decl: string)
    requires Emitted(imported, loader, decl).Success?
    ensures Leading(Emitted(imported, loader, decl).value.descriptor, '[') == Count(decl, '[')
  {
    var d := ParseTypeDecl(decl).value;
    BaseDescriptorHead(imported, loader, d.baseType);
    LeadingRepeat('[', Count(decl, '['), BaseDescriptor(imported, loader, d.baseType).value);
  }

  /** `append` on a declaration TYPE_DECL reads as `d`. */
  lemma EmittedOf(imported: seq<string>, loader: Loader, decl: string, d: TypeDecl, brackets: nat)
    requires ParseTypeDecl(decl) == Some(d) && Count(decl, '[') == brackets
    ensures Emitted(imported, loader, decl)
            == match BaseDescriptor(imported, loader, d.baseType)
               case Failure(e) => Failure(e)
               case Success(b) => Success(Field(d.name, Repeat('[', brackets) + b))
  {
  }

  /** A type with brackets and no name: the brackets' `[`s, then the base type's descriptor. */
  lemma EmittedUnnamed(imported: seq<string>, loader: Loader, base: string, arrays: string)
    requires IsIdentifier(base) && AllIn(arrays, ArrayChar)
    ensures Emitted(imported, loader, base + arrays)
            == match BaseDescriptor(imported, loader, base)
               case Failure(e) => Failure(e)
               case Success(b) => Success(Field(None, Repeat('[', Count(arrays, '[')) + b))
  {
    TypeDeclGroups(base, arrays, [], []);
    assert base + arrays + [] + [] == base + arrays;
    assert base + [] == base && arrays + [] == arrays;
    IdentifierHasNoBracket(base);
    CountAppend(base, arrays, '[');
    EmittedOf(imported, loader, base + arrays, TypeDecl(base, arrays, None, []), Count(arrays, '['));
  }

  /** A named declaration: the `[`s before and after the name add up, wherever they stand. */
  lemma EmittedNamed(imported: seq<string>, loader: Loader, decl: string, base: string, before: string, name: string, after: string)
    requires IsIdentifier(base) && AllIn(before, ArrayChar) && AllIn(after, ArrayChar) && IsIdentifier(name)
    requires before != [] && decl == base + before + name + after
    ensures Emitted(imported, loader, decl)
            == match BaseDescriptor(imported, loader, base)
               case Failure(e) => Failure(e)
               case Success(b) => Success(Field(Some(name), Repeat('[', Count(before, '[') + Count(after, '[')) + b))
  {
    NamedDecl(base, before, name, after);
    DeclBrackets(base, before, name, after);
    EmittedOf(imported, loader, decl, TypeDecl(base, before, Some(name), after),
              Count(before, '[') + Count(after, '['));
  }

  lemma NamedDecl(base: string, before: string, name: string, after: string)
    requires IsIdentifier(base) && AllIn(before, ArrayChar) && AllIn(after, ArrayChar) && IsIdentifier(name)
    requires before != []
    ensures ParseTypeDecl(base + before + name + after) == Some(TypeDecl(base, before, Some(name), after))
  {
    TypeDeclGroups(base, before, name, after);
  }

  lemma DeclBrackets(base: string, before: string, name: string, after: string)
    requires AllIn(base, IdentChar) && AllIn(name, IdentChar)
    ensures Count(base + before + name + after, '[') == Count(before, '[') + Count(after, '[')
  {
    IdentifierHasNoBracket(base);
    IdentifierHasNoBracket(name);
    CountAppend(base, before, '[');
    CountAppend(base + before, name, '[');
    CountAppend(base + before + name, after, '[');
  }

  lemma IdentifierHasNoBracket(s: string)
    requires AllIn(s, IdentChar)
    ensures Count(s, '[') == 0
  {
    forall i | 0 <= i < |s|
      ensures s[i] != '['
    {
      assert In(s[i], IdentChar);
    }
    CountAbsent(s, '[');
  }

  // ---------------------------------------------------------------- primitives

  /** A primitive keyword gets its letter from KNOWN_TYPES whatever the imports and the
      loader: no class is looked up for it. */
  lemma PrimitiveNeedsNoLookup(imported: seq<string>, loader: Loader, decl: string)
    requires ParseTypeDecl(decl).Some? && ParseTypeDecl(decl).value.baseType in KnownTypes
    ensures Emitted(imported, loader, decl) == Emitted([], map[], decl)
    ensures Emitted(imported, loader, decl).Success?
    ensures Emitted(imported, loader, decl).value.descriptor
            == Repeat('[', Count(decl, '[')) + KnownTypes[ParseTypeDecl(decl).value.baseType]
  {
  }

  // ---------------------------------------------------------------- class resolution

  /** The first loadable probe is the one FirstLoadable finds. */
  lemma FirstLoadableIs(loader: Loader, names: seq<string>, i: nat)
    requires i < |names| && names[i] in loader
    requires forall j :: 0 <= j < i ==> names[j] !in loader
    ensures FirstLoadable(loader, names) == Some(i)
  {
  }

  /** A name the loader knows as written is used as written, whatever the imports. */
  lemma LoadedAsWritten(imported: seq<string>, loader: Loader, name: string)
    requires name !in KnownTypes && name in loader
    ensures BaseDescriptor(imported, loader, name) == Success("L" + loader[name] + ";")
  {
    FirstLoadableIs(loader, Probes(imported, name), 0);
  }

  /** Otherwise the first import under which the loader knows the name wins. */
  lemma LoadedByImport(imported: seq<string>, loader: Loader, name: string, i: nat)
    requires name !in KnownTypes && name !in loader && i < |imported|
    requires Qualify(imported[i], name) in loader
    requires forall j :: 0 <= j < i ==> Qualify(imported[j], name) !in loader
    ensures BaseDescriptor(imported, loader, name) == Success("L" + loader[Qualify(imported[i], name)] + ";")
  {
    var probes := Probes(imported, name);
    forall j | 0 <= j < i + 1
      ensures probes[j] !in loader
    {
      if j > 0 {
        assert probes[j] == Qualify(imported[j - 1], name);
      }
    }
    FirstLoadableIs(loader, probes, i + 1);
  }

  /** A type is unknown exactly when it is no primitive and no probe loads; the error
      names the base type as written. */
  lemma UnknownTypeIff(imported: seq<string>, loader: Loader, name: string)
    ensures BaseDescriptor(imported, loader, name).Failure?
            <==> name !in KnownTypes && name !in loader
                 && forall i :: 0 <= i < |imported| ==> Qualify(imported[i], name) !in loader
    ensures BaseDescriptor(imported, loader, name).Failure?
            ==> BaseDescriptor(imported, loader, name).error == UnknownType(name)
  {
    var probes := Probes(imported, name);
    if name !in KnownTypes && name !in loader
       && forall i :: 0 <= i < |imported| ==> Qualify(imported[i], name) !in loader {
      forall j | 0 <= j < |probes|
        ensures probes[j] !in loader
      {
        if j > 0 {
          assert probes[j] == Qualify(imported[j - 1], name);
        }
      }
    }
  }

  // ---------------------------------------------------------------- fields

  /** `toFieldDescriptor` and `toDescriptor` agree on the descriptor and on the failure. */
  lemma FieldAgreesWithDescriptor(imported: seq<string>, loader: Loader, decl: string)
    ensures FieldDescriptor(imported, loader, decl).Success? <==> Descriptor(imported, loader, decl).Success?
    ensures FieldDescriptor(imported, loader, decl).Success?
            ==> FieldDescriptor(imported, loader, decl).value.descriptor == Descriptor(imported, loader, decl).value
    ensures FieldDescriptor(imported, loader, decl).Failure?
            ==> FieldDescriptor(imported, loader, decl).error == Descriptor(imported, loader, decl).error
  {
  }

  /** A type without a name is accepted: its field name is absent, not an error. */
  lemma BareTypeHasNoName(imported: seq<string>, loader: Loader, t: string)
    requires IsBareType(t) && '<' !in t
    ensures FieldDescriptor(imported, loader, t).Success?
            || FieldDescriptor(imported, loader, t).error.UnknownType?
    ensures FieldDescriptor(imported, loader, t).Success? ==> FieldDescriptor(imported, loader, t).value.name.None?
  {
    BareTypeDecl(t);
  }

  // ---------------------------------------------------------------- parameters

  /** The descriptor one more fragment adds to those before it. */
  function Extend(prior: Result<string>, imported: seq<string>, loader: Loader, frag: string): Result<string> {
    var init :- prior;
    if frag == [] then Success(init)
    else
      var f :- Emitted(imported, loader, frag);
      Success(init + f.descriptor)
  }

  lemma ParamsStep(imported: seq<string>, loader: Loader, frags: seq<string>, frag: string)
    ensures Params(imported, loader, frags + [frag]) == Extend(Params(imported, loader, frags), imported, loader, frag)
  {
    assert (frags + [frag])[..|frags|] == frags;
  }

  /** Two runs of descriptors one after the other; the first failure wins. */
  function Then(first: Result<string>, second: Result<string>): Result<string> {
    var x :- first;
    var y :- second;
    Success(x + y)
  }

  lemma ThenExtend(first: Result<string>, second: Result<string>, imported: seq<string>, loader: Loader, frag: string)
    ensures Then(first, Extend(second, imported, loader, frag)) == Extend(Then(first, second), imported, loader, frag)
  {
    if first.Success? && second.Success? && frag != [] && Emitted(imported, loader, frag).Success? {
      var d := Emitted(imported, loader, frag).value.descriptor;
      assert first.value + second.value + d == first.value + (second.value + d);
    }
  }

  /** Translating parameter fragments in two runs is translating them in one. */
  lemma {:induction false} ParamsAppend(imported: seq<string>, loader: Loader, a: seq<string>, b: seq<string>)
    ensures Params(imported, loader, a + b) == Then(Params(imported, loader, a), Params(imported, loader, b))
  {
    if b == [] {
      assert a + b == a;
      if Params(imported, loader, a).Success? {
        assert Params(imported, loader, a).value + [] == Params(imported, loader, a).value;
      }
    } else {
      var b', last := b[..|b| - 1], b[|b| - 1];
      assert a + b == (a + b') + [last];
      assert b == b' + [last];
      calc {
        Params(imported, loader, a + b);
        { ParamsStep(imported, loader, a + b', last); }
        Extend(Params(imported, loader, a + b'), imported, loader, last);
        { ParamsAppend(imported, loader, a, b'); }
        Extend(Then(Params(imported, loader, a), Params(imported, loader, b')), imported, loader, last);
        { ThenExtend(Params(imported, loader, a), Params(imported, loader, b'), imported, loader, last); }
        Then(Params(imported, loader, a), Extend(Params(imported, loader, b'), imported, loader, last));
        { ParamsStep(imported, loader, b', last); }
        Then(Params(imported, loader, a), Params(imported, loader, b));
      }
    }
  }

  /** An empty fragment contributes nothing: `if (!p.isEmpty())`. */
  lemma ParamsSkipEmpty(imported: seq<string>, loader: Loader, a: seq<string>, b: seq<string>)
    ensures Params(imported, loader, a + [[]] + b) == Params(imported, loader, a + b)
  {
    ParamsAppend(imported, loader, a, [[]]);
    ParamsAppend(imported, loader, a + [[]], b);
    ParamsAppend(imported, loader, a, b);
    if Params(imported, loader, a).Success? {
      assert Params(imported, loader, a).value + [] == Params(imported, loader, a).value;
    }
  }

  /** One non-empty fragment contributes its own descriptor. */
  lemma ParamsSingle(imported: seq<string>, loader: Loader, frag: string)
    requires frag != []
    ensures Params(imported, loader, [frag])
            == match Emitted(imported, loader, frag)
               case Failure(e) => Failure(e)
               case Success(f) => Success(f.descriptor)
  {
    ParamsStep(imported, loader, [], frag);
    assert [] + [frag] == [frag];
    if Emitted(imported, loader, frag).Success? {
      assert [] + Emitted(imported, loader, frag).value.descriptor == Emitted(imported, loader, frag).value.descriptor;
    }
  }

  /** A fragment that fails aborts the whole parameter list with its failure. */
  lemma ParamsPrefixFails(imported: seq<string>, loader: Loader, frags: seq<string>, i: nat)
    requires i <= |frags| && Params(imported, loader, frags[..i]).Failure?
    ensures Params(imported, loader, frags) == Params(imported, loader, frags[..i])
  {
    ParamsAppend(imported, loader, frags[..i], frags[i..]);
    assert frags[..i] + frags[i..] == frags;
  }

  // ---------------------------------------------------------------- methods

  /** The translation of one fragment never fails with InvalidMethod. */
  lemma EmittedErrors(imported: seq<string>, loader: Loader, decl: string)
    requires Emitted(imported, loader, decl).Failure?
    ensures Emitted(imported, loader, decl).error.InvalidDeclaration?
            || Emitted(imported, loader, decl).error.UnknownType?
  {
  }

  lemma {:induction false} ParamsErrors(imported: seq<string>, loader: Loader, frags: seq<string>)
    requires Params(imported, loader, frags).Failure?
    ensures Params(imported, loader, frags).error.InvalidDeclaration?
            || Params(imported, loader, frags).error.UnknownType?
  {
    var init := frags[..|frags| - 1];
    if Params(imported, loader, init).Failure? {
      ParamsErrors(imported, loader, init);
    }
  }

  /** After generics are stripped, the method fails as an invalid method exactly when
      METHOD_SPLIT does not match; every other failure comes from a parameter or the
      return type. */
  lemma InvalidMethodIff(imported: seq<string>, loader: Loader, decl: string)
    requires Stripped(decl).Success?
    ensures var sig := Stripped(decl).value;
            MethodDescriptor(imported, loader, decl) == Failure(InvalidMethod(sig)) <==> ParseMethod(sig).None?
  {
    var sig := Stripped(decl).value;
    match ParseMethod(sig)
    case None =>
    case Some(m) =>
      var frags := Fragments(m.params);
      if Params(imported, loader, frags).Failure? {
        ParamsErrors(imported, loader, frags);
      } else if Emitted(imported, loader, m.returnType).Failure? {
        EmittedErrors(imported, loader, m.returnType);
      }
  }

  /** A method laid out as METHOD_SPLIT expects translates from its own groups: the
      parameter text's fragments in parentheses, then the return type, which as a bare type
      can fail only as an unknown type. */
  lemma MethodOfLayout(imported: seq<string>, loader: Loader, p: MethodParts, l: Layout)
    requires LaidOut(p, l) && '<' !in Assemble(p, l)
    ensures MethodDescriptor(imported, loader, Assemble(p, l))
            == match Params(imported, loader, Fragments(p.params))
               case Failure(e) => Failure(e)
               case Success(ps) =>
                 match Emitted(imported, loader, p.returnType)
                 case Failure(e) => Failure(e)
                 case Success(ret) => Success(Method(p.name, "(" + ps + ")" + ret.descriptor))
    ensures Emitted(imported, loader, p.returnType).Failure?
            ==> Emitted(imported, loader, p.returnType).error.UnknownType?
  {
    MethodSplitComplete(p, l);
    MethodOfParts(imported, loader, Assemble(p, l), p);
    BareReturnErrors(imported, loader, p.returnType);
  }

  /** A signature without generics that METHOD_SPLIT splits into `p`. */
  lemma MethodOfParts(imported: seq<string>, loader: Loader, sig: string, p: MethodParts)
    requires '<' !in sig && ParseMethod(sig) == Some(p)
    ensures MethodDescriptor(imported, loader, sig)
            == match Params(imported, loader, Fragments(p.params))
               case Failure(e) => Failure(e)
               case Success(ps) =>
                 match Emitted(imported, loader, p.returnType)
                 case Failure(e) => Failure(e)
                 case Success(ret) => Success(Method(p.name, "(" + ps + ")" + ret.descriptor))
  {
  }

  /** A type without a name can only be unknown, never malformed. */
  lemma BareReturnErrors(imported: seq<string>, loader: Loader, t: string)
    requires IsBareType(t)
    ensures Emitted(imported, loader, t).Failure? ==> Emitted(imported, loader, t).error.UnknownType?
  {
    BareTypeDecl(t);
  }
}
