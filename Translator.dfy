/** The translator object. Its methods work step by step as the source does (a scan with a
    nesting counter, a counted loop of `[`, a loop over the imports with a `found` flag, a
    loop over the parameter fragments), each appending to a descriptor under construction,
    and each is proved to compute the matching function of Descriptors. */
module Translator {
  import opened Failures
  import opened Text
  import opened Generics
  import opened Grammar
  import opened Descriptors

  class JvmTranslator {
    /** The import prefixes tried, in order, for a class name that does not load as written. */
    const imported: seq<string>

    /** A translator with the default import of `java.lang`. */
    constructor ()
      ensures imported == ["java.lang"]
    {
      imported := ["java.lang"];
    }

    /** A translator with the given imports (the varargs and the collection constructors). */
    constructor WithImports(imports: seq<string>)
      ensures imported == imports
    {
      imported := imports;
    }

    /** `toDescriptor(type)`. */
    method ToDescriptor(loader: Loader, t: string) returns (r: Result<string>)
      ensures r == Descriptor(imported, loader, t)
    {
      var s :- StripGenerics(t);
      var e :- Append([], loader, s);
      assert [] + Emitted(imported, loader, s).value.descriptor == Emitted(imported, loader, s).value.descriptor;
      return Success(e.0);
    }

    /** `toFieldDescriptor(decl)`: the name (absent for a bare type) and the descriptor. */
    method ToFieldDescriptor(loader: Loader, decl: string) returns (r: Result<Field>)
      ensures r == FieldDescriptor(imported, loader, decl)
    {
      var s :- StripGenerics(decl);
      var e :- Append([], loader, s);
      assert [] + Emitted(imported, loader, s).value.descriptor == Emitted(imported, loader, s).value.descriptor;
      return Success(Field(e.1, e.0));
    }

    /** `toMethodDescriptor(decl)`: the method name and `(` parameters `)` return type. */
    method ToMethodDescriptor(loader: Loader, decl: string) returns (r: Result<Method>)
      ensures r == MethodDescriptor(imported, loader, decl)
    {
      var sig :- StripGenerics(decl);
      var m := ParseMethod(sig);
      if m.None? {
        return Failure(InvalidMethod(sig));
      }
      var returnType, methodName, parameterTypes := m.value.returnType, m.value.name, m.value.params;
      var desc := "(";
      var frags := Fragments(parameterTypes);
      for i := 0 to |frags|
        invariant Params(imported, loader, frags[..i]).Success?
        invariant desc == "(" + Params(imported, loader, frags[..i]).value
      {
        PrefixExtend(frags, i);
        ParamsStep(imported, loader, frags[..i], frags[i]);
        if frags[i] != [] {
          var e := Append(desc, loader, frags[i]);
          if e.Failure? {
            ParamsPrefixFails(imported, loader, frags, i + 1);
            return Failure(e.error);
          }
          Associative("(", Params(imported, loader, frags[..i]).value, Emitted(imported, loader, frags[i]).value.descriptor);
          desc := e.value.0;
        }
      }
      assert frags[..|frags|] == frags;
      desc := desc + ")";
      var e :- Append(desc, loader, returnType);
      return Success(Method(methodName, e.0));
    }

    /** `stripGenerics(s)`: a scan that counts `<` up and `>` down and copies the other
        characters read at nesting zero. */
    method StripGenerics(s: string) returns (r: Result<string>)
      ensures r == Stripped(s)
      ensures '<' !in s ==> r == Success(s)
    {
      if '<' !in s {
        return Success(s);
      }
      var stripped := [];
      var nesting := 0;
      for i := 0 to |s|
        invariant nesting == Depth(s[..i])
        invariant stripped == Visible(s[..i])
      {
        var c := s[i];
        assert s[..i + 1][..i] == s[..i];
        if c == '<' {
          nesting := nesting + 1;
        } else if c == '>' {
          nesting := nesting - 1;
        } else if nesting == 0 {
          stripped := stripped + [c];
        }
      }
      assert s[..|s|] == s;
      if nesting != 0 {
        return Failure(MismatchedGenerics(s));
      }
      return Success(stripped);
    }

    /** `append(desc, decl)`: `desc` extended by the declaration's descriptor, and the
        declared name. */
    method Append(desc: string, loader: Loader, decl: string) returns (r: Result<(string, Option<string>)>)
      ensures Emitted(imported, loader, decl).Success?
              ==> r == Success((desc + Emitted(imported, loader, decl).value.descriptor,
                                Emitted(imported, loader, decl).value.name))
      ensures Emitted(imported, loader, decl).Failure? ==> r == Failure(Emitted(imported, loader, decl).error)
    {
      var m := ParseTypeDecl(decl);
      if m.None? {
        return Failure(InvalidDeclaration(decl));
      }
      var numArrays := Count(decl, '[');
      var out := desc;
      for i := 0 to numArrays
        invariant out == desc + Repeat('[', i)
      {
        out := out + "[";
      }
      var baseType, name := m.value.baseType, m.value.name;
      ghost var base := BaseDescriptor(imported, loader, baseType);
      ghost var prefix := out;
      if baseType in KnownTypes {
        out := out + KnownTypes[baseType];
      } else {
        var resolved := AppendClass(out, loader, baseType);
        if resolved.Failure? {
          return Failure(resolved.error);
        }
        out := resolved.value;
      }
      assert base.Success? && out == prefix + base.value;
      EmittedOf(imported, loader, decl, m.value, numArrays);
      Associative(desc, Repeat('[', numArrays), base.value);
      return Success((out, name));
    }

    /** The class branch of `append`: the name as written, then under each import in
        order, until the loader knows one; `L`name`;` is appended for it. */
    method AppendClass(desc: string, loader: Loader, baseType: string) returns (r: Result<string>)
      requires baseType !in KnownTypes
      ensures BaseDescriptor(imported, loader, baseType).Success?
              ==> r == Success(desc + BaseDescriptor(imported, loader, baseType).value)
      ensures BaseDescriptor(imported, loader, baseType).Failure? ==> r == Failure(UnknownType(baseType))
    {
      var found, withClass := FindClass(desc, loader, baseType);
      ghost var probes := Probes(imported, baseType);
      if found {
        FirstLoadableIs(loader, probes, 0);
      } else {
        var j := 0;
        while j < |imported|
          invariant j <= |imported| && !found
          invariant forall k :: 0 <= k <= j ==> probes[k] !in loader
        {
          var pkg := imported[j];
          if !(|pkg| > 0 && pkg[|pkg| - 1] == '.') {
            pkg := pkg + ".";
          }
          assert pkg + baseType == probes[j + 1];
          found, withClass := FindClass(desc, loader, pkg + baseType);
          if found {
            FirstLoadableIs(loader, probes, j + 1);
            break;
          }
          j := j + 1;
        }
        if !found {
          return Failure(UnknownType(baseType));
        }
      }
      return Success(withClass);
    }

    /** `findClass(desc, name)`: the loader's answer for one name, appended as `L`name`;`. */
    method FindClass(desc: string, loader: Loader, name: string) returns (found: bool, out: string)
      ensures found <==> name in loader
      ensures found ==> out == desc + ("L" + loader[name] + ";")
      ensures !found ==> out == desc
    {
      if name in loader {
        return true, desc + ("L" + loader[name] + ";");
      }
      return false, desc;
    }
  }
}
