# JvmTranslator in Dafny

This project models `JvmTranslator`, the class of the access-widener library that turns
Java-language types and declarations into JVM descriptors. Examples:

- `int[] foo` becomes the field `foo` with descriptor `[I`.
- `String bar(int[] i)` becomes the method `bar` with descriptor `([I)Ljava.lang.String;`.

The translator keeps a list of import prefixes. A class name that does not load as written
is tried under each prefix in turn. Generic arguments are dropped before parsing.

Modules:

- `Failures`: `Option` and `Result`, plus the four errors the translator throws: mismatched
  `<>`s, an invalid identifier declaration, an invalid method descriptor, an unknown type.
- `Text`: the regular-expression character classes (`\s`, `\w`, `[\w\d.$]`, `[\[\]\s]`, `.`),
  greedy runs of one class, and counting. `TYPE_DECL` and `METHOD_SPLIT` are compiled with
  `UNICODE_CHARACTER_CLASS`, so their `\s` is Unicode white space. `PARAM_SPLIT` is not,
  so the white space it trims around a comma is ASCII only: space, tab, line feed,
  vertical tab, form feed and carriage return.
- `Generics`: the `<`/`>` nesting counter of `stripGenerics` as functions, and their
  properties.
- `Grammar`: the three patterns as scanners.
  - `TYPE_DECL` gives `ParseTypeDecl`.
  - `METHOD_SPLIT` gives `ParseMethod`.
  - `PARAM_SPLIT` gives `Fragments`.
  - For each scanner, parsing is proved to invert the reassembly of its groups:
    `ParseTypeDecl` and `TypeDeclGroups`, `MethodSplitSound` and `MethodSplitComplete`,
    `SplitJoin`, `JoinSplit` and `TrimmedFrom`. That the groups are the greedy ones is
    argued in comments, from the maximal runs each scanner takes.
- `Descriptors`: what each public operation returns, as functions of the text, the import
  list and the class loader.
- `Translator`: the class `JvmTranslator`. Its constant `imported` is the import list. Its
  methods work step by step as the Java does:
  - a scan with a nesting counter;
  - a counted loop of `[`;
  - a loop over the imports with a `found` flag;
  - a loop over the parameter fragments.
  Each method appends to the descriptor under construction and is proved to compute the
  matching `Descriptors` function. The import loop of `append` is its own method,
  `AppendClass`.
- `Examples`: the behaviour the translator's tests expect, proved for every input of the
  tested shape.

`Class.forName(n).getName()` is a parameter of the operations: a `Loader`, a map from the
names that load to the names the loaded classes report. A name loads exactly when it is in
the map.

Where the class comment and the code disagree, the model follows the code:

- The comment gives `"String bar(int[] i)"` the descriptor `(Ljava.lang.String;)[I`. The code
  puts the parameters first and the return type last.
- Class names keep their dots (`Ljava.lang.String;`), because the code appends
  `getName()` unchanged.

## Model

| member | source | states |
|---|---|---|
| Translator.JvmTranslator.constructor | src/main/java/net/fabricmc/accesswidener/JvmTranslator.java:57-62 | the default translator imports exactly `java.lang` |
| Translator.JvmTranslator.WithImports | src/main/java/net/fabricmc/accesswidener/JvmTranslator.java:64-76 | the translator's imports are exactly the given ones, in their order |
| Translator.JvmTranslator.ToDescriptor | src/main/java/net/fabricmc/accesswidener/JvmTranslator.java:78-85 | the result is the descriptor of the generics-stripped type, or the first failure of stripping or of `append` |
| Translator.JvmTranslator.ToFieldDescriptor | src/main/java/net/fabricmc/accesswidener/JvmTranslator.java:87-100 | the result is the declared name (absent when there is none) and the descriptor of the stripped declaration, or the first failure |
| Translator.JvmTranslator.ToMethodDescriptor | src/main/java/net/fabricmc/accesswidener/JvmTranslator.java:107-132 | the loop over the `PARAM_SPLIT` fragments keeps the text so far equal to `(` followed by the descriptors of the non-empty fragments read so far; the result is the method name and `(`parameters`)`return-type, an invalid-method failure when `METHOD_SPLIT` does not match, or the failure of the first fragment that fails |
| Translator.JvmTranslator.StripGenerics | src/main/java/net/fabricmc/accesswidener/JvmTranslator.java:134-153 | the loop keeps the counter equal to the nesting depth of the prefix read, and the copied text equal to the prefix's characters outside brackets; text without `<` comes back unchanged, and a final depth other than zero is a mismatched-generics failure |
| Translator.JvmTranslator.Append | src/main/java/net/fabricmc/accesswidener/JvmTranslator.java:155-187 | on success, `desc` is extended by one `[` per `[` of the declaration, then the base type's descriptor, and the `TYPE_DECL` name is returned; on failure, the declaration's error comes back |
| Translator.JvmTranslator.AppendClass | src/main/java/net/fabricmc/accesswidener/JvmTranslator.java:169-184 | the name as written is tried first, then the name under each import, with `.` added to a prefix lacking it; the first one that loads is appended as `L`name`;`; when none loads, the result is an unknown-type failure |
| Translator.JvmTranslator.FindClass | src/main/java/net/fabricmc/accesswidener/JvmTranslator.java:189-197 | reports true exactly when the loader knows the name; then `L`, the loaded class's name and `;` are appended; otherwise the text is unchanged |
| Generics.DepthCounts | src/main/java/net/fabricmc/accesswidener/JvmTranslator.java:139-148 | after the scan, the nesting counter is the number of `<` less the number of `>` |
| Generics.StrippedFailsIffUnbalanced | src/main/java/net/fabricmc/accesswidener/JvmTranslator.java:134-153 | a text holding a `<` fails to strip exactly when its `<` and `>` are not equally many, and then with the mismatched-generics error |
| Generics.VisibleIsSubsequence | src/main/java/net/fabricmc/accesswidener/JvmTranslator.java:140-148 | the stripped text is the input with characters deleted, in their original order |
| Generics.VisibleHasNoAngles | src/main/java/net/fabricmc/accesswidener/JvmTranslator.java:140-148 | no `<` or `>` survives the scan |
| Generics.StrippedIdempotent | src/main/java/net/fabricmc/accesswidener/JvmTranslator.java:134-153 | stripping a stripped text changes nothing |
| Generics.VisibleAppend | src/main/java/net/fabricmc/accesswidener/JvmTranslator.java:139-148 | after a prefix whose brackets balance, the rest is stripped as if it stood alone, and the depth is the rest's |
| Grammar.ParseTypeDecl | src/main/java/net/fabricmc/accesswidener/JvmTranslator.java:29-38 | a match's groups put back together give the text: the base type is an identifier; the brackets before the name are array characters; the character after the base type cannot extend it; a declaration without a name has nothing after its brackets |
| Grammar.TypeDeclGroups | src/main/java/net/fabricmc/accesswidener/JvmTranslator.java:29-38 | every text of the form type, brackets, optional name, brackets matches `TYPE_DECL`, with those groups (brackets after no name joining the first group) |
| Grammar.BareTypeDecl | src/main/java/net/fabricmc/accesswidener/JvmTranslator.java:32-38 | a type with brackets and no name matches `TYPE_DECL` with no name group |
| Grammar.ParseMethod | src/main/java/net/fabricmc/accesswidener/JvmTranslator.java:29-35 | a `METHOD_SPLIT` match has an identifier for the method name, and group 4 holds no line break |
| Grammar.HeadComplete | src/main/java/net/fabricmc/accesswidener/JvmTranslator.java:32-34 | type, brackets, white space and a name followed by something that cannot extend the name are read as the groups 1+2 and 3 |
| Grammar.HeadSound | src/main/java/net/fabricmc/accesswidener/JvmTranslator.java:32-34 | whatever the head of `METHOD_SPLIT` reads is a bare type, one white-space character, then a name that cannot be extended |
| Grammar.ParamsTextComplete | src/main/java/net/fabricmc/accesswidener/JvmTranslator.java:34 | group 4 is the parameter text between the white space after `(` and the white space before the closing `)` or `);` |
| Grammar.ParamsTextSound | src/main/java/net/fabricmc/accesswidener/JvmTranslator.java:34 | every group 4 the pattern yields has such a surrounding layout |
| Grammar.MethodSplitComplete | src/main/java/net/fabricmc/accesswidener/JvmTranslator.java:33-35 | every method declaration laid out as `METHOD_SPLIT` expects is split back into its own return type, name and parameter text |
| Grammar.MethodSplitSound | src/main/java/net/fabricmc/accesswidener/JvmTranslator.java:33-35 | every text `METHOD_SPLIT` accepts is such a layout of the groups it yields |
| Grammar.MissingNameRejected | src/main/java/net/fabricmc/accesswidener/JvmTranslator.java:33-35 | a type followed at once by `(` does not match `METHOD_SPLIT` |
| Grammar.SplitAtCommas | src/main/java/net/fabricmc/accesswidener/JvmTranslator.java:39 | the text cut at commas gives at least one piece, and no piece holds a comma |
| Grammar.SplitJoin | src/main/java/net/fabricmc/accesswidener/JvmTranslator.java:39 | the pieces joined with commas give back the text |
| Grammar.JoinSplit | src/main/java/net/fabricmc/accesswidener/JvmTranslator.java:39 | comma-free pieces joined with commas are cut back into the same pieces |
| Grammar.Fragments | src/main/java/net/fabricmc/accesswidener/JvmTranslator.java:39 | `PARAM_SPLIT.split` gives one fragment per comma-separated piece: the piece with the ASCII white space next to its commas removed, all of it and nothing else; the first fragment keeps its leading white space and the last its trailing white space; no fragment holds a comma |
| Grammar.TrimPiece | src/main/java/net/fabricmc/accesswidener/JvmTranslator.java:39 | a piece trimmed of the maximal ASCII white space on each side that touches a comma is a contiguous part of the piece with only ASCII white space around it |
| Grammar.CommaSpaceSplit | src/main/java/net/fabricmc/accesswidener/JvmTranslator.java:39 | identifiers joined with `, ` split back into the same identifiers |
| Grammar.NoCommaOneFragment | src/main/java/net/fabricmc/accesswidener/JvmTranslator.java:39 | a comma-free parameter text is one fragment, unchanged |
| Descriptors.FirstLoadable | src/main/java/net/fabricmc/accesswidener/JvmTranslator.java:170-184 | the result is the least index whose name loads, and it is absent exactly when no name loads |
| Descriptors.BaseDescriptorHead | src/main/java/net/fabricmc/accesswidener/JvmTranslator.java:166-184 | a base type's descriptor is never empty and never starts with `[` |
| Descriptors.ArrayDimensions | src/main/java/net/fabricmc/accesswidener/JvmTranslator.java:160-163 | the descriptor starts with exactly as many `[` as the declaration holds |
| Descriptors.EmittedUnnamed | src/main/java/net/fabricmc/accesswidener/JvmTranslator.java:155-187 | a type with brackets and no name gives one `[` per `[` before the base descriptor, and no name |
| Descriptors.EmittedNamed | src/main/java/net/fabricmc/accesswidener/JvmTranslator.java:155-187 | a named declaration counts the `[`s before and after the name together, and returns the name |
| Descriptors.PrimitiveNeedsNoLookup | src/main/java/net/fabricmc/accesswidener/JvmTranslator.java:166-168 | a primitive keyword translates to its `KNOWN_TYPES` letter, whatever the imports and the loader |
| Descriptors.LoadedAsWritten | src/main/java/net/fabricmc/accesswidener/JvmTranslator.java:171 | a class that loads as written is used as written, whatever the imports |
| Descriptors.LoadedByImport | src/main/java/net/fabricmc/accesswidener/JvmTranslator.java:172-179 | otherwise the first import under which the name loads wins |
| Descriptors.UnknownTypeIff | src/main/java/net/fabricmc/accesswidener/JvmTranslator.java:166-184 | a type is unknown exactly when it is no primitive and neither the name nor any imported form loads; the error names the base type |
| Descriptors.FieldAgreesWithDescriptor | src/main/java/net/fabricmc/accesswidener/JvmTranslator.java:81-99 | the field descriptor and the type descriptor succeed together, with the same descriptor or the same failure |
| Descriptors.BareTypeHasNoName | src/main/java/net/fabricmc/accesswidener/JvmTranslator.java:92-99 | a type without a name is a field whose name is absent, not an error, unless the type is unknown |
| Descriptors.ParamsAppend | src/main/java/net/fabricmc/accesswidener/JvmTranslator.java:119-125 | translating the parameter fragments in two runs gives the same result as one run; the first failure wins |
| Descriptors.ParamsSkipEmpty | src/main/java/net/fabricmc/accesswidener/JvmTranslator.java:122 | an empty fragment contributes nothing |
| Descriptors.ParamsSingle | src/main/java/net/fabricmc/accesswidener/JvmTranslator.java:121-125 | one non-empty fragment contributes exactly its own descriptor or failure |
| Descriptors.ParamsPrefixFails | src/main/java/net/fabricmc/accesswidener/JvmTranslator.java:121-125 | a failing fragment ends the parameter list with its failure |
| Descriptors.EmittedErrors | src/main/java/net/fabricmc/accesswidener/JvmTranslator.java:155-187 | `append` fails only with an invalid declaration or an unknown type |
| Descriptors.ParamsErrors | src/main/java/net/fabricmc/accesswidener/JvmTranslator.java:119-125 | the parameters fail only with an invalid declaration or an unknown type |
| Descriptors.InvalidMethodIff | src/main/java/net/fabricmc/accesswidener/JvmTranslator.java:110-114 | after stripping, the method fails as an invalid method exactly when `METHOD_SPLIT` does not match, and the error carries the stripped text |
| Descriptors.MethodOfLayout | src/main/java/net/fabricmc/accesswidener/JvmTranslator.java:115-131 | a method laid out as `METHOD_SPLIT` expects translates from its own groups: its name, and `(` + the parameters' descriptors + `)` + the return type's descriptor, with the first failure winning; the return type can fail only as an unknown type |
| Examples.PrimitiveAlone | src/main/java/net/fabricmc/accesswidener/JvmTranslator.java:43-52 | each primitive keyword alone is its one-letter descriptor, with no name |
| Examples.NoParameters | src/main/java/net/fabricmc/accesswidener/JvmTranslator.java:119-126 | an empty parameter text contributes no descriptor |
| Examples.PrimitiveReturnNoParameters | src/test/java/net/fabricmc/accesswidener/JvmTranslatorTest.java:49-61 | `t name()` and `t name();` with a primitive keyword `t` give the name and `()` + the keyword's letter |
| Examples.OneParameter | src/main/java/net/fabricmc/accesswidener/JvmTranslator.java:119-127 | a method with one parameter gives `(` + that parameter's descriptor + `)` + the return type's descriptor |
| Examples.BracketsAroundName | src/test/java/net/fabricmc/accesswidener/JvmTranslatorTest.java:80-86 | `char [  ] blah [ ]` is the field `blah` with descriptor `[[C` |
| Examples.BracketsBeforeName | src/test/java/net/fabricmc/accesswidener/JvmTranslatorTest.java:80-86 | `char   [] [ ] blah` is the field `blah` with descriptor `[[C` |
| Examples.BracketsAfterName | src/test/java/net/fabricmc/accesswidener/JvmTranslatorTest.java:80-86 | `char blah[ ] [ ]` is the field `blah` with descriptor `[[C` |
| Examples.PrimitiveParams | src/main/java/net/fabricmc/accesswidener/JvmTranslator.java:119-125 | a list of primitive keywords gives their letters in order, whatever the imports and the loader |
| Examples.PrimitiveSignature | src/main/java/net/fabricmc/accesswidener/JvmTranslator.java:107-131 | `ret name(a, b, …)` with primitive keywords only gives the name and `(` + the keywords' letters + `)` + the return type's letter |
| Examples.PrimitiveParameters | src/test/java/net/fabricmc/accesswidener/JvmTranslatorTest.java:73-77 | `void foo(boolean, char, byte, short, int, long, float, double)` is `foo` with `(ZCBSIJFD)V`, whatever the imports and the loader |
| Examples.PrimitiveArrays | src/test/java/net/fabricmc/accesswidener/JvmTranslatorTest.java:79-85 | `int[] foo(p)` with each of the three tested bracket placements of `char … blah` is `foo` with `([[C)[I` |
| Examples.NoBreakSpaceKept | src/main/java/net/fabricmc/accesswidener/JvmTranslator.java:36-39 | `PARAM_SPLIT` does not trim a no-break space after a comma, so `void foo(int,\u00A0long)` fails on the parameter `\u00A0long` |
| Examples.NoMethodName | src/test/java/net/fabricmc/accesswidener/JvmTranslatorTest.java:118-122 | `void(int)` is rejected as an invalid method |

## Left out

- `Class.forName` is not modelled as class loading. A `Loader` map stands in for it: a name
  loads exactly when it is a key, and `getName()` is the value. Loader failures other than
  `ClassNotFoundException`, such as a linkage error or a failing static initializer, are not
  modelled.
- `\w` under `UNICODE_CHARACTER_CLASS` is exact on ASCII. Every non-ASCII character that is
  not white space is taken as a word character. Java's exact Unicode tables for letters,
  marks, digits and connector punctuation are not reproduced.
- A thrown `JvmTranslatorException` is a `Failure` carrying the kind of error and the
  offending text. The message formatting is not modelled.
- `StringBuilder` is a string value. On a failure the Java leaves partial output in a
  builder that is then discarded; the model returns no partial output.
- `imported` is a sequence copied at construction. The Java keeps the caller's collection,
  so later changes to it would show through; that aliasing is not modelled.
- The varargs constructor and the collection constructor are one constructor,
  `WithImports`, because both keep the given names in their order.
- `PARAM_SPLIT.split` drops trailing empty pieces in Java; the model keeps them. This
  changes nothing visible, because `toMethodDescriptor` skips empty fragments.
- `emptyIfNull(m.group(2))` is not a separate member. Group 2 always takes part in a
  `METHOD_SPLIT` match, so it is never null, and the return type is groups 1 and 2 joined.
- `numArrays` is a `long` and the nesting counter an `int` in Java. The model uses unbounded
  integers; no string Java can hold overflows them.
- `void` is accepted as a parameter or an array component, as in the Java, which checks
  neither.
- The tests `importedByDefault`, `importedExplicitly`, `notJustAscii`, `objArrays` and
  `unknownType` have no concrete lemma. They depend on which classes the loader knows,
  which is a parameter here. `LoadedAsWritten`, `LoadedByImport`, `UnknownTypeIff`
  and `MethodOfLayout` state the general behaviour those tests sample.
- The overload of `toMethodDescriptor` that takes a list of words, used by the test
  `returnsTypeWhenSplitUp`, is not part of this model: `JvmTranslator.java` does not declare
  it.
