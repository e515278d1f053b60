# Java file merge of the MyBatis generator shell callback

This project models `DefaultShellCallback.mergeJavaFile` and the `MergeConstants` tables. The merge runs when the generator writes a Java file over one that already exists on disk. It keeps what a user added by hand to the existing copy and takes everything the generator still emits from the fresh copy.

- **Classification by file name.** The public class name is the file name without ".java".
  - A name ending in `Example` returns the fresh source unchanged.
  - A name ending in `Mapper` gets the method merge.
  - Any other name gets the field merge.
- **Parsing.** A missing existing file yields the string "merge error".
- **Indexing.** `ClassVisitor` walks each unit once and fills the four insertion-ordered maps of a `ClassInfo`:
  - imports by name;
  - fields by the name of their first variable;
  - generated-tagged fields;
  - methods by their key, `getMethodTag`.
- **Import merge.** Every existing import whose name the fresh unit does not import is appended to the fresh unit's imports, in existing order.
- **Method merge (mappers).** Every existing method whose key the fresh index lacks is appended to the fresh type.
- **Field merge (other files).** Every existing field that is neither generated-tagged nor declared by the fresh unit is appended. After all of them come a getter and a setter for each, unless an annotation on the type has `Setter`, `Getter` or `Data` in its name (Lombok).
- **Markers.** A field counts as generated when its comment contains one of the five tags of `MergeConstants.OLD_ELEMENT_TAGS`.

Modules:
- `Strings`: Java's `startsWith`, `endsWith` and `contains` on `seq<char>`.
- `MergeConstants`: the tag, prefix and id tables and the two queries on them.
- `OrderedMaps`: `LinkedHashMap` as an ordered key list plus a value map. A `put` of a key already present keeps its first position and takes the new value.
- `JavaSyntax`: a parsed unit as data, and the mutable `CompilationUnit` the merge writes into.
- `ClassVisitor`: the `ClassInfo` class, the visitor methods, and the specification `IndexOf` they are proved against.
- `ShellCallback`: `mergeImports`, `mergeFields`, `mergeMethods` and `mergeJavaFile` as methods over those classes, proved against the function `MergeJavaFileSpec`.
- `MergeProperties`: what the merge keeps and drops, stated per import, field and method name.
- `MergeScenarios`: the model-file merge of `DefaultShellCallbackTest` on hand-written units.

Where the code does something other than its names suggest, the model follows the code:
- The method key contains the parameter names as well as their types (DefaultShellCallback.java:276). So a fresh method that only renames a parameter does not replace the existing one: both end up in the output (`MergeProperties.RenamedParameterKeepsExisting`).
- Only a missing existing file yields "merge error" (DefaultShellCallback.java:128-131). Any other parse failure propagates as an exception and is not modelled.
- A name with neither suffix gets the field merge (DefaultShellCallback.java:140-146).

The scenario's existing `Test.java` is a reconstruction, because the test reads it from a resource file that is not part of this model. It satisfies what the test asserts: every merged import is lombok.Getter, lombok.Setter or java.util.List, and the merged type has four fields drawn from id, name, newFields and sex. Two of its parts are choices of this model, not assertions of the test. The stale generated field `age` exercises the drop of tagged fields. The `java.util.List` import exercises the import merge.

## Model

| member | source | states |
|---|---|---|
| MergeConstants.GetOldElementTags | core/mybatis-generator-core/src/main/java/org/mybatis/generator/config/MergeConstants.java:73-75 | the returned table has five tags, contains the current tag, and is the very table the comment test searches |
| MergeConstants.CommentContainsTag | core/mybatis-generator-core/src/main/java/org/mybatis/generator/config/MergeConstants.java:82-85 | a marked comment is at least as long as the shortest tag, twelve characters |
| MergeConstants.CommentContainsTagIff | core/mybatis-generator-core/src/main/java/org/mybatis/generator/config/MergeConstants.java:82-85 | a comment is marked if and only if one of the five listed tags occurs in it |
| MergeConstants.NewTagRecognised | core/mybatis-generator-core/src/main/java/org/mybatis/generator/config/MergeConstants.java:40-46 | any comment containing "@mbg.generated" is marked, because the current tag is in the table |
| MergeConstants.LegacyTagsRecognised | core/mybatis-generator-core/src/main/java/org/mybatis/generator/config/MergeConstants.java:41-45 | each of the four legacy tags marks a comment |
| MergeConstants.CommentContainsTagMonotone | core/mybatis-generator-core/src/main/java/org/mybatis/generator/config/MergeConstants.java:82-85 | text added before or after a marked comment leaves it marked |
| MergeConstants.IdStartsWithPrefix | core/mybatis-generator-core/src/main/java/org/mybatis/generator/config/MergeConstants.java:77-80 | an id with a legacy prefix has at least the sixteen characters of either prefix |
| MergeConstants.IdStartsWithPrefixIff | core/mybatis-generator-core/src/main/java/org/mybatis/generator/config/MergeConstants.java:77-80 | an id has a legacy prefix if and only if it starts with "ibatorgenerated_" or "abatorgenerated_" |
| MergeConstants.EmptyIsNeverMarked | core/mybatis-generator-core/src/main/java/org/mybatis/generator/config/MergeConstants.java:37-46 | the empty string is neither a marked comment nor a prefixed id |
| MergeConstants.OldXmlElementIdsContents | core/mybatis-generator-core/src/main/java/org/mybatis/generator/config/MergeConstants.java:47-71 | the legacy id set has 21 members, holds "insert" and does not hold "select" |
| MergeConstants.OldXmlElementIdsCount | core/mybatis-generator-core/src/main/java/org/mybatis/generator/config/MergeConstants.java:47-71 | the 21 ids added are pairwise distinct |
| MergeConstants.SelectIsNoLegacyId | core/mybatis-generator-core/src/main/java/org/mybatis/generator/config/MergeConstants.java:47-71 | "select" is not among the legacy ids |
| OrderedMaps.Empty | core/mybatis-generator-core/src/main/java/org/mybatis/generator/internal/DefaultShellCallback.java:284-287 | a new LinkedHashMap is well formed and has no keys |
| OrderedMaps.Put | core/mybatis-generator-core/src/main/java/org/mybatis/generator/internal/DefaultShellCallback.java:237 | put stores the value under the key; the key keeps its position if present and is appended otherwise |
| OrderedMaps.Remove | core/mybatis-generator-core/src/main/java/org/mybatis/generator/internal/DefaultShellCallback.java:158 | remove deletes exactly that key; every other key keeps its presence, its value and its place in the order |
| OrderedMaps.PutAllKeys | core/mybatis-generator-core/src/main/java/org/mybatis/generator/internal/DefaultShellCallback.java:234-238 | after a series of puts, the keys present are exactly the keys put |
| OrderedMaps.PutAllLastValue | core/mybatis-generator-core/src/main/java/org/mybatis/generator/internal/DefaultShellCallback.java:234-238 | after a series of puts, each key holds the value of its last put |
| OrderedMaps.PutAllOrder | core/mybatis-generator-core/src/main/java/org/mybatis/generator/internal/DefaultShellCallback.java:234-238 | after a series of puts, keys are ordered by their first put |
| OrderedMaps.WithoutThenRemove | core/mybatis-generator-core/src/main/java/org/mybatis/generator/internal/DefaultShellCallback.java:157-159 | removing one more key after removing a set is removing the enlarged set |
| OrderedMaps.SurvivorsOfPutAll | core/mybatis-generator-core/src/main/java/org/mybatis/generator/internal/DefaultShellCallback.java:157-162 | what remains of a put series after removals: exactly the keys put and not removed, each once, in first-put order, each with its last value |
| OrderedMaps.SingleSurvivor | core/mybatis-generator-core/src/main/java/org/mybatis/generator/internal/DefaultShellCallback.java:157-162 | when only one key is put and not removed, the remaining values are that key's last value alone |
| JavaSyntax.CompilationUnit.constructor | core/mybatis-generator-core/src/main/java/org/mybatis/generator/internal/DefaultShellCallback.java:121 | the mutable unit starts as the parsed unit |
| JavaSyntax.CompilationUnit.AddImport | core/mybatis-generator-core/src/main/java/org/mybatis/generator/internal/DefaultShellCallback.java:161 | the import goes after the existing ones; the type is unchanged |
| JavaSyntax.CompilationUnit.AddMember | core/mybatis-generator-core/src/main/java/org/mybatis/generator/internal/DefaultShellCallback.java:227 | the member goes after the type's members; imports and the rest of the type are unchanged |
| ClassVisitor.ClassInfo.constructor | core/mybatis-generator-core/src/main/java/org/mybatis/generator/internal/DefaultShellCallback.java:283-288 | a new ClassInfo holds four empty maps |
| ClassVisitor.IsGenerated | core/mybatis-generator-core/src/main/java/org/mybatis/generator/internal/DefaultShellCallback.java:261-269 | the loop answers true exactly when some tag of the table occurs in the comment text |
| ClassVisitor.GetMethodTag | core/mybatis-generator-core/src/main/java/org/mybatis/generator/internal/DefaultShellCallback.java:271-280 | the built key is the name followed by ";type:name" for each parameter, in order |
| ClassVisitor.MethodTagIdentity | core/mybatis-generator-core/src/main/java/org/mybatis/generator/internal/DefaultShellCallback.java:271-280 | two keys are equal if and only if the methods agree on name and on parameter types and names; the return type plays no part |
| ClassVisitor.ParamsTagInjective | core/mybatis-generator-core/src/main/java/org/mybatis/generator/internal/DefaultShellCallback.java:275-277 | equal parameter parts of a key come from equal parameter lists |
| ClassVisitor.RenamedParameterChangesTag | core/mybatis-generator-core/src/main/java/org/mybatis/generator/internal/DefaultShellCallback.java:276 | methods that differ only in one parameter's name get different keys |
| ClassVisitor.VisitImport | core/mybatis-generator-core/src/main/java/org/mybatis/generator/internal/DefaultShellCallback.java:234-238 | the import is put under its name; the other maps are unchanged |
| ClassVisitor.VisitMethod | core/mybatis-generator-core/src/main/java/org/mybatis/generator/internal/DefaultShellCallback.java:241-245 | the method is put under its key; the other maps are unchanged |
| ClassVisitor.VisitField | core/mybatis-generator-core/src/main/java/org/mybatis/generator/internal/DefaultShellCallback.java:248-259 | the field is put under its name, and also into the generated map exactly when its comment exists and is marked |
| ClassVisitor.VisitMember | core/mybatis-generator-core/src/main/java/org/mybatis/generator/internal/DefaultShellCallback.java:241-259 | a member changes the index by one visit step; members other than fields and methods change nothing |
| ClassVisitor.VisitStep | core/mybatis-generator-core/src/main/java/org/mybatis/generator/internal/DefaultShellCallback.java:241-259 | one visit keeps every map well formed and leaves the imports alone |
| ClassVisitor.MembersIndexSnoc | core/mybatis-generator-core/src/main/java/org/mybatis/generator/internal/DefaultShellCallback.java:241-259 | visiting one more member of a type gives the index of the longer member list |
| ClassVisitor.Visit | core/mybatis-generator-core/src/main/java/org/mybatis/generator/internal/DefaultShellCallback.java:135-136 | visiting a unit into an empty ClassInfo leaves exactly IndexOf of that unit |
| ClassVisitor.VisitImports | core/mybatis-generator-core/src/main/java/org/mybatis/generator/internal/DefaultShellCallback.java:234-238 | visiting the imports in order yields the map of all of them and empty member maps |
| ClassVisitor.VisitMembers | core/mybatis-generator-core/src/main/java/org/mybatis/generator/internal/DefaultShellCallback.java:241-259 | visiting the type's members in order yields the index of all of them |
| ClassVisitor.FieldPairKeys | core/mybatis-generator-core/src/main/java/org/mybatis/generator/internal/DefaultShellCallback.java:248-259 | a name is put into the field map (or the generated map) exactly when the type declares a field (a generated-tagged field) of that name |
| ClassVisitor.IndexFields | core/mybatis-generator-core/src/main/java/org/mybatis/generator/internal/DefaultShellCallback.java:248-259 | the field maps hold exactly the declared and the generated-tagged field names, and every generated key is also a field key |
| ClassVisitor.IndexImports | core/mybatis-generator-core/src/main/java/org/mybatis/generator/internal/DefaultShellCallback.java:234-238 | the import map holds each imported name once, with the last import of that name, ordered by first occurrence |
| ShellCallback.PublicClassName | core/mybatis-generator-core/src/main/java/org/mybatis/generator/internal/DefaultShellCallback.java:113 | the class name is the file name's first length-minus-five characters, and the name plus ".java" gives back a ".java" file name |
| ShellCallback.Accessors | core/mybatis-generator-core/src/main/java/org/mybatis/generator/internal/DefaultShellCallback.java:205-210 | two members per field, the getter of each field immediately followed by its setter, in field order |
| ShellCallback.RemoveEach | core/mybatis-generator-core/src/main/java/org/mybatis/generator/internal/DefaultShellCallback.java:157-159 | removing every key of a list one by one leaves the map without the set of those keys |
| ShellCallback.AddImports | core/mybatis-generator-core/src/main/java/org/mybatis/generator/internal/DefaultShellCallback.java:160-162 | the map's imports are appended in key order; the type is unchanged |
| ShellCallback.MergeImports | core/mybatis-generator-core/src/main/java/org/mybatis/generator/internal/DefaultShellCallback.java:153-163 | the existing import map loses every fresh import name, and the output gains what is left, in order |
| ShellCallback.KeptFields | core/mybatis-generator-core/src/main/java/org/mybatis/generator/internal/DefaultShellCallback.java:165-182 | mergedFields is the existing field map without the generated-tagged names and the fresh names |
| ShellCallback.KeptStep | core/mybatis-generator-core/src/main/java/org/mybatis/generator/internal/DefaultShellCallback.java:174-181 | each step of the forEach either skips a dropped key or puts a kept one, keeping the filtered prefix |
| ShellCallback.FindType | core/mybatis-generator-core/src/main/java/org/mybatis/generator/internal/DefaultShellCallback.java:184-188 | the lookup succeeds exactly when the unit's class or interface has the class name |
| ShellCallback.HasAccessorAnnotation | core/mybatis-generator-core/src/main/java/org/mybatis/generator/internal/DefaultShellCallback.java:190-200 | the flag is set exactly when some annotation name contains Setter, Getter or Data |
| ShellCallback.AddFields | core/mybatis-generator-core/src/main/java/org/mybatis/generator/internal/DefaultShellCallback.java:202-204 | the kept fields are appended to the type in order; the imports are unchanged |
| ShellCallback.AddAccessors | core/mybatis-generator-core/src/main/java/org/mybatis/generator/internal/DefaultShellCallback.java:205-210 | a getter then a setter per kept field are appended in order; the imports are unchanged |
| ShellCallback.MergeFields | core/mybatis-generator-core/src/main/java/org/mybatis/generator/internal/DefaultShellCallback.java:165-211 | the output becomes WithFields of the kept fields: fields, then accessors unless Lombok, and nothing when the type is absent |
| ShellCallback.AddMethods | core/mybatis-generator-core/src/main/java/org/mybatis/generator/internal/DefaultShellCallback.java:226-228 | the map's methods are appended to the type in key order; the imports are unchanged |
| ShellCallback.MergeMethods | core/mybatis-generator-core/src/main/java/org/mybatis/generator/internal/DefaultShellCallback.java:214-230 | the existing method map loses every fresh key, and the methods left are appended when the type is found |
| ShellCallback.WithFields | core/mybatis-generator-core/src/main/java/org/mybatis/generator/internal/DefaultShellCallback.java:202-210 | adding the kept fields and accessors leaves the imports and type name alone and keeps the type's own members first, unchanged |
| ShellCallback.WithMethods | core/mybatis-generator-core/src/main/java/org/mybatis/generator/internal/DefaultShellCallback.java:224-229 | adding the kept methods leaves the imports and type name alone and keeps the type's own members first, unchanged |
| ShellCallback.MergeJavaFileSpec | core/mybatis-generator-core/src/main/java/org/mybatis/generator/internal/DefaultShellCallback.java:107-151 | text comes back exactly for an Example class or a missing file; a merged unit keeps the fresh imports and members first and unchanged, and the fresh type name |
| ShellCallback.MergeJavaFile | core/mybatis-generator-core/src/main/java/org/mybatis/generator/internal/DefaultShellCallback.java:107-151 | the result equals the specification; an Example name returns the fresh source; otherwise "merge error" exactly when the existing file is missing, and a merged unit exactly when it is present |
| MergeProperties.ImportSurvivors | core/mybatis-generator-core/src/main/java/org/mybatis/generator/internal/DefaultShellCallback.java:153-163 | the kept imports are exactly those whose name the existing unit imports and the fresh one does not, each once, in existing order, each the last such import |
| MergeProperties.MergedImports | core/mybatis-generator-core/src/main/java/org/mybatis/generator/internal/DefaultShellCallback.java:138 | for every non-Example file, the merged imports are all fresh imports, unchanged and first, then the kept existing imports |
| MergeProperties.FieldSurvivors | core/mybatis-generator-core/src/main/java/org/mybatis/generator/internal/DefaultShellCallback.java:165-182 | the kept fields are exactly the names declared by the existing unit, not generated-tagged there and not declared by the fresh unit, once each, in existing order |
| MergeProperties.ModelMerge | core/mybatis-generator-core/src/main/java/org/mybatis/generator/internal/DefaultShellCallback.java:143-146 | a model file merges to the fresh members, then the kept fields, then their accessors unless Lombok; with no matching type only the imports change |
| MergeProperties.MethodSurvivors | core/mybatis-generator-core/src/main/java/org/mybatis/generator/internal/DefaultShellCallback.java:214-219 | the kept methods are exactly those whose key the existing unit has and the fresh one lacks, once each, in existing order |
| MergeProperties.MapperMerge | core/mybatis-generator-core/src/main/java/org/mybatis/generator/internal/DefaultShellCallback.java:140-142 | a mapper merges to the fresh members, unchanged, then the kept methods; with no matching type only the imports change |
| MergeProperties.MapperMembers | core/mybatis-generator-core/src/main/java/org/mybatis/generator/internal/DefaultShellCallback.java:224-229 | when the mapper type is found, its members become the fresh members followed by the kept methods |
| MergeProperties.RegenerateUnchangedFile | core/mybatis-generator-core/src/main/java/org/mybatis/generator/internal/DefaultShellCallback.java:132-146 | merging a unit with itself gives it back unchanged, for either strategy |
| MergeProperties.NothingSurvivesItself | core/mybatis-generator-core/src/main/java/org/mybatis/generator/internal/DefaultShellCallback.java:153-182 | against its own index, no import, field or method is kept |
| MergeProperties.RenamedParameterKeepsExisting | core/mybatis-generator-core/src/main/java/org/mybatis/generator/internal/DefaultShellCallback.java:276 | an existing mapper method comes back after the fresh members when no fresh method has its name and parameter list, even if one differs only in parameter names |
| MergeProperties.KeptMethodWithTag | core/mybatis-generator-core/src/main/java/org/mybatis/generator/internal/DefaultShellCallback.java:214-219 | such an existing method's key survives the removal of the fresh keys |
| MergeProperties.NoFreshMethodHasTag | core/mybatis-generator-core/src/main/java/org/mybatis/generator/internal/DefaultShellCallback.java:271-280 | no fresh method has the key of a method whose name and parameter list none of them repeats |
| MergeScenarios.TestModelScenario | core/mybatis-generator-core/src/test/java/org/mybatis/generator/internal/DefaultShellCallbackTest.java:90-116 | merging Test.java gives imports Getter, Setter, List and the fields id, name, sex, newFields, with no accessors |
| MergeScenarios.KeptImportsOfTest | core/mybatis-generator-core/src/test/java/org/mybatis/generator/internal/DefaultShellCallbackTest.java:90-107 | of the existing imports only java.util.List is kept |
| MergeScenarios.KeptFieldsOfTest | core/mybatis-generator-core/src/test/java/org/mybatis/generator/internal/DefaultShellCallbackTest.java:94-116 | of the existing fields only the hand-added newFields is kept; the stale generated field is dropped |

## Left out

- Parsing the two sources and pretty-printing the result (JavaParser, `ParserConfiguration`, `PrettyPrinter`): this is a foreign library. The parsed units are inputs, and a merged result is the unit itself, not its text.
- The character encoding and reading the existing file from disk are I/O. A missing file is the input `None`.
- `ShellCallback.MergeJavaFile`: requires a file name of at least five characters. With a shorter name, Java's `substring` throws before anything else happens.
- Parse failures of the existing file other than a missing file, and parse failures of the fresh source: in the code they propagate as exceptions, which the model does not represent.
- `StaticJavaParser.setConfiguration` (global parser state), `printStackTrace` and the unused `javadocTags` parameter.
- `getDirectory`, `refreshProject`, `isOverwriteEnabled` and `isMergeSupported` are filesystem I/O or trivial getters.
- A unit holds one top-level class or interface. Nested and further top-level types are not modelled, and neither are members the visitor reaches inside them (a method of an anonymous class, a field of a nested class).
- A field declaration with several variables is keyed by its first variable only, as in the code. The other variables are not modelled.
- `JavaSyntax.CompilationUnit.AddImport`: appends. JavaParser's `addImport` also skips an import that is implicit (java.lang, or the unit's own package) or already present, and that check is not modelled.
- The bodies that `createGetter` and `createSetter` generate are abstract `Getter(name)` and `Setter(name)` members.
- `ShellCallback.AddAccessors`: appends each getter and setter once and raises no error. JavaParser's `createGetter` and `createSetter` belong to a library that is not part of this model. They may already attach the accessor to the field's class, which the following `addMember` would then repeat. They may also throw for a field of an interface or a field with several variables.
- Annotations and comments are abstracted to their name and content strings.
