/**
 * The model merge of DefaultShellCallbackTest, on units written out by
 * hand: a Lombok-annotated Test class whose three generated fields are
 * regenerated, whose existing copy also holds a stale generated field and
 * a hand-added one, and whose existing imports add java.util.List.
 */
module MergeScenarios {
  import opened Strings
  import opened MergeConstants
  import opened OrderedMaps
  import opened JavaSyntax
  import opened ClassVisitor
  import opened ShellCallback
  import opened MergeProperties

  const GetterImport := Import("lombok.Getter", false, false)
  const SetterImport := Import("lombok.Setter", false, false)
  const ListImport := Import("java.util.List", false, false)

  const IdField := FieldDecl("id", "Long", Some("ID @mbg.generated"), "private Long id;")
  const NameField := FieldDecl("name", "String", Some("name @mbg.generated"), "private String name;")
  const SexField := FieldDecl("sex", "String", Some("sex @mbg.generated"), "private String sex;")
  /** A generated field that the fresh copy no longer has. */
  const AgeField := FieldDecl("age", "Integer", Some("@mbg.generated"), "private Integer age;")
  /** A field added by hand, without a generated tag. */
  const NewFieldsField := FieldDecl("newFields", "String", None, "private String newFields;")

  const FreshMembers: seq<Member> := [FieldMember(IdField), FieldMember(NameField), FieldMember(SexField)]
  const ExistingMembers: seq<Member> :=
    [FieldMember(IdField), FieldMember(NameField), FieldMember(SexField), FieldMember(AgeField), FieldMember(NewFieldsField)]

  const FreshTest := Unit([GetterImport, SetterImport], TypeDecl("Test", false, ["Setter", "Getter"], FreshMembers))
  const ExistingTest := Unit([GetterImport, SetterImport, ListImport], TypeDecl("Test", false, ["Setter", "Getter"], ExistingMembers))

  /**
   * Merging Test.java: the imports become Getter, Setter, List; the class
   * keeps its three fresh fields and gets the hand-added field back, and
   * no accessors, since @Setter stands for them; the stale generated
   * field is gone.
   */
  lemma TestModelScenario(newFileSource: string)
    ensures MergeJavaFileSpec(newFileSource, FreshTest, "Test.java", Some(ExistingTest)) ==
      Merged(Unit([GetterImport, SetterImport, ListImport],
                  TypeDecl("Test", false, ["Setter", "Getter"], FreshMembers + [FieldMember(NewFieldsField)])))
  {
    TestMergeShape(newFileSource);
    TestShapeSpelledOut();
  }

  lemma TestShapeSpelledOut()
    ensures Unit(FreshTest.imports + [ListImport], FreshTest.typeDecl.(members := FreshMembers + FieldMembers([NewFieldsField]))) ==
      Unit([GetterImport, SetterImport, ListImport],
           TypeDecl("Test", false, ["Setter", "Getter"], FreshMembers + [FieldMember(NewFieldsField)]))
  {
    assert FreshTest.imports + [ListImport] == [GetterImport, SetterImport, ListImport];
    assert FieldMembers([NewFieldsField]) == [FieldMember(NewFieldsField)];
  }

  /** The merge of Test.java appends exactly the surviving import and field. */
  lemma TestMergeShape(newFileSource: string)
    ensures MergeJavaFileSpec(newFileSource, FreshTest, "Test.java", Some(ExistingTest)) ==
      Merged(Unit(FreshTest.imports + [ListImport],
                  FreshTest.typeDecl.(members := FreshMembers + FieldMembers([NewFieldsField]))))
  {
    assert PublicClassName("Test.java") == "Test" && DeclaresType(FreshTest, "Test") by { TestFileFacts(); }
    assert SurvivingImports(IndexOf(ExistingTest), IndexOf(FreshTest)) == [ListImport] by { KeptImportsOfTest(); }
    assert SurvivingFields(IndexOf(ExistingTest), IndexOf(FreshTest)) == [NewFieldsField] by { KeptFieldsOfTest(); }
    TestFileFacts();
    LombokMerge(newFileSource, FreshTest, "Test.java", ExistingTest, [ListImport], [NewFieldsField]);
  }

  /**
   * A plain class with Lombok accessors, given what survives of the
   * existing imports and fields: the fresh unit with those appended.
   */
  lemma LombokMerge(newFileSource: string, newUnit: Unit, fileName: string, oldUnit: Unit,
                    imps: seq<Import>, fs: seq<FieldDecl>)
    requires |fileName| >= |".java"|
    requires !EndsWith(PublicClassName(fileName), "Example") && !EndsWith(PublicClassName(fileName), "Mapper")
    requires DeclaresType(newUnit, PublicClassName(fileName)) && UsesLombok(newUnit.typeDecl.annotations)
    requires SurvivingImports(IndexOf(oldUnit), IndexOf(newUnit)) == imps
    requires SurvivingFields(IndexOf(oldUnit), IndexOf(newUnit)) == fs
    ensures MergeJavaFileSpec(newFileSource, newUnit, fileName, Some(oldUnit)) ==
      Merged(Unit(newUnit.imports + imps, newUnit.typeDecl.(members := newUnit.typeDecl.members + FieldMembers(fs))))
  {
    ModelMerge(newFileSource, newUnit, fileName, oldUnit);
  }

  /** Test.java names a plain class, which the fresh unit declares, with Lombok accessors. */
  lemma TestFileFacts()
    ensures PublicClassName("Test.java") == "Test"
    ensures !EndsWith("Test", "Example") && !EndsWith("Test", "Mapper")
    ensures DeclaresType(FreshTest, "Test")
    ensures UsesLombok(FreshTest.typeDecl.annotations)
  {
    ContainsSelf("Setter");
    assert IsAccessorAnnotation(FreshTest.typeDecl.annotations[0]);
  }

  lemma KeptImportsOfTest()
    ensures SurvivingImports(IndexOf(ExistingTest), IndexOf(FreshTest)) == [ListImport]
  {
    TestImportPairs();
    ImportSurvivors(ExistingTest, FreshTest);
    OnlyListImportSurvives(SurvivingImports(IndexOf(ExistingTest), IndexOf(FreshTest)),
      ImportPairs(ExistingTest.imports), KeysOf(ImportPairs(FreshTest.imports)));
  }

  lemma TestImportPairs()
    ensures KeysOf(ImportPairs(ExistingTest.imports)) == ["lombok.Getter", "lombok.Setter", "java.util.List"]
    ensures ImportPairs(ExistingTest.imports)[2] == ("java.util.List", ListImport)
    ensures KeysOf(ImportPairs(FreshTest.imports)) == ["lombok.Getter", "lombok.Setter"]
  {
  }

  /** Of the three existing imports, only java.util.List is not imported again. */
  lemma OnlyListImportSurvives(rest: seq<Import>, ps: seq<(string, Import)>, regenerated: seq<string>)
    requires KeysOf(ps) == ["lombok.Getter", "lombok.Setter", "java.util.List"] && ps[2] == ("java.util.List", ListImport)
    requires regenerated == ["lombok.Getter", "lombok.Setter"]
    requires IsSurvivorList(rest, ImportName, ps, KeySet(regenerated))
    ensures rest == [ListImport]
  {
    assert KeysOf(ps)[2] == "java.util.List";
    SingleSurvivor(rest, ImportName, ps, KeySet(regenerated), "java.util.List");
  }

  lemma KeptFieldsOfTest()
    ensures SurvivingFields(IndexOf(ExistingTest), IndexOf(FreshTest)) == [NewFieldsField]
  {
    ExistingFieldPairs();
    FreshFieldPairs();
    AgeIsTagged();
    NewFieldsIsNotTagged();
    FieldSurvivors(ExistingTest, FreshTest);
    OnlyHandAddedFieldSurvives(SurvivingFields(IndexOf(ExistingTest), IndexOf(FreshTest)),
      FieldPairs(ExistingMembers, false), KeysOf(FieldPairs(ExistingMembers, true)), KeysOf(FieldPairs(FreshMembers, false)));
  }

  /** Of id, name, sex, age and newFields, only newFields is neither tagged nor regenerated. */
  lemma OnlyHandAddedFieldSurvives(fs: seq<FieldDecl>, ps: seq<(string, FieldDecl)>, tagged: seq<string>, regenerated: seq<string>)
    requires KeysOf(ps) == ["id", "name", "sex", "age", "newFields"] && ps[4] == ("newFields", NewFieldsField)
    requires "age" in tagged && "newFields" !in tagged
    requires regenerated == ["id", "name", "sex"]
    requires IsSurvivorList(fs, FieldName, ps, KeySet(tagged) + KeySet(regenerated))
    ensures fs == [NewFieldsField]
  {
    var drop := KeySet(tagged) + KeySet(regenerated);
    assert KeysOf(ps)[4] == "newFields";
    forall x | x in KeysOf(ps) && x !in drop
      ensures x == "newFields"
    {
      assert x != "age";
      assert x !in regenerated;
    }
    SingleSurvivor(fs, FieldName, ps, drop, "newFields");
  }

  lemma ExistingFieldPairs()
    ensures KeysOf(FieldPairs(ExistingMembers, false)) == ["id", "name", "sex", "age", "newFields"]
    ensures FieldPairs(ExistingMembers, false)[4] == ("newFields", NewFieldsField)
  {
    AllFieldPairs(ExistingMembers);
  }

  lemma FreshFieldPairs()
    ensures KeysOf(FieldPairs(FreshMembers, false)) == ["id", "name", "sex"]
  {
    AllFieldPairs(FreshMembers);
  }

  /** Members that are all fields pair up one to one, in order. */
  lemma {:induction false} AllFieldPairs(ms: seq<Member>)
    requires forall i :: 0 <= i < |ms| ==> ms[i].FieldMember?
    ensures FieldPairs(ms, false) == seq(|ms|, i requires 0 <= i < |ms| => (ms[i].field.name, ms[i].field))
    decreases |ms|
  {
    if ms != [] {
      var n := |ms| - 1;
      AllFieldPairs(ms[..n]);
    }
  }

  /** The stale field carries the generated tag. */
  lemma AgeIsTagged()
    ensures "age" in KeysOf(FieldPairs(ExistingMembers, true))
  {
    ContainsSelf("@mbg.generated");
    NewTagRecognised("@mbg.generated");
    assert ExistingMembers[3] == FieldMember(AgeField);
    FieldPairKeys(ExistingMembers, "age", true);
  }

  /** The hand-added field does not. */
  lemma NewFieldsIsNotTagged()
    ensures "newFields" !in KeysOf(FieldPairs(ExistingMembers, true))
  {
    FieldPairKeys(ExistingMembers, "newFields", true);
    forall i | 0 <= i < |ExistingMembers|
      ensures !(ExistingMembers[i].field.name == "newFields" && IsGeneratedField(ExistingMembers[i].field))
    {
      if i < 4 {
        assert ExistingMembers[i].field.name != "newFields";
      }
    }
  }
}
