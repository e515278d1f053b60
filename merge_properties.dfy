/**
 * What mergeJavaFile promises, stated on whole compilation units: the
 * fresh declarations come first and are kept as they are, and after them
 * come exactly the hand-written declarations of the existing file, once
 * each, in the existing file's order.
 */
module MergeProperties {
  import opened Strings
  import opened MergeConstants
  import opened OrderedMaps
  import opened JavaSyntax
  import opened ClassVisitor
  import opened ShellCallback

  /** The key of an import in the index. */
  function ImportName(i: Import): string { i.name }

  /** The key of a field in the index. */
  function FieldName(f: FieldDecl): string { f.name }

  /** Some import of the unit has the name n. */
  predicate ImportsName(u: Unit, n: string) {
    exists i :: 0 <= i < |u.imports| && u.imports[i].name == n
  }

  /** Some method among ms has the key tag. */
  predicate DeclaresMethod(ms: seq<Member>, tag: string) {
    exists i :: 0 <= i < |ms| && ms[i].MethodMember? && MethodTag(ms[i].decl) == tag
  }

  // Every pair of the index lists is keyed by its own declaration.

  lemma ImportPairsKeyed(imps: seq<Import>)
    ensures forall j :: 0 <= j < |ImportPairs(imps)| ==> ImportPairs(imps)[j].0 == ImportName(ImportPairs(imps)[j].1)
  {
  }

  lemma ImportPairKeys(u: Unit, n: string)
    ensures n in KeysOf(ImportPairs(u.imports)) <==> ImportsName(u, n)
  {
    if ImportsName(u, n) {
      var i :| 0 <= i < |u.imports| && u.imports[i].name == n;
      assert KeysOf(ImportPairs(u.imports))[i] == n;
    }
  }

  lemma {:induction false} FieldPairsKeyed(ms: seq<Member>, generatedOnly: bool)
    ensures forall j :: 0 <= j < |FieldPairs(ms, generatedOnly)| ==>
      FieldPairs(ms, generatedOnly)[j].0 == FieldName(FieldPairs(ms, generatedOnly)[j].1)
    decreases |ms|
  {
    if ms != [] {
      FieldPairsKeyed(ms[..|ms| - 1], generatedOnly);
    }
  }

  lemma {:induction false} MethodPairsKeyed(ms: seq<Member>)
    ensures forall j :: 0 <= j < |MethodPairs(ms)| ==> MethodPairs(ms)[j].0 == MethodTag(MethodPairs(ms)[j].1)
    decreases |ms|
  {
    if ms != [] {
      MethodPairsKeyed(ms[..|ms| - 1]);
    }
  }

  lemma {:induction false} MethodPairKeys(ms: seq<Member>, tag: string)
    ensures tag in KeysOf(MethodPairs(ms)) <==> DeclaresMethod(ms, tag)
    decreases |ms|
  {
    if ms != [] {
      var n := |ms| - 1;
      var m := ms[n];
      var tail := if m.MethodMember? then [(MethodTag(m.decl), m.decl)] else [];
      MethodPairKeys(ms[..n], tag);
      assert MethodPairs(ms) == MethodPairs(ms[..n]) + tail;
      assert KeysOf(MethodPairs(ms)) == KeysOf(MethodPairs(ms[..n])) + KeysOf(tail);
      if DeclaresMethod(ms[..n], tag) {
        var i :| 0 <= i < n && ms[..n][i].MethodMember? && MethodTag(ms[..n][i].decl) == tag;
        assert ms[i] == ms[..n][i];
      } else if DeclaresMethod(ms, tag) {
        assert ms[..n] + [m] == ms;
        assert KeysOf(tail) == [tag];
      }
    }
  }

  /**
   * The existing imports the merge keeps: those whose name the fresh unit
   * does not import, once per name, in the order the names first occur in
   * the existing file, each the last existing import of that name.
   */
  lemma ImportSurvivors(oldUnit: Unit, newUnit: Unit)
    ensures var rest := SurvivingImports(IndexOf(oldUnit), IndexOf(newUnit));
      IsSurvivorList(rest, ImportName, ImportPairs(oldUnit.imports), KeySet(KeysOf(ImportPairs(newUnit.imports)))) &&
      forall n :: (exists i :: 0 <= i < |rest| && rest[i].name == n) <==> ImportsName(oldUnit, n) && !ImportsName(newUnit, n)
  {
    var newIx := IndexOf(newUnit);
    var rest := SurvivingImports(IndexOf(oldUnit), newIx);
    PutAllKeys(ImportPairs(newUnit.imports));
    assert newIx.imports.values.Keys == KeySet(KeysOf(ImportPairs(newUnit.imports)));
    ImportPairsKeyed(oldUnit.imports);
    SurvivorValues(ImportPairs(oldUnit.imports), newIx.imports.values.Keys, ImportName);
    forall n ensures (exists i :: 0 <= i < |rest| && rest[i].name == n) <==>
      ImportsName(oldUnit, n) && !ImportsName(newUnit, n)
    {
      ImportPairKeys(oldUnit, n);
      ImportPairKeys(newUnit, n);
      assert (exists i :: 0 <= i < |rest| && rest[i].name == n) <==> (exists i :: 0 <= i < |rest| && ImportName(rest[i]) == n);
    }
  }

  /** The merged unit's imports are the fresh imports, unchanged, followed by the kept existing imports. */
  lemma MergedImports(newFileSource: string, newUnit: Unit, fileName: string, oldUnit: Unit)
    requires |fileName| >= |".java"| && !EndsWith(PublicClassName(fileName), "Example")
    ensures MergeJavaFileSpec(newFileSource, newUnit, fileName, Some(oldUnit)).Merged?
    ensures MergeJavaFileSpec(newFileSource, newUnit, fileName, Some(oldUnit)).u.imports ==
      newUnit.imports + SurvivingImports(IndexOf(oldUnit), IndexOf(newUnit))
  {
    var name := PublicClassName(fileName);
    var oldIx, newIx := IndexOf(oldUnit), IndexOf(newUnit);
    var withImports := newUnit.(imports := newUnit.imports + SurvivingImports(oldIx, newIx));
    if EndsWith(name, "Mapper") {
      assert WithMethods(withImports, name, SurvivingMethods(oldIx, newIx)).imports == withImports.imports;
    } else {
      assert WithFields(withImports, name, SurvivingFields(oldIx, newIx)).imports == withImports.imports;
    }
  }

  /**
   * The existing fields the model merge keeps: those that are neither
   * generated-tagged nor declared by the fresh unit, once per name, in
   * existing order, each the last existing field of that name.
   */
  lemma FieldSurvivors(oldUnit: Unit, newUnit: Unit)
    ensures var fs := SurvivingFields(IndexOf(oldUnit), IndexOf(newUnit));
      var oldMs, newMs := oldUnit.typeDecl.members, newUnit.typeDecl.members;
      IsSurvivorList(fs, FieldName, FieldPairs(oldMs, false),
                     KeySet(KeysOf(FieldPairs(oldMs, true))) + KeySet(KeysOf(FieldPairs(newMs, false)))) &&
      forall k :: (exists i :: 0 <= i < |fs| && fs[i].name == k) <==>
        DeclaresField(oldMs, k, false) && !DeclaresField(oldMs, k, true) && !DeclaresField(newMs, k, false)
  {
    var oldIx, newIx := IndexOf(oldUnit), IndexOf(newUnit);
    var oldMs, newMs := oldUnit.typeDecl.members, newUnit.typeDecl.members;
    var fs := SurvivingFields(oldIx, newIx);
    PutAllKeys(FieldPairs(oldMs, true));
    PutAllKeys(FieldPairs(newMs, false));
    var drop := oldIx.autoGeneratedFields.values.Keys + newIx.fields.values.Keys;
    assert drop == KeySet(KeysOf(FieldPairs(oldMs, true))) + KeySet(KeysOf(FieldPairs(newMs, false)));
    FieldPairsKeyed(oldMs, false);
    SurvivorValues(FieldPairs(oldMs, false), drop, FieldName);
    forall k ensures (exists i :: 0 <= i < |fs| && fs[i].name == k) <==>
      DeclaresField(oldMs, k, false) && !DeclaresField(oldMs, k, true) && !DeclaresField(newMs, k, false)
    {
      FieldPairKeys(oldMs, k, false);
      FieldPairKeys(oldMs, k, true);
      FieldPairKeys(newMs, k, false);
      assert (exists i :: 0 <= i < |fs| && fs[i].name == k) <==> (exists i :: 0 <= i < |fs| && FieldName(fs[i]) == k);
    }
  }

  /**
   * Model merge: the fresh imports are followed by the kept ones, and the
   * fresh members are kept as they are; when the fresh unit declares the
   * type, after them come the kept fields, then (unless an annotation
   * stands for them) a getter and a setter per kept field.
   */
  lemma ModelMerge(newFileSource: string, newUnit: Unit, fileName: string, oldUnit: Unit)
    requires |fileName| >= |".java"|
    requires !EndsWith(PublicClassName(fileName), "Example") && !EndsWith(PublicClassName(fileName), "Mapper")
    ensures MergeJavaFileSpec(newFileSource, newUnit, fileName, Some(oldUnit)).Merged?
    ensures var u := MergeJavaFileSpec(newFileSource, newUnit, fileName, Some(oldUnit)).u;
      var fs := SurvivingFields(IndexOf(oldUnit), IndexOf(newUnit));
      var td := newUnit.typeDecl;
      u.imports == newUnit.imports + SurvivingImports(IndexOf(oldUnit), IndexOf(newUnit)) &&
      u.typeDecl == if DeclaresType(newUnit, PublicClassName(fileName))
        then td.(members := td.members + FieldMembers(fs) + if UsesLombok(td.annotations) then [] else Accessors(fs))
        else td
  {
  }

  /**
   * The existing methods the mapper merge keeps: those whose key no fresh
   * method has, once per key, in existing order, each the last existing
   * method with that key.
   */
  lemma MethodSurvivors(oldUnit: Unit, newUnit: Unit)
    ensures var ds := SurvivingMethods(IndexOf(oldUnit), IndexOf(newUnit));
      var oldMs, newMs := oldUnit.typeDecl.members, newUnit.typeDecl.members;
      IsSurvivorList(ds, MethodTag, MethodPairs(oldMs), KeySet(KeysOf(MethodPairs(newMs)))) &&
      forall tag :: (exists i :: 0 <= i < |ds| && MethodTag(ds[i]) == tag) <==>
        DeclaresMethod(oldMs, tag) && !DeclaresMethod(newMs, tag)
  {
    var newIx := IndexOf(newUnit);
    var oldMs, newMs := oldUnit.typeDecl.members, newUnit.typeDecl.members;
    PutAllKeys(MethodPairs(newMs));
    assert newIx.methods.values.Keys == KeySet(KeysOf(MethodPairs(newMs)));
    MethodPairsKeyed(oldMs);
    SurvivorValues(MethodPairs(oldMs), newIx.methods.values.Keys, MethodTag);
    forall tag | true
      ensures tag in KeysOf(MethodPairs(oldMs)) <==> DeclaresMethod(oldMs, tag)
      ensures tag in KeysOf(MethodPairs(newMs)) <==> DeclaresMethod(newMs, tag)
    {
      MethodPairKeys(oldMs, tag);
      MethodPairKeys(newMs, tag);
    }
  }

  /**
   * Mapper merge: the fresh imports are followed by the kept ones, and the
   * fresh members are kept as they are; when the fresh unit declares the
   * type, the kept methods follow them.
   */
  lemma MapperMerge(newFileSource: string, newUnit: Unit, fileName: string, oldUnit: Unit)
    requires |fileName| >= |".java"|
    requires !EndsWith(PublicClassName(fileName), "Example") && EndsWith(PublicClassName(fileName), "Mapper")
    ensures MergeJavaFileSpec(newFileSource, newUnit, fileName, Some(oldUnit)).Merged?
    ensures var u := MergeJavaFileSpec(newFileSource, newUnit, fileName, Some(oldUnit)).u;
      var ds := SurvivingMethods(IndexOf(oldUnit), IndexOf(newUnit));
      var td := newUnit.typeDecl;
      u.imports == newUnit.imports + SurvivingImports(IndexOf(oldUnit), IndexOf(newUnit)) &&
      u.typeDecl == if DeclaresType(newUnit, PublicClassName(fileName))
        then td.(members := td.members + MethodMembers(ds)) else td
  {
  }

  /**
   * Generating over a file that nobody edited changes nothing: merging a
   * unit with itself gives the unit back, whatever the strategy.
   */
  lemma RegenerateUnchangedFile(newFileSource: string, u: Unit, fileName: string)
    requires |fileName| >= |".java"| && !EndsWith(PublicClassName(fileName), "Example")
    ensures MergeJavaFileSpec(newFileSource, u, fileName, Some(u)) == Merged(u)
  {
    var name := PublicClassName(fileName);
    NothingSurvivesItself(u);
    assert u.(imports := u.imports + []) == u;
    NothingAddedLeavesUnit(u, name);
  }

  /** Adding no methods, or no fields, leaves a unit as it was. */
  lemma NothingAddedLeavesUnit(u: Unit, name: string)
    ensures WithMethods(u, name, []) == u && WithFields(u, name, []) == u
  {
    assert u.typeDecl.members + MethodMembers([]) == u.typeDecl.members;
    assert u.typeDecl.members + FieldMembers([]) + [] == u.typeDecl.members;
    assert u.typeDecl.members + FieldMembers([]) + Accessors([]) == u.typeDecl.members;
  }

  /** Against its own index, no import, field or method survives. */
  lemma NothingSurvivesItself(u: Unit)
    ensures SurvivingImports(IndexOf(u), IndexOf(u)) == []
    ensures SurvivingFields(IndexOf(u), IndexOf(u)) == []
    ensures SurvivingMethods(IndexOf(u), IndexOf(u)) == []
  {
    var ix := IndexOf(u);
    WithoutAll(ix.imports, ix.imports.values.Keys);
    WithoutAll(ix.methods, ix.methods.values.Keys);
    WithoutAll(ix.fields, ix.autoGeneratedFields.values.Keys + ix.fields.values.Keys);
  }

  /**
   * Because the key holds parameter names, an existing mapper method comes
   * back beside the fresh one when the fresh file only renames one of its
   * parameters: once no fresh method has the existing method's name and
   * parameter list, a method with its key is appended.
   */
  lemma RenamedParameterKeepsExisting(newFileSource: string, newUnit: Unit, fileName: string, oldUnit: Unit, m: MethodDecl)
    requires |fileName| >= |".java"|
    requires !EndsWith(PublicClassName(fileName), "Example") && EndsWith(PublicClassName(fileName), "Mapper")
    requires DeclaresType(newUnit, PublicClassName(fileName))
    requires MethodMember(m) in oldUnit.typeDecl.members && PlainSignature(m)
    requires forall d :: MethodMember(d) in newUnit.typeDecl.members ==>
      PlainSignature(d) && !(d.name == m.name && d.params == m.params)
    ensures var members := MergeJavaFileSpec(newFileSource, newUnit, fileName, Some(oldUnit)).u.typeDecl.members;
      exists i :: |newUnit.typeDecl.members| <= i < |members| &&
        members[i].MethodMember? && MethodTag(members[i].decl) == MethodTag(m)
  {
    KeptMethodWithTag(oldUnit, newUnit, m);
    MapperMembers(newFileSource, newUnit, fileName, oldUnit);
    AppendedMethodWithTag(newUnit.typeDecl.members, SurvivingMethods(IndexOf(oldUnit), IndexOf(newUnit)),
      MergeJavaFileSpec(newFileSource, newUnit, fileName, Some(oldUnit)).u.typeDecl.members, MethodTag(m));
  }

  /** A kept method with the key tag lands among the appended members. */
  lemma AppendedMethodWithTag(newMs: seq<Member>, ds: seq<MethodDecl>, members: seq<Member>, tag: string)
    requires members == newMs + MethodMembers(ds)
    requires exists i :: 0 <= i < |ds| && MethodTag(ds[i]) == tag
    ensures exists k :: |newMs| <= k < |members| && members[k].MethodMember? && MethodTag(members[k].decl) == tag
  {
    var i :| 0 <= i < |ds| && MethodTag(ds[i]) == tag;
    assert members[|newMs| + i] == MethodMember(ds[i]);
  }

  /** When the fresh unit declares the mapper type, the kept methods follow its members. */
  lemma MapperMembers(newFileSource: string, newUnit: Unit, fileName: string, oldUnit: Unit)
    requires |fileName| >= |".java"|
    requires !EndsWith(PublicClassName(fileName), "Example") && EndsWith(PublicClassName(fileName), "Mapper")
    requires DeclaresType(newUnit, PublicClassName(fileName))
    ensures MergeJavaFileSpec(newFileSource, newUnit, fileName, Some(oldUnit)).Merged?
    ensures MergeJavaFileSpec(newFileSource, newUnit, fileName, Some(oldUnit)).u.typeDecl.members ==
      newUnit.typeDecl.members + MethodMembers(SurvivingMethods(IndexOf(oldUnit), IndexOf(newUnit)))
  {
    MapperMerge(newFileSource, newUnit, fileName, oldUnit);
  }

  /** The existing method m is among the kept ones when no fresh method has its key. */
  lemma KeptMethodWithTag(oldUnit: Unit, newUnit: Unit, m: MethodDecl)
    requires MethodMember(m) in oldUnit.typeDecl.members && PlainSignature(m)
    requires forall d :: MethodMember(d) in newUnit.typeDecl.members ==>
      PlainSignature(d) && !(d.name == m.name && d.params == m.params)
    ensures var ds := SurvivingMethods(IndexOf(oldUnit), IndexOf(newUnit));
      exists i :: 0 <= i < |ds| && MethodTag(ds[i]) == MethodTag(m)
  {
    var oldMs := oldUnit.typeDecl.members;
    MethodSurvivors(oldUnit, newUnit);
    var j :| 0 <= j < |oldMs| && oldMs[j] == MethodMember(m);
    assert DeclaresMethod(oldMs, MethodTag(m));
    NoFreshMethodHasTag(newUnit.typeDecl.members, m);
  }

  /** No fresh method shares m's key when none has m's name and parameter list. */
  lemma NoFreshMethodHasTag(newMs: seq<Member>, m: MethodDecl)
    requires PlainSignature(m)
    requires forall d :: MethodMember(d) in newMs ==> PlainSignature(d) && !(d.name == m.name && d.params == m.params)
    ensures !DeclaresMethod(newMs, MethodTag(m))
  {
    forall i | 0 <= i < |newMs| && newMs[i].MethodMember?
      ensures MethodTag(newMs[i].decl) != MethodTag(m)
    {
      assert MethodMember(newMs[i].decl) in newMs;
      MethodTagIdentity(newMs[i].decl, m);
    }
  }
}
