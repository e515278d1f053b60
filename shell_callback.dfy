/**
 * DefaultShellCallback.mergeJavaFile: how a freshly generated Java file is
 * merged with the copy already on disk.  The file name picks the strategy
 * (an Example class is taken as generated, a Mapper gets its hand-written
 * methods back, anything else its hand-written fields), and the merge
 * itself is a difference of ClassVisitor indexes appended to the fresh
 * compilation unit.
 */
module ShellCallback {
  import opened Strings
  import opened MergeConstants
  import opened OrderedMaps
  import opened JavaSyntax
  import opened ClassVisitor

  /** mergeJavaFile's result: a string returned as is, or the merged unit that is then pretty-printed. */
  datatype MergeOutput = Text(s: string) | Merged(u: Unit)

  /** The string returned when the existing file cannot be found. */
  const MergeError: string := "merge error"

  /** The file name without its last five characters, the length of ".java". */
  function PublicClassName(fileName: string): (name: string)
    requires |fileName| >= |".java"|
    ensures |name| + |".java"| == |fileName|
    ensures StartsWith(fileName, name)
    ensures EndsWith(fileName, ".java") ==> name + ".java" == fileName
  {
    fileName[..|fileName| - |".java"|]
  }

  /** An annotation whose name contains Setter, Getter or Data stands for generated accessors. */
  predicate IsAccessorAnnotation(name: string) {
    Contains(name, "Setter") || Contains(name, "Getter") || Contains(name, "Data")
  }

  predicate UsesLombok(annotations: seq<string>) {
    exists i :: 0 <= i < |annotations| && IsAccessorAnnotation(annotations[i])
  }

  function FieldMembers(fs: seq<FieldDecl>): (ms: seq<Member>)
    ensures |ms| == |fs| && forall i :: 0 <= i < |fs| ==> ms[i] == FieldMember(fs[i])
  {
    seq(|fs|, i requires 0 <= i < |fs| => FieldMember(fs[i]))
  }

  function MethodMembers(ds: seq<MethodDecl>): (ms: seq<Member>)
    ensures |ms| == |ds| && forall i :: 0 <= i < |ds| ==> ms[i] == MethodMember(ds[i])
  {
    seq(|ds|, i requires 0 <= i < |ds| => MethodMember(ds[i]))
  }

  /** createGetter then createSetter for each field in turn. */
  function Accessors(fs: seq<FieldDecl>): (ms: seq<Member>)
    ensures |ms| == 2 * |fs|
    ensures forall i :: 0 <= i < |fs| ==> ms[2 * i] == Getter(fs[i].name) && ms[2 * i + 1] == Setter(fs[i].name)
    decreases |fs|
  {
    if fs == [] then [] else
      var f := fs[|fs| - 1];
      Accessors(fs[..|fs| - 1]) + [Getter(f.name), Setter(f.name)]
  }

  /** The existing imports whose name the fresh unit does not import, in existing order. */
  function SurvivingImports(oldIx: Index, newIx: Index): seq<Import>
    requires ValidIndex(oldIx) && ValidIndex(newIx)
  {
    Values(Without(oldIx.imports, newIx.imports.values.Keys))
  }

  /** The existing fields that are neither generated-tagged nor declared by the fresh unit. */
  function SurvivingFields(oldIx: Index, newIx: Index): seq<FieldDecl>
    requires ValidIndex(oldIx) && ValidIndex(newIx)
  {
    Values(Without(oldIx.fields, oldIx.autoGeneratedFields.values.Keys + newIx.fields.values.Keys))
  }

  /** The existing methods whose key the fresh unit does not have. */
  function SurvivingMethods(oldIx: Index, newIx: Index): seq<MethodDecl>
    requires ValidIndex(oldIx) && ValidIndex(newIx)
  {
    Values(Without(oldIx.methods, newIx.methods.values.Keys))
  }

  /**
   * The unit after mergeFields has added the fields fs to the type named
   * className: the fields, then their accessors unless an annotation
   * stands for them; nothing when the unit declares no such type.
   */
  function WithFields(u: Unit, className: string, fs: seq<FieldDecl>): (r: Unit)
    ensures r.imports == u.imports && r.typeDecl.name == u.typeDecl.name
    ensures |u.typeDecl.members| <= |r.typeDecl.members|
    ensures r.typeDecl.members[..|u.typeDecl.members|] == u.typeDecl.members
  {
    if DeclaresType(u, className) then
      var td := u.typeDecl;
      u.(typeDecl := td.(members :=
        td.members + FieldMembers(fs) + if UsesLombok(td.annotations) then [] else Accessors(fs)))
    else u
  }

  /** The unit after mergeMethods has added the methods ds to the type named className. */
  function WithMethods(u: Unit, className: string, ds: seq<MethodDecl>): (r: Unit)
    ensures r.imports == u.imports && r.typeDecl.name == u.typeDecl.name
    ensures |u.typeDecl.members| <= |r.typeDecl.members|
    ensures r.typeDecl.members[..|u.typeDecl.members|] == u.typeDecl.members
  {
    if DeclaresType(u, className) then
      u.(typeDecl := u.typeDecl.(members := u.typeDecl.members + MethodMembers(ds)))
    else u
  }

  /**
   * What mergeJavaFile returns, given the parse of the fresh source and of
   * the existing file (None: not found).  Text comes back exactly for an
   * Example class or a missing file; a merged unit never loses anything of
   * the fresh one: its imports and members come first, unchanged.
   */
  function MergeJavaFileSpec(newFileSource: string, newUnit: Unit, fileName: string, existing: Option<Unit>): (r: MergeOutput)
    requires |fileName| >= |".java"|
    ensures r.Text? <==> EndsWith(PublicClassName(fileName), "Example") || existing.None?
    ensures r.Merged? ==> |newUnit.imports| <= |r.u.imports| && r.u.imports[..|newUnit.imports|] == newUnit.imports
    ensures r.Merged? ==> r.u.typeDecl.name == newUnit.typeDecl.name
    ensures r.Merged? ==>
      |newUnit.typeDecl.members| <= |r.u.typeDecl.members| &&
      r.u.typeDecl.members[..|newUnit.typeDecl.members|] == newUnit.typeDecl.members
  {
    var name := PublicClassName(fileName);
    if EndsWith(name, "Example") then Text(newFileSource)
    else if existing.None? then Text(MergeError)
    else
      var oldIx, newIx := IndexOf(existing.value), IndexOf(newUnit);
      var withImports := newUnit.(imports := newUnit.imports + SurvivingImports(oldIx, newIx));
      assert withImports.imports[..|newUnit.imports|] == newUnit.imports;
      if EndsWith(name, "Mapper") then Merged(WithMethods(withImports, name, SurvivingMethods(oldIx, newIx)))
      else Merged(WithFields(withImports, name, SurvivingFields(oldIx, newIx)))
  }

  /** keys.forEach(map::remove): the map without every key listed. */
  method RemoveEach<V>(m: OrderedMap<V>, keys: seq<string>) returns (r: OrderedMap<V>)
    requires Valid(m)
    ensures Valid(r) && r == Without(m, KeySet(keys))
  {
    r := m;
    WithoutNothing(m);
    assert KeySet(keys[..0]) == {};
    for i := 0 to |keys|
      invariant r == Without(m, KeySet(keys[..i]))
    {
      WithoutThenRemove(m, KeySet(keys[..i]), keys[i]);
      assert KeySet(keys[..i + 1]) == KeySet(keys[..i]) + {keys[i]};
      r := Remove(r, keys[i]);
    }
    assert keys[..|keys|] == keys;
  }

  /** imports.forEach(output::addImport): the imports go after the unit's own, in order. */
  method AddImports(output: CompilationUnit, imports: OrderedMap<Import>)
    requires Valid(imports)
    modifies output
    ensures output.Snapshot() == old(output.Snapshot()).(imports := old(output.imports) + Values(imports))
  {
    ghost var vs := Values(imports);
    var keys := imports.keys;
    assert old(output.imports) + vs[..0] == old(output.imports);
    for i := 0 to |keys|
      invariant output.Snapshot() == old(output.Snapshot()).(imports := old(output.imports) + vs[..i])
    {
      assert vs[..i + 1] == vs[..i] + [imports.values[keys[i]]];
      output.AddImport(imports.values[keys[i]]);
    }
    assert vs[..|keys|] == vs;
  }

  /**
   * mergeImports: remove from the existing index every import name the
   * fresh index holds, then add what is left to the output, in order.
   */
  method MergeImports(source: ClassInfo, target: ClassInfo, output: CompilationUnit)
    requires source != target && source.Valid() && target.Valid()
    modifies source, output
    ensures source.Valid()
    ensures source.Snapshot() == old(source.Snapshot()).(imports := Without(old(source.imports), target.imports.values.Keys))
    ensures output.Snapshot() == old(output.Snapshot()).(imports := old(output.imports) + Values(source.imports))
  {
    var left := RemoveEach(source.imports, target.imports.keys);
    assert KeySet(target.imports.keys) == target.imports.values.Keys;
    source.imports := left;
    AddImports(output, left);
  }

  /**
   * The mergedFields map: the existing fields, in order, that are neither
   * generated-tagged nor declared by the fresh unit.
   */
  method KeptFields(sourceFields: OrderedMap<FieldDecl>, sourceAutoGeneratedFields: OrderedMap<FieldDecl>,
                    targetFields: OrderedMap<FieldDecl>) returns (merged: OrderedMap<FieldDecl>)
    requires Valid(sourceFields)
    ensures merged == Without(sourceFields, sourceAutoGeneratedFields.values.Keys + targetFields.values.Keys)
  {
    ghost var dropped := sourceAutoGeneratedFields.values.Keys + targetFields.values.Keys;
    var keys := sourceFields.keys;
    merged := Empty();
    for i := 0 to |keys|
      invariant KeptPrefix(sourceFields, merged, i, dropped)
    {
      var k := keys[i];
      KeptStep(sourceFields, merged, i, sourceAutoGeneratedFields, targetFields);
      if k !in sourceAutoGeneratedFields.values && k !in targetFields.values {
        merged := Put(merged, k, sourceFields.values[k]);
      }
    }
    KeptAll(sourceFields, merged, dropped);
  }

  /** merged holds the first i keys of m that are not dropped, each with its value in m. */
  ghost predicate KeptPrefix<V>(m: OrderedMap<V>, merged: OrderedMap<V>, i: int, dropped: set<string>) {
    Valid(m) && Valid(merged) && 0 <= i <= |m.keys| &&
    merged.keys == FilterOut(m.keys[..i], dropped) &&
    forall k :: k in merged.values ==> k in m.values && merged.values[k] == m.values[k]
  }

  /** One step of the mergedFields loop keeps KeptPrefix. */
  lemma KeptStep<V, W>(m: OrderedMap<V>, merged: OrderedMap<V>, i: int, auto: OrderedMap<W>, target: OrderedMap<W>)
    requires KeptPrefix(m, merged, i, auto.values.Keys + target.values.Keys) && i < |m.keys|
    ensures m.keys[i] in m.values
    ensures m.keys[i] in auto.values || m.keys[i] in target.values ==>
      KeptPrefix(m, merged, i + 1, auto.values.Keys + target.values.Keys)
    ensures m.keys[i] !in auto.values && m.keys[i] !in target.values ==>
      KeptPrefix(m, Put(merged, m.keys[i], m.values[m.keys[i]]), i + 1, auto.values.Keys + target.values.Keys)
  {
    var dropped := auto.values.Keys + target.values.Keys;
    var k := m.keys[i];
    assert m.keys[..i + 1] == m.keys[..i] + [k];
    FilterOutSnoc(m.keys[..i], k, dropped);
    assert k !in m.keys[..i];
  }

  /** After the last key, the loop has built m without the dropped keys. */
  lemma KeptAll<V>(m: OrderedMap<V>, merged: OrderedMap<V>, dropped: set<string>)
    requires KeptPrefix(m, merged, |m.keys|, dropped)
    ensures merged == Without(m, dropped)
  {
    assert m.keys[..|m.keys|] == m.keys;
    FilteredIsWithout(m, merged, dropped);
  }

  /** A map holding the filtered keys of m, each with its value in m, is m without the dropped keys. */
  lemma FilteredIsWithout<V>(m: OrderedMap<V>, r: OrderedMap<V>, dropped: set<string>)
    requires Valid(m) && Valid(r) && r.keys == FilterOut(m.keys, dropped)
    requires forall k :: k in r.values ==> k in m.values && r.values[k] == m.values[k]
    ensures r == Without(m, dropped)
  {
    assert r.values == m.values - dropped;
  }

  /** The lookup getClassByName(className), then getInterfaceByName(className). */
  method FindType(output: CompilationUnit, className: string) returns (found: bool)
    ensures found == DeclaresType(output.Snapshot(), className)
  {
    var td := output.typeDecl;
    found := !td.isInterface && td.name == className;
    if !found {
      found := td.isInterface && td.name == className;
    }
  }

  /** The useLombok flag: does some annotation name contain Setter, Getter or Data? */
  method HasAccessorAnnotation(annotations: seq<string>) returns (useLombok: bool)
    ensures useLombok == UsesLombok(annotations)
  {
    useLombok := false;
    for j := 0 to |annotations|
      invariant !useLombok
      invariant forall t :: 0 <= t < j ==> !IsAccessorAnnotation(annotations[t])
    {
      var name := annotations[j];
      if Contains(name, "Setter") || Contains(name, "Getter") || Contains(name, "Data") {
        useLombok := true;
        break;
      }
    }
  }

  /** mergedFields.forEach(addMember): the kept fields go after the type's members, in order. */
  method AddFields(output: CompilationUnit, merged: OrderedMap<FieldDecl>)
    requires Valid(merged)
    modifies output
    ensures output.imports == old(output.imports)
    ensures output.typeDecl == old(output.typeDecl).(members := old(output.typeDecl.members) + FieldMembers(Values(merged)))
  {
    ghost var fs := Values(merged);
    var keys := merged.keys;
    assert old(output.typeDecl.members) + FieldMembers(fs[..0]) == old(output.typeDecl.members);
    for i := 0 to |keys|
      invariant output.imports == old(output.imports)
      invariant output.typeDecl == old(output.typeDecl).(members := old(output.typeDecl.members) + FieldMembers(fs[..i]))
    {
      assert FieldMembers(fs[..i + 1]) == FieldMembers(fs[..i]) + [FieldMember(merged.values[keys[i]])];
      output.AddMember(FieldMember(merged.values[keys[i]]));
    }
    assert fs[..|keys|] == fs;
  }

  /** A getter and then a setter for each kept field, in order, after the type's members. */
  method AddAccessors(output: CompilationUnit, merged: OrderedMap<FieldDecl>)
    requires Valid(merged)
    modifies output
    ensures output.imports == old(output.imports)
    ensures output.typeDecl == old(output.typeDecl).(members := old(output.typeDecl.members) + Accessors(Values(merged)))
  {
    ghost var fs := Values(merged);
    ghost var before := output.typeDecl.members;
    var keys := merged.keys;
    assert before + Accessors(fs[..0]) == before;
    for i := 0 to |keys|
      invariant output.imports == old(output.imports)
      invariant output.typeDecl == old(output.typeDecl).(members := before + Accessors(fs[..i]))
    {
      var v := merged.values[keys[i]];
      AccessorsStep(before, fs, i);
      output.AddMember(Getter(v.name));
      output.AddMember(Setter(v.name));
    }
    assert fs[..|keys|] == fs;
  }

  /** One turn of the accessor loop appends the getter and the setter of the next field. */
  lemma AccessorsStep(before: seq<Member>, fs: seq<FieldDecl>, i: nat)
    requires i < |fs|
    ensures before + Accessors(fs[..i + 1]) ==
      before + Accessors(fs[..i]) + [Getter(fs[i].name)] + [Setter(fs[i].name)]
  {
    assert fs[..i + 1][..i] == fs[..i];
  }

  /**
   * mergeFields: add the kept fields to the output type, then a getter and
   * a setter for each unless an annotation on the type stands for them.
   */
  method MergeFields(source: ClassInfo, target: ClassInfo, output: CompilationUnit, className: string)
    requires source.Valid() && target.Valid()
    modifies output
    ensures output.Snapshot() ==
      WithFields(old(output.Snapshot()), className, SurvivingFields(source.Snapshot(), target.Snapshot()))
  {
    var merged := KeptFields(source.fields, source.autoGeneratedFields, target.fields);
    var found := FindType(output, className);
    if found {
      var useLombok := HasAccessorAnnotation(output.typeDecl.annotations);
      AddFields(output, merged);
      if !useLombok {
        AddAccessors(output, merged);
      }
    }
  }

  /** methods.forEach(addMember): the methods go after the type's members, in order. */
  method AddMethods(output: CompilationUnit, methods: OrderedMap<MethodDecl>)
    requires Valid(methods)
    modifies output
    ensures output.imports == old(output.imports)
    ensures output.typeDecl == old(output.typeDecl).(members := old(output.typeDecl.members) + MethodMembers(Values(methods)))
  {
    ghost var ds := Values(methods);
    var keys := methods.keys;
    assert old(output.typeDecl.members) + MethodMembers(ds[..0]) == old(output.typeDecl.members);
    for i := 0 to |keys|
      invariant output.imports == old(output.imports)
      invariant output.typeDecl == old(output.typeDecl).(members := old(output.typeDecl.members) + MethodMembers(ds[..i]))
    {
      assert MethodMembers(ds[..i + 1]) == MethodMembers(ds[..i]) + [MethodMember(methods.values[keys[i]])];
      output.AddMember(MethodMember(methods.values[keys[i]]));
    }
    assert ds[..|keys|] == ds;
  }

  /**
   * mergeMethods: remove from the existing index every key the fresh index
   * holds, then add the methods left to the output type, in order.
   */
  method MergeMethods(source: ClassInfo, target: ClassInfo, output: CompilationUnit, className: string)
    requires source != target && source.Valid() && target.Valid()
    modifies source, output
    ensures source.Valid()
    ensures source.Snapshot() == old(source.Snapshot()).(methods := Without(old(source.methods), target.methods.values.Keys))
    ensures output.Snapshot() == WithMethods(old(output.Snapshot()), className, Values(source.methods))
  {
    var left := RemoveEach(source.methods, target.methods.keys);
    assert KeySet(target.methods.keys) == target.methods.values.Keys;
    source.methods := left;
    var found := FindType(output, className);
    if found {
      AddMethods(output, left);
    }
  }

  /**
   * mergeJavaFile.  The fresh source's parse is newUnit; the existing
   * file's parse is existing, None when the file is not found.
   */
  method MergeJavaFile(newFileSource: string, newUnit: Unit, fileName: string, existing: Option<Unit>)
    returns (r: MergeOutput)
    requires |fileName| >= |".java"|
    ensures r == MergeJavaFileSpec(newFileSource, newUnit, fileName, existing)
    ensures EndsWith(PublicClassName(fileName), "Example") ==> r == Text(newFileSource)
    ensures !EndsWith(PublicClassName(fileName), "Example") ==>
      (existing.None? <==> r == Text(MergeError)) && (existing.Some? <==> r.Merged?)
  {
    var publicClassName := fileName[..|fileName| - |".java"|];
    if EndsWith(publicClassName, "Example") {
      return Text(newFileSource);
    }
    var newCompilationUnit := new CompilationUnit(newUnit);
    if existing.None? {
      return Text(MergeError);
    }
    var oldCompilationUnit := new CompilationUnit(existing.value);
    var oldClassInfo := new ClassInfo();
    var newClassInfo := new ClassInfo();
    Visit(oldCompilationUnit, oldClassInfo);
    Visit(newCompilationUnit, newClassInfo);
    MergeImports(oldClassInfo, newClassInfo, newCompilationUnit);
    if EndsWith(publicClassName, "Mapper") {
      MergeMethods(oldClassInfo, newClassInfo, newCompilationUnit, publicClassName);
    } else {
      MergeFields(oldClassInfo, newClassInfo, newCompilationUnit, publicClassName);
    }
    r := Merged(newCompilationUnit.Snapshot());
  }
}
