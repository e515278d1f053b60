/**
 * The declaration index of DefaultShellCallback: ClassInfo's four
 * insertion-ordered maps and the ClassVisitor that fills them by one walk
 * over a compilation unit, with the method key (getMethodTag) and the
 * generated-field test (isGenerated).
 */
module ClassVisitor {
  import opened Strings
  import opened MergeConstants
  import opened OrderedMaps
  import opened JavaSyntax

  /** The four maps of a ClassInfo, as one value. */
  datatype Index = Index(
    imports: OrderedMap<Import>,
    fields: OrderedMap<FieldDecl>,
    autoGeneratedFields: OrderedMap<FieldDecl>,
    methods: OrderedMap<MethodDecl>)

  ghost predicate ValidIndex(ix: Index) {
    Valid(ix.imports) && Valid(ix.fields) && Valid(ix.autoGeneratedFields) && Valid(ix.methods)
  }

  function EmptyIndex(): (ix: Index)
    ensures ValidIndex(ix)
  {
    Index(Empty(), Empty(), Empty(), Empty())
  }

  /** ";type:name" for each parameter, in order. */
  function ParamsTag(ps: seq<Parameter>): string {
    if ps == [] then "" else ";" + ps[0].typ + ":" + ps[0].name + ParamsTag(ps[1..])
  }

  /** The key of a method in the index: its name, then ";type:name" for each parameter. */
  function MethodTag(m: MethodDecl): string {
    m.name + ParamsTag(m.params)
  }

  /** A field is generated-tagged when it has a comment and a marker occurs in it. */
  predicate IsGeneratedField(f: FieldDecl) {
    f.comment.Some? && CommentContainsTag(f.comment.value)
  }

  /** The imports under their names, in order. */
  function ImportPairs(imps: seq<Import>): seq<(string, Import)> {
    seq(|imps|, i requires 0 <= i < |imps| => (imps[i].name, imps[i]))
  }

  /** The fields of ms (only the generated-tagged ones when generatedOnly), under their names. */
  function FieldPairs(ms: seq<Member>, generatedOnly: bool): seq<(string, FieldDecl)>
    decreases |ms|
  {
    if ms == [] then [] else
      var m := ms[|ms| - 1];
      FieldPairs(ms[..|ms| - 1], generatedOnly) +
        if m.FieldMember? && (generatedOnly ==> IsGeneratedField(m.field)) then [(m.field.name, m.field)] else []
  }

  /** The methods of ms, under their method tags. */
  function MethodPairs(ms: seq<Member>): seq<(string, MethodDecl)>
    decreases |ms|
  {
    if ms == [] then [] else
      var m := ms[|ms| - 1];
      MethodPairs(ms[..|ms| - 1]) + if m.MethodMember? then [(MethodTag(m.decl), m.decl)] else []
  }

  /** What ClassVisitor leaves in a fresh ClassInfo after visiting u. */
  function IndexOf(u: Unit): (ix: Index)
    ensures ValidIndex(ix)
  {
    MembersIndex(u.imports, u.typeDecl.members)
  }

  /** ClassInfo: the index under construction. */
  class ClassInfo {
    var imports: OrderedMap<Import>
    var fields: OrderedMap<FieldDecl>
    var autoGeneratedFields: OrderedMap<FieldDecl>
    var methods: OrderedMap<MethodDecl>

    constructor ()
      ensures Snapshot() == EmptyIndex()
    {
      imports, fields, autoGeneratedFields, methods := Empty(), Empty(), Empty(), Empty();
    }

    function Snapshot(): Index
      reads this
    {
      Index(imports, fields, autoGeneratedFields, methods)
    }

    ghost predicate Valid()
      reads this
    {
      ValidIndex(Snapshot())
    }
  }

  /** isGenerated: does one of the tags occur in the comment text? */
  method IsGenerated(text: string) returns (r: bool)
    ensures r == CommentContainsTag(text)
  {
    for k := 0 to |OldElementTags|
      invariant forall j :: 0 <= j < k ==> !Contains(text, OldElementTags[j])
    {
      if Contains(text, OldElementTags[k]) {
        return true;
      }
    }
    return false;
  }

  /** getMethodTag: the name, then ";" type ":" name for every parameter. */
  method GetMethodTag(m: MethodDecl) returns (tag: string)
    ensures tag == MethodTag(m)
  {
    tag := m.name;
    var ps := m.params;
    for i := 0 to |ps|
      invariant tag == m.name + ParamsTag(ps[..i])
    {
      ParamsTagSnoc(ps[..i], ps[i]);
      assert ps[..i + 1] == ps[..i] + [ps[i]];
      tag := tag + ";" + ps[i].typ + ":" + ps[i].name;
    }
    assert ps[..|ps|] == ps;
  }

  /** visit(ImportDeclaration): put it under its name. */
  method VisitImport(n: Import, info: ClassInfo)
    requires info.Valid()
    modifies info
    ensures info.Valid()
    ensures info.Snapshot() == old(info.Snapshot()).(imports := Put(old(info.imports), n.name, n))
  {
    info.imports := Put(info.imports, n.name, n);
  }

  /** visit(MethodDeclaration): put it under its method tag. */
  method VisitMethod(n: MethodDecl, info: ClassInfo)
    requires info.Valid()
    modifies info
    ensures info.Valid()
    ensures info.Snapshot() == old(info.Snapshot()).(methods := Put(old(info.methods), MethodTag(n), n))
  {
    var tag := GetMethodTag(n);
    info.methods := Put(info.methods, tag, n);
  }

  /**
   * visit(FieldDeclaration): put it under its variable's name, and into
   * the generated map as well when its comment carries a marker.
   */
  method VisitField(n: FieldDecl, info: ClassInfo)
    requires info.Valid()
    modifies info
    ensures info.Valid()
    ensures info.Snapshot() == old(info.Snapshot()).(
      fields := Put(old(info.fields), n.name, n),
      autoGeneratedFields :=
        if IsGeneratedField(n) then Put(old(info.autoGeneratedFields), n.name, n)
        else old(info.autoGeneratedFields))
  {
    var comment := n.comment;
    info.fields := Put(info.fields, n.name, n);
    if comment.Some? {
      var generated := IsGenerated(comment.value);
      if generated {
        info.autoGeneratedFields := Put(info.autoGeneratedFields, n.name, n);
      }
    }
  }

  /**
   * The index after visiting one more member: a field is put under its
   * name (and into the generated map when tagged), a method under its
   * tag; other members change nothing.
   */
  function VisitStep(ix: Index, m: Member): (r: Index)
    requires ValidIndex(ix)
    ensures ValidIndex(r) && r.imports == ix.imports
  {
    match m
    case FieldMember(f) =>
      ix.(fields := Put(ix.fields, f.name, f),
          autoGeneratedFields :=
            if IsGeneratedField(f) then Put(ix.autoGeneratedFields, f.name, f) else ix.autoGeneratedFields)
    case MethodMember(d) => ix.(methods := Put(ix.methods, MethodTag(d), d))
    case _ => ix
  }

  /** The index of the imports imps and the members ms. */
  function MembersIndex(imps: seq<Import>, ms: seq<Member>): (ix: Index)
    ensures ValidIndex(ix)
  {
    Index(PutAll(ImportPairs(imps)), PutAll(FieldPairs(ms, false)),
          PutAll(FieldPairs(ms, true)), PutAll(MethodPairs(ms)))
  }

  /** Visiting the members one at a time builds the index of all of them. */
  lemma MembersIndexSnoc(imps: seq<Import>, ms: seq<Member>, m: Member)
    ensures MembersIndex(imps, ms + [m]) == VisitStep(MembersIndex(imps, ms), m)
  {
    FieldIndexSnoc(ms, m, false);
    FieldIndexSnoc(ms, m, true);
    MethodIndexSnoc(ms, m);
  }

  lemma FieldIndexSnoc(ms: seq<Member>, m: Member, generatedOnly: bool)
    ensures PutAll(FieldPairs(ms + [m], generatedOnly)) ==
      if m.FieldMember? && (generatedOnly ==> IsGeneratedField(m.field))
      then Put(PutAll(FieldPairs(ms, generatedOnly)), m.field.name, m.field)
      else PutAll(FieldPairs(ms, generatedOnly))
  {
    var all := ms + [m];
    assert all[..|ms|] == ms;
    if m.FieldMember? && (generatedOnly ==> IsGeneratedField(m.field)) {
      assert FieldPairs(all, generatedOnly) == FieldPairs(ms, generatedOnly) + [(m.field.name, m.field)];
      PutAllSnoc(FieldPairs(ms, generatedOnly), (m.field.name, m.field));
    } else {
      assert FieldPairs(all, generatedOnly) == FieldPairs(ms, generatedOnly);
    }
  }

  lemma MethodIndexSnoc(ms: seq<Member>, m: Member)
    ensures PutAll(MethodPairs(ms + [m])) ==
      if m.MethodMember? then Put(PutAll(MethodPairs(ms)), MethodTag(m.decl), m.decl)
      else PutAll(MethodPairs(ms))
  {
    var all := ms + [m];
    assert all[..|ms|] == ms;
    if m.MethodMember? {
      assert MethodPairs(all) == MethodPairs(ms) + [(MethodTag(m.decl), m.decl)];
      PutAllSnoc(MethodPairs(ms), (MethodTag(m.decl), m.decl));
    } else {
      assert MethodPairs(all) == MethodPairs(ms);
    }
  }

  /**
   * One member of the type: fields and methods go to their visit method,
   * other members are not indexed.
   */
  method VisitMember(m: Member, info: ClassInfo)
    requires info.Valid()
    modifies info
    ensures info.Valid()
    ensures info.Snapshot() == VisitStep(old(info.Snapshot()), m)
  {
    match m
    case FieldMember(f) => VisitField(f, info);
    case MethodMember(d) => VisitMethod(d, info);
    case _ =>
  }

  /** classVisitor.visit(unit, info): every import, then every member of the type, in order. */
  method Visit(cu: CompilationUnit, info: ClassInfo)
    requires info.Snapshot() == EmptyIndex()
    modifies info
    ensures info.Snapshot() == IndexOf(cu.Snapshot())
  {
    VisitImports(cu.imports, info);
    VisitMembers(cu.imports, cu.typeDecl.members, info);
  }

  /** The imports of the unit, one visit(ImportDeclaration) each. */
  method VisitImports(imps: seq<Import>, info: ClassInfo)
    requires info.Snapshot() == EmptyIndex()
    modifies info
    ensures info.Valid() && info.Snapshot() == MembersIndex(imps, [])
  {
    for i := 0 to |imps|
      invariant info.Valid()
      invariant info.Snapshot() == EmptyIndex().(imports := PutAll(ImportPairs(imps[..i])))
    {
      ImportIndexSnoc(imps, i);
      VisitImport(imps[i], info);
    }
    assert imps[..|imps|] == imps;
  }

  lemma ImportIndexSnoc(imps: seq<Import>, i: nat)
    requires i < |imps|
    ensures PutAll(ImportPairs(imps[..i + 1])) == Put(PutAll(ImportPairs(imps[..i])), imps[i].name, imps[i])
  {
    assert ImportPairs(imps[..i + 1]) == ImportPairs(imps[..i]) + [(imps[i].name, imps[i])];
    PutAllSnoc(ImportPairs(imps[..i]), (imps[i].name, imps[i]));
  }

  /** The members of the type, one visit each, after the imports. */
  method VisitMembers(imps: seq<Import>, ms: seq<Member>, info: ClassInfo)
    requires info.Valid() && info.Snapshot() == MembersIndex(imps, [])
    modifies info
    ensures info.Snapshot() == MembersIndex(imps, ms)
  {
    for i := 0 to |ms|
      invariant info.Valid()
      invariant info.Snapshot() == MembersIndex(imps, ms[..i])
    {
      assert ms[..i + 1] == ms[..i] + [ms[i]];
      MembersIndexSnoc(imps, ms[..i], ms[i]);
      VisitMember(ms[i], info);
    }
    assert ms[..|ms|] == ms;
  }

  // Facts about the method key.

  lemma {:induction false} ParamsTagSnoc(ps: seq<Parameter>, p: Parameter)
    ensures ParamsTag(ps + [p]) == ParamsTag(ps) + ";" + p.typ + ":" + p.name
  {
    if ps != [] {
      assert (ps + [p])[1..] == ps[1..] + [p];
      ParamsTagSnoc(ps[1..], p);
    }
  }

  /** A Java identifier never holds ';' or ':', and a type as written never holds ':'. */
  predicate PlainSignature(m: MethodDecl) {
    ';' !in m.name &&
    forall p :: p in m.params ==> ':' !in p.typ && ';' !in p.name
  }

  /** The parameter part of a key is empty or starts with ';'. */
  lemma ParamsTagHead(ps: seq<Parameter>)
    ensures ParamsTag(ps) == [] || ParamsTag(ps)[0] == ';'
  {
  }

  lemma {:induction false} ParamsTagInjective(ps: seq<Parameter>, qs: seq<Parameter>)
    requires forall p :: p in ps ==> ':' !in p.typ && ';' !in p.name
    requires forall p :: p in qs ==> ':' !in p.typ && ';' !in p.name
    requires ParamsTag(ps) == ParamsTag(qs)
    ensures ps == qs
  {
    if ps != [] && qs != [] {
      ParamHeadsEqual(ps[0], ps[1..], qs[0], qs[1..]);
      assert ps == [ps[0]] + ps[1..] && qs == [qs[0]] + qs[1..];
      ParamsTagInjective(ps[1..], qs[1..]);
    }
  }

  /** Keys that agree agree on their first parameter and on the rest. */
  lemma ParamHeadsEqual(p: Parameter, ps: seq<Parameter>, q: Parameter, qs: seq<Parameter>)
    requires ':' !in p.typ && ';' !in p.name && ':' !in q.typ && ';' !in q.name
    requires ParamsTag([p] + ps) == ParamsTag([q] + qs)
    ensures p == q && ParamsTag(ps) == ParamsTag(qs)
  {
    var restP, restQ := ParamsTag(ps), ParamsTag(qs);
    var xp, xq := ":" + (p.name + restP), ":" + (q.name + restQ);
    assert p.typ + xp == q.typ + xq by {
      ParamsTagCons(p, ps);
      ParamsTagCons(q, qs);
      DropFirst(';', p.typ + xp, q.typ + xq);
    }
    SplitAtSeparator(p.typ, xp, q.typ, xq, ':');
    assert p.name + restP == q.name + restQ by {
      DropFirst(':', p.name + restP, q.name + restQ);
    }
    ParamsTagHead(ps);
    ParamsTagHead(qs);
    SplitAtSeparator(p.name, restP, q.name, restQ, ';');
  }

  lemma ParamsTagCons(p: Parameter, ps: seq<Parameter>)
    ensures ParamsTag([p] + ps) == [';'] + (p.typ + (":" + (p.name + ParamsTag(ps))))
  {
    assert ([p] + ps)[1..] == ps;
  }

  lemma DropFirst(c: char, s: string, t: string)
    requires [c] + s == [c] + t
    ensures s == t
  {
    assert s == ([c] + s)[1..];
  }

  /**
   * Two methods get the same key exactly when they have the same name and
   * the same parameter list, names included; the return type plays no part.
   */
  lemma MethodTagIdentity(m1: MethodDecl, m2: MethodDecl)
    requires PlainSignature(m1) && PlainSignature(m2)
    ensures MethodTag(m1) == MethodTag(m2) <==> m1.name == m2.name && m1.params == m2.params
  {
    if MethodTag(m1) == MethodTag(m2) {
      ParamsTagHead(m1.params);
      ParamsTagHead(m2.params);
      SplitAtSeparator(m1.name, ParamsTag(m1.params), m2.name, ParamsTag(m2.params), ';');
      ParamsTagInjective(m1.params, m2.params);
    }
  }

  /** Methods that differ only in a parameter's name get different keys. */
  lemma RenamedParameterChangesTag(m1: MethodDecl, m2: MethodDecl, i: nat)
    requires PlainSignature(m1) && PlainSignature(m2)
    requires m1.name == m2.name && |m1.params| == |m2.params|
    requires i < |m1.params| && m1.params[i].typ == m2.params[i].typ
    requires m1.params[i].name != m2.params[i].name
    ensures MethodTag(m1) != MethodTag(m2)
  {
    MethodTagIdentity(m1, m2);
  }

  // Facts about the index.

  /** A field declared with name k, as the visitor sees it (only generated-tagged ones when generatedOnly). */
  predicate DeclaresField(ms: seq<Member>, k: string, generatedOnly: bool) {
    exists i :: 0 <= i < |ms| && ms[i].FieldMember? && ms[i].field.name == k &&
      (generatedOnly ==> IsGeneratedField(ms[i].field))
  }

  lemma {:induction false} FieldPairKeys(ms: seq<Member>, k: string, generatedOnly: bool)
    ensures k in KeysOf(FieldPairs(ms, generatedOnly)) <==> DeclaresField(ms, k, generatedOnly)
    decreases |ms|
  {
    if ms != [] {
      var n := |ms| - 1;
      var m := ms[n];
      var tail := if m.FieldMember? && (generatedOnly ==> IsGeneratedField(m.field)) then [(m.field.name, m.field)] else [];
      FieldPairKeys(ms[..n], k, generatedOnly);
      assert FieldPairs(ms, generatedOnly) == FieldPairs(ms[..n], generatedOnly) + tail;
      assert KeysOf(FieldPairs(ms, generatedOnly)) == KeysOf(FieldPairs(ms[..n], generatedOnly)) + KeysOf(tail);
      if DeclaresField(ms[..n], k, generatedOnly) {
        var i :| 0 <= i < n && ms[..n][i].FieldMember? && ms[..n][i].field.name == k &&
          (generatedOnly ==> IsGeneratedField(ms[..n][i].field));
        assert ms[i] == ms[..n][i];
      } else if DeclaresField(ms, k, generatedOnly) {
        var i :| 0 <= i < |ms| && ms[i].FieldMember? && ms[i].field.name == k &&
          (generatedOnly ==> IsGeneratedField(ms[i].field));
        assert ms[..n] + [m] == ms;
        assert KeysOf(tail) == [k];
      }
    }
  }

  /**
   * The index of a unit: fields holds one entry per declared field name,
   * autoGeneratedFields one entry per name of a generated-tagged field, and
   * every key of autoGeneratedFields is a key of fields.
   */
  lemma IndexFields(u: Unit, k: string)
    ensures k in IndexOf(u).fields.values <==> DeclaresField(u.typeDecl.members, k, false)
    ensures k in IndexOf(u).autoGeneratedFields.values <==> DeclaresField(u.typeDecl.members, k, true)
    ensures k in IndexOf(u).autoGeneratedFields.values ==> k in IndexOf(u).fields.values
  {
    var ms := u.typeDecl.members;
    PutAllKeys(FieldPairs(ms, false));
    PutAllKeys(FieldPairs(ms, true));
    FieldPairKeys(ms, k, false);
    FieldPairKeys(ms, k, true);
  }

  /**
   * The import index holds one entry per imported name: the last import
   * with that name, at the place of the first one.
   */
  lemma IndexImports(u: Unit)
    ensures forall k :: k in IndexOf(u).imports.values <==> exists i :: 0 <= i < |u.imports| && u.imports[i].name == k
    ensures forall k :: k in IndexOf(u).imports.values ==>
      exists i :: 0 <= i < |u.imports| && IndexOf(u).imports.values[k] == u.imports[i] &&
        u.imports[i].name == k && (forall j :: i < j < |u.imports| ==> u.imports[j].name != k)
    ensures forall k :: k in IndexOf(u).imports.keys <==> k in KeysOf(ImportPairs(u.imports))
    ensures forall a, b :: 0 <= a < b < |IndexOf(u).imports.keys| ==>
      FirstIndex(KeysOf(ImportPairs(u.imports)), IndexOf(u).imports.keys[a]) <
      FirstIndex(KeysOf(ImportPairs(u.imports)), IndexOf(u).imports.keys[b])
  {
    var ps := ImportPairs(u.imports);
    PutAllKeys(ps);
    PutAllOrder(ps);
    forall k | k in IndexOf(u).imports.values
      ensures exists i :: (0 <= i < |u.imports| && IndexOf(u).imports.values[k] == u.imports[i] &&
        u.imports[i].name == k && (forall j :: i < j < |u.imports| ==> u.imports[j].name != k))
    {
      PutAllLastValue(ps, k);
      var i := LastIndex(ps, k);
      assert forall j :: i < j < |u.imports| ==> ps[j].0 == u.imports[j].name;
    }
    forall k | exists i :: 0 <= i < |u.imports| && u.imports[i].name == k
      ensures k in KeysOf(ps)
    {
      var i :| 0 <= i < |u.imports| && u.imports[i].name == k;
      assert KeysOf(ps)[i] == k;
    }
  }
}
