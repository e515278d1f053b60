/**
 * A parsed Java compilation unit, reduced to what the merge looks at:
 * the imports, and one top-level class or interface with its annotation
 * names and its members.  Fields carry their leading comment's text,
 * methods their parameters; everything else about a declaration is kept
 * as opaque text so that "taken verbatim" can be stated.
 */
module JavaSyntax {

  datatype Option<+T> = None | Some(value: T)

  /** An import declaration; the merge keys it by its name as written (getNameAsString). */
  datatype Import = Import(name: string, isStatic: bool, isAsterisk: bool)

  /** A method parameter: its type as written and its name. */
  datatype Parameter = Parameter(typ: string, name: string)

  /**
   * A field declaration, keyed by the name of its (first) variable; the
   * comment is the content of its leading comment, if it has one.
   */
  datatype FieldDecl = FieldDecl(name: string, typ: string, comment: Option<string>, text: string)

  /** A method declaration; body stands for everything after the signature. */
  datatype MethodDecl = MethodDecl(name: string, returnType: string, params: seq<Parameter>, body: string)

  /**
   * A member of the type.  Getter and Setter are the accessors that
   * FieldDeclaration.createGetter/createSetter build for the named field;
   * OtherMember covers constructors, initialisers and nested types, which
   * the merge never indexes.
   */
  datatype Member =
    | FieldMember(field: FieldDecl)
    | MethodMember(decl: MethodDecl)
    | Getter(fieldName: string)
    | Setter(fieldName: string)
    | OtherMember(text: string)

  datatype TypeDecl = TypeDecl(name: string, isInterface: bool, annotations: seq<string>, members: seq<Member>)

  /** A compilation unit as a value. */
  datatype Unit = Unit(imports: seq<Import>, typeDecl: TypeDecl)

  /**
   * getClassByName(name) when the type is a class, getInterfaceByName(name)
   * when it is an interface: either lookup finds the type exactly when its
   * name is the one asked for.
   */
  predicate DeclaresType(u: Unit, name: string) {
    u.typeDecl.name == name
  }

  /** The mutable compilation unit the merge writes into. */
  class CompilationUnit {
    var imports: seq<Import>
    var typeDecl: TypeDecl

    constructor (u: Unit)
      ensures Snapshot() == u
    {
      imports := u.imports;
      typeDecl := u.typeDecl;
    }

    function Snapshot(): Unit
      reads this
    {
      Unit(imports, typeDecl)
    }

    /** output.addImport(i): the import goes after the ones already there. */
    method AddImport(i: Import)
      modifies this
      ensures imports == old(imports) + [i]
      ensures typeDecl == old(typeDecl)
    {
      imports := imports + [i];
    }

    /** classDeclaration.addMember(m): the member goes after the ones already there. */
    method AddMember(m: Member)
      modifies this
      ensures imports == old(imports)
      ensures typeDecl == old(typeDecl).(members := old(typeDecl.members) + [m])
    {
      typeDecl := typeDecl.(members := typeDecl.members + [m]);
    }
  }
}
