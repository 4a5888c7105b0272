/** One frame of the chain of types enclosing an inline collection: the
    target struct itself or one of its containing types. */
module TypeListNodes {
  import opened Diagnostics

  type SymbolId = nat

  /** What the host compiler tells about a named type symbol: its identity,
      simple name, minimally qualified display string and type parameters
      (so its arity is `|TypeParameters|`). */
  datatype TypeSymbol = TypeSymbol(Id: SymbolId, Name: string, DisplayName: string, TypeParameters: seq<string>)
  {
    function Arity(): nat { |TypeParameters| }
  }

  /** The modifier keywords a type declaration can carry. */
  datatype Keyword =
    | Public | Private | Protected | Internal | File | Static | Abstract | Sealed
    | ReadOnly | Ref | Unsafe | Partial | New

  /** The syntax node kinds a type declaration can have. */
  datatype DeclarationSyntax =
    | ClassDeclaration
    | InterfaceDeclaration
    | StructDeclaration
    | RecordDeclaration(IsRecordStruct: bool)
    | OtherTypeDeclaration(KindName: string)

  /** A type declaration's syntax: its kind, its modifier keywords, and the
      text of its modifier list as it stands in the file (the tokens with the
      trivia between them: comments, runs of spaces, line breaks). */
  datatype TypeDeclaration = TypeDeclaration(
    Syntax: DeclarationSyntax,
    Modifiers: seq<Keyword>,
    ModifierText: string,
    Location: LocationId)

  datatype TypeListNode = TypeListNode(
    DeclarationKind: string,
    FullName: string,
    IsFileLocal: bool,
    IsPartial: bool,
    IsPublicOrInternal: bool,
    IsReadOnly: bool,
    Location: LocationId,
    Modifiers: string,
    Name: string,
    TypeSymbol: TypeSymbol)

  /** The `NotSupportedException` thrown for any other declaration kind. */
  datatype Result<T> = Success(value: T) | NotSupported(kindName: string)

  /** The keyword the frame is re-declared with. */
  function DeclarationKind(syntax: DeclarationSyntax): Result<string>
  {
    match syntax
    case ClassDeclaration => Success("class")
    case InterfaceDeclaration => Success("interface")
    case StructDeclaration => Success("struct")
    case RecordDeclaration(isStruct) => Success(if isStruct then "record struct" else "record class")
    case OtherTypeDeclaration(kind) => NotSupported(kind)
  }

  /** The kind of the first modifier, `None` standing for `SyntaxKind.None`
      of the default token an empty list yields. */
  function FirstModifier(modifiers: seq<Keyword>): Option<Keyword>
  {
    if modifiers == [] then None else Some(modifiers[0])
  }

  /** The node's constructor: classifies the declaration from its syntax
      kind and its modifier list. */
  function NewTypeListNode(symbol: TypeSymbol, declaration: TypeDeclaration): Result<TypeListNode>
  {
    match DeclarationKind(declaration.Syntax)
    case NotSupported(kind) => NotSupported(kind)
    case Success(kind) =>
      var first := FirstModifier(declaration.Modifiers);
      Success(TypeListNode(
        DeclarationKind := kind,
        FullName := symbol.DisplayName,
        IsFileLocal := first == Some(File),
        IsPartial := Partial in declaration.Modifiers,
        IsPublicOrInternal := first == Some(Public) || first == Some(Internal),
        IsReadOnly := ReadOnly in declaration.Modifiers,
        Location := declaration.Location,
        Modifiers := declaration.ModifierText,
        Name := symbol.Name,
        TypeSymbol := symbol))
  }

  /** Exactly the five supported kinds build a node, and distinct supported
      kinds are re-declared with distinct keywords. */
  lemma DeclarationKindSupport(a: DeclarationSyntax, b: DeclarationSyntax)
    ensures DeclarationKind(a).Success? <==> !a.OtherTypeDeclaration?
    ensures DeclarationKind(a).Success? && DeclarationKind(a) == DeclarationKind(b) ==> a == b
  {
  }

  /** How the modifier list classifies a frame: `file` and the accessibility
      are read from the first modifier only, `partial` and `readonly` from
      anywhere in the list. */
  lemma Classification(symbol: TypeSymbol, declaration: TypeDeclaration)
    requires NewTypeListNode(symbol, declaration).Success?
    ensures var node := NewTypeListNode(symbol, declaration).value;
      var mods := declaration.Modifiers;
      && (node.IsFileLocal <==> |mods| > 0 && mods[0] == File)
      && (node.IsPublicOrInternal <==> |mods| > 0 && (mods[0] == Public || mods[0] == Internal))
      && (node.IsPartial <==> exists i | 0 <= i < |mods| :: mods[i] == Partial)
      && (node.IsReadOnly <==> exists i | 0 <= i < |mods| :: mods[i] == ReadOnly)
      && (mods == [] ==> !node.IsFileLocal && !node.IsPublicOrInternal)
      && node.Modifiers == declaration.ModifierText
      && node.Name == symbol.Name && node.FullName == symbol.DisplayName
  {
  }

  /** A `public` that is not the first modifier does not make a frame public. */
  lemma LaterPublicDoesNotCount(symbol: TypeSymbol, text: string, location: LocationId)
    ensures var node := NewTypeListNode(symbol, TypeDeclaration(ClassDeclaration, [Partial, Public], text, location));
      node.Success? && !node.value.IsPublicOrInternal && node.value.IsPartial
  {
  }
}
