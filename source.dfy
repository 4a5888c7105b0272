/** The composer: turns a valid descriptor into the text of one inline
    collection type, fragment by fragment. Template texts and
    `string.Format` are opaque (`Templates`), and the composer tests its
    capabilities through a `Capabilities.Layout`, so it can be read with
    either enum revision's bit values. */
module Source {
  import opened Bits
  import opened Text
  import opened Builder
  import opened TypeListNodes
  import Capabilities
  import TI = TypeInfo
  import IcFlags = InlineCollectionFlags

  /** The templates the composer formats. */
  datatype Template =
    | ArrayConversionOperators | AsSpanReadOnlySpanMethods | ClearMethod
    | CollectionBuilderAttribute | CollectionBuilderClassDeclaration | ContainsMethod
    | CopyToMethod | DefaultConstructor | FillMethod | GetEnumeratorBody | GetEnumeratorMethod
    | ICollectionImplementation | ICollectionTContainsImplExplicit | ICollectionTImplementation
    | IEnumerableImplMethod | IEnumerableImplIEnumerableT | IEnumerableImplExplicit
    | IEnumerableTImplExplicit | IInlineCollectionImplExplicit | IListImplementation
    | IListTIndexOfImplExplicit | IListTImplementation | IndexOfMethod | InlineCollection
    | InlineCollectionStructDeclaration | IReadOnlyCollectionTImplementation | IReadOnlyListTImplementation
    | IStructuralComparableImplementation | IStructuralEquatableImplementation | LengthProperty
    | ReadOnlySpanConstructor | ToArrayMethod | TryCopyToMethod

  /** The template texts, `string.Format` over them, the member separator
      (`Template_NewLineIndent2`), the text a line break is re-indented with
      (`Template_NewLine`) and the host's line terminator
      (`Environment.NewLine`, which `AppendLine` writes). */
  datatype Templates = Templates(
    TemplateText: Template -> string,
    Format: (Template, seq<string>) -> string,
    NewLineIndent2: string,
    NewLine: string,
    LineTerminator: string)

  // ---- fragment selection ---------------------------------------------------------

  function GetSourceIf(t: Templates, condition: bool, template: Template, args: seq<string>): string
  {
    if condition then t.Format(template, args) else ""
  }

  function GetSourceByFlag(t: Templates, template: Template, flagToCheck: Flags, flags: Flags, args: seq<string>): string
  {
    GetSourceIf(t, HasFlag(flags, flagToCheck), template, args)
  }

  /** None of `flagsToCheck` is present in `flags`. */
  predicate HasNoneOf(flags: Flags, flagsToCheck: seq<Flags>)
  {
    forall i | 0 <= i < |flagsToCheck| :: !HasFlag(flags, flagsToCheck[i])
  }

  /** `int.ToString()`. */
  function IntText(n: int): string
  {
    if n < 0 then "-" + Decimal(-n) else Decimal(n)
  }

  const SynchronizedAccessNotSupported := "NotSupportedException_SynchronizedAccessNotSupported"
  const FixedSizeCollection := "NotSupportedException_FixedSizeCollection"

  function ArrayConversionOperatorsSource(t: Templates, L: Capabilities.Layout, info: TI.TypeInfo): string
  {
    GetSourceByFlag(t, Template.ArrayConversionOperators, L.ArrayConversionOperators, info.Flags,
      [info.ElementType, info.FullName])
  }

  function AsSpanReadOnlySpanMethodsSource(t: Templates, L: Capabilities.Layout, info: TI.TypeInfo): string
  {
    GetSourceByFlag(t, Template.AsSpanReadOnlySpanMethods, L.AsSpanReadOnlySpanMethods, info.Flags,
      ["public ", info.ElementType, "", info.ElementZeroFieldName, info.LengthPropertyOrValue])
  }

  function ClearMethodSource(t: Templates, L: Capabilities.Layout, info: TI.TypeInfo): string
  {
    GetSourceByFlag(t, Template.ClearMethod, L.ClearMethod, info.Flags, [])
  }

  function CollectionBuilderAttributeSource(t: Templates, L: Capabilities.Layout, info: TI.TypeInfo): string
  {
    GetSourceByFlag(t, Template.CollectionBuilderAttribute, L.CollectionBuilder, info.Flags,
      [info.CollectionBuilderName])
  }

  function CollectionBuilderClassDeclarationSource(t: Templates, L: Capabilities.Layout, info: TI.TypeInfo): string
  {
    GetSourceByFlag(t, Template.CollectionBuilderClassDeclaration, L.CollectionBuilder, info.Flags,
      [info.CollectionBuilderName, info.FullNameWithContainingTypeNames,
       info.CollectionBuilderTypeParameterList, info.ElementType])
  }

  function ContainsMethodSource(t: Templates, L: Capabilities.Layout, info: TI.TypeInfo): string
  {
    GetSourceByFlag(t, Template.ContainsMethod, L.ContainsMethod, info.Flags, [info.ElementType])
  }

  function CopyToMethodSource(t: Templates, L: Capabilities.Layout, info: TI.TypeInfo): string
  {
    GetSourceByFlag(t, Template.CopyToMethod, L.CopyToMethod, info.Flags, [info.ElementType])
  }

  /** The parameterless constructor, present whatever the flags. */
  function DefaultConstructorSource(t: Templates, info: TI.TypeInfo): string
  {
    t.Format(Template.DefaultConstructor, [info.Name])
  }

  function FillMethodSource(t: Templates, L: Capabilities.Layout, info: TI.TypeInfo): string
  {
    GetSourceByFlag(t, Template.FillMethod, L.FillMethod, info.Flags, [info.ElementType])
  }

  function GetEnumeratorBodySource(t: Templates, length: string): string
  {
    t.Format(Template.GetEnumeratorBody, [length])
  }

  function GetEnumeratorMethodSource(t: Templates, L: Capabilities.Layout, info: TI.TypeInfo): string
  {
    GetSourceByFlag(t, Template.GetEnumeratorMethod, L.GetEnumeratorMethod, info.Flags,
      [info.ElementType, GetEnumeratorBodySource(t, info.LengthPropertyOrValue)])
  }

  function ICollectionSource(t: Templates, L: Capabilities.Layout, info: TI.TypeInfo): string
  {
    GetSourceByFlag(t, Template.ICollectionImplementation, L.ICollection, info.Flags,
      [info.LengthPropertyOrValue, SynchronizedAccessNotSupported, info.ElementType])
  }

  /** The explicit `ICollection<T>.Contains`, needed when no public one is. */
  function ICollectionTContainsMethodSource(t: Templates, L: Capabilities.Layout, info: TI.TypeInfo): string
  {
    GetSourceIf(t, HasNoneOf(info.Flags, [L.ContainsMethod, L.Everything]),
      Template.ICollectionTContainsImplExplicit, [info.ElementType])
  }

  function ICollectionTSource(t: Templates, L: Capabilities.Layout, info: TI.TypeInfo): string
  {
    GetSourceByFlag(t, Template.ICollectionTImplementation, L.ICollectionT, info.Flags,
      [info.ElementType, info.LengthPropertyOrValue, FixedSizeCollection,
       ICollectionTContainsMethodSource(t, L, info)])
  }

  /** `IEnumerable.GetEnumerator`: through the public method, else through
      the `IEnumerable<T>` implementation, else spelled out. */
  function IEnumerableSource(t: Templates, L: Capabilities.Layout, info: TI.TypeInfo): string
  {
    if HasFlag(info.Flags, L.IEnumerable) then
      if HasFlag(info.Flags, L.GetEnumeratorMethod) then t.TemplateText(Template.IEnumerableImplMethod)
      else if HasFlag(info.Flags, L.IEnumerableT) then t.Format(Template.IEnumerableImplIEnumerableT, [info.ElementType])
      else t.Format(Template.IEnumerableImplExplicit, [GetEnumeratorBodySource(t, info.LengthPropertyOrValue)])
    else ""
  }

  function IEnumerableTSource(t: Templates, L: Capabilities.Layout, info: TI.TypeInfo): string
  {
    GetSourceIf(t, HasFlag(info.Flags, L.IEnumerableT) && !HasFlag(info.Flags, L.GetEnumeratorMethod),
      Template.IEnumerableTImplExplicit,
      [info.ElementType, GetEnumeratorBodySource(t, info.LengthPropertyOrValue)])
  }

  function IInlineCollectionSource(t: Templates, L: Capabilities.Layout, info: TI.TypeInfo): string
  {
    GetSourceIf(t, !HasFlag(info.Flags, L.AsSpanReadOnlySpanMethods), Template.IInlineCollectionImplExplicit,
      ["", info.ElementType, "IInlineCollection<" + info.ElementType + ">.", info.ElementZeroFieldName,
       info.LengthPropertyOrValue])
  }

  function IListSource(t: Templates, L: Capabilities.Layout, info: TI.TypeInfo): string
  {
    GetSourceByFlag(t, Template.IListImplementation, L.IList, info.Flags, [info.ElementType, FixedSizeCollection])
  }

  /** The explicit `IList<T>.IndexOf`, needed when no public one is. */
  function IListTIndexOfMethodSource(t: Templates, L: Capabilities.Layout, info: TI.TypeInfo): string
  {
    GetSourceIf(t, HasNoneOf(info.Flags, [L.IndexOfMethod, L.Everything]),
      Template.IListTIndexOfImplExplicit, [info.ElementType])
  }

  function IListTSource(t: Templates, L: Capabilities.Layout, info: TI.TypeInfo): string
  {
    GetSourceByFlag(t, Template.IListTImplementation, L.IListT, info.Flags,
      [info.ElementType, IListTIndexOfMethodSource(t, L, info), FixedSizeCollection])
  }

  function IndexOfMethodSource(t: Templates, L: Capabilities.Layout, info: TI.TypeInfo): string
  {
    GetSourceByFlag(t, Template.IndexOfMethod, L.IndexOfMethod, info.Flags, [info.ElementType])
  }

  function IReadOnlyCollectionTSource(t: Templates, L: Capabilities.Layout, info: TI.TypeInfo): string
  {
    GetSourceByFlag(t, Template.IReadOnlyCollectionTImplementation, L.IReadOnlyCollectionT, info.Flags,
      [info.ElementType, info.LengthPropertyOrValue])
  }

  function IReadOnlyListTSource(t: Templates, L: Capabilities.Layout, info: TI.TypeInfo): string
  {
    GetSourceByFlag(t, Template.IReadOnlyListTImplementation, L.IReadOnlyListT, info.Flags, [info.ElementType])
  }

  function IStructuralComparableSource(t: Templates, L: Capabilities.Layout, info: TI.TypeInfo): string
  {
    GetSourceByFlag(t, Template.IStructuralComparableImplementation, L.IStructuralComparable, info.Flags,
      [info.FullName, info.ElementType])
  }

  function IStructuralEquatableSource(t: Templates, L: Capabilities.Layout, info: TI.TypeInfo): string
  {
    GetSourceByFlag(t, Template.IStructuralEquatableImplementation, L.IStructuralEquatable, info.Flags,
      [info.FullName, info.ElementType])
  }

  function LengthPropertySource(t: Templates, L: Capabilities.Layout, info: TI.TypeInfo): string
  {
    GetSourceByFlag(t, Template.LengthProperty, L.LengthProperty, info.Flags, [IntText(info.Length as int)])
  }

  function ReadOnlySpanConstructorSource(t: Templates, L: Capabilities.Layout, info: TI.TypeInfo): string
  {
    GetSourceByFlag(t, Template.ReadOnlySpanConstructor, L.ReadOnlySpanConstructor, info.Flags,
      [info.Name, info.ElementType, info.FullName])
  }

  function ToArrayMethodSource(t: Templates, L: Capabilities.Layout, info: TI.TypeInfo): string
  {
    GetSourceByFlag(t, Template.ToArrayMethod, L.ToArrayMethod, info.Flags, [info.ElementType])
  }

  function TryCopyToMethodSource(t: Templates, L: Capabilities.Layout, info: TI.TypeInfo): string
  {
    GetSourceByFlag(t, Template.TryCopyToMethod, L.TryCopyToMethod, info.Flags, [info.ElementType])
  }

  /** A fragment guarded by a flag is empty whenever that flag is absent. */
  lemma GatedFragments(t: Templates, L: Capabilities.Layout, info: TI.TypeInfo)
    ensures var f := info.Flags;
      && (!HasFlag(f, L.ArrayConversionOperators) ==> ArrayConversionOperatorsSource(t, L, info) == "")
      && (!HasFlag(f, L.AsSpanReadOnlySpanMethods) ==> AsSpanReadOnlySpanMethodsSource(t, L, info) == "")
      && (!HasFlag(f, L.ClearMethod) ==> ClearMethodSource(t, L, info) == "")
      && (!HasFlag(f, L.CollectionBuilder) ==> CollectionBuilderAttributeSource(t, L, info) == "")
      && (!HasFlag(f, L.CollectionBuilder) ==> CollectionBuilderClassDeclarationSource(t, L, info) == "")
      && (!HasFlag(f, L.ContainsMethod) ==> ContainsMethodSource(t, L, info) == "")
      && (!HasFlag(f, L.CopyToMethod) ==> CopyToMethodSource(t, L, info) == "")
      && (!HasFlag(f, L.FillMethod) ==> FillMethodSource(t, L, info) == "")
      && (!HasFlag(f, L.GetEnumeratorMethod) ==> GetEnumeratorMethodSource(t, L, info) == "")
      && (!HasFlag(f, L.ICollection) ==> ICollectionSource(t, L, info) == "")
      && (!HasFlag(f, L.ICollectionT) ==> ICollectionTSource(t, L, info) == "")
      && (!HasFlag(f, L.IEnumerable) ==> IEnumerableSource(t, L, info) == "")
      && (!HasFlag(f, L.IEnumerableT) ==> IEnumerableTSource(t, L, info) == "")
      && (!HasFlag(f, L.IList) ==> IListSource(t, L, info) == "")
      && (!HasFlag(f, L.IListT) ==> IListTSource(t, L, info) == "")
      && (!HasFlag(f, L.IndexOfMethod) ==> IndexOfMethodSource(t, L, info) == "")
      && (!HasFlag(f, L.IReadOnlyCollectionT) ==> IReadOnlyCollectionTSource(t, L, info) == "")
      && (!HasFlag(f, L.IReadOnlyListT) ==> IReadOnlyListTSource(t, L, info) == "")
      && (!HasFlag(f, L.IStructuralComparable) ==> IStructuralComparableSource(t, L, info) == "")
      && (!HasFlag(f, L.IStructuralEquatable) ==> IStructuralEquatableSource(t, L, info) == "")
      && (!HasFlag(f, L.LengthProperty) ==> LengthPropertySource(t, L, info) == "")
      && (!HasFlag(f, L.ReadOnlySpanConstructor) ==> ReadOnlySpanConstructorSource(t, L, info) == "")
      && (!HasFlag(f, L.ToArrayMethod) ==> ToArrayMethodSource(t, L, info) == "")
      && (!HasFlag(f, L.TryCopyToMethod) ==> TryCopyToMethodSource(t, L, info) == "")
  {
  }

  /** How the enumerator is provided: the non-generic `GetEnumerator`
      delegates to the public method when there is one, else to the explicit
      `IEnumerable<T>` implementation, which is then emitted too, else it is
      spelled out; the explicit `IEnumerable<T>` implementation is emitted
      only when there is no public method to use instead. */
  lemma EnumeratorDelegation(t: Templates, L: Capabilities.Layout, info: TI.TypeInfo)
    ensures var f := info.Flags;
      var body := GetEnumeratorBodySource(t, info.LengthPropertyOrValue);
      && (HasFlag(f, L.IEnumerable) && HasFlag(f, L.GetEnumeratorMethod) ==>
            && IEnumerableSource(t, L, info) == t.TemplateText(Template.IEnumerableImplMethod)
            && GetEnumeratorMethodSource(t, L, info) == t.Format(Template.GetEnumeratorMethod, [info.ElementType, body]))
      && (HasFlag(f, L.IEnumerable) && !HasFlag(f, L.GetEnumeratorMethod) && HasFlag(f, L.IEnumerableT) ==>
            && IEnumerableSource(t, L, info) == t.Format(Template.IEnumerableImplIEnumerableT, [info.ElementType])
            && IEnumerableTSource(t, L, info) == t.Format(Template.IEnumerableTImplExplicit, [info.ElementType, body]))
      && (HasFlag(f, L.IEnumerable) && !HasFlag(f, L.GetEnumeratorMethod) && !HasFlag(f, L.IEnumerableT) ==>
            && IEnumerableSource(t, L, info) == t.Format(Template.IEnumerableImplExplicit, [body])
            && IEnumerableTSource(t, L, info) == "")
      && (HasFlag(f, L.GetEnumeratorMethod) ==> IEnumerableTSource(t, L, info) == "")
  {
  }

  lemma HasNoneOfTwo(flags: Flags, a: Flags, b: Flags)
    ensures HasNoneOf(flags, [a, b]) <==> !HasFlag(flags, a) && !HasFlag(flags, b)
  {
    assert [a, b][0] == a && [a, b][1] == b;
  }

  /** With well-formed values (`Everything` holds each method's bits), an
      explicit `Contains` / `IndexOf` implementation is generated exactly
      when the public method is not, and the explicit `IInlineCollection<T>`
      implementation exactly when the public span methods are not. */
  lemma ExplicitImplementations(t: Templates, L: Capabilities.Layout, info: TI.TypeInfo)
    requires L.WellFormed()
    ensures var f := info.Flags;
      && (HasNoneOf(f, [L.ContainsMethod, L.Everything]) <==> !HasFlag(f, L.ContainsMethod))
      && (HasNoneOf(f, [L.IndexOfMethod, L.Everything]) <==> !HasFlag(f, L.IndexOfMethod))
      && (HasFlag(f, L.ContainsMethod) ==> ICollectionTContainsMethodSource(t, L, info) == "")
      && (HasFlag(f, L.IndexOfMethod) ==> IListTIndexOfMethodSource(t, L, info) == "")
      && (HasFlag(f, L.AsSpanReadOnlySpanMethods) ==> IInlineCollectionSource(t, L, info) == "")
      && (!HasFlag(f, L.AsSpanReadOnlySpanMethods) ==> AsSpanReadOnlySpanMethodsSource(t, L, info) == "")
  {
    var f := info.Flags;
    HasNoneOfTwo(f, L.ContainsMethod, L.Everything);
    HasNoneOfTwo(f, L.IndexOfMethod, L.Everything);
    if !HasFlag(f, L.ContainsMethod) {
      assert !HasFlag(f, L.Everything);
    }
    if !HasFlag(f, L.IndexOfMethod) {
      assert !HasFlag(f, L.Everything);
    }
  }

  /** Where the older enum revision is in force, its zero-valued
      `CollectionBuilder` is always present, so the builder attribute and
      class are generated for every descriptor. */
  lemma BuilderAlwaysGenerated(t: Templates, info: TI.TypeInfo)
    ensures CollectionBuilderAttributeSource(t, IcFlags.Layout, info)
      == t.Format(Template.CollectionBuilderAttribute, [info.CollectionBuilderName])
    ensures CollectionBuilderClassDeclarationSource(t, IcFlags.Layout, info)
      == t.Format(Template.CollectionBuilderClassDeclaration,
           [info.CollectionBuilderName, info.FullNameWithContainingTypeNames,
            info.CollectionBuilderTypeParameterList, info.ElementType])
  {
    IcFlags.CollectionBuilderAlwaysPresent(info.Flags);
  }

  // ---- the interface list -----------------------------------------------------------

  datatype Interface =
    | ICollection | ICollectionT | IEnumerable | IEnumerableT | IInlineCollection | IList | IListT
    | IReadOnlyCollectionT | IReadOnlyListT | IStructuralComparable | IStructuralEquatable

  function InterfaceName(i: Interface, elementType: string): (name: string)
    ensures name != ""
  {
    match i
    case ICollection => "ICollection"
    case ICollectionT => "ICollection<" + elementType + ">"
    case IEnumerable => "IEnumerable"
    case IEnumerableT => "IEnumerable<" + elementType + ">"
    case IInlineCollection => "IInlineCollection<" + elementType + ">"
    case IList => "IList"
    case IListT => "IList<" + elementType + ">"
    case IReadOnlyCollectionT => "IReadOnlyCollection<" + elementType + ">"
    case IReadOnlyListT => "IReadOnlyList<" + elementType + ">"
    case IStructuralComparable => "IStructuralComparable"
    case IStructuralEquatable => "IStructuralEquatable"
  }

  /** The place of an interface in the list. */
  function Rank(i: Interface): nat
  {
    match i
    case ICollection => 0
    case ICollectionT => 1
    case IEnumerable => 2
    case IEnumerableT => 3
    case IInlineCollection => 4
    case IList => 5
    case IListT => 6
    case IReadOnlyCollectionT => 7
    case IReadOnlyListT => 8
    case IStructuralComparable => 9
    case IStructuralEquatable => 10
  }

  /** The capability that asks for an interface (`IInlineCollection<T>` is
      implemented unconditionally, so nothing needs to ask for it). */
  function FlagOf(L: Capabilities.Layout, i: Interface): Flags
  {
    match i
    case ICollection => L.ICollection
    case ICollectionT => L.ICollectionT
    case IEnumerable => L.IEnumerable
    case IEnumerableT => L.IEnumerableT
    case IInlineCollection => {}
    case IList => L.IList
    case IListT => L.IListT
    case IReadOnlyCollectionT => L.IReadOnlyCollectionT
    case IReadOnlyListT => L.IReadOnlyListT
    case IStructuralComparable => L.IStructuralComparable
    case IStructuralEquatable => L.IStructuralEquatable
  }

  /** An interface and the interfaces it extends in .NET. */
  function Bases(i: Interface): set<Interface>
  {
    match i
    case ICollection => {ICollection, IEnumerable}
    case ICollectionT => {ICollectionT, IEnumerableT, IEnumerable}
    case IEnumerableT => {IEnumerableT, IEnumerable}
    case IList => {IList, ICollection, IEnumerable}
    case IListT => {IListT, ICollectionT, IEnumerableT, IEnumerable}
    case IReadOnlyCollectionT => {IReadOnlyCollectionT, IEnumerableT, IEnumerable}
    case IReadOnlyListT => {IReadOnlyListT, IReadOnlyCollectionT, IEnumerableT, IEnumerable}
    case _ => {i}
  }

  /** Each interface in list order, with whether it is written out. An
      interface is left out when a listed one already extends it. */
  function InterfacePlan(L: Capabilities.Layout, flags: Flags): (plan: seq<(bool, Interface)>)
    ensures |plan| == 11 && forall k | 0 <= k < 11 :: Rank(plan[k].1) == k
  {
    var isICollection := HasFlag(flags, L.ICollection);
    var isICollectionT := HasFlag(flags, L.ICollectionT);
    var isIEnumerable := HasFlag(flags, L.IEnumerable);
    var isIEnumerableT := HasFlag(flags, L.IEnumerableT);
    var isIList := HasFlag(flags, L.IList);
    var isIListT := HasFlag(flags, L.IListT);
    var isIReadOnlyCollectionT := HasFlag(flags, L.IReadOnlyCollectionT);
    var isIReadOnlyListT := HasFlag(flags, L.IReadOnlyListT);
    var explicitICollection := !isIList && isICollection;
    var explicitICollectionT := !isIListT && isICollectionT;
    var explicitIEnumerableT :=
      !isICollectionT && !isIListT && !isIReadOnlyCollectionT && !isIReadOnlyListT && isIEnumerableT;
    var explicitIEnumerable := !isICollection && !isIList && !explicitIEnumerableT && isIEnumerable;
    var explicitIReadOnlyCollectionT := !isIReadOnlyListT && isIReadOnlyCollectionT;
    [ (explicitICollection, ICollection),
      (explicitICollectionT, ICollectionT),
      (explicitIEnumerable, IEnumerable),
      (explicitIEnumerableT, IEnumerableT),
      (true, IInlineCollection),
      (isIList, IList),
      (isIListT, IListT),
      (explicitIReadOnlyCollectionT, IReadOnlyCollectionT),
      (isIReadOnlyListT, IReadOnlyListT),
      (HasFlag(flags, L.IStructuralComparable), IStructuralComparable),
      (HasFlag(flags, L.IStructuralEquatable), IStructuralEquatable) ]
  }

  /** The interfaces of a plan that are written out, in order. */
  function ListedOf(plan: seq<(bool, Interface)>): seq<Interface>
  {
    if plan == [] then []
    else ListedOf(plan[..|plan| - 1]) + (if plan[|plan| - 1].0 then [plan[|plan| - 1].1] else [])
  }

  function Listed(L: Capabilities.Layout, flags: Flags): seq<Interface>
  {
    ListedOf(InterfacePlan(L, flags))
  }

  function Names(interfaces: seq<Interface>, elementType: string): (names: seq<string>)
    ensures |names| == |interfaces|
    ensures forall k | 0 <= k < |names| :: names[k] == InterfaceName(interfaces[k], elementType)
  {
    if interfaces == [] then []
    else Names(interfaces[..|interfaces| - 1], elementType) + [InterfaceName(interfaces[|interfaces| - 1], elementType)]
  }

  function InterfaceList(L: Capabilities.Layout, flags: Flags, elementType: string): string
  {
    Join(", ", Names(Listed(L, flags), elementType))
  }

  /** Builds the base list by appending each written-out interface. */
  method GetInterfaceList(L: Capabilities.Layout, flags: Flags, elementType: string) returns (list: string)
    ensures list == InterfaceList(L, flags, elementType)
  {
    var plan := InterfacePlan(L, flags);
    var sb := new StringBuilder();
    for i := 0 to |plan|
      invariant sb.text == Join(", ", Names(ListedOf(plan[..i]), elementType))
    {
      ListedStep(plan, i, elementType);
      sb.AppendInterfaceIf(plan[i].0, InterfaceName(plan[i].1, elementType));
    }
    assert plan[..|plan|] == plan;
    list := sb.text;
  }

  lemma ListedOfPrefix(plan: seq<(bool, Interface)>, i: nat)
    requires i < |plan|
    ensures ListedOf(plan[..i + 1]) == ListedOf(plan[..i]) + (if plan[i].0 then [plan[i].1] else [])
  {
    assert plan[..i + 1][..i] == plan[..i];
  }

  lemma NamesSnoc(interfaces: seq<Interface>, i: Interface, elementType: string)
    ensures Names(interfaces + [i], elementType) == Names(interfaces, elementType) + [InterfaceName(i, elementType)]
  {
    assert (interfaces + [i])[..|interfaces|] == interfaces;
  }

  /** One more entry of the plan appends its name to the list when it is
      written out. */
  lemma ListedStep(plan: seq<(bool, Interface)>, i: nat, elementType: string)
    requires i < |plan|
    ensures var name := InterfaceName(plan[i].1, elementType);
      var before := Join(", ", Names(ListedOf(plan[..i]), elementType));
      Join(", ", Names(ListedOf(plan[..i + 1]), elementType))
        == if plan[i].0 then InterfaceAppended(before, name) else before
  {
    ListedOfPrefix(plan, i);
    if plan[i].0 {
      var names := Names(ListedOf(plan[..i]), elementType);
      var name := InterfaceName(plan[i].1, elementType);
      assert forall k | 0 <= k < |names| :: names[k] != "" by {
        forall k | 0 <= k < |names|
          ensures names[k] != ""
        {
          assert names[k] == InterfaceName(ListedOf(plan[..i])[k], elementType);
        }
      }
      NamesSnoc(ListedOf(plan[..i]), plan[i].1, elementType);
      assert Names(ListedOf(plan[..i + 1]), elementType) == names + [name];
      InterfaceAppendedJoins(names, name);
    } else {
      assert ListedOf(plan[..i + 1]) == ListedOf(plan[..i]);
    }
  }

  /** An interface is written out exactly when its entry in the plan says so. */
  lemma {:induction false} ListedOfMembership(plan: seq<(bool, Interface)>, i: Interface)
    ensures i in ListedOf(plan) <==> exists k | 0 <= k < |plan| :: plan[k].0 && plan[k].1 == i
  {
    if plan != [] {
      ListedOfMembership(plan[..|plan| - 1], i);
      var last := plan[|plan| - 1];
      if last.0 && last.1 == i {
      } else if i in ListedOf(plan) {
        assert i in ListedOf(plan[..|plan| - 1]);
        var k :| 0 <= k < |plan| - 1 && plan[..|plan| - 1][k].0 && plan[..|plan| - 1][k].1 == i;
        assert plan[k] == plan[..|plan| - 1][k];
      } else {
        forall k | 0 <= k < |plan| - 1
          ensures !(plan[k].0 && plan[k].1 == i)
        {
          assert plan[k] == plan[..|plan| - 1][k];
        }
      }
    }
  }

  /** Interfaces in strictly increasing rank: in list order, none twice. */
  predicate RankOrdered(interfaces: seq<Interface>)
  {
    forall a, b | 0 <= a < b < |interfaces| :: Rank(interfaces[a]) < Rank(interfaces[b])
  }

  /** A plan in rank order writes out its interfaces in rank order. */
  lemma {:induction false} ListedOfOrdered(plan: seq<(bool, Interface)>)
    requires forall a, b | 0 <= a < b < |plan| :: Rank(plan[a].1) < Rank(plan[b].1)
    ensures RankOrdered(ListedOf(plan))
    ensures forall a | 0 <= a < |ListedOf(plan)| :: exists k | 0 <= k < |plan| :: plan[k].1 == ListedOf(plan)[a]
  {
    if plan != [] {
      var init := plan[..|plan| - 1];
      ListedOfOrdered(init);
      var last := plan[|plan| - 1];
      var ls := ListedOf(plan);
      var prev := ListedOf(init);
      forall a | 0 <= a < |ls|
        ensures exists k | 0 <= k < |plan| :: plan[k].1 == ls[a]
      {
        if a < |prev| {
          var k :| 0 <= k < |init| && init[k].1 == prev[a];
          assert plan[k] == init[k];
        } else {
          assert plan[|plan| - 1].1 == ls[a];
        }
      }
      forall a, b | 0 <= a < b < |ls|
        ensures Rank(ls[a]) < Rank(ls[b])
      {
        assert ls[a] == prev[a];
        if b >= |prev| {
          assert ls[b] == last.1;
          var k :| 0 <= k < |init| && init[k].1 == prev[a];
          assert plan[k] == init[k];
          assert Rank(plan[k].1) < Rank(plan[|plan| - 1].1);
        } else {
          assert ls[b] == prev[b];
          assert RankOrdered(prev);
        }
      }
    }
  }

  /** The base list in fixed order, with no interface twice, always with
      `IInlineCollection<T>`. */
  lemma ListedInOrder(L: Capabilities.Layout, flags: Flags)
    ensures RankOrdered(Listed(L, flags)) && IInlineCollection in Listed(L, flags)
  {
    var plan := InterfacePlan(L, flags);
    ListedOfOrdered(plan);
    ListedOfMembership(plan, IInlineCollection);
    assert plan[4].0 && plan[4].1 == IInlineCollection;
  }

  /** Which interfaces are written out, in terms of the requested flags. */
  lemma ListedSpec(L: Capabilities.Layout, flags: Flags, i: Interface)
    ensures var f := flags;
      var explicitIEnumerableT := HasFlag(f, L.IEnumerableT) && !HasFlag(f, L.ICollectionT) && !HasFlag(f, L.IListT)
        && !HasFlag(f, L.IReadOnlyCollectionT) && !HasFlag(f, L.IReadOnlyListT);
      i in Listed(L, flags) <==> match i
        case ICollection => HasFlag(f, L.ICollection) && !HasFlag(f, L.IList)
        case ICollectionT => HasFlag(f, L.ICollectionT) && !HasFlag(f, L.IListT)
        case IEnumerable => HasFlag(f, L.IEnumerable) && !HasFlag(f, L.ICollection) && !HasFlag(f, L.IList)
          && !explicitIEnumerableT
        case IEnumerableT => explicitIEnumerableT
        case IInlineCollection => true
        case IReadOnlyCollectionT => HasFlag(f, L.IReadOnlyCollectionT) && !HasFlag(f, L.IReadOnlyListT)
        case _ => HasFlag(f, FlagOf(L, i))
  {
    var plan := InterfacePlan(L, flags);
    ListedOfMembership(plan, i);
    assert plan[Rank(i)].1 == i;
    assert forall k | 0 <= k < |plan| && plan[k].1 == i :: k == Rank(i);
  }

  /** Every requested interface is implemented: it is written out or
      extended by one that is; and only requested interfaces (and
      `IInlineCollection<T>`) are written out. */
  lemma ListedCoversRequests(L: Capabilities.Layout, flags: Flags, i: Interface)
    ensures HasFlag(flags, FlagOf(L, i)) ==>
      exists k | 0 <= k < |Listed(L, flags)| :: i in Bases(Listed(L, flags)[k])
    ensures i in Listed(L, flags) ==> HasFlag(flags, FlagOf(L, i))
  {
    ListedSpec(L, flags, i);
    if HasFlag(flags, FlagOf(L, i)) {
      var j := Implementer(L, flags, i);
      ListedSpec(L, flags, j);
      var ls := Listed(L, flags);
      var k :| 0 <= k < |ls| && ls[k] == j;
    }
  }

  /** The written-out interface that takes care of `IEnumerable<T>`. */
  function GenericImplementer(L: Capabilities.Layout, flags: Flags): (j: Interface)
    ensures IEnumerableT in Bases(j) && IEnumerable in Bases(j)
  {
    if HasFlag(flags, L.IListT) then IListT
    else if HasFlag(flags, L.ICollectionT) then ICollectionT
    else if HasFlag(flags, L.IReadOnlyListT) then IReadOnlyListT
    else if HasFlag(flags, L.IReadOnlyCollectionT) then IReadOnlyCollectionT
    else IEnumerableT
  }

  /** The written-out interface that takes care of a requested one. */
  function Implementer(L: Capabilities.Layout, flags: Flags, i: Interface): (j: Interface)
    ensures i in Bases(j)
  {
    var f := flags;
    match i
    case ICollection => if HasFlag(f, L.IList) then IList else ICollection
    case ICollectionT => if HasFlag(f, L.IListT) then IListT else ICollectionT
    case IReadOnlyCollectionT => if HasFlag(f, L.IReadOnlyListT) then IReadOnlyListT else IReadOnlyCollectionT
    case IEnumerableT => GenericImplementer(L, flags)
    case IEnumerable =>
      if HasFlag(f, L.IList) then IList
      else if HasFlag(f, L.ICollection) then ICollection
      else if HasFlag(f, L.IEnumerableT) then GenericImplementer(L, flags)
      else IEnumerable
    case _ => i
  }

  /** `IList<T>` alone still writes out the non-generic `IEnumerable`, because
      the composite value holds `IEnumerable`'s bit and no interface that
      suppresses it is listed. */
  lemma IListTAlone(elementType: string)
    ensures Listed(IcFlags.Layout, IcFlags.IListT) == [IEnumerable, IInlineCollection, IListT]
    ensures InterfaceList(IcFlags.Layout, IcFlags.IListT, elementType)
      == "IEnumerable" + ", " + "IInlineCollection<" + elementType + ">" + ", " + "IList<" + elementType + ">"
  {
    IListTListed();
    ThreeNamesText(elementType);
  }

  /** The names of the three listed interfaces, joined. */
  lemma ThreeNamesText(elementType: string)
    ensures Join(", ", Names([IEnumerable, IInlineCollection, IListT], elementType))
      == "IEnumerable" + ", " + "IInlineCollection<" + elementType + ">" + ", " + "IList<" + elementType + ">"
  {
    var names := Names([IEnumerable, IInlineCollection, IListT], elementType);
    var a, b, c := "IEnumerable", "IInlineCollection<" + elementType + ">", "IList<" + elementType + ">";
    assert names[0] == a && names[1] == b && names[2] == c;
    assert names == [a, b, c];
    JoinThree(", ", a, b, c);
  }

  lemma IListTListed()
    ensures Listed(IcFlags.Layout, IcFlags.IListT) == [IEnumerable, IInlineCollection, IListT]
  {
    var plan := IListTPlan();
    ListedOfFirstFive(plan);
    ListedOfLastSix(plan);
  }

  lemma ListedOfFirstFive(plan: seq<(bool, Interface)>)
    requires |plan| == 11
    requires !plan[0].0 && !plan[1].0 && plan[2].0 && !plan[3].0 && plan[4].0
    ensures ListedOf(plan[..5]) == [plan[2].1, plan[4].1]
  {
    assert plan[..0] == [];
    ListedOfPrefix(plan, 0);
    ListedOfPrefix(plan, 1);
    ListedOfPrefix(plan, 2);
    ListedOfPrefix(plan, 3);
    ListedOfPrefix(plan, 4);
  }

  lemma ListedOfLastSix(plan: seq<(bool, Interface)>)
    requires |plan| == 11
    requires !plan[5].0 && plan[6].0 && !plan[7].0 && !plan[8].0 && !plan[9].0 && !plan[10].0
    ensures ListedOf(plan) == ListedOf(plan[..5]) + [plan[6].1]
  {
    ListedOfPrefix(plan, 5);
    ListedOfPrefix(plan, 6);
    ListedOfPrefix(plan, 7);
    ListedOfPrefix(plan, 8);
    ListedOfPrefix(plan, 9);
    ListedOfPrefix(plan, 10);
    assert plan[..11] == plan;
  }

  /** The plan for `IList<T>` alone: only `IEnumerable`, `IInlineCollection<T>`
      and `IList<T>` are written out. */
  lemma IListTPlan() returns (plan: seq<(bool, Interface)>)
    ensures plan == InterfacePlan(IcFlags.Layout, IcFlags.IListT)
    ensures !plan[0].0 && !plan[1].0 && plan[2].0 && !plan[3].0 && plan[4].0 && !plan[5].0
    ensures plan[6].0 && !plan[7].0 && !plan[8].0 && !plan[9].0 && !plan[10].0
    ensures plan[2].1 == IEnumerable && plan[4].1 == IInlineCollection && plan[6].1 == IListT
  {
    IListTPasses();
    IListTFails();
    plan := InterfacePlan(IcFlags.Layout, IcFlags.IListT);
    ListTPlanEntries(IcFlags.Layout, IcFlags.IListT);
  }

  /** Any value that passes the generic-list tests and fails the others
      writes out exactly `IEnumerable`, `IInlineCollection<T>` and `IList<T>`. */
  lemma ListTPlanEntries(L: Capabilities.Layout, f: Flags)
    requires HasFlag(f, L.ICollectionT) && HasFlag(f, L.IEnumerable) && HasFlag(f, L.IEnumerableT) && HasFlag(f, L.IListT)
    requires !HasFlag(f, L.ICollection) && !HasFlag(f, L.IList) && !HasFlag(f, L.IReadOnlyCollectionT)
    requires !HasFlag(f, L.IReadOnlyListT) && !HasFlag(f, L.IStructuralComparable) && !HasFlag(f, L.IStructuralEquatable)
    ensures var plan := InterfacePlan(L, f);
      && !plan[0].0 && !plan[1].0 && plan[2].0 && !plan[3].0 && plan[4].0 && !plan[5].0
      && plan[6].0 && !plan[7].0 && !plan[8].0 && !plan[9].0 && !plan[10].0
      && plan[2].1 == IEnumerable && plan[4].1 == IInlineCollection && plan[6].1 == IListT
  {
  }

  /** The composer's interface tests `IList<T>` alone passes... */
  lemma IListTPasses()
    ensures var L, f := IcFlags.Layout, IcFlags.IListT;
      HasFlag(f, L.ICollectionT) && HasFlag(f, L.IEnumerable) && HasFlag(f, L.IEnumerableT) && HasFlag(f, L.IListT)
  {
    IcFlags.CompositeValues();
  }

  /** ...and those it fails. */
  lemma IListTFails()
    ensures var L, f := IcFlags.Layout, IcFlags.IListT;
      && !HasFlag(f, L.ICollection) && !HasFlag(f, L.IList) && !HasFlag(f, L.IReadOnlyCollectionT)
      && !HasFlag(f, L.IReadOnlyListT) && !HasFlag(f, L.IStructuralComparable) && !HasFlag(f, L.IStructuralEquatable)
  {
    IcFlags.CompositeValues();
    assert 7 !in IcFlags.IListT && 11 !in IcFlags.IListT && 14 !in IcFlags.IListT;
    assert 16 !in IcFlags.IListT && 17 !in IcFlags.IListT;
  }

  // ---- the body ------------------------------------------------------------------

  /** The chain of members and separators the body is built from. */
  function BodyPlan(t: Templates, L: Capabilities.Layout, info: TI.TypeInfo): seq<Step>
  {
    [ Member(LengthPropertySource(t, L, info)), Separator,
      Member(ArrayConversionOperatorsSource(t, L, info)), Separator,
      Member(DefaultConstructorSource(t, info)),
      Member(ReadOnlySpanConstructorSource(t, L, info)), Separator,
      Member(AsSpanReadOnlySpanMethodsSource(t, L, info)),
      Member(ClearMethodSource(t, L, info)),
      Member(ContainsMethodSource(t, L, info)),
      Member(CopyToMethodSource(t, L, info)),
      Member(FillMethodSource(t, L, info)),
      Member(GetEnumeratorMethodSource(t, L, info)),
      Member(IndexOfMethodSource(t, L, info)),
      Member(ToArrayMethodSource(t, L, info)),
      Member(TryCopyToMethodSource(t, L, info)), Separator,
      Member(ICollectionSource(t, L, info)), Separator,
      Member(ICollectionTSource(t, L, info)), Separator,
      Member(IEnumerableSource(t, L, info)), Separator,
      Member(IEnumerableTSource(t, L, info)), Separator,
      Member(IInlineCollectionSource(t, L, info)), Separator,
      Member(IListSource(t, L, info)), Separator,
      Member(IListTSource(t, L, info)), Separator,
      Member(IReadOnlyCollectionTSource(t, L, info)), Separator,
      Member(IReadOnlyListTSource(t, L, info)), Separator,
      Member(IStructuralComparableSource(t, L, info)), Separator,
      Member(IStructuralEquatableSource(t, L, info)) ]
  }

  function Body(t: Templates, L: Capabilities.Layout, info: TI.TypeInfo): string
  {
    TrimmedEnd(Render(Trace(BodyPlan(t, L, info), t.NewLineIndent2), t.NewLineIndent2))
  }

  /** Runs the member chain on a fresh builder and trims the end. */
  method GetInlineCollectionBody(t: Templates, L: Capabilities.Layout, info: TI.TypeInfo) returns (body: string)
    ensures body == Body(t, L, info)
  {
    var plan := BodyPlan(t, L, info);
    var separator := t.NewLineIndent2;
    var sb := new StringBuilder();
    for i := 0 to |plan|
      invariant sb.text == Render(Trace(plan[..i], separator), separator)
    {
      TraceStep(plan, i, separator);
      match plan[i]
      case Member(m) => sb.AppendMember(m, separator);
      case Separator => sb.AppendSeparator(';', separator);
    }
    assert plan[..|plan|] == plan;
    sb.TrimEnd();
    body := sb.text;
  }

  /** The body holds exactly the non-empty fragments, in chain order, laid
      out by the separator rules, and ends in no whitespace: it is the laid
      out text with only its trailing whitespace cut off. */
  lemma BodyLayout(t: Templates, L: Capabilities.Layout, info: TI.TypeInfo)
    requires Blank(t.NewLineIndent2)
    ensures var cs := Trace(BodyPlan(t, L, info), t.NewLineIndent2);
      && WellSeparated(cs)
      && Pieces(cs) == NonEmptyMembers(BodyPlan(t, L, info))
    ensures var body := Body(t, L, info);
      var render := Render(Trace(BodyPlan(t, L, info), t.NewLineIndent2), t.NewLineIndent2);
      && body <= render
      && (body == [] || !IsWhiteSpace(body[|body| - 1]))
      && forall k | |body| <= k < |render| :: IsWhiteSpace(render[k])
  {
    TraceSpec(BodyPlan(t, L, info), t.NewLineIndent2);
    TrimmedEndSpec(Render(Trace(BodyPlan(t, L, info), t.NewLineIndent2), t.NewLineIndent2));
  }

  // ---- the struct declaration and its containers ----------------------------------

  /** "\r\n" and then "\n\r" collapsed to "\n". */
  function Normalized(s: string): string
  {
    Replace(Replace(s, "\r\n", "\n"), "\n\r", "\n")
  }

  /** Every line break replaced by `newLine` and an indent of `indent` spaces. */
  function Reindented(s: string, newLine: string, indent: nat): string
  {
    Replace(Normalized(s), "\n", newLine + Spaces(indent))
  }

  /** Normalising loses no line, and re-indenting joins the normalised lines
      with the new line break and the indent. */
  lemma ReindentedLines(s: string, newLine: string, indent: nat)
    ensures Count('\n', Normalized(s)) == Count('\n', s)
    ensures Reindented(s, newLine, indent) == Join(newLine + Spaces(indent), Lines(Normalized(s)))
    ensures |Lines(Normalized(s))| == Count('\n', s) + 1
  {
    assert Count('\n', "\r\n") == 1 == Count('\n', "\n\r") by {
      assert "\r\n"[1..] == "\n" && "\n\r"[1..] == "\r" && "\r"[1..] == "" && "\n"[1..] == "";
    }
    assert Count('\n', "\n") == 1 by {
      assert "\n"[1..] == "";
    }
    ReplaceKeepsCount('\n', s, "\r\n", "\n");
    ReplaceKeepsCount('\n', Replace(s, "\r\n", "\n"), "\n\r", "\n");
    ReplaceNewLines(Normalized(s), newLine + Spaces(indent));
  }

  function StructDeclaration(t: Templates, L: Capabilities.Layout, info: TI.TypeInfo): string
    requires |info.TypeList| > 0
  {
    Reindented(
      t.Format(Template.InlineCollectionStructDeclaration,
        [IntText(info.Length as int), CollectionBuilderAttributeSource(t, L, info), info.Modifiers,
         info.FullName, InterfaceList(L, info.Flags, info.ElementType), Body(t, L, info)]),
      t.NewLine, 4 * (|info.TypeList| - 1))
  }

  method GetStructDeclarationSource(t: Templates, L: Capabilities.Layout, info: TI.TypeInfo) returns (s: string)
    requires |info.TypeList| > 0
    ensures s == StructDeclaration(t, L, info)
  {
    var interfaces := GetInterfaceList(L, info.Flags, info.ElementType);
    var body := GetInlineCollectionBody(t, L, info);
    var sb := new StringBuilder.Of(t.Format(Template.InlineCollectionStructDeclaration,
      [IntText(info.Length as int), CollectionBuilderAttributeSource(t, L, info), info.Modifiers,
       info.FullName, interfaces, body]));
    sb.Replace("\r\n", "\n");
    sb.Replace("\n\r", "\n");
    sb.Replace("\n", t.NewLine + Spaces(4 * (|info.TypeList| - 1)));
    s := sb.text;
  }

  /** A containing type re-opened at `depth` levels of indentation: its
      declaration line, then its opening brace, each on a new line. */
  function Header(lineTerminator: string, node: TypeListNode, depth: nat): string
  {
    var indent := Spaces(4 * depth);
    Concat([lineTerminator, indent, Declaration(node), lineTerminator, indent, "{"])
  }

  /** A containing type's modifiers, kind and minimally qualified name. */
  function Declaration(node: TypeListNode): string
  {
    node.Modifiers + " " + node.DeclarationKind + " " + node.TypeSymbol.DisplayName
  }

  /** The closing brace of a containing type at `depth` levels of indentation. */
  function Closer(lineTerminator: string, depth: nat): string
  {
    Concat([lineTerminator, Spaces(4 * depth), "}"])
  }

  lemma HeaderText(lineTerminator: string, node: TypeListNode, depth: nat)
    ensures var indent := Spaces(4 * depth);
      Header(lineTerminator, node, depth)
        == lineTerminator + indent + Declaration(node) + lineTerminator + indent + "{"
  {
    var indent := Spaces(4 * depth);
    ConcatSix(lineTerminator, indent, Declaration(node), lineTerminator, indent, "{");
  }

  lemma CloserText(lineTerminator: string, depth: nat)
    ensures Closer(lineTerminator, depth) == lineTerminator + Spaces(4 * depth) + "}"
  {
    ConcatThree(lineTerminator, Spaces(4 * depth), "}");
  }

  /** The header of each frame, the first at `depth`, each next one deeper. */
  function HeaderTexts(lineTerminator: string, frames: seq<TypeListNode>, depth: nat): (hs: seq<string>)
    ensures |hs| == |frames|
  {
    seq(|frames|, k requires 0 <= k < |frames| => Header(lineTerminator, frames[k], depth + k))
  }

  function Headers(lineTerminator: string, frames: seq<TypeListNode>, depth: nat): string
  {
    Concat(HeaderTexts(lineTerminator, frames, depth))
  }

  /** `count` closing braces, the first at `top` levels, each next one shallower. */
  function CloserTexts(lineTerminator: string, top: nat, count: nat): (cs: seq<string>)
    requires count <= top
    ensures |cs| == count
  {
    seq(count, k requires 0 <= k < count => Closer(lineTerminator, top - k))
  }

  function Closers(lineTerminator: string, top: nat, count: nat): string
    requires count <= top
  {
    Concat(CloserTexts(lineTerminator, top, count))
  }

  /** Each frame opened around `inner` and closed at its own indentation:
      the reference shape of the container declarations. */
  function Nested(lineTerminator: string, frames: seq<TypeListNode>, depth: nat, inner: string): string
  {
    if frames == [] then inner
    else
      Header(lineTerminator, frames[0], depth) + Nested(lineTerminator, frames[1..], depth + 1, inner)
      + Closer(lineTerminator, depth)
  }

  /** `declaration` inside every type of `typeList` but the last, which is
      the declared type itself. */
  function Wrapped(lineTerminator: string, typeList: seq<TypeListNode>, declaration: string): string
    requires |typeList| > 0
  {
    var n := |typeList|;
    Headers(lineTerminator, typeList[..n - 1], 1) + declaration + Closers(lineTerminator, n - 1, n - 1)
  }

  /** The struct inside every containing type but itself. */
  function TypeDeclarations(t: Templates, L: Capabilities.Layout, info: TI.TypeInfo): string
    requires |info.TypeList| > 0
  {
    Wrapped(t.LineTerminator, info.TypeList, StructDeclaration(t, L, info))
  }

  /** Opens each containing type with a growing indent, writes the struct,
      then closes them with a shrinking indent. */
  method GetTypeDeclarationsSource(t: Templates, L: Capabilities.Layout, info: TI.TypeInfo) returns (s: string)
    requires |info.TypeList| > 0
    ensures s == TypeDeclarations(t, L, info)
  {
    var n := |info.TypeList|;
    if n == 1 {
      s := GetStructDeclarationSource(t, L, info);
      assert s == Wrapped(t.LineTerminator, info.TypeList, s) by {
        assert HeaderTexts(t.LineTerminator, info.TypeList[..0], 1) == [];
        assert CloserTexts(t.LineTerminator, 0, 0) == [];
      }
      return;
    }
    var sb := new StringBuilder();
    var indent := new StringBuilder.Of("    ");
    assert Spaces(4) == "    " by {
      SpacesGrow(0);
    }
    OpenFrames(sb, indent, t.LineTerminator, info.TypeList[..n - 1]);
    var declaration := GetStructDeclarationSource(t, L, info);
    sb.Append(declaration);
    CloseFrames(sb, indent, t.LineTerminator, n - 1);
    s := sb.text;
    assert s == Wrapped(t.LineTerminator, info.TypeList, declaration);
  }

  /** The first loop: a header per containing type, one level deeper each time. */
  method OpenFrames(sb: StringBuilder, indent: StringBuilder, lineTerminator: string, frames: seq<TypeListNode>)
    requires sb != indent && sb.text == "" && indent.text == Spaces(4)
    modifies sb, indent
    ensures sb.text == Headers(lineTerminator, frames, 1)
    ensures indent.text == Spaces(4 * (|frames| + 1))
  {
    assert HeaderTexts(lineTerminator, frames[..0], 1) == [];
    for i := 0 to |frames|
      invariant sb.text == Headers(lineTerminator, frames[..i], 1)
      invariant indent.text == Spaces(4 * (i + 1))
    {
      HeadersSnoc(lineTerminator, frames, i, 1);
      AppendHeader(sb, indent, lineTerminator, frames[i], i + 1);
      SpacesGrow(4 * (i + 1));
      indent.Append("    ");
    }
    assert frames[..|frames|] == frames;
  }

  /** The second loop: `count` closing braces, one level shallower each time. */
  method CloseFrames(sb: StringBuilder, indent: StringBuilder, lineTerminator: string, count: nat)
    requires sb != indent && indent.text == Spaces(4 * (count + 1))
    modifies sb, indent
    ensures sb.text == old(sb.text) + Closers(lineTerminator, count, count)
  {
    ghost var headed := sb.text;
    assert CloserTexts(lineTerminator, count, 0) == [];
    for i := 0 to count
      invariant sb.text == headed + Closers(lineTerminator, count, i)
      invariant indent.text == Spaces(4 * (count + 1 - i))
    {
      ClosersSnoc(lineTerminator, count, i);
      CloserText(lineTerminator, count - i);
      SpacesShrink(4 * (count - i));
      indent.Truncate(|indent.text| - 4);
      sb.Append(lineTerminator + indent.text + "}");
    }
  }

  /** Writes one containing type's header at the indentation `indent` holds. */
  method AppendHeader(sb: StringBuilder, indent: StringBuilder, lineTerminator: string, typ: TypeListNode, depth: nat)
    requires sb != indent && indent.text == Spaces(4 * depth)
    modifies sb
    ensures sb.text == old(sb.text) + Header(lineTerminator, typ, depth)
  {
    HeaderText(lineTerminator, typ, depth);
    sb.Append(lineTerminator);
    sb.Append(indent.text);
    sb.Append(Declaration(typ));
    sb.Append(lineTerminator);
    sb.Append(indent.text);
    sb.Append("{");
  }

  lemma SpacesGrow(n: nat)
    ensures Spaces(n) + "    " == Spaces(n + 4)
  {
    assert Spaces(n + 4) == Spaces(n) + " " + " " + " " + " ";
  }

  lemma SpacesShrink(n: nat)
    ensures Spaces(n + 4)[..n] == Spaces(n)
  {
  }

  lemma HeadersSnoc(lineTerminator: string, frames: seq<TypeListNode>, i: nat, depth: nat)
    requires i < |frames|
    ensures Headers(lineTerminator, frames[..i + 1], depth)
      == Headers(lineTerminator, frames[..i], depth) + Header(lineTerminator, frames[i], depth + i)
  {
    var hs := HeaderTexts(lineTerminator, frames[..i], depth);
    var h := Header(lineTerminator, frames[i], depth + i);
    assert HeaderTexts(lineTerminator, frames[..i + 1], depth) == hs + [h];
    ConcatSnoc(hs, h);
  }

  lemma ClosersSnoc(lineTerminator: string, top: nat, i: nat)
    requires i < top
    ensures Closers(lineTerminator, top, i + 1) == Closers(lineTerminator, top, i) + Closer(lineTerminator, top - i)
  {
    var cs := CloserTexts(lineTerminator, top, i);
    var c := Closer(lineTerminator, top - i);
    assert CloserTexts(lineTerminator, top, i + 1) == cs + [c];
    ConcatSnoc(cs, c);
  }

  /** The headers of two runs of frames in a row, the second run starting
      where the first ends. */
  lemma HeadersAppend(lineTerminator: string, first: seq<TypeListNode>, second: seq<TypeListNode>, depth: nat)
    ensures Headers(lineTerminator, first + second, depth)
      == Headers(lineTerminator, first, depth) + Headers(lineTerminator, second, depth + |first|)
  {
    var a := HeaderTexts(lineTerminator, first, depth);
    var b := HeaderTexts(lineTerminator, second, depth + |first|);
    assert HeaderTexts(lineTerminator, first + second, depth) == a + b;
    ConcatAppend(a, b);
  }

  lemma HeadersCons(lineTerminator: string, frames: seq<TypeListNode>, depth: nat)
    requires frames != []
    ensures Headers(lineTerminator, frames, depth)
      == Header(lineTerminator, frames[0], depth) + Headers(lineTerminator, frames[1..], depth + 1)
  {
    HeadersAppend(lineTerminator, [frames[0]], frames[1..], depth);
    assert [frames[0]] + frames[1..] == frames;
    var h := Header(lineTerminator, frames[0], depth);
    assert HeaderTexts(lineTerminator, [frames[0]], depth) == [] + [h];
    ConcatSnoc([], h);
  }

  /** Headers in a row, the inner text, and closers in a row are the frames
      nested around the inner text: each header is closed at its own
      indentation, innermost first. */
  lemma {:induction false} NestingMirrors(lineTerminator: string, frames: seq<TypeListNode>, depth: nat, inner: string)
    requires depth >= 1
    ensures Headers(lineTerminator, frames, depth) + inner
        + Closers(lineTerminator, depth + |frames| - 1, |frames|)
      == Nested(lineTerminator, frames, depth, inner)
    decreases |frames|
  {
    if frames == [] {
      assert HeaderTexts(lineTerminator, frames, depth) == [] && CloserTexts(lineTerminator, depth - 1, 0) == [];
    } else {
      var rest := frames[1..];
      var top := depth + |frames| - 1;
      assert top == (depth + 1) + |rest| - 1;
      var h0 := Header(lineTerminator, frames[0], depth);
      var hr := Headers(lineTerminator, rest, depth + 1);
      var cr := Closers(lineTerminator, top, |rest|);
      var tail := Closer(lineTerminator, depth);
      NestingMirrors(lineTerminator, rest, depth + 1, inner);
      HeadersCons(lineTerminator, frames, depth);
      ClosersSnoc(lineTerminator, top, |rest|);
      Splice(Headers(lineTerminator, frames, depth), h0, hr, inner, Closers(lineTerminator, top, |frames|), cr, tail,
        Nested(lineTerminator, rest, depth + 1, inner), Nested(lineTerminator, frames, depth, inner));
    }
  }

  /** An opened frame, the nesting inside it, and its closer, regrouped. */
  lemma Splice(headers: string, h0: string, hr: string, inner: string, closers: string, cr: string, tail: string,
               innerNested: string, nested: string)
    requires headers == h0 + hr && closers == cr + tail
    requires hr + inner + cr == innerNested && nested == h0 + innerNested + tail
    ensures headers + inner + closers == nested
  {
    Regroup(h0, hr, inner, cr, tail);
  }

  lemma Regroup(a: string, b: string, c: string, d: string, e: string)
    ensures (a + b) + c + (d + e) == a + (b + c + d) + e
  {
  }

  /** The generated declarations are the struct nested in each containing
      type in turn, outermost first. */
  lemma TypeDeclarationsNest(t: Templates, L: Capabilities.Layout, info: TI.TypeInfo)
    requires |info.TypeList| > 0
    ensures TypeDeclarations(t, L, info)
      == Nested(t.LineTerminator, info.TypeList[..|info.TypeList| - 1], 1, StructDeclaration(t, L, info))
  {
    NestingMirrors(t.LineTerminator, info.TypeList[..|info.TypeList| - 1], 1, StructDeclaration(t, L, info));
  }

  // ---- one inline collection type ------------------------------------------------

  function GeneratedType(t: Templates, L: Capabilities.Layout, info: TI.TypeInfo): string
    requires |info.TypeList| > 0
  {
    t.Format(Template.InlineCollection,
      [info.Namespace, TypeDeclarations(t, L, info), CollectionBuilderClassDeclarationSource(t, L, info)])
  }

  method GenerateForType(t: Templates, L: Capabilities.Layout, info: TI.TypeInfo) returns (s: string)
    requires |info.TypeList| > 0
    ensures s == GeneratedType(t, L, info)
  {
    var declarations := GetTypeDeclarationsSource(t, L, info);
    s := t.Format(Template.InlineCollection,
      [info.Namespace, declarations, CollectionBuilderClassDeclarationSource(t, L, info)]);
  }
}
