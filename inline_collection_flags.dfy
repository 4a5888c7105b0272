/** `InlineCollectionFlags`, the older 22-bit capability enum the composer
    reads; `CollectionBuilder` is zero here and so is always present. */
module InlineCollectionFlags {
  import opened Bits
  import Capabilities

  const CollectionBuilder: Flags := {}
  const ArrayConversionOperators: Flags := {0}
  const AsSpanReadOnlySpanMethods: Flags := {1}
  const ClearMethod: Flags := {2}
  const ContainsMethod: Flags := {3}
  const CopyToMethod: Flags := {4}
  const FillMethod: Flags := {5}
  const GetEnumeratorMethod: Flags := {6}
  const ICollection: Flags := {7} + IEnumerable
  const ICollectionT: Flags := {8} + IEnumerable + IEnumerableT
  const IEnumerable: Flags := {9}
  const IEnumerableT: Flags := {10} + IEnumerable
  const IList: Flags := {11} + ICollection + IEnumerable
  const IListT: Flags := {12} + ICollectionT + IEnumerable + IEnumerableT
  const IndexOfMethod: Flags := {13}
  const IReadOnlyCollectionT: Flags := {14} + IEnumerable + IEnumerableT
  const IReadOnlyListT: Flags := {15} + IEnumerable + IEnumerableT + IReadOnlyCollectionT
  const IStructuralComparable: Flags := {16}
  const IStructuralEquatable: Flags := {17}
  const LengthProperty: Flags := {18}
  const ReadOnlySpanConstructor: Flags := {19}
  const ToArrayMethod: Flags := {20}
  const TryCopyToMethod: Flags := {21}
  const Everything: Flags := IntMaxValue

  /** The enum's members by name. */
  datatype Member =
    | MCollectionBuilder | MArrayConversionOperators | MAsSpanReadOnlySpanMethods | MClearMethod
    | MContainsMethod | MCopyToMethod | MFillMethod | MGetEnumeratorMethod
    | MICollection | MICollectionT | MIEnumerable | MIEnumerableT | MIList | MIListT
    | MIndexOfMethod | MIReadOnlyCollectionT | MIReadOnlyListT | MIStructuralComparable
    | MIStructuralEquatable | MLengthProperty | MReadOnlySpanConstructor | MToArrayMethod
    | MTryCopyToMethod | MEverything

  function Value(m: Member): Flags
  {
    match m
    case MCollectionBuilder => CollectionBuilder
    case MArrayConversionOperators => ArrayConversionOperators
    case MAsSpanReadOnlySpanMethods => AsSpanReadOnlySpanMethods
    case MClearMethod => ClearMethod
    case MContainsMethod => ContainsMethod
    case MCopyToMethod => CopyToMethod
    case MFillMethod => FillMethod
    case MGetEnumeratorMethod => GetEnumeratorMethod
    case MICollection => ICollection
    case MICollectionT => ICollectionT
    case MIEnumerable => IEnumerable
    case MIEnumerableT => IEnumerableT
    case MIList => IList
    case MIListT => IListT
    case MIndexOfMethod => IndexOfMethod
    case MIReadOnlyCollectionT => IReadOnlyCollectionT
    case MIReadOnlyListT => IReadOnlyListT
    case MIStructuralComparable => IStructuralComparable
    case MIStructuralEquatable => IStructuralEquatable
    case MLengthProperty => LengthProperty
    case MReadOnlySpanConstructor => ReadOnlySpanConstructor
    case MToArrayMethod => ToArrayMethod
    case MTryCopyToMethod => TryCopyToMethod
    case MEverything => Everything
  }

  /** Members that own a bit of their own (all but `CollectionBuilder` and `Everything`). */
  predicate HasOwnBit(m: Member)
  {
    m != MCollectionBuilder && m != MEverything
  }

  /** The bit a member introduces: its `1 << k` term. */
  function OwnBit(m: Member): nat
    requires HasOwnBit(m)
  {
    match m
    case MArrayConversionOperators => 0
    case MAsSpanReadOnlySpanMethods => 1
    case MClearMethod => 2
    case MContainsMethod => 3
    case MCopyToMethod => 4
    case MFillMethod => 5
    case MGetEnumeratorMethod => 6
    case MICollection => 7
    case MICollectionT => 8
    case MIEnumerable => 9
    case MIEnumerableT => 10
    case MIList => 11
    case MIListT => 12
    case MIndexOfMethod => 13
    case MIReadOnlyCollectionT => 14
    case MIReadOnlyListT => 15
    case MIStructuralComparable => 16
    case MIStructuralEquatable => 17
    case MLengthProperty => 18
    case MReadOnlySpanConstructor => 19
    case MToArrayMethod => 20
    case MTryCopyToMethod => 21
  }

  /** The member that owns bit `b`. */
  function OwnerOf(b: nat): (m: Member)
    requires b < 22
    ensures HasOwnBit(m) && OwnBit(m) == b
  {
    if b == 0 then MArrayConversionOperators
    else if b == 1 then MAsSpanReadOnlySpanMethods
    else if b == 2 then MClearMethod
    else if b == 3 then MContainsMethod
    else if b == 4 then MCopyToMethod
    else if b == 5 then MFillMethod
    else if b == 6 then MGetEnumeratorMethod
    else if b == 7 then MICollection
    else if b == 8 then MICollectionT
    else if b == 9 then MIEnumerable
    else if b == 10 then MIEnumerableT
    else if b == 11 then MIList
    else if b == 12 then MIListT
    else if b == 13 then MIndexOfMethod
    else if b == 14 then MIReadOnlyCollectionT
    else if b == 15 then MIReadOnlyListT
    else if b == 16 then MIStructuralComparable
    else if b == 17 then MIStructuralEquatable
    else if b == 18 then MLengthProperty
    else if b == 19 then MReadOnlySpanConstructor
    else if b == 20 then MToArrayMethod
    else MTryCopyToMethod
  }

  /** `CollectionBuilder` is zero, so every flag value "has" it. */
  lemma CollectionBuilderAlwaysPresent(x: Flags)
    ensures CollectionBuilder == {} && HasFlag(x, CollectionBuilder)
  {
  }

  /** Each member's own bit lies in 0..21, is set in its value, and belongs to
      no other member (`OwnerOf` inverts `OwnBit`). */
  lemma OwnBitsAreDistinct(m: Member)
    requires HasOwnBit(m)
    ensures OwnBit(m) < 22 && OwnBit(m) in Value(m)
    ensures OwnerOf(OwnBit(m)) == m
  {
    OwnBitIsSet(m);
    OwnerInvertsOwnBit(m);
  }

  lemma OwnBitIsSet(m: Member)
    requires HasOwnBit(m)
    ensures OwnBit(m) < 22 && OwnBit(m) in Value(m)
  {
  }

  lemma OwnerInvertsOwnBit(m: Member)
    requires HasOwnBit(m)
    ensures OwnerOf(OwnBit(m)) == m
  {
  }

  /** Every bit of a member other than its own is the own bit of a member
      whose whole value it includes: composites are unions of members. */
  lemma CompositesIncludeWholeMembers(m: Member, b: nat)
    requires HasOwnBit(m) && b in Value(m) && b != OwnBit(m)
    ensures b < 22 && Value(OwnerOf(b)) <= Value(m)
  {
  }

  lemma CompositeInclusions()
    ensures IEnumerable <= ICollection && ICollection + IEnumerable <= IList
    ensures IEnumerable <= IEnumerableT <= ICollectionT <= IListT
    ensures IEnumerableT <= IReadOnlyCollectionT <= IReadOnlyListT
  {
  }

  /** The composite members spelled out bit by bit. */
  lemma CompositeValues()
    ensures IEnumerable == {9} && IEnumerableT == {9, 10} && ICollection == {7, 9}
    ensures ICollectionT == {8, 9, 10} && IList == {7, 9, 11} && IListT == {8, 9, 10, 12}
    ensures IReadOnlyCollectionT == {9, 10, 14} && IReadOnlyListT == {9, 10, 14, 15}
  {
  }

  /** The `GetEnumerator` method alone implements no enumerable interface. */
  lemma GetEnumeratorMethodIsLone()
    ensures !(IEnumerable <= GetEnumeratorMethod) && !(IEnumerableT <= GetEnumeratorMethod)
  {
  }

  lemma EverythingHasEveryMember(m: Member)
    ensures HasFlag(Everything, Value(m))
  {
    if m != MEverything {
      BitsBelow(m);
      WithinEverything(Value(m));
    }
  }

  /** Every member but `Everything` lies within bits 0..21. */
  lemma BitsBelow(m: Member)
    requires m != MEverything
    ensures forall b | b in Value(m) :: b < 22
  {
  }

  /** The composer-side layout. */
  const Layout := Capabilities.Layout(
    ArrayConversionOperators, AsSpanReadOnlySpanMethods, ClearMethod, CollectionBuilder,
    ContainsMethod, CopyToMethod, FillMethod, GetEnumeratorMethod, ICollection, ICollectionT,
    IEnumerable, IEnumerableT, IList, IListT, IndexOfMethod, IReadOnlyCollectionT,
    IReadOnlyListT, IStructuralComparable, IStructuralEquatable, LengthProperty,
    ReadOnlySpanConstructor, ToArrayMethod, TryCopyToMethod, Everything)

  lemma LayoutIsWellFormed()
    ensures Layout.WellFormed()
  {
    InterfacesNest();
    MethodsWithinEverything();
    ListsWithinEverything();
  }

  lemma InterfacesNest()
    ensures IEnumerable <= IEnumerableT && IEnumerable <= ICollection && IEnumerableT <= ICollectionT
    ensures ICollection <= IList && ICollectionT <= IListT
    ensures IEnumerableT <= IReadOnlyCollectionT && IReadOnlyCollectionT <= IReadOnlyListT
  {
    CompositeValues();
  }

  lemma MethodsWithinEverything()
    ensures ContainsMethod <= Everything && IndexOfMethod <= Everything
    ensures AsSpanReadOnlySpanMethods <= Everything && GetEnumeratorMethod <= Everything
  {
    WithinEverything(ContainsMethod);
    WithinEverything(IndexOfMethod);
    WithinEverything(AsSpanReadOnlySpanMethods);
    WithinEverything(GetEnumeratorMethod);
  }

  lemma ListsWithinEverything()
    ensures IListT <= Everything && IList <= Everything && IReadOnlyListT <= Everything
  {
    CompositeValues();
    WithinEverything(IList);
    WithinEverything(IListT);
    WithinEverything(IReadOnlyListT);
  }

  lemma WithinEverything(s: Flags)
    requires forall b | b in s :: b < 22
    ensures s <= Everything
  {
  }
}
