/** `InlineCollectionOptions`, the 24-bit capability enum the descriptor reads. */
module InlineCollectionOptions {
  import opened Bits
  import Capabilities

  const None: Flags := {}
  const ArrayConversionOperators: Flags := {0}
  const AsSpanReadOnlySpanMethods: Flags := {1}
  const ClearMethod: Flags := {2}
  const CollectionBuilder: Flags := {3}
  const ContainsMethod: Flags := {4}
  const CopyToMethod: Flags := {5}
  const FillMethod: Flags := {6}
  const GetEnumeratorMethod: Flags := {7}
  const ICollection: Flags := {8} + IEnumerable
  const ICollectionT: Flags := {9} + IEnumerable + IEnumerableT
  const IEnumerable: Flags := {10}
  const IEnumerableT: Flags := {11} + IEnumerable
  const IList: Flags := {12} + ICollection + IEnumerable
  const IListT: Flags := {13} + ICollectionT + IEnumerable + IEnumerableT
  const IndexOfMethod: Flags := {14}
  const IReadOnlyCollectionT: Flags := {15} + IEnumerable + IEnumerableT
  const IReadOnlyListT: Flags := {16} + IEnumerable + IEnumerableT + IReadOnlyCollectionT
  const IStructuralComparable: Flags := {17}
  const IStructuralEquatable: Flags := {18}
  const LengthProperty: Flags := {19}
  const ReadOnlySpanConstructor: Flags := {20}
  const RefStructEnumerator: Flags := {21}
  const ToArrayMethod: Flags := {22}
  const TryCopyToMethod: Flags := {23}
  const Everything: Flags := IntMaxValue

  /** The enum's members by name. */
  datatype Member =
    | MNone | MArrayConversionOperators | MAsSpanReadOnlySpanMethods | MClearMethod
    | MCollectionBuilder | MContainsMethod | MCopyToMethod | MFillMethod
    | MGetEnumeratorMethod | MICollection | MICollectionT | MIEnumerable | MIEnumerableT
    | MIList | MIListT | MIndexOfMethod | MIReadOnlyCollectionT | MIReadOnlyListT
    | MIStructuralComparable | MIStructuralEquatable | MLengthProperty
    | MReadOnlySpanConstructor | MRefStructEnumerator | MToArrayMethod | MTryCopyToMethod
    | MEverything

  function Value(m: Member): Flags
  {
    match m
    case MNone => None
    case MArrayConversionOperators => ArrayConversionOperators
    case MAsSpanReadOnlySpanMethods => AsSpanReadOnlySpanMethods
    case MClearMethod => ClearMethod
    case MCollectionBuilder => CollectionBuilder
    case MContainsMethod => ContainsMethod
    case MCopyToMethod => CopyToMethod
    case MFillMethod => FillMethod
    case MGetEnumeratorMethod => GetEnumeratorMethod
    case MICollection => ICollection
    case MICollectionT => ICollectionT
    case MIEnumerable => IEnumerable
    case MIEnumerableT => IEnumerableT
    case MIList => IList
    case MIListT => IListT
    case MIndexOfMethod => IndexOfMethod
    case MIReadOnlyCollectionT => IReadOnlyCollectionT
    case MIReadOnlyListT => IReadOnlyListT
    case MIStructuralComparable => IStructuralComparable
    case MIStructuralEquatable => IStructuralEquatable
    case MLengthProperty => LengthProperty
    case MReadOnlySpanConstructor => ReadOnlySpanConstructor
    case MRefStructEnumerator => RefStructEnumerator
    case MToArrayMethod => ToArrayMethod
    case MTryCopyToMethod => TryCopyToMethod
    case MEverything => Everything
  }

  /** Members that own a bit of their own (all but `None` and `Everything`). */
  predicate HasOwnBit(m: Member)
  {
    m != MNone && m != MEverything
  }

  /** The bit a member introduces: its `1 << k` term. */
  function OwnBit(m: Member): nat
    requires HasOwnBit(m)
  {
    match m
    case MArrayConversionOperators => 0
    case MAsSpanReadOnlySpanMethods => 1
    case MClearMethod => 2
    case MCollectionBuilder => 3
    case MContainsMethod => 4
    case MCopyToMethod => 5
    case MFillMethod => 6
    case MGetEnumeratorMethod => 7
    case MICollection => 8
    case MICollectionT => 9
    case MIEnumerable => 10
    case MIEnumerableT => 11
    case MIList => 12
    case MIListT => 13
    case MIndexOfMethod => 14
    case MIReadOnlyCollectionT => 15
    case MIReadOnlyListT => 16
    case MIStructuralComparable => 17
    case MIStructuralEquatable => 18
    case MLengthProperty => 19
    case MReadOnlySpanConstructor => 20
    case MRefStructEnumerator => 21
    case MToArrayMethod => 22
    case MTryCopyToMethod => 23
  }

  /** The member that owns bit `b`. */
  function OwnerOf(b: nat): (m: Member)
    requires b < 24
    ensures HasOwnBit(m) && OwnBit(m) == b
  {
    if b == 0 then MArrayConversionOperators
    else if b == 1 then MAsSpanReadOnlySpanMethods
    else if b == 2 then MClearMethod
    else if b == 3 then MCollectionBuilder
    else if b == 4 then MContainsMethod
    else if b == 5 then MCopyToMethod
    else if b == 6 then MFillMethod
    else if b == 7 then MGetEnumeratorMethod
    else if b == 8 then MICollection
    else if b == 9 then MICollectionT
    else if b == 10 then MIEnumerable
    else if b == 11 then MIEnumerableT
    else if b == 12 then MIList
    else if b == 13 then MIListT
    else if b == 14 then MIndexOfMethod
    else if b == 15 then MIReadOnlyCollectionT
    else if b == 16 then MIReadOnlyListT
    else if b == 17 then MIStructuralComparable
    else if b == 18 then MIStructuralEquatable
    else if b == 19 then MLengthProperty
    else if b == 20 then MReadOnlySpanConstructor
    else if b == 21 then MRefStructEnumerator
    else if b == 22 then MToArrayMethod
    else MTryCopyToMethod
  }

  /** Each member's own bit lies in 0..23, is set in its value, and belongs to
      no other member (`OwnerOf` inverts `OwnBit`); `None` is zero. */
  lemma OwnBitsAreDistinct(m: Member)
    requires HasOwnBit(m)
    ensures OwnBit(m) < 24 && OwnBit(m) in Value(m)
    ensures OwnerOf(OwnBit(m)) == m
    ensures Value(MNone) == {}
  {
    OwnBitIsSet(m);
    OwnerInvertsOwnBit(m);
  }

  lemma OwnBitIsSet(m: Member)
    requires HasOwnBit(m)
    ensures OwnBit(m) < 24 && OwnBit(m) in Value(m)
  {
  }

  lemma OwnerInvertsOwnBit(m: Member)
    requires HasOwnBit(m)
    ensures OwnerOf(OwnBit(m)) == m
  {
  }

  /** Every bit of a member other than its own is the own bit of a member
      whose whole value it includes: composites are unions of members. */
  lemma CompositesIncludeWholeMembers(m: Member, b: nat)
    requires HasOwnBit(m) && b in Value(m) && b != OwnBit(m)
    ensures b < 24 && Value(OwnerOf(b)) <= Value(m)
  {
  }

  lemma CompositeInclusions()
    ensures IEnumerable <= ICollection && IEnumerable <= IEnumerableT
    ensures IEnumerable + IEnumerableT <= ICollectionT && ICollectionT <= IListT && IEnumerableT <= IListT
    ensures ICollection + IEnumerable <= IList && 13 !in IList
    ensures IEnumerableT <= IReadOnlyCollectionT <= IReadOnlyListT
  {
  }

  /** The composite members spelled out bit by bit. */
  lemma CompositeValues()
    ensures IEnumerable == {10} && IEnumerableT == {10, 11} && ICollection == {8, 10}
    ensures ICollectionT == {9, 10, 11} && IList == {8, 10, 12} && IListT == {9, 10, 11, 13}
    ensures IReadOnlyCollectionT == {10, 11, 15} && IReadOnlyListT == {10, 11, 15, 16}
    ensures GetEnumeratorMethod == {7} && RefStructEnumerator == {21}
  {
  }

  /** `RefStructEnumerator` is a lone bit: it includes neither enumerable
      interface nor the `GetEnumerator` method it documents. */
  lemma RefStructEnumeratorIsLone()
    ensures !(IEnumerable <= RefStructEnumerator) && !(IEnumerableT <= RefStructEnumerator)
    ensures !(GetEnumeratorMethod <= RefStructEnumerator)
  {
  }

  lemma EverythingHasEveryMember(m: Member)
    ensures HasFlag(Everything, Value(m))
  {
    if m != MEverything {
      BitsBelow(m);
      WithinEverything(Value(m));
    }
  }

  /** Every member but `Everything` lies within bits 0..23. */
  lemma BitsBelow(m: Member)
    requires m != MEverything
    ensures forall b | b in Value(m) :: b < 24
  {
  }

  /** The descriptor-side layout. */
  const Layout := Capabilities.Layout(
    ArrayConversionOperators, AsSpanReadOnlySpanMethods, ClearMethod, CollectionBuilder,
    ContainsMethod, CopyToMethod, FillMethod, GetEnumeratorMethod, ICollection, ICollectionT,
    IEnumerable, IEnumerableT, IList, IListT, IndexOfMethod, IReadOnlyCollectionT,
    IReadOnlyListT, IStructuralComparable, IStructuralEquatable, LengthProperty,
    ReadOnlySpanConstructor, ToArrayMethod, TryCopyToMethod, Everything)

  lemma LayoutIsWellFormed()
    ensures Layout.WellFormed()
  {
    InterfacesNest();
    MethodsWithinEverything();
    ListsWithinEverything();
  }

  lemma InterfacesNest()
    ensures IEnumerable <= IEnumerableT && IEnumerable <= ICollection && IEnumerableT <= ICollectionT
    ensures ICollection <= IList && ICollectionT <= IListT
    ensures IEnumerableT <= IReadOnlyCollectionT && IReadOnlyCollectionT <= IReadOnlyListT
  {
    CompositeValues();
  }

  lemma MethodsWithinEverything()
    ensures ContainsMethod <= Everything && IndexOfMethod <= Everything
    ensures AsSpanReadOnlySpanMethods <= Everything && GetEnumeratorMethod <= Everything
  {
    WithinEverything(ContainsMethod);
    WithinEverything(IndexOfMethod);
    WithinEverything(AsSpanReadOnlySpanMethods);
    WithinEverything(GetEnumeratorMethod);
  }

  lemma ListsWithinEverything()
    ensures IListT <= Everything && IList <= Everything && IReadOnlyListT <= Everything
  {
    CompositeValues();
    WithinEverything(IList);
    WithinEverything(IListT);
    WithinEverything(IReadOnlyListT);
  }

  lemma WithinEverything(s: Flags)
    requires forall b | b in s :: b < 24
    ensures s <= Everything
  {
  }
}
