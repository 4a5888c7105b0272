/** The capability names the descriptor and the composer test, independent of
    which revision of the enum assigns their bits. Both enum modules provide a
    `Layout`, and everything downstream is written against this record. */
module Capabilities {
  import opened Bits

  /** The value of each named capability in one enum revision. */
  datatype Layout = Layout(
    ArrayConversionOperators: Flags,
    AsSpanReadOnlySpanMethods: Flags,
    ClearMethod: Flags,
    CollectionBuilder: Flags,
    ContainsMethod: Flags,
    CopyToMethod: Flags,
    FillMethod: Flags,
    GetEnumeratorMethod: Flags,
    ICollection: Flags,
    ICollectionT: Flags,
    IEnumerable: Flags,
    IEnumerableT: Flags,
    IList: Flags,
    IListT: Flags,
    IndexOfMethod: Flags,
    IReadOnlyCollectionT: Flags,
    IReadOnlyListT: Flags,
    IStructuralComparable: Flags,
    IStructuralEquatable: Flags,
    LengthProperty: Flags,
    ReadOnlySpanConstructor: Flags,
    ToArrayMethod: Flags,
    TryCopyToMethod: Flags,
    Everything: Flags)
  {
    /** The inclusions both revisions build into their composite members,
        and `Everything` holding every member's bits. */
    predicate WellFormed()
    {
      && IEnumerable <= IEnumerableT
      && IEnumerable <= ICollection
      && IEnumerableT <= ICollectionT
      && ICollection <= IList
      && ICollectionT <= IListT
      && IEnumerableT <= IReadOnlyCollectionT
      && IReadOnlyCollectionT <= IReadOnlyListT
      && ContainsMethod <= Everything
      && IndexOfMethod <= Everything
      && AsSpanReadOnlySpanMethods <= Everything
      && GetEnumeratorMethod <= Everything
      && IListT <= Everything
      && IList <= Everything
      && IReadOnlyListT <= Everything
    }
  }
}
