/** The per-declaration descriptor: capability closure, the validator's
    rules, the derived names, and the constructor that stops at the first
    sign of trouble. */
module TypeInfo {
  import opened Bits
  import opened Text
  import opened Diagnostics
  import opened TypeListNodes
  import Capabilities
  import Options = InlineCollectionOptions

  // ---- capability closure ------------------------------------------------

  /** What the shipped `GetFlags` computes, in closed form: it adds
      `GetEnumeratorMethod` to a value holding `RefStructEnumerator` and
      nothing else, because each of its composite `HasFlag` tests already
      requires every bit the branch would add. */
  function GetFlagsEffect(x: Flags): Flags
  {
    x + (if HasFlag(x, Options.RefStructEnumerator) then Options.GetEnumeratorMethod else {})
  }

  /** Adding bits a present value already holds changes nothing. */
  lemma Absorb(r: Flags, added: Flags, present: Flags)
    requires HasFlag(r, present) && added <= present
    ensures r + added == r
  {
  }

  /** `GetFlags` as written: an if-chain of `|=` guarded by `HasFlag` tests
      on composite members. */
  method GetFlagsAsWritten(flags: Flags) returns (r: Flags)
    ensures r == GetFlagsEffect(flags)
  {
    Options.CompositeValues();
    r := flags;
    if HasFlag(r, Options.IReadOnlyListT) {
      Absorb(r, Options.IEnumerable + Options.IEnumerableT + Options.IReadOnlyCollectionT, Options.IReadOnlyListT);
      r := r + Options.IEnumerable + Options.IEnumerableT + Options.IReadOnlyCollectionT;
    } else if HasFlag(r, Options.IReadOnlyCollectionT) {
      Absorb(r, Options.IEnumerable + Options.IEnumerableT, Options.IReadOnlyCollectionT);
      r := r + Options.IEnumerable + Options.IEnumerableT;
    }
    assert r == flags;
    if HasFlag(r, Options.IListT) {
      Absorb(r, Options.ICollectionT + Options.IEnumerable + Options.IEnumerableT, Options.IListT);
      r := r + Options.ICollectionT + Options.IEnumerable + Options.IEnumerableT;
    } else if HasFlag(r, Options.ICollectionT) {
      Absorb(r, Options.IEnumerable + Options.IEnumerableT, Options.ICollectionT);
      r := r + Options.IEnumerable + Options.IEnumerableT;
    }
    assert r == flags;
    if HasFlag(r, Options.IList) {
      Absorb(r, Options.ICollection + Options.IEnumerable, Options.IList);
      r := r + Options.ICollection + Options.IEnumerable;
    } else if HasFlag(r, Options.ICollection) {
      Absorb(r, Options.IEnumerable, Options.ICollection);
      r := r + Options.IEnumerable;
    }
    assert r == flags;
    if HasFlag(r, Options.IEnumerableT) {
      Absorb(r, Options.IEnumerable, Options.IEnumerableT);
      r := r + Options.IEnumerable;
    }
    assert r == flags;
    if HasFlag(r, Options.RefStructEnumerator) {
      r := r + Options.GetEnumeratorMethod;
    }
  }

  /** The input the closure's own comment names, `ICollection ^ IEnumerable`
      (bit 8 alone), comes back from the shipped `GetFlags` without the
      `IEnumerable` bit that `ICollection` includes, while the intended
      closure completes it. */
  lemma GetFlagsAsWrittenMissesPartialComposite()
    ensures GetFlagsEffect({8}) == {8} && !HasFlag(GetFlagsEffect({8}), Options.IEnumerable)
    ensures Closure({8}) == Options.ICollection
  {
    Options.CompositeValues();
    assert 10 !in GetFlagsEffect({8});
  }

  /** The bits the intended closure adds: one per composite that a requested
      own bit implies (the `IEnumerable` bit 10, the `IEnumerable<T>` bit 11,
      `ICollection<T>` 9 under `IList<T>`, `ICollection` 8 under `IList`,
      `IReadOnlyCollection<T>` 15 under `IReadOnlyList<T>`), plus
      `GetEnumeratorMethod` (7) under `RefStructEnumerator` (21). */
  function Implied(x: Flags): Flags
  {
    (if 8 in x || 9 in x || 11 in x || 12 in x || 13 in x || 15 in x || 16 in x then {10} else {})
    + (if 9 in x || 13 in x || 15 in x || 16 in x then {11} else {})
    + (if 13 in x then {9} else {})
    + (if 12 in x then {8} else {})
    + (if 16 in x then {15} else {})
    + (if 21 in x then {7} else {})
  }

  /** The intended closure of a capability value. */
  function Closure(x: Flags): Flags
  {
    x + Implied(x)
  }

  /** Every composite member whose own bit is set is present whole:
      `ICollection` (8), `ICollection<T>` (9), `IEnumerable<T>` (11),
      `IList` (12), `IList<T>` (13), `IReadOnlyCollection<T>` (15) and
      `IReadOnlyList<T>` (16). */
  predicate CompositesWhole(x: Flags)
  {
    && (8 in x ==> HasFlag(x, Options.ICollection))
    && (9 in x ==> HasFlag(x, Options.ICollectionT))
    && (11 in x ==> HasFlag(x, Options.IEnumerableT))
    && (12 in x ==> HasFlag(x, Options.IList))
    && (13 in x ==> HasFlag(x, Options.IListT))
    && (15 in x ==> HasFlag(x, Options.IReadOnlyCollectionT))
    && (16 in x ==> HasFlag(x, Options.IReadOnlyListT))
  }

  /** `GetFlags` with its guards testing the member's own bit, so that the
      redundancy it was written for takes effect. */
  method GetFlags(flags: Flags) returns (r: Flags)
    ensures r == Closure(flags)
  {
    Options.CompositeValues();
    r := flags;
    if Options.OwnBit(Options.MIReadOnlyListT) in r {
      r := r + Options.IEnumerable + Options.IEnumerableT + Options.IReadOnlyCollectionT;
    } else if Options.OwnBit(Options.MIReadOnlyCollectionT) in r {
      r := r + Options.IEnumerable + Options.IEnumerableT;
    }
    ghost var s1 := r;
    assert s1 == flags + (if 16 in flags then {10, 11, 15} else if 15 in flags then {10, 11} else {});
    if Options.OwnBit(Options.MIListT) in r {
      r := r + Options.ICollectionT + Options.IEnumerable + Options.IEnumerableT;
    } else if Options.OwnBit(Options.MICollectionT) in r {
      r := r + Options.IEnumerable + Options.IEnumerableT;
    }
    ghost var s2 := r;
    assert s2 == s1 + (if 13 in s1 then {9, 10, 11} else if 9 in s1 then {10, 11} else {});
    if Options.OwnBit(Options.MIList) in r {
      r := r + Options.ICollection + Options.IEnumerable;
    } else if Options.OwnBit(Options.MICollection) in r {
      r := r + Options.IEnumerable;
    }
    ghost var s3 := r;
    assert s3 == s2 + (if 12 in s2 then {8, 10} else if 8 in s2 then {10} else {});
    if Options.OwnBit(Options.MIEnumerableT) in r {
      r := r + Options.IEnumerable;
    }
    ghost var s4 := r;
    assert s4 == s3 + (if 11 in s3 then {10} else {});
    if HasFlag(r, Options.RefStructEnumerator) {
      r := r + Options.GetEnumeratorMethod;
    }
    assert r == s4 + (if 21 in s4 then {7} else {});
    StagesMakeClosure(flags, s1, s2, s3, s4, r);
  }

  /** The five guarded steps of `GetFlags`, one after the other, add exactly
      the implied bits. */
  lemma StagesMakeClosure(flags: Flags, s1: Flags, s2: Flags, s3: Flags, s4: Flags, r: Flags)
    requires s1 == flags + (if 16 in flags then {10, 11, 15} else if 15 in flags then {10, 11} else {})
    requires s2 == s1 + (if 13 in s1 then {9, 10, 11} else if 9 in s1 then {10, 11} else {})
    requires s3 == s2 + (if 12 in s2 then {8, 10} else if 8 in s2 then {10} else {})
    requires s4 == s3 + (if 11 in s3 then {10} else {})
    requires r == s4 + (if 21 in s4 then {7} else {})
    ensures r == Closure(flags)
  {
    assert forall b :: b in r <==> b in Closure(flags);
  }

  /** The closure only adds bits, and what it returns holds every requested
      composite whole and `GetEnumeratorMethod` beside `RefStructEnumerator`. */
  lemma ClosureIsClosed(x: Flags)
    ensures x <= Closure(x)
    ensures CompositesWhole(Closure(x))
    ensures HasFlag(Closure(x), Options.RefStructEnumerator) ==> HasFlag(Closure(x), Options.GetEnumeratorMethod)
  {
    Options.CompositeValues();
  }

  lemma ClosureIdempotent(x: Flags)
    ensures Closure(Closure(x)) == Closure(x)
  {
    assert Implied(Closure(x)) <= Closure(x);
  }

  lemma ClosureMonotone(x: Flags, y: Flags)
    requires x <= y
    ensures Closure(x) <= Closure(y)
  {
    assert Implied(x) <= Implied(y);
  }

  /** On a value whose requested composites are already whole, the shipped
      closure and the intended one agree. */
  lemma ClosureAgreesOnWholeComposites(x: Flags)
    requires CompositesWhole(x)
    ensures Closure(x) == GetFlagsEffect(x)
  {
    Options.CompositeValues();
    assert Implied(x) <= GetFlagsEffect(x);
  }

  // ---- validator ----------------------------------------------------------

  /** The single field the target struct declares, as the validator sees it. */
  datatype FieldSymbol = FieldSymbol(
    Name: string,
    TypeDisplay: string,
    IsRequired: bool,
    IsReadOnly: bool,
    IsVolatile: bool,
    IsFixedSizeBuffer: bool,
    Locations: seq<LocationId>)

  /** The validator's input. `Namespace` is the containing namespace's
      display string. */
  datatype ConstructorArgs = ConstructorArgs(
    FieldSymbol: Option<FieldSymbol>,
    Flags: Flags,
    Length: int32,
    Location: LocationId,
    TypeList: seq<TypeListNode>,
    TypeSymbol: TypeSymbol,
    Namespace: string)

  /** A rule that raises `d` when `cond` holds. */
  function Optional(cond: bool, d: Diagnostic): seq<Diagnostic>
  {
    if cond then [d] else []
  }

  /** A diagnostic with no message arguments. */
  function At(code: DiagnosticCode, location: LocationId): Diagnostic
  {
    Diagnostic(code, Some(location), [])
  }

  /** `Locations.FirstOrDefault()`: a field without locations gives `null`. */
  function FirstLocation(locations: seq<LocationId>): (r: Option<LocationId>)
    ensures r.Some? <==> |locations| > 0
    ensures r.Some? ==> r.value == locations[0]
  {
    if locations == [] then None else Some(locations[0])
  }

  predicate HasInaccessibleFrame(typeList: seq<TypeListNode>)
  {
    exists i | 0 <= i < |typeList| :: !typeList[i].IsPublicOrInternal
  }

  predicate HasBadModifiers(field: FieldSymbol)
  {
    field.IsRequired || field.IsReadOnly || field.IsVolatile || field.IsFixedSizeBuffer
  }

  function PartialDiagnostic(node: TypeListNode): Diagnostic
  {
    Diagnostic(MustBePartialType, Some(node.Location), [TextArgument(node.FullName)])
  }

  /** One `MustBePartialType` per non-partial frame, in list order. */
  function PartialRule(typeList: seq<TypeListNode>): seq<Diagnostic>
  {
    if typeList == [] then []
    else
      var last := typeList[|typeList| - 1];
      PartialRule(typeList[..|typeList| - 1]) + (if last.IsPartial then [] else [PartialDiagnostic(last)])
  }

  function InaccessibleRule(args: ConstructorArgs, hasCollectionBuilder: bool): seq<Diagnostic>
  {
    Optional(hasCollectionBuilder && HasInaccessibleFrame(args.TypeList), At(CollectionBuilderTypeInaccessible, args.Location))
  }

  function LengthRule(args: ConstructorArgs): seq<Diagnostic>
  {
    Optional(args.Length <= 0, At(MustHaveValidLength, args.Location))
  }

  function FileLocalRule(args: ConstructorArgs): seq<Diagnostic>
    requires |args.TypeList| > 0
  {
    Optional(args.TypeList[0].IsFileLocal, At(MustNotBeFileLocalType, args.TypeList[0].Location))
  }

  function ReadOnlyRule(args: ConstructorArgs, typ: TypeListNode): seq<Diagnostic>
  {
    Optional(typ.IsReadOnly, At(MustNotBeReadOnly, args.Location))
  }

  function FieldRule(args: ConstructorArgs): seq<Diagnostic>
  {
    match args.FieldSymbol
    case None => Optional(true, At(MustDefineExactlyOneField, args.Location))
    case Some(field) =>
      Optional(HasBadModifiers(field), Diagnostic(InvalidElementFieldModifiers, FirstLocation(field.Locations), []))
  }

  /** Every diagnostic the validator raises for a declaration whose innermost
      frame is `typ`, rule by rule. */
  function DiagnosticsFor(args: ConstructorArgs, hasCollectionBuilder: bool, typ: TypeListNode): seq<Diagnostic>
    requires |args.TypeList| > 0
  {
    InaccessibleRule(args, hasCollectionBuilder) + LengthRule(args) + FileLocalRule(args)
    + PartialRule(args.TypeList) + ReadOnlyRule(args, typ) + FieldRule(args)
  }

  /** `GetDiagnostics`: the rules in order, with `Any` and `Where` as loops. */
  method GetDiagnostics(args: ConstructorArgs, hasCollectionBuilder: bool, typ: TypeListNode) returns (ds: seq<Diagnostic>)
    requires |args.TypeList| > 0
    ensures ds == DiagnosticsFor(args, hasCollectionBuilder, typ)
  {
    var typeList := args.TypeList;
    ds := [];
    var any := false;
    if hasCollectionBuilder {
      var i := 0;
      while i < |typeList| && !any
        invariant 0 <= i <= |typeList|
        invariant any ==> HasInaccessibleFrame(typeList)
        invariant !any ==> forall j | 0 <= j < i :: typeList[j].IsPublicOrInternal
      {
        any := !typeList[i].IsPublicOrInternal;
        i := i + 1;
      }
    }
    if hasCollectionBuilder && any {
      ds := ds + [At(CollectionBuilderTypeInaccessible, args.Location)];
    }
    ghost var step1 := ds;
    assert step1 == InaccessibleRule(args, hasCollectionBuilder);
    if args.Length <= 0 {
      ds := ds + [At(MustHaveValidLength, args.Location)];
    }
    ghost var step2 := ds;
    assert step2 == step1 + LengthRule(args);
    if typeList[0].IsFileLocal {
      ds := ds + [At(MustNotBeFileLocalType, typeList[0].Location)];
    }
    ghost var step3 := ds;
    assert step3 == step2 + FileLocalRule(args);
    // the `Where(!IsPartial)` loop, collected before being appended
    var nonPartial: seq<Diagnostic> := [];
    for i := 0 to |typeList|
      invariant nonPartial == PartialRule(typeList[..i])
    {
      PartialRuleStep(typeList, i);
      if !typeList[i].IsPartial {
        nonPartial := nonPartial + [PartialDiagnostic(typeList[i])];
      }
    }
    assert typeList[..|typeList|] == typeList;
    ds := ds + nonPartial;
    ghost var step4 := ds;
    if typ.IsReadOnly {
      ds := ds + [At(MustNotBeReadOnly, args.Location)];
    }
    ghost var step5 := ds;
    assert step5 == step4 + ReadOnlyRule(args, typ);
    if args.FieldSymbol.None? {
      ds := ds + [At(MustDefineExactlyOneField, args.Location)];
    } else if HasBadModifiers(args.FieldSymbol.value) {
      ds := ds + [Diagnostic(InvalidElementFieldModifiers, FirstLocation(args.FieldSymbol.value.Locations), [])];
    }
    assert ds == step5 + FieldRule(args);
  }

  /** The partial rule over one more frame. */
  lemma PartialRuleStep(typeList: seq<TypeListNode>, i: nat)
    requires i < |typeList|
    ensures PartialRule(typeList[..i + 1])
      == PartialRule(typeList[..i]) + Optional(!typeList[i].IsPartial, PartialDiagnostic(typeList[i]))
  {
    assert typeList[..i + 1][..i] == typeList[..i];
  }

  /** The indices of the non-partial frames, increasing. */
  function NonPartialIndices(typeList: seq<TypeListNode>): (idx: seq<nat>)
    ensures forall k | 0 <= k < |idx| :: idx[k] < |typeList| && !typeList[idx[k]].IsPartial
    ensures forall k, l | 0 <= k < l < |idx| :: idx[k] < idx[l]
    ensures forall i | 0 <= i < |typeList| && !typeList[i].IsPartial :: i in idx
  {
    if typeList == [] then []
    else
      var n := |typeList| - 1;
      NonPartialIndices(typeList[..n]) + (if typeList[n].IsPartial then [] else [n])
  }

  /** The partial rule raises exactly one diagnostic per non-partial frame,
      in outer-to-inner order, each at that frame and naming it. */
  lemma {:induction false} PartialRuleFollowsFrames(typeList: seq<TypeListNode>)
    ensures |PartialRule(typeList)| == |NonPartialIndices(typeList)|
    ensures forall k | 0 <= k < |PartialRule(typeList)| ::
      PartialRule(typeList)[k] == PartialDiagnostic(typeList[NonPartialIndices(typeList)[k]])
  {
    if typeList != [] {
      var n := |typeList| - 1;
      var init := typeList[..n];
      PartialRuleFollowsFrames(init);
      var idx, rule := NonPartialIndices(init), PartialRule(init);
      forall k | 0 <= k < |idx|
        ensures init[idx[k]] == typeList[idx[k]]
      {
      }
      if typeList[n].IsPartial {
        assert PartialRule(typeList) == rule && NonPartialIndices(typeList) == idx;
      } else {
        assert PartialRule(typeList) == rule + [PartialDiagnostic(typeList[n])];
        assert NonPartialIndices(typeList) == idx + [n];
      }
    }
  }

  /** Filtering the six rules' concatenation filters each rule. */
  lemma OfCodeOfSix(a: seq<Diagnostic>, b: seq<Diagnostic>, c: seq<Diagnostic>, d: seq<Diagnostic>,
                    e: seq<Diagnostic>, f: seq<Diagnostic>, code: DiagnosticCode)
    ensures OfCode(a + b + c + d + e + f, code)
      == OfCode(a, code) + OfCode(b, code) + OfCode(c, code) + OfCode(d, code) + OfCode(e, code) + OfCode(f, code)
  {
    OfCodeConcat(a + b + c + d + e, f, code);
    OfCodeConcat(a + b + c + d, e, code);
    OfCodeConcat(a + b + c, d, code);
    OfCodeConcat(a + b, c, code);
    OfCodeConcat(a, b, code);
  }

  /** Every diagnostic of the partial rule is a `MustBePartialType`. */
  lemma {:induction false} PartialRuleCodes(typeList: seq<TypeListNode>, code: DiagnosticCode)
    ensures OfCode(PartialRule(typeList), code) == if code == MustBePartialType then PartialRule(typeList) else []
  {
    if typeList != [] {
      var n := |typeList| - 1;
      PartialRuleCodes(typeList[..n], code);
      var tail := if typeList[n].IsPartial then [] else [PartialDiagnostic(typeList[n])];
      OfCodeConcat(PartialRule(typeList[..n]), tail, code);
    }
  }

  /** Filtering a rule that raises at most one diagnostic. */
  lemma OfCodeOptional(cond: bool, d: Diagnostic, code: DiagnosticCode)
    ensures |OfCode(Optional(cond, d), code)| == if cond && d.code == code then 1 else 0
    ensures d.code != code ==> OfCode(Optional(cond, d), code) == []
  {
    if cond {
      assert [d][..0] == [];
    }
  }

  /** How many diagnostics of each code the validator raises, rule by rule. */
  lemma CountsByRule(args: ConstructorArgs, hasCollectionBuilder: bool, typ: TypeListNode, code: DiagnosticCode)
    requires |args.TypeList| > 0
    ensures |OfCode(DiagnosticsFor(args, hasCollectionBuilder, typ), code)|
      == (if code == CollectionBuilderTypeInaccessible && hasCollectionBuilder && HasInaccessibleFrame(args.TypeList) then 1 else 0)
       + (if code == MustHaveValidLength && args.Length <= 0 then 1 else 0)
       + (if code == MustNotBeFileLocalType && args.TypeList[0].IsFileLocal then 1 else 0)
       + (if code == MustBePartialType then |PartialRule(args.TypeList)| else 0)
       + (if code == MustNotBeReadOnly && typ.IsReadOnly then 1 else 0)
       + (if code == MustDefineExactlyOneField && args.FieldSymbol.None? then 1 else 0)
       + (if code == InvalidElementFieldModifiers && args.FieldSymbol.Some? && HasBadModifiers(args.FieldSymbol.value) then 1 else 0)
  {
    CountOfSix(InaccessibleRule(args, hasCollectionBuilder), LengthRule(args), FileLocalRule(args),
      PartialRule(args.TypeList), ReadOnlyRule(args, typ), FieldRule(args), code);
    PartCounts(args, hasCollectionBuilder, typ, code);
    FieldRuleCount(args, code);
  }

  /** The count of `code` in each of the single-diagnostic rules. */
  lemma PartCounts(args: ConstructorArgs, hasCollectionBuilder: bool, typ: TypeListNode, code: DiagnosticCode)
    requires |args.TypeList| > 0
    ensures |OfCode(InaccessibleRule(args, hasCollectionBuilder), code)|
      == if code == CollectionBuilderTypeInaccessible && hasCollectionBuilder && HasInaccessibleFrame(args.TypeList) then 1 else 0
    ensures |OfCode(LengthRule(args), code)| == if code == MustHaveValidLength && args.Length <= 0 then 1 else 0
    ensures |OfCode(FileLocalRule(args), code)| == if code == MustNotBeFileLocalType && args.TypeList[0].IsFileLocal then 1 else 0
    ensures |OfCode(PartialRule(args.TypeList), code)| == if code == MustBePartialType then |PartialRule(args.TypeList)| else 0
    ensures |OfCode(ReadOnlyRule(args, typ), code)| == if code == MustNotBeReadOnly && typ.IsReadOnly then 1 else 0
  {
    OfCodeOptional(hasCollectionBuilder && HasInaccessibleFrame(args.TypeList), At(CollectionBuilderTypeInaccessible, args.Location), code);
    OfCodeOptional(args.Length <= 0, At(MustHaveValidLength, args.Location), code);
    OfCodeOptional(args.TypeList[0].IsFileLocal, At(MustNotBeFileLocalType, args.TypeList[0].Location), code);
    PartialRuleCodes(args.TypeList, code);
    OfCodeOptional(typ.IsReadOnly, At(MustNotBeReadOnly, args.Location), code);
  }

  /** The count over six concatenated parts is the sum of their counts. */
  lemma CountOfSix(a: seq<Diagnostic>, b: seq<Diagnostic>, c: seq<Diagnostic>, d: seq<Diagnostic>,
                   e: seq<Diagnostic>, f: seq<Diagnostic>, code: DiagnosticCode)
    ensures |OfCode(a + b + c + d + e + f, code)|
      == |OfCode(a, code)| + |OfCode(b, code)| + |OfCode(c, code)| + |OfCode(d, code)| + |OfCode(e, code)| + |OfCode(f, code)|
  {
    OfCodeOfSix(a, b, c, d, e, f, code);
  }

  lemma FieldRuleCount(args: ConstructorArgs, code: DiagnosticCode)
    ensures |OfCode(FieldRule(args), code)|
      == (if code == MustDefineExactlyOneField && args.FieldSymbol.None? then 1 else 0)
       + (if code == InvalidElementFieldModifiers && args.FieldSymbol.Some? && HasBadModifiers(args.FieldSymbol.value) then 1 else 0)
  {
    match args.FieldSymbol {
      case None =>
        OfCodeOptional(true, At(MustDefineExactlyOneField, args.Location), code);
      case Some(field) =>
        OfCodeOptional(HasBadModifiers(field), Diagnostic(InvalidElementFieldModifiers, FirstLocation(field.Locations), []), code);
    }
  }

  /** A non-positive length, including the -1 that stands for a missing
      `Length` argument, raises exactly one `MustHaveValidLength`, whatever
      the other inputs; a positive one raises none. */
  lemma LengthRuleExact(args: ConstructorArgs, hasCollectionBuilder: bool, typ: TypeListNode)
    requires |args.TypeList| > 0
    ensures |OfCode(DiagnosticsFor(args, hasCollectionBuilder, typ), MustHaveValidLength)| == if args.Length <= 0 then 1 else 0
  {
    CountsByRule(args, hasCollectionBuilder, typ, MustHaveValidLength);
  }

  /** The inaccessible-builder diagnostic is raised iff the builder is asked
      for and some frame is neither public nor internal, and at most once. */
  lemma InaccessibleRuleExact(args: ConstructorArgs, hasCollectionBuilder: bool, typ: TypeListNode)
    requires |args.TypeList| > 0
    ensures |OfCode(DiagnosticsFor(args, hasCollectionBuilder, typ), CollectionBuilderTypeInaccessible)|
      == if hasCollectionBuilder && exists i | 0 <= i < |args.TypeList| :: !args.TypeList[i].IsPublicOrInternal then 1 else 0
  {
    CountsByRule(args, hasCollectionBuilder, typ, CollectionBuilderTypeInaccessible);
  }

  /** The file-local check reads the first frame only, the readonly check
      the frame it is given only. */
  lemma FileLocalAndReadOnlyRules(args: ConstructorArgs, hasCollectionBuilder: bool, typ: TypeListNode)
    requires |args.TypeList| > 0
    ensures |OfCode(DiagnosticsFor(args, hasCollectionBuilder, typ), MustNotBeFileLocalType)|
      == if args.TypeList[0].IsFileLocal then 1 else 0
    ensures |OfCode(DiagnosticsFor(args, hasCollectionBuilder, typ), MustNotBeReadOnly)|
      == if typ.IsReadOnly then 1 else 0
  {
    CountsByRule(args, hasCollectionBuilder, typ, MustNotBeFileLocalType);
    CountsByRule(args, hasCollectionBuilder, typ, MustNotBeReadOnly);
  }

  /** A missing field raises `MustDefineExactlyOneField`; a present one
      raises one `InvalidElementFieldModifiers` iff it is required, readonly,
      volatile or a fixed-size buffer; the two are never raised together. */
  lemma FieldRulesExact(args: ConstructorArgs, hasCollectionBuilder: bool, typ: TypeListNode)
    requires |args.TypeList| > 0
    ensures |OfCode(DiagnosticsFor(args, hasCollectionBuilder, typ), MustDefineExactlyOneField)|
      == if args.FieldSymbol.None? then 1 else 0
    ensures |OfCode(DiagnosticsFor(args, hasCollectionBuilder, typ), InvalidElementFieldModifiers)|
      == if args.FieldSymbol.Some? && HasBadModifiers(args.FieldSymbol.value) then 1 else 0
  {
    CountsByRule(args, hasCollectionBuilder, typ, MustDefineExactlyOneField);
    CountsByRule(args, hasCollectionBuilder, typ, InvalidElementFieldModifiers);
  }

  /** The partial-type diagnostics of a declaration are exactly one per
      non-partial frame, in outer-to-inner order, each at that frame and
      naming it. */
  lemma PartialDiagnosticsExact(args: ConstructorArgs, hasCollectionBuilder: bool, typ: TypeListNode)
    requires |args.TypeList| > 0
    ensures var ps := OfCode(DiagnosticsFor(args, hasCollectionBuilder, typ), MustBePartialType);
      var idx := NonPartialIndices(args.TypeList);
      |ps| == |idx| && forall k | 0 <= k < |ps| :: ps[k] == PartialDiagnostic(args.TypeList[idx[k]])
  {
    PartialDiagnosticsArePartialRule(args, hasCollectionBuilder, typ);
    PartialRuleFollowsFrames(args.TypeList);
  }

  lemma PartialDiagnosticsArePartialRule(args: ConstructorArgs, hasCollectionBuilder: bool, typ: TypeListNode)
    requires |args.TypeList| > 0
    ensures OfCode(DiagnosticsFor(args, hasCollectionBuilder, typ), MustBePartialType) == PartialRule(args.TypeList)
  {
    var code := MustBePartialType;
    OfCodeOptional(hasCollectionBuilder && HasInaccessibleFrame(args.TypeList), At(CollectionBuilderTypeInaccessible, args.Location), code);
    OfCodeOptional(args.Length <= 0, At(MustHaveValidLength, args.Location), code);
    OfCodeOptional(args.TypeList[0].IsFileLocal, At(MustNotBeFileLocalType, args.TypeList[0].Location), code);
    OfCodeOptional(typ.IsReadOnly, At(MustNotBeReadOnly, args.Location), code);
    FieldRuleCount(args, code);
    PartialRuleCodes(args.TypeList, code);
    OnlyOnePartContributes(InaccessibleRule(args, hasCollectionBuilder), LengthRule(args), FileLocalRule(args),
      PartialRule(args.TypeList), ReadOnlyRule(args, typ), FieldRule(args), code);
  }

  /** When only the fourth part holds diagnostics of `code`, those are all
      the concatenation's. */
  lemma OnlyOnePartContributes(a: seq<Diagnostic>, b: seq<Diagnostic>, c: seq<Diagnostic>, d: seq<Diagnostic>,
                               e: seq<Diagnostic>, f: seq<Diagnostic>, code: DiagnosticCode)
    requires |OfCode(a, code)| == 0 && |OfCode(b, code)| == 0 && |OfCode(c, code)| == 0
    requires |OfCode(e, code)| == 0 && |OfCode(f, code)| == 0
    ensures OfCode(a + b + c + d + e + f, code) == OfCode(d, code)
  {
    OfCodeOfSix(a, b, c, d, e, f, code);
    assert [] + [] + [] + OfCode(d, code) + [] + [] == OfCode(d, code);
  }

  /** A declaration is valid exactly when no rule applies. */
  lemma ValidIffNoRuleApplies(args: ConstructorArgs, hasCollectionBuilder: bool, typ: TypeListNode)
    requires |args.TypeList| > 0
    ensures DiagnosticsFor(args, hasCollectionBuilder, typ) == [] <==>
      && !(hasCollectionBuilder && HasInaccessibleFrame(args.TypeList))
      && args.Length > 0
      && !args.TypeList[0].IsFileLocal
      && (forall i | 0 <= i < |args.TypeList| :: args.TypeList[i].IsPartial)
      && !typ.IsReadOnly
      && args.FieldSymbol.Some? && !HasBadModifiers(args.FieldSymbol.value)
  {
    PartialRuleFollowsFrames(args.TypeList);
    var idx := NonPartialIndices(args.TypeList);
    if |idx| > 0 {
      assert !args.TypeList[idx[0]].IsPartial;
    }
  }

  // ---- derived names ------------------------------------------------------

  /** What the name builders need of a frame: an identifier for a name, a
      non-empty display string, and type parameters that are identifiers
      (none of them ends in '<'). */
  predicate WellFormedNode(node: TypeListNode)
  {
    && node.Name != "" && node.FullName != ""
    && forall p | p in node.TypeSymbol.TypeParameters :: p != "" && p[|p| - 1] != '<'
  }

  /** A frame's part of the builder name: its name, then "_<arity>" when it
      is generic. */
  function Segment(node: TypeListNode): string
  {
    node.Name + (if node.TypeSymbol.Arity() != 0 then "_" + Decimal(node.TypeSymbol.Arity()) else "")
  }

  function Segments(typeList: seq<TypeListNode>): (r: seq<string>)
    ensures |r| == |typeList|
    ensures forall i | 0 <= i < |r| :: r[i] == Segment(typeList[i])
  {
    if typeList == [] then [] else Segments(typeList[..|typeList| - 1]) + [Segment(typeList[|typeList| - 1])]
  }

  /** The companion builder type's name. */
  function CollectionBuilderName(typeList: seq<TypeListNode>): string
  {
    Join("_", Segments(typeList)) + "_CollectionBuilder"
  }

  /** One frame more: its segment joins the name with "_" unless it is
      the first. */
  lemma SegmentsStep(typeList: seq<TypeListNode>, i: nat)
    requires i < |typeList|
    requires forall k | 0 <= k < i :: typeList[k].Name != ""
    ensures var done := Join("_", Segments(typeList[..i]));
      && (done == "" <==> i == 0)
      && Join("_", Segments(typeList[..i + 1])) == (if i == 0 then "" else done + "_") + Segment(typeList[i])
  {
    assert Segments(typeList[..i + 1]) == Segments(typeList[..i]) + [Segment(typeList[i])];
    JoinSnoc("_", Segments(typeList[..i]), Segment(typeList[i]));
    if i > 0 {
      var segs := Segments(typeList[..i]);
      assert segs[i - 1] == Segment(typeList[i - 1]);
      JoinEnd("_", segs);
    }
  }

  /** One pass of the loop: "_" unless the builder is empty, the frame's
      name, and "_<arity>" when the frame is generic. */
  method AppendSegment(sb: string, node: TypeListNode) returns (r: string)
    ensures r == (if sb == "" then "" else sb + "_") + Segment(node)
  {
    r := sb;
    if |r| != 0 {
      r := r + "_";
    }
    ghost var prefix := r;
    r := r + node.Name;
    if node.TypeSymbol.Arity() != 0 {
      ghost var arity := Decimal(node.TypeSymbol.Arity());
      r := r + "_" + Decimal(node.TypeSymbol.Arity());
      assert r == prefix + (node.Name + ("_" + arity));
    }
  }

  /** `GetCollectionBuilderName`: a `StringBuilder` loop over the frames. */
  method GetCollectionBuilderName(typeList: seq<TypeListNode>) returns (name: string)
    requires forall i | 0 <= i < |typeList| :: typeList[i].Name != ""
    ensures name == CollectionBuilderName(typeList)
  {
    var sb := "";
    for i := 0 to |typeList|
      invariant sb == Join("_", Segments(typeList[..i]))
    {
      SegmentsStep(typeList, i);
      sb := AppendSegment(sb, typeList[i]);
    }
    assert typeList[..|typeList|] == typeList;
    name := sb + "_CollectionBuilder";
  }

  /** The builder of `Outer<T>.Inner` is `Outer_1_Inner_CollectionBuilder`:
      a generic frame contributes its arity, a non-generic one only its name. */
  lemma CollectionBuilderNameExample(outer: TypeListNode, inner: TypeListNode)
    requires |outer.TypeSymbol.TypeParameters| == 1 && inner.TypeSymbol.TypeParameters == []
    ensures CollectionBuilderName([outer, inner]) == outer.Name + "_1_" + inner.Name + "_CollectionBuilder"
  {
    var first, second := Segment(outer), Segment(inner);
    assert Decimal(1) == "1";
    assert first == outer.Name + "_1";
    assert second == inner.Name;
    assert Segments([outer, inner]) == [first] + [second];
    JoinSnoc("_", [first], second);
  }

  /** Every frame's type parameters, outermost frame first. */
  function TypeParameters(typeList: seq<TypeListNode>): seq<string>
  {
    if typeList == [] then []
    else TypeParameters(typeList[..|typeList| - 1]) + typeList[|typeList| - 1].TypeSymbol.TypeParameters
  }

  /** The builder's type-parameter list: empty when no frame is generic. */
  function TypeParameterList(typeList: seq<TypeListNode>): string
  {
    if TypeParameters(typeList) == [] then "" else "<" + Join(", ", TypeParameters(typeList)) + ">"
  }

  /** The list is empty exactly when no frame is generic; otherwise it is
      bracketed. */
  lemma {:induction false} TypeParameterListEmptyIffNoGenericFrame(typeList: seq<TypeListNode>)
    ensures TypeParameterList(typeList) == "" <==> forall i | 0 <= i < |typeList| :: typeList[i].TypeSymbol.Arity() == 0
    ensures TypeParameterList(typeList) != "" ==>
      TypeParameterList(typeList)[0] == '<' && TypeParameterList(typeList)[|TypeParameterList(typeList)| - 1] == '>'
  {
    if typeList != [] {
      var n := |typeList| - 1;
      TypeParameterListEmptyIffNoGenericFrame(typeList[..n]);
      assert forall i | 0 <= i < n :: typeList[..n][i] == typeList[i];
    }
  }

  /** Type parameters as the list prints them: none is empty or ends in '<'. */
  predicate Identifiers(ps: seq<string>)
  {
    forall k | 0 <= k < |ps| :: ps[k] != "" && ps[k][|ps[k]| - 1] != '<'
  }

  /** The list opened but not yet closed. */
  function Opened(ps: seq<string>): string
  {
    "<" + Join(", ", ps)
  }

  /** One parameter more: the buffer ends in '<' exactly when nothing is
      listed yet, so ", " goes before every parameter but the first. */
  lemma OpenedStep(ps: seq<string>, x: string)
    requires Identifiers(ps)
    ensures var sb := Opened(ps);
      && (sb[|sb| - 1] != '<' <==> ps != [])
      && Opened(ps + [x]) == (if ps != [] then sb + ", " else sb) + x
  {
    JoinSnoc(", ", ps, x);
    if ps != [] {
      JoinEnd(", ", ps);
    }
  }

  lemma IdentifiersConcat(a: seq<string>, b: seq<string>)
    requires Identifiers(a) && Identifiers(b)
    ensures Identifiers(a + b)
  {
  }

  /** One frame more: its parameters follow the earlier frames'. */
  lemma TypeParametersSnoc(typeList: seq<TypeListNode>, i: nat)
    requires i < |typeList|
    ensures TypeParameters(typeList[..i + 1]) == TypeParameters(typeList[..i]) + typeList[i].TypeSymbol.TypeParameters
  {
    assert typeList[..i + 1][..i] == typeList[..i];
  }

  /** The inner loop: appends one generic frame's parameters to the opened
      list, opening it first when nothing is listed yet. */
  method AppendTypeParameters(sb: string, ghost done: seq<string>, parameters: seq<string>) returns (r: string)
    requires sb == if done == [] then "" else Opened(done)
    requires Identifiers(done) && Identifiers(parameters) && parameters != []
    ensures r == Opened(done + parameters)
  {
    r := sb;
    if |r| == 0 {
      r := r + "<";
    }
    assert done + parameters[..0] == done;
    for j := 0 to |parameters|
      invariant r == Opened(done + parameters[..j])
    {
      ghost var listed := done + parameters[..j];
      assert done + parameters[..j + 1] == listed + [parameters[j]];
      assert Identifiers(listed) by {
        IdentifiersConcat(done, parameters[..j]);
      }
      OpenedStep(listed, parameters[j]);
      if r[|r| - 1] != '<' {
        r := r + ", ";
      }
      r := r + parameters[j];
    }
    assert parameters[..|parameters|] == parameters;
  }

  /** `GetCollectionBuilderTypeParameterList`: opens the list at the first
      generic frame and separates every parameter after the first with ", ". */
  method GetCollectionBuilderTypeParameterList(typeList: seq<TypeListNode>) returns (list: string)
    requires forall i | 0 <= i < |typeList| :: Identifiers(typeList[i].TypeSymbol.TypeParameters)
    ensures list == TypeParameterList(typeList)
  {
    var sb := "";
    for i := 0 to |typeList|
      invariant sb == if TypeParameters(typeList[..i]) == [] then "" else Opened(TypeParameters(typeList[..i]))
      invariant Identifiers(TypeParameters(typeList[..i]))
    {
      var parameters := typeList[i].TypeSymbol.TypeParameters;
      ghost var done := TypeParameters(typeList[..i]);
      TypeParametersSnoc(typeList, i);
      IdentifiersConcat(done, parameters);
      if typeList[i].TypeSymbol.Arity() == 0 {
        assert done + parameters == done;
        continue;
      }
      sb := AppendTypeParameters(sb, done, parameters);
    }
    assert typeList[..|typeList|] == typeList;
    if |sb| != 0 {
      sb := sb + ">";
    }
    list := sb;
  }

  function FullNames(typeList: seq<TypeListNode>): (r: seq<string>)
    ensures |r| == |typeList|
    ensures forall i | 0 <= i < |r| :: r[i] == typeList[i].FullName
  {
    if typeList == [] then [] else FullNames(typeList[..|typeList| - 1]) + [typeList[|typeList| - 1].FullName]
  }

  /** `GetFullNameWithContainingTypeNames`: the frames' display names
      joined with '.'. */
  method GetFullNameWithContainingTypeNames(typeList: seq<TypeListNode>) returns (name: string)
    requires forall i | 0 <= i < |typeList| :: typeList[i].FullName != ""
    ensures name == Join(".", FullNames(typeList))
  {
    name := "";
    for i := 0 to |typeList|
      invariant name == Join(".", FullNames(typeList[..i]))
      invariant i > 0 ==> name != ""
    {
      assert FullNames(typeList[..i + 1]) == FullNames(typeList[..i]) + [typeList[i].FullName];
      JoinSnoc(".", FullNames(typeList[..i]), typeList[i].FullName);
      if |name| != 0 {
        name := name + ".";
      }
      name := name + typeList[i].FullName;
    }
    assert typeList[..|typeList|] == typeList;
  }

  // ---- the chain of frames --------------------------------------------------

  /** A type symbol and the syntax of its first declaration. */
  datatype Frame = Frame(Symbol: TypeSymbol, Declaration: TypeDeclaration)

  /** `GetTypeList`: walks from the target out through its containing types
      (`chain[0]` is the target, each next frame contains the previous one)
      and prepends each node, so the list runs from the outermost frame to
      the target. A frame of an unsupported kind aborts the walk with that
      kind, the innermost such frame first. */
  method GetTypeList(chain: seq<Frame>) returns (r: Result<seq<TypeListNode>>)
    ensures r.Success? <==> forall i | 0 <= i < |chain| :: NewTypeListNode(chain[i].Symbol, chain[i].Declaration).Success?
    ensures r.Success? ==> (
      && |r.value| == |chain|
      && forall k | 0 <= k < |chain| ::
        NewTypeListNode(chain[|chain| - 1 - k].Symbol, chain[|chain| - 1 - k].Declaration) == Success(r.value[k]))
    ensures r.NotSupported? ==> exists i | 0 <= i < |chain| ::
      && NewTypeListNode(chain[i].Symbol, chain[i].Declaration) == NotSupported(r.kindName)
      && forall j | 0 <= j < i :: NewTypeListNode(chain[j].Symbol, chain[j].Declaration).Success?
  {
    var typeList: seq<TypeListNode> := [];
    var i := 0;
    while i < |chain|
      invariant 0 <= i <= |chain|
      invariant |typeList| == i
      invariant forall j | 0 <= j < i :: NewTypeListNode(chain[j].Symbol, chain[j].Declaration) == Success(typeList[i - 1 - j])
    {
      var node := NewTypeListNode(chain[i].Symbol, chain[i].Declaration);
      if node.NotSupported? {
        return NotSupported(node.kindName);
      }
      typeList := [node.value] + typeList;
      i := i + 1;
    }
    r := Success(typeList);
    forall k | 0 <= k < |chain|
      ensures NewTypeListNode(chain[|chain| - 1 - k].Symbol, chain[|chain| - 1 - k].Declaration) == Success(typeList[k])
    {
      var j := |chain| - 1 - k;
      assert typeList[i - 1 - j] == typeList[k];
    }
  }

  /** The first node of a built list is the outermost frame, which the
      file-local check reads; the last is the target, which the readonly
      check reads. */
  lemma TypeListEnds(chain: seq<Frame>, typeList: seq<TypeListNode>)
    requires |chain| > 0 && |typeList| == |chain|
    requires forall k | 0 <= k < |chain| ::
      NewTypeListNode(chain[|chain| - 1 - k].Symbol, chain[|chain| - 1 - k].Declaration) == Success(typeList[k])
    ensures typeList[0].IsFileLocal <==> FirstModifier(chain[|chain| - 1].Declaration.Modifiers) == Some(File)
    ensures typeList[|typeList| - 1].IsReadOnly <==> ReadOnly in chain[0].Declaration.Modifiers
    ensures typeList[|typeList| - 1].TypeSymbol == chain[0].Symbol
  {
    assert NewTypeListNode(chain[|chain| - 1].Symbol, chain[|chain| - 1].Declaration) == Success(typeList[0]);
    assert NewTypeListNode(chain[0].Symbol, chain[0].Declaration) == Success(typeList[|chain| - 1]);
  }

  // ---- attribute arguments --------------------------------------------------

  /** The `[InlineCollection]` attribute as the host reads it: its positional
      arguments (`None` for a null constant) and its `Length` named argument,
      if given. */
  datatype AttributeData = AttributeData(ConstructorArguments: seq<Option<Flags>>, Length: Option<int32>)

  /** The capability value handed to the validator: zero without a
      positional argument, otherwise the closure of the value, a null value
      standing for `CollectionBuilder`. */
  method GetArgumentFlags(attribute: AttributeData) returns (flags: Flags)
    ensures |attribute.ConstructorArguments| == 0 ==> flags == {}
    ensures |attribute.ConstructorArguments| > 0 && attribute.ConstructorArguments[0].None? ==>
      flags == Closure(Options.CollectionBuilder)
    ensures |attribute.ConstructorArguments| > 0 && attribute.ConstructorArguments[0].Some? ==>
      flags == Closure(attribute.ConstructorArguments[0].value)
  {
    flags := {};
    if |attribute.ConstructorArguments| > 0 {
      var value := attribute.ConstructorArguments[0];
      var requested := if value.Some? then value.value else Options.CollectionBuilder;
      flags := GetFlags(requested);
    }
  }

  /** A null value asks for the collection builder alone; no argument asks
      for nothing, not even the builder. */
  lemma DefaultFlags()
    ensures Closure(Options.CollectionBuilder) == Options.CollectionBuilder
    ensures HasFlag(Closure(Options.CollectionBuilder), Options.CollectionBuilder)
    ensures !HasFlag({}, Options.CollectionBuilder)
  {
    assert 3 in Options.CollectionBuilder;
    assert Implied(Options.CollectionBuilder) == {};
  }

  /** The length handed to the validator: -1 without a `Length` argument. */
  function ArgumentLength(attribute: AttributeData): (n: int32)
    ensures attribute.Length.None? ==> n == -1
    ensures attribute.Length.Some? ==> n == attribute.Length.value
  {
    match attribute.Length
    case None => -1
    case Some(n) => n
  }

  /** A missing `Length` argument always yields exactly one invalid-length
      diagnostic. */
  lemma MissingLengthIsInvalid(args: ConstructorArgs, attribute: AttributeData, hasCollectionBuilder: bool, typ: TypeListNode)
    requires |args.TypeList| > 0 && attribute.Length.None? && args.Length == ArgumentLength(attribute)
    ensures |OfCode(DiagnosticsFor(args, hasCollectionBuilder, typ), MustHaveValidLength)| == 1
  {
    LengthRuleExact(args, hasCollectionBuilder, typ);
  }

  // ---- the descriptor -------------------------------------------------------

  datatype TypeInfo = TypeInfo(
    CollectionBuilderName: string,
    CollectionBuilderTypeParameterList: string,
    Diagnostics: seq<Diagnostic>,
    ElementType: string,
    ElementZeroFieldName: string,
    Flags: Flags,
    FullName: string,
    FullNameWithContainingTypeNames: string,
    Length: int32,
    LengthPropertyOrValue: string,
    Modifiers: string,
    Name: string,
    Namespace: string,
    TypeList: seq<TypeListNode>,
    TypeSymbol: Option<TypeSymbol>)

  /** A descriptor that stopped at its diagnostics: every other field keeps
      its default. */
  function Unpopulated(diagnostics: seq<Diagnostic>): TypeInfo
  {
    TypeInfo("", "", diagnostics, "", "", {}, "", "", 0, "", "", "", "", [], None)
  }

  /** The length as the generated code spells it. */
  function LengthText(flags: Flags, length: int32): string
    requires length > 0
  {
    if HasFlag(flags, Options.LengthProperty) then "Length" else Decimal(length as nat)
  }

  /** "Length" exactly when the property is asked for; otherwise a decimal
      that reads back as the length. */
  lemma LengthTextSpec(flags: Flags, length: int32)
    requires length > 0
    ensures LengthText(flags, length) == "Length" <==> HasFlag(flags, Options.LengthProperty)
    ensures !HasFlag(flags, Options.LengthProperty) ==> DecimalValue(LengthText(flags, length)) == length as int
  {
    if !HasFlag(flags, Options.LengthProperty) {
      DecimalRoundTrip(length as nat);
      assert LengthText(flags, length)[0] != 'L';
    }
  }

  /** A descriptor that passed validation. */
  function Populated(args: ConstructorArgs): TypeInfo
    requires |args.TypeList| > 0 && args.FieldSymbol.Some? && args.Length > 0
  {
    var hasCollectionBuilder := HasFlag(args.Flags, Options.CollectionBuilder);
    var typ := args.TypeList[|args.TypeList| - 1];
    TypeInfo(
      CollectionBuilderName := if hasCollectionBuilder then CollectionBuilderName(args.TypeList) else "",
      CollectionBuilderTypeParameterList := if hasCollectionBuilder then TypeParameterList(args.TypeList) else "",
      Diagnostics := [],
      ElementType := args.FieldSymbol.value.TypeDisplay,
      ElementZeroFieldName := args.FieldSymbol.value.Name,
      Flags := args.Flags,
      FullName := typ.FullName,
      FullNameWithContainingTypeNames := Join(".", FullNames(args.TypeList)),
      Length := args.Length,
      LengthPropertyOrValue := LengthText(args.Flags, args.Length),
      Modifiers := typ.Modifiers,
      Name := args.TypeSymbol.Name,
      Namespace := args.Namespace,
      TypeList := args.TypeList,
      TypeSymbol := Some(args.TypeSymbol))
  }

  /** The constructor: validates, and fills the derived fields only when
      no rule applies. */
  method NewTypeInfo(args: ConstructorArgs) returns (info: TypeInfo)
    requires |args.TypeList| > 0
    requires forall i | 0 <= i < |args.TypeList| :: WellFormedNode(args.TypeList[i])
    ensures info.Diagnostics
      == DiagnosticsFor(args, HasFlag(args.Flags, Options.CollectionBuilder), args.TypeList[|args.TypeList| - 1])
    ensures info.Diagnostics != [] ==> info == Unpopulated(info.Diagnostics)
    ensures info.Diagnostics == [] ==> args.FieldSymbol.Some? && args.Length > 0 && info == Populated(args)
  {
    var hasCollectionBuilder := HasFlag(args.Flags, Options.CollectionBuilder);
    var typ := args.TypeList[|args.TypeList| - 1];
    var diagnostics := GetDiagnostics(args, hasCollectionBuilder, typ);
    if |diagnostics| > 0 {
      return Unpopulated(diagnostics);
    }
    ValidIffNoRuleApplies(args, hasCollectionBuilder, typ);
    var builderName := "";
    var builderTypeParameters := "";
    if hasCollectionBuilder {
      builderName := GetCollectionBuilderName(args.TypeList);
      forall i | 0 <= i < |args.TypeList|
        ensures Identifiers(args.TypeList[i].TypeSymbol.TypeParameters)
      {
        assert WellFormedNode(args.TypeList[i]);
      }
      builderTypeParameters := GetCollectionBuilderTypeParameterList(args.TypeList);
    }
    var fullName := GetFullNameWithContainingTypeNames(args.TypeList);
    var field := args.FieldSymbol.value;
    var lengthText := if HasFlag(args.Flags, Options.LengthProperty) then "Length" else Decimal(args.Length as nat);
    info := TypeInfo(
      CollectionBuilderName := builderName,
      CollectionBuilderTypeParameterList := builderTypeParameters,
      Diagnostics := diagnostics,
      ElementType := field.TypeDisplay,
      ElementZeroFieldName := field.Name,
      Flags := args.Flags,
      FullName := typ.FullName,
      FullNameWithContainingTypeNames := fullName,
      Length := args.Length,
      LengthPropertyOrValue := lengthText,
      Modifiers := typ.Modifiers,
      Name := args.TypeSymbol.Name,
      Namespace := args.Namespace,
      TypeList := args.TypeList,
      TypeSymbol := Some(args.TypeSymbol));
  }

  /** Any diagnostic stops the constructor before the derived fields, and
      a valid descriptor has a positive length spelled as the property or
      as its decimal. */
  lemma ConstructorOutcome(args: ConstructorArgs)
    requires |args.TypeList| > 0
    ensures var ds := DiagnosticsFor(args, HasFlag(args.Flags, Options.CollectionBuilder), args.TypeList[|args.TypeList| - 1]);
      ds == [] ==> (
        && args.FieldSymbol.Some? && args.Length > 0
        && (Populated(args).LengthPropertyOrValue == "Length" <==> HasFlag(args.Flags, Options.LengthProperty))
        && (!HasFlag(args.Flags, Options.LengthProperty) ==> DecimalValue(Populated(args).LengthPropertyOrValue) == args.Length as int))
  {
    var typ := args.TypeList[|args.TypeList| - 1];
    ValidIffNoRuleApplies(args, HasFlag(args.Flags, Options.CollectionBuilder), typ);
    if args.Length > 0 {
      LengthTextSpec(args.Flags, args.Length);
    }
  }

  // ---- equality ---------------------------------------------------------------

  /** `SymbolEqualityComparer.Default.Equals` on possibly null symbols. */
  predicate SymbolEquals(a: Option<TypeSymbol>, b: Option<TypeSymbol>)
  {
    match (a, b)
    case (None, None) => true
    case (Some(x), Some(y)) => x.Id == y.Id
    case _ => false
  }

  /** Two descriptors are equal when they describe the same symbol. */
  predicate Equals(a: TypeInfo, b: TypeInfo)
  {
    SymbolEquals(a.TypeSymbol, b.TypeSymbol)
  }

  predicate EqualOperator(a: TypeInfo, b: TypeInfo) { Equals(a, b) }

  predicate NotEqualOperator(a: TypeInfo, b: TypeInfo) { !EqualOperator(a, b) }

  /** What `Equals(object)` can be handed. */
  datatype Boxed = BoxedTypeInfo(info: TypeInfo) | OtherObject

  predicate EqualsObject(a: TypeInfo, o: Boxed)
  {
    o.BoxedTypeInfo? && Equals(a, o.info)
  }

  /** The hash of the symbol, or of `null`; the symbol's own hash is the
      host's. */
  function GetHashCode(a: TypeInfo, symbolHash: Option<SymbolId> -> int32): int32
  {
    symbolHash(if a.TypeSymbol.Some? then Some(a.TypeSymbol.value.Id) else None)
  }

  /** Descriptor equality is an equivalence that the hash respects, and the
      operators agree with it. */
  lemma EqualityIsConsistent(a: TypeInfo, b: TypeInfo, c: TypeInfo, symbolHash: Option<SymbolId> -> int32)
    ensures Equals(a, a)
    ensures Equals(a, b) ==> Equals(b, a)
    ensures Equals(a, b) && Equals(b, c) ==> Equals(a, c)
    ensures Equals(a, b) ==> GetHashCode(a, symbolHash) == GetHashCode(b, symbolHash)
    ensures EqualOperator(a, b) <==> Equals(a, b)
    ensures NotEqualOperator(a, b) <==> !Equals(a, b)
    ensures EqualsObject(a, BoxedTypeInfo(b)) <==> Equals(a, b)
    ensures !EqualsObject(a, OtherObject)
  {
  }

  /** Every descriptor that stopped at its diagnostics has a null symbol,
      so all of them are equal to one another and to no valid descriptor. */
  lemma InvalidDescriptorsAreAllEqual(ds1: seq<Diagnostic>, ds2: seq<Diagnostic>, args: ConstructorArgs)
    requires |args.TypeList| > 0 && args.FieldSymbol.Some? && args.Length > 0
    ensures Equals(Unpopulated(ds1), Unpopulated(ds2))
    ensures !Equals(Unpopulated(ds1), Populated(args))
  {
  }
}
