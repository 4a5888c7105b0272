/** `GetGeneratedSourceInfo`: gathers the descriptors' diagnostics, writes
    one file holding a type per valid descriptor, and checks each collection
    expression that targets an inline collection against its length. */
module Generator {
  import opened Bits
  import opened Diagnostics
  import opened TypeListNodes
  import opened Builder
  import TI = TypeInfo
  import Source
  import Capabilities
  import opened GeneratedSourceInfos

  /** A collection expression converted to an attributed type: the original
      definition of its target type, whether each element is a spread
      (`..xs`), and where it is written. */
  datatype Site = Site(Target: SymbolId, Elements: seq<bool>, Location: LocationId)

  /** What the descriptor's constructor guarantees of a descriptor with no
      diagnostics: a symbol to key the length map and at least one frame. */
  predicate Constructed(info: TI.TypeInfo)
  {
    info.Diagnostics == [] ==> info.TypeSymbol.Some? && |info.TypeList| > 0
  }

  lemma PopulatedIsConstructed(args: TI.ConstructorArgs)
    requires |args.TypeList| > 0 && args.FieldSymbol.Some? && args.Length > 0
    ensures Constructed(TI.Populated(args)) && TI.Populated(args).Diagnostics == []
  {
  }

  predicate AllConstructed(infos: seq<TI.TypeInfo>)
  {
    forall i | 0 <= i < |infos| :: Constructed(infos[i])
  }

  // ---- the specification -------------------------------------------------------

  /** The descriptors' own diagnostics, in order. */
  function DeclarationDiagnostics(infos: seq<TI.TypeInfo>): seq<Diagnostic>
  {
    if infos == [] then []
    else DeclarationDiagnostics(infos[..|infos| - 1]) + infos[|infos| - 1].Diagnostics
  }

  /** A line break and the generated type, for a descriptor with no diagnostics. */
  function TypeText(t: Source.Templates, L: Capabilities.Layout, info: TI.TypeInfo): string
    requires Constructed(info)
  {
    if info.Diagnostics == [] then t.LineTerminator + Source.GeneratedType(t, L, info) else ""
  }

  /** The generated types, in order. */
  function Emitted(t: Source.Templates, L: Capabilities.Layout, infos: seq<TI.TypeInfo>): string
    requires AllConstructed(infos)
  {
    if infos == [] then ""
    else Emitted(t, L, infos[..|infos| - 1]) + TypeText(t, L, infos[|infos| - 1])
  }

  /** The length map after the first loop: each valid descriptor's symbol
      to its length, a later descriptor overwriting an earlier one. */
  function Lengths(infos: seq<TI.TypeInfo>): map<SymbolId, int32>
    requires AllConstructed(infos)
  {
    if infos == [] then map[]
    else
      var last := infos[|infos| - 1];
      var before := Lengths(infos[..|infos| - 1]);
      if last.Diagnostics == [] then before[last.TypeSymbol.value.Id := last.Length] else before
  }

  /** The number of elements that are not spreads. */
  function KnownCount(elements: seq<bool>): (n: nat)
    ensures n <= |elements|
  {
    if elements == [] then 0 else KnownCount(elements[..|elements| - 1]) + (if elements[|elements| - 1] then 0 else 1)
  }

  /** The diagnostic one site draws, if any. */
  function SiteDiagnostic(lengths: map<SymbolId, int32>, site: Site): seq<Diagnostic>
  {
    if site.Target !in lengths then []
    else
      var length := lengths[site.Target] as int;
      if |site.Elements| <= length then []
      else
        var code := if KnownCount(site.Elements) > length then CollectionExpressionTooLarge
          else CollectionExpressionMaybeTooLarge;
        [Diagnostic(code, Some(site.Location), [NumberArgument(length)])]
  }

  function SiteDiagnostics(lengths: map<SymbolId, int32>, sites: seq<Site>): seq<Diagnostic>
  {
    if sites == [] then []
    else SiteDiagnostics(lengths, sites[..|sites| - 1]) + SiteDiagnostic(lengths, sites[|sites| - 1])
  }

  // ---- the orchestrator ----------------------------------------------------------

  /** The file header and footer come from templates this model does not
      interpret; `L` is the capability layout the composer tests the flags
      against (`InlineCollectionFlags.Layout` in this revision);
      `allocation` is the identity of the array the diagnostics are copied
      into. */
  method GetGeneratedSourceInfo(t: Source.Templates, L: Capabilities.Layout, header: string, footer: string,
                                infos: seq<TI.TypeInfo>, sites: seq<Site>, allocation: nat)
    returns (r: GeneratedSourceInfo)
    requires AllConstructed(infos)
    ensures r.Diagnostics.Items == DeclarationDiagnostics(infos) + SiteDiagnostics(Lengths(infos), sites)
    ensures r.SourceText == header + Emitted(t, L, infos) + footer + t.LineTerminator
  {
    var sb := new StringBuilder.Of(header);
    var diagnostics, lengths := WriteDeclarations(sb, t, L, infos);
    sb.Append(footer);
    sb.Append(t.LineTerminator);
    diagnostics := CheckSites(lengths, sites, diagnostics);
    r := GeneratedSourceInfo(DiagnosticArray(allocation, diagnostics), sb.text);
  }

  /** The first loop: a descriptor with diagnostics hands them on and is
      skipped; any other has its type written and its length recorded. */
  method WriteDeclarations(sb: StringBuilder, t: Source.Templates, L: Capabilities.Layout, infos: seq<TI.TypeInfo>)
    returns (diagnostics: seq<Diagnostic>, lengths: map<SymbolId, int32>)
    requires AllConstructed(infos)
    modifies sb
    ensures diagnostics == DeclarationDiagnostics(infos)
    ensures lengths == Lengths(infos)
    ensures sb.text == old(sb.text) + Emitted(t, L, infos)
  {
    diagnostics := [];
    lengths := map[];
    ghost var start := sb.text;
    for i := 0 to |infos|
      invariant diagnostics == DeclarationDiagnostics(infos[..i])
      invariant sb.text == start + Emitted(t, L, infos[..i])
      invariant lengths == Lengths(infos[..i])
    {
      DeclarationStep(t, L, infos, i);
      Associate(start, Emitted(t, L, infos[..i]), TypeText(t, L, infos[i]));
      var info := infos[i];
      if info.Diagnostics != [] {
        assert TypeText(t, L, info) == "";
        diagnostics := diagnostics + info.Diagnostics;
        continue;
      }
      AppendType(sb, t, L, info);
      lengths := lengths[info.TypeSymbol.value.Id := info.Length];
    }
    assert infos[..|infos|] == infos;
  }

  /** `AppendLine().Append(GenerateForType(typeInfo))`. */
  method AppendType(sb: StringBuilder, t: Source.Templates, L: Capabilities.Layout, info: TI.TypeInfo)
    requires Constructed(info) && info.Diagnostics == []
    modifies sb
    ensures sb.text == old(sb.text) + TypeText(t, L, info)
  {
    var text := Source.GenerateForType(t, L, info);
    ghost var before := sb.text;
    sb.Append(t.LineTerminator);
    sb.Append(text);
    Associate(before, t.LineTerminator, text);
    assert TypeText(t, L, info) == t.LineTerminator + text;
  }

  lemma Associate(a: string, b: string, c: string)
    ensures a + b + c == a + (b + c)
  {
  }

  lemma DeclarationStep(t: Source.Templates, L: Capabilities.Layout, infos: seq<TI.TypeInfo>, i: nat)
    requires AllConstructed(infos) && i < |infos|
    ensures DeclarationDiagnostics(infos[..i + 1]) == DeclarationDiagnostics(infos[..i]) + infos[i].Diagnostics
    ensures Emitted(t, L, infos[..i + 1]) == Emitted(t, L, infos[..i]) + TypeText(t, L, infos[i])
    ensures Lengths(infos[..i + 1])
      == if infos[i].Diagnostics == [] then Lengths(infos[..i])[infos[i].TypeSymbol.value.Id := infos[i].Length]
         else Lengths(infos[..i])
  {
    assert infos[..i + 1][..i] == infos[..i];
  }

  /** The second loop: each site whose target is a generated type and that
      has more elements than its length draws one diagnostic. */
  method CheckSites(lengths: map<SymbolId, int32>, sites: seq<Site>, diagnostics: seq<Diagnostic>)
    returns (all: seq<Diagnostic>)
    ensures all == diagnostics + SiteDiagnostics(lengths, sites)
  {
    all := diagnostics;
    for j := 0 to |sites|
      invariant all == diagnostics + SiteDiagnostics(lengths, sites[..j])
    {
      assert sites[..j + 1][..j] == sites[..j];
      var site := sites[j];
      if site.Target !in lengths {
        continue;
      }
      var length := lengths[site.Target];
      if |site.Elements| > length as int {
        var known := KnownCount(site.Elements);
        var code := if known > length as int then CollectionExpressionTooLarge else CollectionExpressionMaybeTooLarge;
        all := all + [Diagnostic(code, Some(site.Location), [NumberArgument(length as int)])];
      }
    }
    assert sites[..|sites|] == sites;
  }

  // ---- what the orchestrator guarantees -------------------------------------------

  lemma AllConstructedAppend(a: seq<TI.TypeInfo>, b: seq<TI.TypeInfo>)
    requires AllConstructed(a) && AllConstructed(b)
    ensures AllConstructed(a + b)
  {
    forall i | 0 <= i < |a + b|
      ensures Constructed((a + b)[i])
    {
      if i < |a| {
        assert (a + b)[i] == a[i];
      } else {
        assert (a + b)[i] == b[i - |a|];
      }
    }
  }

  lemma {:induction false} DeclarationDiagnosticsAppend(a: seq<TI.TypeInfo>, b: seq<TI.TypeInfo>)
    ensures DeclarationDiagnostics(a + b) == DeclarationDiagnostics(a) + DeclarationDiagnostics(b)
    decreases |b|
  {
    if b == [] {
      assert a + b == a;
    } else {
      var init := b[..|b| - 1];
      assert (a + b)[..|a + b| - 1] == a + init;
      DeclarationDiagnosticsAppend(a, init);
    }
  }

  lemma {:induction false} EmittedAppend(t: Source.Templates, L: Capabilities.Layout, a: seq<TI.TypeInfo>, b: seq<TI.TypeInfo>)
    requires AllConstructed(a) && AllConstructed(b)
    ensures AllConstructed(a + b)
    ensures Emitted(t, L, a + b) == Emitted(t, L, a) + Emitted(t, L, b)
    decreases |b|
  {
    AllConstructedAppend(a, b);
    if b == [] {
      assert a + b == a;
    } else {
      var init := b[..|b| - 1];
      assert (a + b)[..|a + b| - 1] == a + init;
      assert AllConstructed(init) by {
        forall i | 0 <= i < |init|
          ensures Constructed(init[i])
        {
          assert init[i] == b[i];
        }
      }
      EmittedAppend(t, L, a, init);
      Associate(Emitted(t, L, a), Emitted(t, L, init), TypeText(t, L, b[|b| - 1]));
    }
  }

  /** The length map of two runs is the first run's map overridden by the
      second's. */
  lemma {:induction false} LengthsAppend(a: seq<TI.TypeInfo>, b: seq<TI.TypeInfo>)
    requires AllConstructed(a) && AllConstructed(b)
    ensures AllConstructed(a + b)
    ensures Lengths(a + b) == Lengths(a) + Lengths(b)
    decreases |b|
  {
    AllConstructedAppend(a, b);
    if b == [] {
      assert a + b == a;
    } else {
      var init := b[..|b| - 1];
      assert (a + b)[..|a + b| - 1] == a + init;
      assert AllConstructed(init) by {
        forall i | 0 <= i < |init|
          ensures Constructed(init[i])
        {
          assert init[i] == b[i];
        }
      }
      LengthsAppend(a, init);
    }
  }

  lemma AllConstructedSlices(infos: seq<TI.TypeInfo>, i: nat, j: nat)
    requires AllConstructed(infos) && i <= j <= |infos|
    ensures AllConstructed(infos[i..j])
  {
    forall k | 0 <= k < j - i
      ensures Constructed(infos[i..j][k])
    {
      assert infos[i..j][k] == infos[i + k];
    }
  }

  /** A descriptor with diagnostics hands on exactly its diagnostics, in
      its place, and otherwise leaves no trace: the text and the length map
      are those of the other descriptors. */
  lemma InvalidDeclarationIgnored(t: Source.Templates, L: Capabilities.Layout, infos: seq<TI.TypeInfo>, i: nat)
    requires AllConstructed(infos) && i < |infos| && infos[i].Diagnostics != []
    ensures AllConstructed(infos[..i] + infos[i + 1..])
    ensures DeclarationDiagnostics(infos)
      == DeclarationDiagnostics(infos[..i]) + infos[i].Diagnostics + DeclarationDiagnostics(infos[i + 1..])
    ensures Emitted(t, L, infos) == Emitted(t, L, infos[..i] + infos[i + 1..])
    ensures Lengths(infos) == Lengths(infos[..i] + infos[i + 1..])
  {
    var before, own, after := infos[..i], [infos[i]], infos[i + 1..];
    assert infos == before + own + after;
    AllConstructedSlices(infos, 0, i);
    AllConstructedSlices(infos, i + 1, |infos|);
    AllConstructedSlices(infos, i, i + 1);
    assert infos[i..i + 1] == own;
    assert own[..0] == [];
    InvalidDiagnostics(before, own, after);
    InvalidText(t, L, before, own, after);
    InvalidLengths(before, own, after);
  }

  lemma InvalidDiagnostics(before: seq<TI.TypeInfo>, own: seq<TI.TypeInfo>, after: seq<TI.TypeInfo>)
    requires |own| == 1
    ensures DeclarationDiagnostics(before + own + after)
      == DeclarationDiagnostics(before) + own[0].Diagnostics + DeclarationDiagnostics(after)
  {
    assert own[..0] == [];
    DeclarationDiagnosticsAppend(before + own, after);
    DeclarationDiagnosticsAppend(before, own);
  }

  lemma InvalidText(t: Source.Templates, L: Capabilities.Layout,
                    before: seq<TI.TypeInfo>, own: seq<TI.TypeInfo>, after: seq<TI.TypeInfo>)
    requires AllConstructed(before) && AllConstructed(own) && AllConstructed(after)
    requires |own| == 1 && own[0].Diagnostics != []
    ensures AllConstructed(before + own + after) && AllConstructed(before + after)
    ensures Emitted(t, L, before + own + after) == Emitted(t, L, before + after)
  {
    assert own[..0] == [];
    assert TypeText(t, L, own[0]) == "";
    assert Emitted(t, L, own) == Emitted(t, L, []) + "";
    EmittedAppend(t, L, before, own);
    EmittedAppend(t, L, before + own, after);
    EmittedAppend(t, L, before, after);
    var e1, e2 := Emitted(t, L, before), Emitted(t, L, after);
    assert Emitted(t, L, before + own) == e1 + "" == e1;
  }

  lemma InvalidLengths(before: seq<TI.TypeInfo>, own: seq<TI.TypeInfo>, after: seq<TI.TypeInfo>)
    requires AllConstructed(before) && AllConstructed(own) && AllConstructed(after)
    requires |own| == 1 && own[0].Diagnostics != []
    ensures AllConstructed(before + own + after) && AllConstructed(before + after)
    ensures Lengths(before + own + after) == Lengths(before + after)
  {
    assert own[..0] == [];
    assert Lengths(own) == map[];
    LengthsAppend(before, own);
    LengthsAppend(before + own, after);
    LengthsAppend(before, after);
    assert Lengths(before) + map[] == Lengths(before);
  }

  /** The generated types appear in the order of their descriptors. */
  lemma TypesInInputOrder(t: Source.Templates, L: Capabilities.Layout, infos: seq<TI.TypeInfo>, i: nat, j: nat)
    requires AllConstructed(infos) && i < j < |infos|
    ensures AllConstructed(infos[..i]) && AllConstructed(infos[i + 1..j]) && AllConstructed(infos[j + 1..])
    ensures Emitted(t, L, infos)
      == Emitted(t, L, infos[..i]) + TypeText(t, L, infos[i]) + Emitted(t, L, infos[i + 1..j])
        + TypeText(t, L, infos[j]) + Emitted(t, L, infos[j + 1..])
  {
    var a, x, m, y, z := SplitAround(infos, i, j);
    EmittedAppend(t, L, a, x);
    EmittedAppend(t, L, a + x, m);
    EmittedAppend(t, L, a + x + m, y);
    EmittedAppend(t, L, a + x + m + y, z);
    EmittedSingle(t, L, infos[i]);
    EmittedSingle(t, L, infos[j]);
    Chain(Emitted(t, L, a + x), Emitted(t, L, a + x + m), Emitted(t, L, a + x + m + y), Emitted(t, L, infos),
      Emitted(t, L, a), Emitted(t, L, x), Emitted(t, L, m), Emitted(t, L, y), Emitted(t, L, z));
  }

  /** The descriptors before `i`, at `i`, between, at `j` and after. */
  lemma SplitAround(infos: seq<TI.TypeInfo>, i: nat, j: nat)
      returns (a: seq<TI.TypeInfo>, x: seq<TI.TypeInfo>, m: seq<TI.TypeInfo>, y: seq<TI.TypeInfo>, z: seq<TI.TypeInfo>)
    requires AllConstructed(infos) && i < j < |infos|
    ensures a == infos[..i] && x == [infos[i]] && m == infos[i + 1..j] && y == [infos[j]] && z == infos[j + 1..]
    ensures infos == a + x + m + y + z
    ensures AllConstructed(a) && AllConstructed(x) && AllConstructed(m) && AllConstructed(y) && AllConstructed(z)
    ensures AllConstructed(a + x) && AllConstructed(a + x + m) && AllConstructed(a + x + m + y)
  {
    AllConstructedSlices(infos, 0, i);
    AllConstructedSlices(infos, i + 1, j);
    AllConstructedSlices(infos, j + 1, |infos|);
    a, x, m, y, z := infos[..i], [infos[i]], infos[i + 1..j], [infos[j]], infos[j + 1..];
    assert infos == a + x + m + y + z;
    AllConstructedSlices(infos, 0, i + 1);
    AllConstructedSlices(infos, 0, j);
    AllConstructedSlices(infos, 0, j + 1);
    assert infos[..i + 1] == a + x && infos[..j] == a + x + m && infos[..j + 1] == a + x + m + y;
  }

  lemma EmittedSingle(t: Source.Templates, L: Capabilities.Layout, info: TI.TypeInfo)
    requires Constructed(info)
    ensures AllConstructed([info]) && Emitted(t, L, [info]) == TypeText(t, L, info)
  {
    assert [info][..0] == [];
  }

  /** Four appends in a row are the five parts written one after another. */
  lemma Chain(ax: string, axm: string, axmy: string, all: string, a: string, x: string, m: string, y: string, z: string)
    requires ax == a + x && axm == ax + m && axmy == axm + y && all == axmy + z
    ensures all == a + x + m + y + z
  {
  }

  /** The descriptor `info` declares the symbol `id` and is valid. */
  predicate Declares(info: TI.TypeInfo, id: SymbolId)
  {
    info.Diagnostics == [] && info.TypeSymbol.Some? && info.TypeSymbol.value.Id == id
  }

  /** The length map holds exactly the symbols of the valid descriptors, each
      with the length of the last valid descriptor of that symbol. */
  lemma {:induction false} LengthsSpec(infos: seq<TI.TypeInfo>, id: SymbolId)
    requires AllConstructed(infos)
    ensures id in Lengths(infos) <==> exists k | 0 <= k < |infos| :: Declares(infos[k], id)
    ensures id in Lengths(infos) ==> exists k | 0 <= k < |infos| ::
      (Declares(infos[k], id) && Lengths(infos)[id] == infos[k].Length
       && forall k' | k < k' < |infos| :: !Declares(infos[k'], id))
  {
    if infos != [] {
      var init := infos[..|infos| - 1];
      var last := infos[|infos| - 1];
      AllConstructedSlices(infos, 0, |infos| - 1);
      LengthsSpec(init, id);
      if Declares(last, id) {
      } else if id in Lengths(init) {
        var k :| 0 <= k < |init| && Declares(init[k], id) && Lengths(init)[id] == init[k].Length
          && forall k' | k < k' < |init| :: !Declares(init[k'], id);
        assert infos[k] == init[k];
        assert Lengths(infos)[id] == infos[k].Length;
        forall k' | k < k' < |infos|
          ensures !Declares(infos[k'], id)
        {
          if k' < |init| {
            assert infos[k'] == init[k'];
          }
        }
      } else {
        forall k | 0 <= k < |infos|
          ensures !Declares(infos[k], id)
        {
          if k < |init| {
            assert infos[k] == init[k];
          }
        }
      }
    }
  }

  /** The element count without the spreads equals the full count exactly
      when there is no spread. */
  lemma {:induction false} KnownCountSpec(elements: seq<bool>)
    ensures KnownCount(elements) == |elements| <==> forall k | 0 <= k < |elements| :: !elements[k]
  {
    if elements != [] {
      var init := elements[..|elements| - 1];
      KnownCountSpec(init);
      assert forall k | 0 <= k < |init| :: init[k] == elements[k];
    }
  }

  /** A site draws at most one diagnostic: none when its target is not a
      generated type or it has no more elements than the length, counting
      each spread once. A drawn diagnostic carries the length; it is
      TooLarge when the elements that are not spreads already overflow, and
      otherwise MaybeTooLarge, which only a site with a spread can draw. */
  lemma SiteClassification(lengths: map<SymbolId, int32>, site: Site)
    ensures var ds := SiteDiagnostic(lengths, site);
      && |ds| <= 1
      && (ds != [] <==> site.Target in lengths && |site.Elements| > lengths[site.Target] as int)
      && (ds != [] ==>
        && ds[0].location == Some(site.Location)
        && ds[0].arguments == [NumberArgument(lengths[site.Target] as int)]
        && (ds[0].code == CollectionExpressionTooLarge <==> KnownCount(site.Elements) > lengths[site.Target] as int)
        && (ds[0].code == CollectionExpressionTooLarge || ds[0].code == CollectionExpressionMaybeTooLarge)
        && (ds[0].code == CollectionExpressionMaybeTooLarge ==> exists k | 0 <= k < |site.Elements| :: site.Elements[k]))
  {
    KnownCountSpec(site.Elements);
  }

  /** A site without spreads is flagged exactly when it has more elements
      than the length, and then surely: never MaybeTooLarge. */
  lemma SpreadFreeSite(lengths: map<SymbolId, int32>, site: Site)
    requires site.Target in lengths && forall k | 0 <= k < |site.Elements| :: !site.Elements[k]
    ensures SiteDiagnostic(lengths, site) != [] <==> |site.Elements| > lengths[site.Target] as int
    ensures SiteDiagnostic(lengths, site) != [] ==> SiteDiagnostic(lengths, site)[0].code == CollectionExpressionTooLarge
  {
    KnownCountSpec(site.Elements);
  }

  /** Everything the second loop adds is a usage diagnostic, after all the
      descriptors' diagnostics. */
  lemma {:induction false} SiteDiagnosticsAreUsage(lengths: map<SymbolId, int32>, sites: seq<Site>)
    ensures forall d | d in SiteDiagnostics(lengths, sites) ::
      d.code == CollectionExpressionTooLarge || d.code == CollectionExpressionMaybeTooLarge
    ensures |SiteDiagnostics(lengths, sites)| <= |sites|
  {
    if sites != [] {
      SiteDiagnosticsAreUsage(lengths, sites[..|sites| - 1]);
      SiteClassification(lengths, sites[|sites| - 1]);
    }
  }
}
