# Inline collections generator, modelled in Dafny

Monkeymoto.InlineCollections is a C# source generator. A user declares a
`partial struct` with an `[InlineCollection(flags, Length = n)]` attribute
and one element field. The generator emits a fixed-size "inline collection"
type for it, and checks every collection expression that targets such a
type against the declared length.

This project models the deterministic core of that generator and proves
properties of it:

- the two capability enums, `InlineCollectionOptions` (24 bits) and the
  older `InlineCollectionFlags` (22 bits, `CollectionBuilder = 0`), as sets
  of bit positions (`inline_collection_options.dfy`,
  `inline_collection_flags.dfy`, `bits.dfy`). `HasFlag(x, f)` is `f <= x`,
  which is `(x & f) == f`;
- the per-declaration descriptor `InlineCollectionTypeInfo`: the capability
  closure `GetFlags`, the validator `GetDiagnostics`, the frame list
  `GetTypeList`, the derived names, the constructor that stops at the first
  diagnostic, and equality (`type_info.dfy`);
- the frame classification of `TypeListNode` (`type_list_node.dfy`);
- the composer `Source`: flag-gated fragments, the interface list, the
  member chain of the body with its separator rules, `TrimEnd`, the
  re-indented struct declaration and the re-nesting of containing types
  (`source.dfy`). The `StringBuilder` extension helpers it uses are a
  `class` whose methods update its text (`string_builder.dfy`);
- the orchestrator `GetGeneratedSourceInfo`, with its length map and
  usage-site classification (`generator.dfy`);
- the output record `GeneratedSourceInfo`: equality and hash
  (`generated_source_info.dfy`).

The composer tests capabilities through a `Capabilities.Layout`, a record
holding one flag value per capability name. `Source.cs` and the
orchestrator are written against `InlineCollectionFlags`, so they are read
with `InlineCollectionFlags.Layout`. The descriptor uses
`InlineCollectionOptions` directly.

Template texts and `string.Format` live in a file that is not part of this
model. They are the uninterpreted functions of `Source.Templates`, and the
statements about generated text hold whatever the templates say, with one
exception: the separator layout of the body (`Builder.TraceSpec`,
`Source.BodyLayout`) is proved for a member separator
(`Template_NewLineIndent2`) that is non-empty and all whitespace.

Where the repository's documentation and its code disagree, the model
follows the code:

- A collection expression draws a diagnostic only when its total element
  count, each spread counted once, exceeds the length
  (InlineCollectionsGenerator.cs:75). So two literals and one spread
  against a length of 5 draw nothing, although the `MaybeTooLarge` message
  (Diagnostics.cs:61) speaks of the length "when all elements are expanded".
- The file-local check reads `TypeList[0]`, the outermost frame
  (InlineCollectionTypeInfo.cs:92), not the declared struct.
- An empty capability set still emits the default constructor and the
  explicit `IInlineCollection<T>` implementation (Source.cs:119-123 and 265; Source.cs:213-222).
- `IList<T>` alone still lists the non-generic `IEnumerable`, because the
  composite value holds `IEnumerable`'s bit (Source.cs:317,328).
- All descriptors that stopped at their diagnostics have no symbol, so they
  compare equal (InlineCollectionTypeInfo.cs:244-247,267-268).
- The descriptor types `Flags` as `InlineCollectionOptions`, while `Source.cs`
  tests `InlineCollectionFlags` values.
- The diagnostic ids are those of the descriptors that the code references
  (`MMIC1000` to `MMIC1008`). The ids in `Diagnostics.cs` are from an older
  revision and do not match.

## Model

| member | source | states |
|---|---|---|
| Bits.LowBits | InlineCollectionOptions.cs:357 | `Everything` (`int.MaxValue`) is exactly the bits 0..30 |
| Bits.Wrap32 | GeneratedSourceInfo.cs:35-41 | `unchecked` 32-bit arithmetic: the result is congruent to the input modulo 2^32 and equal to it when it fits in an `int` |
| InlineCollectionOptions.OwnerOf | InlineCollectionOptions.cs:26-353 | every bit position below 24 is the own bit of the member returned |
| InlineCollectionOptions.OwnBitsAreDistinct | InlineCollectionOptions.cs:26-353 | each member's own bit is below 24, is set in its value, and identifies the member; `None` is empty |
| InlineCollectionOptions.CompositesIncludeWholeMembers | InlineCollectionOptions.cs:122-288 | any other bit in a member's value brings that bit's whole member with it |
| InlineCollectionOptions.CompositeInclusions | InlineCollectionOptions.cs:122-288 | `ICollection` and `IEnumerable<T>` include `IEnumerable`; `ICollection<T>` includes both, `IList<T>` includes `ICollection<T>` and `IEnumerable<T>`; `IList` includes `ICollection` and `IEnumerable` but not `IList<T>`'s bit; `IEnumerable<T>` is within `IReadOnlyCollection<T>`, which is within `IReadOnlyList<T>` |
| InlineCollectionOptions.CompositeValues | InlineCollectionOptions.cs:101-342 | the exact bit sets of the composite members, `GetEnumeratorMethod` and `RefStructEnumerator` |
| InlineCollectionOptions.RefStructEnumeratorIsLone | InlineCollectionOptions.cs:330-342 | `RefStructEnumerator` holds neither `IEnumerable`, `IEnumerable<T>` nor `GetEnumeratorMethod` |
| InlineCollectionOptions.EverythingHasEveryMember | InlineCollectionOptions.cs:357 | `Everything` has the flag of every member |
| InlineCollectionOptions.LayoutIsWellFormed | InlineCollectionOptions.cs:101-357 | the revision's values nest the interfaces and fit within `Everything` |
| InlineCollectionFlags.CollectionBuilderAlwaysPresent | InlineCollectionFlags.cs:23-28 | `CollectionBuilder` is 0, so every value has that flag |
| InlineCollectionFlags.OwnerOf | InlineCollectionFlags.cs:33-310 | every bit position below 22 is the own bit of the member returned |
| InlineCollectionFlags.OwnBitsAreDistinct | InlineCollectionFlags.cs:33-310 | each member's own bit is below 22, is set in its value, and identifies the member |
| InlineCollectionFlags.CompositesIncludeWholeMembers | InlineCollectionFlags.cs:108-263 | any other bit in a member's value brings that bit's whole member with it |
| InlineCollectionFlags.CompositeInclusions | InlineCollectionFlags.cs:108-263 | `ICollection` includes `IEnumerable`; `IList` includes both; `IEnumerable` ⊆ `IEnumerable<T>` ⊆ `ICollection<T>` ⊆ `IList<T>`; `IEnumerable<T>` ⊆ `IReadOnlyCollection<T>` ⊆ `IReadOnlyList<T>` |
| InlineCollectionFlags.CompositeValues | InlineCollectionFlags.cs:108-263 | the exact bit sets of the composite members |
| InlineCollectionFlags.GetEnumeratorMethodIsLone | InlineCollectionFlags.cs:79-87 | `GetEnumeratorMethod` holds neither `IEnumerable` nor `IEnumerable<T>` |
| InlineCollectionFlags.EverythingHasEveryMember | InlineCollectionFlags.cs:314 | `Everything` has the flag of every member |
| InlineCollectionFlags.LayoutIsWellFormed | InlineCollectionFlags.cs:87-314 | the revision's values nest the interfaces and fit within `Everything` |
| Diagnostics.DiagnosticCode.Id | InlineCollectionTypeInfo.cs:86-124 | each descriptor has an eight-character `MMIC` id |
| Diagnostics.IdsAreDistinct | InlineCollectionsGenerator.cs:80-82 | no two descriptors share an id |
| Diagnostics.OfCodeConcat | InlineCollectionTypeInfo.cs:83-128 | filtering the diagnostics by code distributes over appending |
| TypeListNodes.DeclarationKindSupport | InlineCollectionTypeInfo.TypeListNode.cs:36-51 | the kind is found exactly for class, interface, struct and record declarations, and distinct declarations get distinct kinds; any other kind is `NotSupported` |
| TypeListNodes.Classification | InlineCollectionTypeInfo.TypeListNode.cs:35-63 | file-local iff the first modifier is `file`; public-or-internal iff the first modifier is `public` or `internal`; partial and readonly iff the keyword appears anywhere; no modifiers gives neither file-local nor public; the modifier text is the declaration's own text of its modifier list, the tokens with the trivia between them; name and full name are the symbol's |
| TypeListNodes.LaterPublicDoesNotCount | InlineCollectionTypeInfo.TypeListNode.cs:55-59 | `partial public class` is partial but not public-or-internal |
| TypeInfo.GetFlagsAsWritten | InlineCollectionTypeInfo.cs:131-170 | the shipped if-chain adds `GetEnumeratorMethod` under `RefStructEnumerator` and nothing else |
| TypeInfo.GetFlagsAsWrittenMissesPartialComposite | InlineCollectionTypeInfo.cs:133-160 | `ICollection ^ IEnumerable` comes back without `IEnumerable`, while the corrected closure gives `ICollection` |
| TypeInfo.GetFlags | InlineCollectionTypeInfo.cs:131-170 | the corrected if-chain, testing own bits, computes `Closure` |
| TypeInfo.ClosureIsClosed | InlineCollectionTypeInfo.cs:131-170 | the closure only adds bits, holds every composite whose own bit is set whole, and has `GetEnumeratorMethod` under `RefStructEnumerator` |
| TypeInfo.ClosureIdempotent | InlineCollectionTypeInfo.cs:131-170 | closing twice is closing once |
| TypeInfo.ClosureMonotone | InlineCollectionTypeInfo.cs:131-170 | more requested bits give a larger closure |
| TypeInfo.ClosureAgreesOnWholeComposites | InlineCollectionTypeInfo.cs:131-170 | on values whose composites are whole, the corrected and the shipped closure agree |
| TypeInfo.GetDiagnostics | InlineCollectionTypeInfo.cs:81-129 | the rule-by-rule list is the six rules' diagnostics in order |
| TypeInfo.PartialRuleFollowsFrames | InlineCollectionTypeInfo.cs:96-105 | one `MustBePartialType` per non-partial frame, in frame order, each for that frame |
| TypeInfo.CountsByRule | InlineCollectionTypeInfo.cs:81-129 | the number of diagnostics of each code is what its rule contributes |
| TypeInfo.LengthRuleExact | InlineCollectionTypeInfo.cs:88-91 | exactly one `MustHaveValidLength` iff length <= 0, whatever the other inputs |
| TypeInfo.InaccessibleRuleExact | InlineCollectionTypeInfo.cs:84-87 | exactly one builder-inaccessible diagnostic iff the builder is requested and some frame is not public or internal, however many frames fail |
| TypeInfo.FileLocalAndReadOnlyRules | InlineCollectionTypeInfo.cs:92-109 | one file-local diagnostic iff the first frame is file-local; one readonly diagnostic iff the declared type is readonly |
| TypeInfo.FieldRulesExact | InlineCollectionTypeInfo.cs:110-127 | no field gives one `MustDefineExactlyOneField`; otherwise one `InvalidElementFieldModifiers` iff the field is required, readonly, volatile or a fixed buffer; never both |
| TypeInfo.PartialDiagnosticsExact | InlineCollectionTypeInfo.cs:96-105 | the `MustBePartialType` diagnostics of the whole list are one per non-partial frame, in order |
| TypeInfo.ValidIffNoRuleApplies | InlineCollectionTypeInfo.cs:81-129 | no diagnostics iff no rule's condition holds |
| TypeInfo.GetCollectionBuilderName | InlineCollectionTypeInfo.cs:34-50 | the loop builds the frame names joined by '_', each generic frame followed by `_<arity>`, then `_CollectionBuilder` |
| TypeInfo.CollectionBuilderNameExample | InlineCollectionTypeInfo.cs:34-50 | a generic outer frame of arity 1 and a plain inner frame give `Outer_1_Inner_CollectionBuilder` |
| TypeInfo.GetCollectionBuilderTypeParameterList | InlineCollectionTypeInfo.cs:52-79 | the loop builds `TypeParameterList`: '<', the generic frames' parameters in order separated by ", ", '>' |
| TypeInfo.TypeParameterListEmptyIffNoGenericFrame | InlineCollectionTypeInfo.cs:57-77 | the list is empty iff no frame is generic, and otherwise opens with '<' and closes with '>' |
| TypeInfo.GetFullNameWithContainingTypeNames | InlineCollectionTypeInfo.cs:172-184 | the frames' full names joined by '.' |
| TypeInfo.GetTypeList | InlineCollectionTypeInfo.cs:186-203 | walking out from the target and prepending gives one node per frame, outermost first; an unsupported frame aborts with its kind |
| TypeInfo.TypeListEnds | InlineCollectionTypeInfo.cs:92-109 | the first node is the outermost frame (read by the file-local check), the last is the target (read by the readonly check) |
| TypeInfo.GetArgumentFlags | InlineCollectionTypeInfo.cs:225-232 | no positional argument gives 0; a null one gives the closure of `CollectionBuilder`; otherwise the closure of the value |
| TypeInfo.DefaultFlags | InlineCollectionTypeInfo.cs:225-232 | a null argument requests the builder; no argument does not |
| TypeInfo.ArgumentLength | InlineCollectionTypeInfo.cs:233-234 | the `Length` argument, or -1 without one |
| TypeInfo.MissingLengthIsInvalid | InlineCollectionTypeInfo.cs:233-234 | a missing `Length` yields exactly one `MustHaveValidLength` |
| TypeInfo.LengthTextSpec | InlineCollectionTypeInfo.cs:258 | `"Length"` iff `LengthProperty` is set; otherwise the decimal text of the length |
| TypeInfo.NewTypeInfo | InlineCollectionTypeInfo.cs:239-264 | the descriptor holds the validator's diagnostics; with any diagnostic every other field is default; without, the fields are populated from the arguments |
| TypeInfo.ConstructorOutcome | InlineCollectionTypeInfo.cs:244-258 | a descriptor without diagnostics has a field, a positive length, and `LengthPropertyOrValue` as `LengthTextSpec` says |
| TypeInfo.EqualityIsConsistent | InlineCollectionTypeInfo.cs:266-269 | symbol equality is an equivalence, hashes agree on equal descriptors, `==`/`!=`/`Equals(object)` agree with it |
| TypeInfo.InvalidDescriptorsAreAllEqual | InlineCollectionTypeInfo.cs:244-247 | descriptors stopped at their diagnostics all compare equal, and differ from any populated one |
| Text.TrimmedEndSpec | Source.cs:483-495 | the trimmed text is a prefix, ends in no whitespace, and only whitespace was cut |
| Text.TrimmedEndIdempotent | Source.cs:483-495 | trimming twice is trimming once |
| Text.DecimalRoundTrip | InlineCollectionTypeInfo.cs:258 | `int.ToString` of a non-negative value reads back as that value |
| Text.ReplaceNewLines | Source.cs:424 | replacing every "\n" is joining the lines with the replacement |
| Text.ReplaceKeepsCount | Source.cs:422-423 | a replacement with as many line breaks as its pattern keeps the number of line breaks |
| Builder.StringBuilder.AppendIf | Source.cs:27-28 | appends only when the condition holds |
| Builder.StringBuilder.AppendInterface | Source.cs:30-32 | appends ", " before the name only when the text is not empty |
| Builder.StringBuilder.AppendInterfaceIf | Source.cs:34-35 | appends the interface only when the condition holds |
| Builder.StringBuilder.AppendSeparatorIf | Source.cs:45-46 | appends the separator only when the condition holds and the last char (or '\0' for an empty text) is the given char |
| Builder.StringBuilder.AppendSeparator | Source.cs:42-43 | the separator under a true condition |
| Builder.StringBuilder.AppendMember | Source.cs:37-40 | separator before a member that opens a block after ';', the member unless empty, separator after a trailing '}' |
| Builder.StringBuilder.TrimEnd | Source.cs:483-495 | the loop leaves `TrimmedEnd` of the old text |
| Builder.InterfaceAppendedJoins | Source.cs:30-32 | appending non-empty names one by one is joining them with ", ": no leading separator |
| Builder.ApplyRenders | Source.cs:37-46 | one call of the chain, read as chunks, renders to what the builder methods append |
| Builder.TraceSpec | Source.cs:37-46 | a chain of members and separators leaves the non-empty members in order, never an empty member, a separator only after ';' or '}', and one after every '}' |
| Source.GatedFragments | Source.cs:401-408 | every flag-gated fragment is empty when its flag is absent |
| Source.EnumeratorDelegation | Source.cs:195-211 | `IEnumerable` is empty without its flag; it delegates to the method under `GetEnumeratorMethod`, else to the explicit `IEnumerable<T>` (which is then emitted), else it is explicit; the explicit `IEnumerable<T>` needs `IEnumerable<T>` without `GetEnumeratorMethod` |
| Source.HasNoneOfTwo | Source.cs:479-480 | `HasNoneOf(a, b)` is "neither flag present" |
| Source.ExplicitImplementations | Source.cs:177-238 | the explicit `Contains`/`IndexOf` implementations need neither the method nor `Everything`, which is the method's absence; the explicit `IInlineCollection<T>` needs no span methods |
| Source.BuilderAlwaysGenerated | Source.cs:84-101 | under `InlineCollectionFlags` the builder attribute and class are always generated |
| Source.GetInterfaceList | Source.cs:313-343 | the chain of appends builds the names of `Listed` joined by ", " |
| Source.ListedSpec | Source.cs:325-341 | which interfaces are listed, in terms of the flags: the suppression rules for `ICollection`, `ICollection<T>`, `IEnumerable`, `IEnumerable<T>`, `IReadOnlyCollection<T>`; `IInlineCollection<T>` always |
| Source.ListedInOrder | Source.cs:330-341 | the list follows the fixed order and always holds `IInlineCollection<T>` |
| Source.ListedCoversRequests | Source.cs:313-343 | every requested interface is listed or extended by a listed one, and only requested interfaces are listed |
| Source.IListTAlone | Source.cs:313-343 | `IList<T>` alone lists `IEnumerable, IInlineCollection<T>, IList<T>` |
| Source.GetInlineCollectionBody | Source.cs:260-300 | the member chain and `TrimEnd` give `Body` |
| Source.BodyLayout | Source.cs:260-300 | the body holds exactly the non-empty fragments in chain order, laid out by the separator rules; it is that layout with exactly its trailing whitespace cut off |
| Source.ReindentedLines | Source.cs:422-424 | normalising "\r\n" and "\n\r" keeps every line, and re-indenting joins the lines with the new line and 4(n-1) spaces |
| Source.GetStructDeclarationSource | Source.cs:410-425 | the formatted declaration, normalised and re-indented |
| Source.GetTypeDeclarationsSource | Source.cs:435-469 | a single frame gives the struct alone; otherwise n-1 headers at indents 4..4(n-1), the struct, and n-1 closers at 4(n-1)..4 |
| Source.NestingMirrors | Source.cs:441-467 | the headers, the inner text and the closers are each frame opened around the next and closed at its own indent |
| Source.TypeDeclarationsNest | Source.cs:435-469 | the declarations are the struct nested in every containing type, outermost first |
| Source.GenerateForType | Source.cs:48-54 | the type template over the namespace, the declarations and the builder class |
| Generator.GetGeneratedSourceInfo | InlineCollectionsGenerator.cs:45-89 | the diagnostics are the descriptors' then the sites'; the text is the header, each valid type on a new line, the footer and a line break |
| Generator.WriteDeclarations | InlineCollectionsGenerator.cs:55-65 | the first loop gathers the diagnostics, writes the valid types and records their lengths |
| Generator.CheckSites | InlineCollectionsGenerator.cs:67-87 | the second loop appends each site's diagnostic after those already gathered |
| Generator.InvalidDeclarationIgnored | InlineCollectionsGenerator.cs:58-62 | a declaration with diagnostics contributes only them: no text, no length |
| Generator.TypesInInputOrder | InlineCollectionsGenerator.cs:55-65 | of two valid declarations, the earlier one's text comes first |
| Generator.LengthsSpec | InlineCollectionsGenerator.cs:64 | the map holds exactly the valid declarations' symbols, each with the last such declaration's length |
| Generator.KnownCountSpec | InlineCollectionsGenerator.cs:77 | the known count is the full count iff no element is a spread |
| Generator.SiteClassification | InlineCollectionsGenerator.cs:71-85 | at most one diagnostic, iff the target is known and the element count exceeds the length; `TooLarge` iff the known count exceeds it, else `MaybeTooLarge` (only with a spread); at the site, citing the length |
| Generator.SpreadFreeSite | InlineCollectionsGenerator.cs:75-85 | without spreads, a site is flagged iff it is longer than the length, always as `TooLarge` |
| Generator.SiteDiagnosticsAreUsage | InlineCollectionsGenerator.cs:67-87 | the second loop adds only usage diagnostics, at most one per site |
| GeneratedSourceInfos.SequenceEqualIsEquality | GeneratedSourceInfo.cs:18-19 | `SequenceEqual` is element-wise equality |
| GeneratedSourceInfos.EqualsSpec | GeneratedSourceInfo.cs:14-19 | `Equals` iff equal diagnostics and equal text; it is an equivalence; `==` agrees, `!=` negates; `Equals(object)` is false for any other object |
| GeneratedSourceInfos.HashClosedForm | GeneratedSourceInfo.cs:33-42 | the hash is `(17*31 + h(diagnostics))*31 + h(text)` wrapped to 32 bits |
| GeneratedSourceInfos.GetHashCodeAsWrittenBreaksEquality | GeneratedSourceInfo.cs:33-42 | two equal outputs in different arrays hash differently |
| GeneratedSourceInfos.GetHashCodeRespectsEquals | GeneratedSourceInfo.cs:33-42 | the corrected hash agrees on equal outputs |

## Left out

- Roslyn ingestion: attribute and semantic-model queries, syntax lookups, `ToDisplayString` and locations. Symbols, locations and display names are opaque ids and strings.
- `GetCollectionExpressionOperation` and the pipeline wiring in `Initialize`. A collection expression is a `Generator.Site`: its target symbol, a spread flag per element, and its location.
- Template texts, `string.Format`, `GetFileHeader` and `GetFileFooter`. They are parameters (`Source.Templates`, `header`, `footer`), so no statement depends on what they contain, except the separator layout (`Builder.TraceSpec`, `Source.BodyLayout`; see below).
- The `Source` static constructor and the resource loaders. They do reflection and stream I/O.
- Cancellation: the `ThrowIfCancellationRequested` calls are cooperative plumbing with no effect on a run that finishes.
- The runtime's hash functions for strings, arrays, diagnostics and symbols. They are parameters. The identity of the diagnostics array is the parameter `allocation` of `Generator.GetGeneratedSourceInfo`.
- `SingleOrDefault` throwing on a duplicate attribute or on several fields is not modelled. The field is given as present or absent.
- `GetLengthPropertyOrValueForSource` (Source.cs:388-389) is never called, so it is not modelled.
- The fluent member chain of `GetInlineCollectionBody` is a literal plan of steps that a loop walks, so the chain's order is stated once.
- `ExceptionMessages.cs` holds only string constants. `InlineCollectionTypeInfo.ConstructorArgs.cs` is the validator's input record `TypeInfo.ConstructorArgs`.
- `Diagnostics.cs` is not part of this model beyond the severities: `TooLarge` is an error and `MaybeTooLarge` a warning.
- TypeInfo.CollectionBuilderNameExample: states the name for a generic outer frame and a plain inner frame over arbitrary names, not one concrete pair.
- TypeInfo.GetFlags: models the evidently intended closure. The shipped behaviour is `TypeInfo.GetFlagsAsWritten` (see Findings).
- TypeInfo.GetArgumentFlags: calls the corrected `TypeInfo.GetFlags`, so the descriptor's `Flags` and every text `Generator.GetGeneratedSourceInfo` emits from it follow the corrected program. They differ from the shipped program wherever the two closures differ, for example on `ICollection ^ IEnumerable` (bit 8 alone), which the shipped program keeps without `IEnumerable`.
- Builder.TraceSpec: assumes the member separator is non-empty and all whitespace. The template text `Template_NewLineIndent2` is not part of this model, so this is not derived from it.
- Source.BodyLayout: assumes, as `Builder.TraceSpec` does, that the separator template `Template_NewLineIndent2` is non-empty and all whitespace.
- TypeListNodes.Classification: the modifier text is carried as the declaration's own string next to its keyword list. That the two agree (for example, no keywords and an empty text) is not modelled.
- GeneratedSourceInfos.GetHashCode: models the evidently intended hash. The shipped one is `GeneratedSourceInfos.GetHashCodeAsWritten` (see Findings).

## Findings

| source | as written | input that shows it | evidently intended | confidence | as-written member | corrected member |
|---|---|---|---|---|---|---|
| InlineCollectionTypeInfo.cs:131-170 | Each branch tests `HasFlag` of a composite, which needs every bit the branch would add, so no branch but the last ever adds anything | `ICollection ^ IEnumerable` (bit 8 alone), the input the method's comment names, comes back without `IEnumerable` | A requested composite's own bit brings in the members it includes | not executed | TypeInfo.GetFlagsAsWritten | TypeInfo.GetFlags |
| GeneratedSourceInfo.cs:33-42 | The hash uses `ImmutableArray<T>.GetHashCode`, which hashes the wrapped array's identity, while `Equals` compares the items | Two outputs with empty diagnostics in different arrays and the same text are equal, yet hash to 16337 and 16368 under an identity hash | Hash the items, so equal outputs hash alike | not executed | GeneratedSourceInfos.GetHashCodeAsWritten | GeneratedSourceInfos.GetHashCode |
