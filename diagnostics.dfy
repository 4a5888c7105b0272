/** The diagnostics the generator reports: a stable code, a location and
    positional message arguments. Locations are opaque ids handed over by
    the host compiler. */
module Diagnostics {

  type LocationId = nat

  datatype Severity = Error | Warning

  /** The descriptors the validator and the usage checker raise. */
  datatype DiagnosticCode =
    | CollectionBuilderTypeInaccessible
    | MustHaveValidLength
    | MustNotBeFileLocalType
    | MustBePartialType
    | MustNotBeReadOnly
    | MustDefineExactlyOneField
    | InvalidElementFieldModifiers
    | CollectionExpressionTooLarge
    | CollectionExpressionMaybeTooLarge
  {
    /** The stable id each descriptor is named after. */
    function Id(): (id: string)
      ensures |id| == 8 && id[..4] == "MMIC"
    {
      match this
      case CollectionBuilderTypeInaccessible => "MMIC1000"
      case MustHaveValidLength => "MMIC1001"
      case MustNotBeFileLocalType => "MMIC1002"
      case MustBePartialType => "MMIC1003"
      case MustNotBeReadOnly => "MMIC1004"
      case MustDefineExactlyOneField => "MMIC1005"
      case InvalidElementFieldModifiers => "MMIC1006"
      case CollectionExpressionTooLarge => "MMIC1007"
      case CollectionExpressionMaybeTooLarge => "MMIC1008"
    }

    /** Only a collection expression that may fit is a warning. */
    function Severity(): Severity
    {
      if this == CollectionExpressionMaybeTooLarge then Warning else Error
    }
  }

  /** Two codes never share an id. */
  lemma IdsAreDistinct(a: DiagnosticCode, b: DiagnosticCode)
    requires a.Id() == b.Id()
    ensures a == b
  {
  }

  datatype MessageArgument = TextArgument(text: string) | NumberArgument(value: int)

  datatype Diagnostic = Diagnostic(code: DiagnosticCode, location: Option<LocationId>, arguments: seq<MessageArgument>)

  /** `null` for a missing location. */
  datatype Option<T> = None | Some(value: T)

  /** The diagnostics of `ds` that carry `code`, in order. */
  function OfCode(ds: seq<Diagnostic>, code: DiagnosticCode): seq<Diagnostic>
  {
    if ds == [] then []
    else OfCode(ds[..|ds| - 1], code) + (if ds[|ds| - 1].code == code then [ds[|ds| - 1]] else [])
  }

  lemma {:induction false} OfCodeConcat(a: seq<Diagnostic>, b: seq<Diagnostic>, code: DiagnosticCode)
    ensures OfCode(a + b, code) == OfCode(a, code) + OfCode(b, code)
    decreases |b|
  {
    if b == [] {
      assert a + b == a;
    } else {
      assert (a + b)[..|a + b| - 1] == a + b[..|b| - 1];
      OfCodeConcat(a, b[..|b| - 1], code);
    }
  }
}
