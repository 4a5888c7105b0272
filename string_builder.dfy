/** The `StringBuilder` extension helpers the composer chains together, and
    the trace of members and separators a chain of them produces. */
module Builder {
  import opened Text

  /** A `System.Text.StringBuilder`: one text buffer grown and cut in place. */
  class StringBuilder {
    var text: string

    constructor ()
      ensures text == ""
    {
      text := "";
    }

    /** `new StringBuilder(s)`. */
    constructor Of(s: string)
      ensures text == s
    {
      text := s;
    }

    /** The last char, or `'\0'` when the buffer is empty. */
    function LastOrDefault(): char
      reads this
    {
      Text.LastOrDefault(text)
    }

    method Append(s: string)
      modifies this
      ensures text == old(text) + s
    {
      text := text + s;
    }

    /** `sb.Length = n` for a shorter length. */
    method Truncate(n: nat)
      requires n <= |text|
      modifies this
      ensures text == old(text)[..n]
    {
      text := text[..n];
    }

    /** `sb.Replace(pattern, replacement)`. */
    method Replace(pattern: string, replacement: string)
      requires pattern != []
      modifies this
      ensures text == Text.Replace(old(text), pattern, replacement)
    {
      text := Text.Replace(text, pattern, replacement);
    }

    method AppendIf(condition: bool, s: string)
      modifies this
      ensures text == if condition then old(text) + s else old(text)
    {
      if condition {
        Append(s);
      }
    }

    /** Appends an interface name, after ", " unless the buffer is empty. */
    method AppendInterface(name: string)
      modifies this
      ensures text == InterfaceAppended(old(text), name)
    {
      AppendIf(|text| != 0, ", ");
      Append(name);
    }

    method AppendInterfaceIf(condition: bool, name: string)
      modifies this
      ensures text == if condition then InterfaceAppended(old(text), name) else old(text)
    {
      if condition {
        AppendInterface(name);
      }
    }

    /** Appends the member separator when `condition` holds and the buffer
        ends in `ifLastCharIs`. */
    method AppendSeparatorIf(condition: bool, ifLastCharIs: char, separator: string)
      modifies this
      ensures text == SeparatedIf(old(text), condition, ifLastCharIs, separator)
    {
      AppendIf(ifLastCharIs == LastOrDefault() && condition, separator);
    }

    method AppendSeparator(ifLastCharIs: char, separator: string)
      modifies this
      ensures text == SeparatedIf(old(text), true, ifLastCharIs, separator)
    {
      AppendSeparatorIf(true, ifLastCharIs, separator);
    }

    /** Appends a member: a separator first when the member opens a block
        (" {") after a ';', the member unless it is empty, then a separator
        when the buffer ends in '}'. */
    method AppendMember(member: string, separator: string)
      modifies this
      ensures text == WithMember(old(text), member, separator)
    {
      AppendSeparatorIf(Contains(member, " {"), ';', separator);
      AppendIf(member != "", member);
      AppendSeparator('}', separator);
    }

    /** Cuts the trailing whitespace off, scanning back from the end. */
    method TrimEnd()
      modifies this
      ensures text == TrimmedEnd(old(text))
    {
      var i := |text|;
      assert text[..i] == text;
      while i > 0 && IsWhiteSpace(text[i - 1])
        invariant 0 <= i <= |text|
        invariant TrimmedEnd(text[..i]) == TrimmedEnd(text)
        decreases i
      {
        assert text[..i - 1] == text[..i][..i - 1];
        i := i - 1;
      }
      assert TrimmedEnd(text[..i]) == text[..i];
      if i != |text| {
        Truncate(i);
      }
    }
  }

  function InterfaceAppended(s: string, name: string): string
  {
    (if |s| != 0 then s + ", " else s) + name
  }

  function SeparatedIf(s: string, condition: bool, ifLastCharIs: char, separator: string): string
  {
    if ifLastCharIs == LastOrDefault(s) && condition then s + separator else s
  }

  function WithMember(s: string, member: string, separator: string): string
  {
    var before := SeparatedIf(s, Contains(member, " {"), ';', separator);
    SeparatedIf(if member != "" then before + member else before, true, '}', separator)
  }

  /** Appending a non-empty interface name after others is joining with ", ". */
  lemma InterfaceAppendedJoins(names: seq<string>, name: string)
    requires forall i | 0 <= i < |names| :: names[i] != ""
    ensures InterfaceAppended(Join(", ", names), name) == Join(", ", names + [name])
  {
    JoinSnoc(", ", names, name);
    if names != [] {
      JoinEnd(", ", names);
    }
  }

  // ---- the trace of a member chain -------------------------------------------

  /** One call of a member chain: `AppendMember(text)` or `AppendSeparator()`. */
  datatype Step = Member(text: string) | Separator

  /** What a chain leaves in the buffer: member texts and separators. */
  datatype Chunk = Piece(text: string) | Gap

  function ChunkText(c: Chunk, separator: string): string
  {
    if c.Piece? then c.text else separator
  }

  function Render(cs: seq<Chunk>, separator: string): string
  {
    if cs == [] then "" else Render(cs[..|cs| - 1], separator) + ChunkText(cs[|cs| - 1], separator)
  }

  lemma RenderSnoc(cs: seq<Chunk>, c: Chunk, separator: string)
    ensures Render(cs + [c], separator) == Render(cs, separator) + ChunkText(c, separator)
  {
    assert (cs + [c])[..|cs|] == cs;
  }

  function GapIf(cs: seq<Chunk>, condition: bool, ifLastCharIs: char, separator: string): seq<Chunk>
  {
    if ifLastCharIs == LastOrDefault(Render(cs, separator)) && condition then cs + [Gap] else cs
  }

  function Apply(cs: seq<Chunk>, step: Step, separator: string): seq<Chunk>
  {
    match step
    case Separator => GapIf(cs, true, ';', separator)
    case Member(m) =>
      var before := GapIf(cs, Contains(m, " {"), ';', separator);
      GapIf(if m != "" then before + [Piece(m)] else before, true, '}', separator)
  }

  /** The chunks a chain of steps leaves in an empty buffer. */
  function Trace(steps: seq<Step>, separator: string): seq<Chunk>
  {
    if steps == [] then [] else Apply(Trace(steps[..|steps| - 1], separator), steps[|steps| - 1], separator)
  }

  /** The text one call leaves, given the text before it. */
  function StepText(s: string, step: Step, separator: string): string
  {
    match step
    case Separator => SeparatedIf(s, true, ';', separator)
    case Member(m) => WithMember(s, m, separator)
  }

  lemma GapIfRenders(cs: seq<Chunk>, condition: bool, c: char, separator: string)
    ensures Render(GapIf(cs, condition, c, separator), separator)
      == SeparatedIf(Render(cs, separator), condition, c, separator)
  {
    RenderSnoc(cs, Gap, separator);
  }

  /** The chunk trace renders to exactly what the buffer holds. */
  lemma ApplyRenders(cs: seq<Chunk>, step: Step, separator: string)
    ensures Render(Apply(cs, step, separator), separator) == StepText(Render(cs, separator), step, separator)
  {
    match step
    case Separator =>
      GapIfRenders(cs, true, ';', separator);
    case Member(m) =>
      var before := GapIf(cs, Contains(m, " {"), ';', separator);
      GapIfRenders(cs, Contains(m, " {"), ';', separator);
      var placed := if m != "" then before + [Piece(m)] else before;
      RenderSnoc(before, Piece(m), separator);
      assert Render(placed, separator) == (if m != "" then Render(before, separator) + m else Render(before, separator));
      GapIfRenders(placed, true, '}', separator);
  }

  // ---- what the trace guarantees ---------------------------------------------

  /** A separator that is all whitespace and not empty. */
  predicate Blank(separator: string)
  {
    separator != [] && forall i | 0 <= i < |separator| :: IsWhiteSpace(separator[i])
  }

  predicate EndsIn(s: string, c: char)
  {
    s != [] && s[|s| - 1] == c
  }

  /** No empty member is ever appended. */
  predicate NoEmptyPieces(cs: seq<Chunk>)
  {
    forall i | 0 <= i < |cs| :: cs[i].Piece? ==> cs[i].text != ""
  }

  /** A separator only ever follows a member ending in ';' or '}', so it
      never opens the text and never doubles up. */
  predicate GapsFollowEnds(cs: seq<Chunk>)
  {
    forall i | 0 <= i < |cs| :: cs[i].Gap? ==>
      i > 0 && cs[i - 1].Piece? && (EndsIn(cs[i - 1].text, ';') || EndsIn(cs[i - 1].text, '}'))
  }

  /** Every member ending in '}' is followed by a separator. */
  predicate ClosingsSeparated(cs: seq<Chunk>)
  {
    forall i | 0 <= i < |cs| :: cs[i].Piece? && EndsIn(cs[i].text, '}') ==> i + 1 < |cs| && cs[i + 1].Gap?
  }

  /** The layout rules of a member chain. */
  predicate WellSeparated(cs: seq<Chunk>)
  {
    NoEmptyPieces(cs) && GapsFollowEnds(cs) && ClosingsSeparated(cs)
  }

  /** The member texts in a trace, in order. */
  function Pieces(cs: seq<Chunk>): seq<string>
  {
    if cs == [] then []
    else Pieces(cs[..|cs| - 1]) + (if cs[|cs| - 1].Piece? then [cs[|cs| - 1].text] else [])
  }

  /** The non-empty member texts of a chain, in order. */
  function NonEmptyMembers(steps: seq<Step>): seq<string>
  {
    if steps == [] then []
    else
      var last := steps[|steps| - 1];
      NonEmptyMembers(steps[..|steps| - 1]) + (if last.Member? && last.text != "" then [last.text] else [])
  }

  /** The last char of a rendered trace is the '\0' of an empty buffer, the
      separator's own last char after a separator, or the member's. */
  lemma RenderLast(cs: seq<Chunk>, separator: string)
    requires separator != []
    requires cs != [] && cs[|cs| - 1].Piece? ==> cs[|cs| - 1].text != ""
    ensures var r := Render(cs, separator);
      && (cs == [] ==> LastOrDefault(r) == '\0')
      && (cs != [] && cs[|cs| - 1].Gap? ==> LastOrDefault(r) == separator[|separator| - 1])
      && (cs != [] && cs[|cs| - 1].Piece? ==> EndsIn(cs[|cs| - 1].text, LastOrDefault(r)))
  {
    if cs != [] {
      var t := ChunkText(cs[|cs| - 1], separator);
      var r := Render(cs, separator);
      assert r == Render(cs[..|cs| - 1], separator) + t;
      assert t != [] && r[|r| - 1] == t[|t| - 1];
    }
  }

  /** A gap is added only after a member ending in the char asked for. */
  lemma GapIfKeeps(cs: seq<Chunk>, condition: bool, c: char, separator: string)
    requires Blank(separator) && (c == ';' || c == '}')
    requires NoEmptyPieces(cs) && GapsFollowEnds(cs)
    ensures var r := GapIf(cs, condition, c, separator);
      && NoEmptyPieces(r) && GapsFollowEnds(r)
      && (r == cs || (r == cs + [Gap] && cs != [] && cs[|cs| - 1].Piece? && EndsIn(cs[|cs| - 1].text, c)))
      && Pieces(r) == Pieces(cs)
  {
    if c == LastOrDefault(Render(cs, separator)) && condition {
      GapTaken(cs, c, separator);
    }
  }

  /** When the rendered text ends in `c`, the last chunk is a member ending
      in `c`, and a gap after it keeps the rules and the members. */
  lemma GapTaken(cs: seq<Chunk>, c: char, separator: string)
    requires Blank(separator) && (c == ';' || c == '}')
    requires NoEmptyPieces(cs) && GapsFollowEnds(cs)
    requires c == LastOrDefault(Render(cs, separator))
    ensures cs != [] && cs[|cs| - 1].Piece? && EndsIn(cs[|cs| - 1].text, c)
    ensures NoEmptyPieces(cs + [Gap]) && GapsFollowEnds(cs + [Gap]) && Pieces(cs + [Gap]) == Pieces(cs)
  {
    RenderLast(cs, separator);
    assert cs != [] && cs[|cs| - 1].Piece? by {
      assert IsWhiteSpace(separator[|separator| - 1]);
    }
    GapKeeps(cs);
    PiecesSnoc(cs, Gap);
  }

  /** A gap after a member ending in ';' or '}' keeps the first two rules. */
  lemma GapKeeps(cs: seq<Chunk>)
    requires NoEmptyPieces(cs) && GapsFollowEnds(cs)
    requires cs != [] && cs[|cs| - 1].Piece?
    requires EndsIn(cs[|cs| - 1].text, ';') || EndsIn(cs[|cs| - 1].text, '}')
    ensures NoEmptyPieces(cs + [Gap]) && GapsFollowEnds(cs + [Gap])
  {
    var r := cs + [Gap];
    forall i | 0 <= i < |r| && r[i].Gap?
      ensures i > 0 && r[i - 1].Piece? && (EndsIn(r[i - 1].text, ';') || EndsIn(r[i - 1].text, '}'))
    {
      if i < |cs| {
        assert r[i] == cs[i] && r[i - 1] == cs[i - 1];
      }
    }
  }

  /** Placing a non-empty member keeps the first two rules. */
  lemma PlaceKeeps(cs: seq<Chunk>, m: string)
    requires NoEmptyPieces(cs) && GapsFollowEnds(cs)
    ensures var placed := if m != "" then cs + [Piece(m)] else cs;
      && NoEmptyPieces(placed) && GapsFollowEnds(placed)
      && Pieces(placed) == Pieces(cs) + (if m != "" then [m] else [])
  {
    PiecesSnoc(cs, Piece(m));
  }

  lemma {:induction false} ApplyKeepsWellSeparated(cs: seq<Chunk>, step: Step, separator: string)
    requires Blank(separator) && WellSeparated(cs)
    ensures WellSeparated(Apply(cs, step, separator))
    ensures Pieces(Apply(cs, step, separator))
      == Pieces(cs) + (if step.Member? && step.text != "" then [step.text] else [])
  {
    match step
    case Separator =>
      GapIfKeeps(cs, true, ';', separator);
      SeparatorKeepsClosings(cs, separator);
    case Member(m) =>
      var before := GapIf(cs, Contains(m, " {"), ';', separator);
      GapIfKeeps(cs, Contains(m, " {"), ';', separator);
      var placed := if m != "" then before + [Piece(m)] else before;
      PlaceKeeps(before, m);
      GapIfKeeps(placed, true, '}', separator);
      LastIsNotClosing(cs, before, placed, m, separator);
  }

  /** A separator step keeps every '}' member followed by a separator. */
  lemma SeparatorKeepsClosings(cs: seq<Chunk>, separator: string)
    requires Blank(separator) && WellSeparated(cs)
    ensures ClosingsSeparated(GapIf(cs, true, ';', separator))
  {
    GapIfKeeps(cs, true, ';', separator);
    var r := GapIf(cs, true, ';', separator);
    forall i | 0 <= i < |r| && r[i].Piece? && EndsIn(r[i].text, '}')
      ensures i + 1 < |r| && r[i + 1].Gap?
    {
      assert i < |cs| && cs[i] == r[i];
    }
  }

  /** The third rule survives one member: whatever the chain ended with before
      was no '}' member, and one that ends in '}' now gets its separator. */
  lemma LastIsNotClosing(cs: seq<Chunk>, before: seq<Chunk>, placed: seq<Chunk>, m: string, separator: string)
    requires Blank(separator) && WellSeparated(cs)
    requires before == cs || before == cs + [Gap]
    requires placed == if m != "" then before + [Piece(m)] else before
    requires NoEmptyPieces(placed)
    ensures ClosingsSeparated(GapIf(placed, true, '}', separator))
  {
    var r := GapIf(placed, true, '}', separator);
    assert cs <= before <= placed <= r;
    forall i | 0 <= i < |r| && r[i].Piece? && EndsIn(r[i].text, '}')
      ensures i + 1 < |r| && r[i + 1].Gap?
    {
      if i < |cs| {
        assert cs[i] == r[i];
        assert i + 1 < |cs|;
        assert cs[i + 1] == r[i + 1];
      } else {
        ClosingPlacedLast(before, placed, m, separator, i);
      }
    }
  }

  /** A member ending in '}' past the old chain is the one just placed, and
      the rendered text then ends in '}', so a separator follows it. */
  lemma ClosingPlacedLast(before: seq<Chunk>, placed: seq<Chunk>, m: string, separator: string, i: nat)
    requires Blank(separator)
    requires forall k | 0 <= k < |before| && before[k].Piece? :: k < i
    requires placed == if m != "" then before + [Piece(m)] else before
    requires NoEmptyPieces(placed)
    requires var r := GapIf(placed, true, '}', separator); i < |r| && r[i].Piece? && EndsIn(r[i].text, '}')
    ensures var r := GapIf(placed, true, '}', separator); i + 1 < |r| && r[i + 1].Gap?
  {
    var r := GapIf(placed, true, '}', separator);
    assert placed <= r;
    assert i == |before| && m != "" && placed == before + [Piece(m)] by {
      if i < |placed| {
        assert r[i] == placed[i];
      }
    }
    RenderLast(placed, separator);
  }

  lemma PiecesSnoc(cs: seq<Chunk>, c: Chunk)
    ensures Pieces(cs + [c]) == Pieces(cs) + (if c.Piece? then [c.text] else [])
  {
    assert (cs + [c])[..|cs|] == cs;
  }

  /** Every chain with a blank separator leaves a well-separated trace that
      holds exactly its non-empty members, in order. */
  lemma {:induction false} TraceSpec(steps: seq<Step>, separator: string)
    requires Blank(separator)
    ensures WellSeparated(Trace(steps, separator))
    ensures Pieces(Trace(steps, separator)) == NonEmptyMembers(steps)
  {
    if steps != [] {
      TraceSpec(steps[..|steps| - 1], separator);
      ApplyKeepsWellSeparated(Trace(steps[..|steps| - 1], separator), steps[|steps| - 1], separator);
    }
  }

  /** A buffer that holds a trace's rendering holds the rendering of the
      trace one step longer after that step's call. */
  lemma TraceStep(steps: seq<Step>, i: nat, separator: string)
    requires i < |steps|
    ensures Render(Trace(steps[..i + 1], separator), separator)
      == StepText(Render(Trace(steps[..i], separator), separator), steps[i], separator)
  {
    assert steps[..i + 1][..i] == steps[..i];
    ApplyRenders(Trace(steps[..i], separator), steps[i], separator);
  }
}
