/** The `string`/`StringBuilder` library behaviour the generator relies on,
    stated as functions on `seq<char>`. */
module Text {

  /** `char.IsWhiteSpace`: the Unicode space separators, line and paragraph
      separators, and U+0009..U+000D, U+0085, U+00A0. */
  predicate IsWhiteSpace(c: char)
  {
    || c == ' ' || ('\t' <= c <= '\r') || c == '\U{85}' || c == '\U{A0}' || c == '\U{1680}'
    || ('\U{2000}' <= c <= '\U{200A}') || c == '\U{2028}' || c == '\U{2029}'
    || c == '\U{202F}' || c == '\U{205F}' || c == '\U{3000}'
  }

  /** The last char of a builder, or `'\0'` (`default(char)`) when it is empty. */
  function LastOrDefault(s: string): (c: char)
    ensures s == [] ==> c == '\0'
    ensures s != [] ==> c == s[|s| - 1]
  {
    if s == [] then '\0' else s[|s| - 1]
  }

  /** `s.Contains(pat)`. */
  predicate Contains(s: string, pat: string)
    decreases |s|
  {
    pat <= s || (s != [] && Contains(s[1..], pat))
  }

  /** `new string(' ', n)`. */
  function Spaces(n: nat): (s: string)
    ensures |s| == n && forall i | 0 <= i < n :: s[i] == ' '
  {
    if n == 0 then "" else Spaces(n - 1) + " "
  }

  /** Concatenation of `parts` with `sep` between neighbours. */
  function Join(sep: string, parts: seq<string>): string
  {
    if parts == [] then ""
    else if |parts| == 1 then parts[0]
    else Join(sep, parts[..|parts| - 1]) + sep + parts[|parts| - 1]
  }

  /** The parts written one after another. */
  function Concat(parts: seq<string>): string
  {
    if parts == [] then "" else Concat(parts[..|parts| - 1]) + parts[|parts| - 1]
  }

  lemma ConcatSnoc(parts: seq<string>, x: string)
    ensures Concat(parts + [x]) == Concat(parts) + x
  {
    assert (parts + [x])[..|parts|] == parts;
  }

  lemma {:induction false} ConcatAppend(a: seq<string>, b: seq<string>)
    ensures Concat(a + b) == Concat(a) + Concat(b)
    decreases |b|
  {
    if b == [] {
      assert a + b == a;
    } else {
      var init, last := b[..|b| - 1], b[|b| - 1];
      assert a + b == (a + init) + [last] && b == init + [last];
      ConcatSnoc(a + init, last);
      ConcatSnoc(init, last);
      ConcatAppend(a, init);
    }
  }

  lemma ConcatThree(a: string, b: string, c: string)
    ensures Concat([a, b, c]) == a + b + c
  {
    ConcatSnoc([], a);
    ConcatSnoc([a], b);
    ConcatSnoc([a, b], c);
    assert [] + [a] == [a] && [a] + [b] == [a, b] && [a, b] + [c] == [a, b, c];
  }

  lemma ConcatSix(a: string, b: string, c: string, d: string, e: string, f: string)
    ensures Concat([a, b, c, d, e, f]) == a + b + c + (d + e + f)
  {
    ConcatThree(a, b, c);
    ConcatThree(d, e, f);
    ConcatAppend([a, b, c], [d, e, f]);
    assert [a, b, c] + [d, e, f] == [a, b, c, d, e, f];
  }

  /** Number of occurrences of `c` in `s`. */
  function Count(c: char, s: string): nat
  {
    if s == [] then 0 else (if s[0] == c then 1 else 0) + Count(c, s[1..])
  }

  lemma {:induction false} CountConcat(c: char, a: string, b: string)
    ensures Count(c, a + b) == Count(c, a) + Count(c, b)
  {
    if a == [] {
      assert a + b == b;
    } else {
      assert (a + b)[1..] == a[1..] + b;
      CountConcat(c, a[1..], b);
    }
  }

  /** Joining a first part onto the join of the rest. */
  lemma {:induction false} JoinCons(sep: string, x: string, parts: seq<string>)
    requires parts != []
    ensures Join(sep, [x] + parts) == x + sep + Join(sep, parts)
    decreases |parts|
  {
    var all := [x] + parts;
    if |parts| == 1 {
      assert all[..1] == [x];
    } else {
      var init, last := parts[..|parts| - 1], parts[|parts| - 1];
      assert all[..|all| - 1] == [x] + init && all[|all| - 1] == last;
      JoinCons(sep, x, init);
      assert Join(sep, all) == (x + sep + Join(sep, init)) + sep + last;
      assert Join(sep, parts) == Join(sep, init) + sep + last;
    }
  }

  /** Joining one more part onto the end. */
  lemma JoinSnoc(sep: string, parts: seq<string>, x: string)
    ensures Join(sep, parts + [x]) == if parts == [] then x else Join(sep, parts) + sep + x
  {
    assert (parts + [x])[..|parts|] == parts;
  }

  lemma JoinThree(sep: string, a: string, b: string, c: string)
    ensures Join(sep, [a, b, c]) == a + sep + b + sep + c
  {
    JoinSnoc(sep, [a], b);
    JoinSnoc(sep, [a, b], c);
    assert [a] + [b] == [a, b] && [a, b] + [c] == [a, b, c];
  }

  /** A join of non-empty parts is empty only when there are no parts, and
      then ends as its last part does. */
  lemma JoinEnd(sep: string, parts: seq<string>)
    requires parts != [] && parts[|parts| - 1] != ""
    ensures var j := Join(sep, parts);
      j != "" && j[|j| - 1] == parts[|parts| - 1][|parts[|parts| - 1]| - 1]
  {
  }

  // ---- decimal formatting ------------------------------------------------

  function DigitChar(d: nat): char
    requires d < 10
  {
    "0123456789"[d]
  }

  /** `int.ToString()` for a non-negative value: decimal digits, no sign. */
  function Decimal(n: nat): (s: string)
    ensures |s| > 0 && forall i | 0 <= i < |s| :: '0' <= s[i] <= '9'
    ensures n > 0 ==> s[0] != '0'
  {
    if n < 10 then [DigitChar(n)] else Decimal(n / 10) + [DigitChar(n % 10)]
  }

  /** The value of a string of decimal digits. */
  function DecimalValue(s: string): nat
    requires forall i | 0 <= i < |s| :: '0' <= s[i] <= '9'
  {
    if s == [] then 0 else DecimalValue(s[..|s| - 1]) * 10 + (s[|s| - 1] as int - '0' as int)
  }

  /** Formatting a length and reading it back gives the length. */
  lemma {:induction false} DecimalRoundTrip(n: nat)
    ensures DecimalValue(Decimal(n)) == n
  {
    if n >= 10 {
      DecimalRoundTrip(n / 10);
      var s := Decimal(n);
      assert s[..|s| - 1] == Decimal(n / 10);
    }
  }

  /** Different lengths print differently. */
  lemma DecimalInjective(m: nat, n: nat)
    requires Decimal(m) == Decimal(n)
    ensures m == n
  {
    DecimalRoundTrip(m);
    DecimalRoundTrip(n);
  }

  // ---- StringBuilder.TrimEnd as the generator writes it ------------------

  /** The text with its trailing whitespace removed. */
  function TrimmedEnd(s: string): string
  {
    if s != [] && IsWhiteSpace(s[|s| - 1]) then TrimmedEnd(s[..|s| - 1]) else s
  }

  /** Trimming keeps a prefix, removes only whitespace, and leaves none at the end. */
  lemma {:induction false} TrimmedEndSpec(s: string)
    ensures var t := TrimmedEnd(s);
      && t <= s
      && (t == [] || !IsWhiteSpace(t[|t| - 1]))
      && forall i | |t| <= i < |s| :: IsWhiteSpace(s[i])
  {
    if s != [] && IsWhiteSpace(s[|s| - 1]) {
      TrimmedEndSpec(s[..|s| - 1]);
    }
  }

  lemma TrimmedEndIdempotent(s: string)
    ensures TrimmedEnd(TrimmedEnd(s)) == TrimmedEnd(s)
  {
    TrimmedEndSpec(s);
  }

  // ---- StringBuilder.Replace ---------------------------------------------

  /** `Replace(pat, rep)`: a left-to-right scan replacing non-overlapping
      occurrences of `pat`. */
  function Replace(s: string, pat: string, rep: string): string
    requires pat != []
    decreases |s|
  {
    if |s| < |pat| then s
    else if s[..|pat|] == pat then rep + Replace(s[|pat|..], pat, rep)
    else [s[0]] + Replace(s[1..], pat, rep)
  }

  /** The text between consecutive `'\n'`s. */
  function Lines(s: string): (ls: seq<string>)
    ensures |ls| == Count('\n', s) + 1
    ensures forall i | 0 <= i < |ls| :: '\n' !in ls[i]
  {
    if s == [] then [""]
    else
      var rest := Lines(s[1..]);
      if s[0] == '\n' then [""] + rest
      else [[s[0]] + rest[0]] + rest[1..]
  }

  /** A replacement that keeps the number of `c`s keeps it in the whole text:
      normalising "\r\n" or "\n\r" to "\n" loses no line break. */
  lemma {:induction false} ReplaceKeepsCount(c: char, s: string, pat: string, rep: string)
    requires pat != [] && Count(c, pat) == Count(c, rep)
    ensures Count(c, Replace(s, pat, rep)) == Count(c, s)
    decreases |s|
  {
    if |s| < |pat| {
    } else if s[..|pat|] == pat {
      ReplaceKeepsCount(c, s[|pat|..], pat, rep);
      CountConcat(c, rep, Replace(s[|pat|..], pat, rep));
      assert s == pat + s[|pat|..];
      CountConcat(c, pat, s[|pat|..]);
    } else {
      ReplaceKeepsCount(c, s[1..], pat, rep);
      assert [s[0]] + Replace(s[1..], pat, rep) == Replace(s, pat, rep);
    }
  }

  /** Replacing every `'\n'` by `rep` is joining the lines with `rep`. */
  lemma {:induction false} ReplaceNewLines(s: string, rep: string)
    ensures Replace(s, "\n", rep) == Join(rep, Lines(s))
    decreases |s|
  {
    if s != [] {
      ReplaceNewLines(s[1..], rep);
      if s[0] == '\n' {
        ReplaceNewLinesAtBreak(s, rep);
      } else {
        ReplaceNewLinesInLine(s, rep);
      }
    }
  }

  /** The inductive step of `ReplaceNewLines` when the text opens with a line break. */
  lemma ReplaceNewLinesAtBreak(s: string, rep: string)
    requires s != [] && s[0] == '\n'
    requires Replace(s[1..], "\n", rep) == Join(rep, Lines(s[1..]))
    ensures Replace(s, "\n", rep) == Join(rep, Lines(s))
  {
    assert s[..1] == "\n";
    JoinCons(rep, "", Lines(s[1..]));
  }

  /** The inductive step of `ReplaceNewLines` when the text opens inside a line. */
  lemma ReplaceNewLinesInLine(s: string, rep: string)
    requires s != [] && s[0] != '\n'
    requires Replace(s[1..], "\n", rep) == Join(rep, Lines(s[1..]))
    ensures Replace(s, "\n", rep) == Join(rep, Lines(s))
  {
    var rest := Lines(s[1..]);
    var tail := Replace(s[1..], "\n", rep);
    assert s[..1] != "\n";
    assert Replace(s, "\n", rep) == [s[0]] + tail;
    if |rest| > 1 {
      var j := Join(rep, rest[1..]);
      JoinCons(rep, [s[0]] + rest[0], rest[1..]);
      JoinCons(rep, rest[0], rest[1..]);
      assert rest == [rest[0]] + rest[1..];
      assert tail == rest[0] + rep + j;
      assert [s[0]] + (rest[0] + rep + j) == [s[0]] + rest[0] + rep + j;
    }
  }
}
