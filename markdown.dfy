/** The block renderer of the chat page (`renderMarkdown`): the text is cut
    at every `'\n'` and each line is classified on its own, by the first of
    eight tests that holds; the marker that test matched is removed and the
    rest of the line goes through the inline formatter. */
module Markdown {
  import opened Wrappers
  import opened Text
  import opened Inline

  /** The eight branches of the classifier, in the order they are tried. */
  datatype LineKind =
    | H3            // `### `, rendered as an `h4`
    | H2            // `## `, rendered as an `h3`
    | H1            // `# `, rendered as an `h2`
    | Bullet        // `- ` or `* `
    | Ordered       // `^\d+\.\s`
    | NestedBullet  // the trimmed line starts with three spaces and `- ` or `* `
    | BlankLine     // nothing but white space
    | Para          // anything else

  /** Position of a branch in the if-chain. */
  function Rank(k: LineKind): nat
  {
    match k
    case H3 => 0
    case H2 => 1
    case H1 => 2
    case Bullet => 3
    case Ordered => 4
    case NestedBullet => 5
    case BlankLine => 6
    case Para => 7
  }

  /** The style of a list item (`list-disc` at `ml-4`, `list-decimal`, or
      `list-disc` at `ml-8`). */
  datatype ListStyle = Disc | Decimal | NestedDisc

  /** One rendered line. */
  datatype Block =
    | Heading(marks: nat, spans: seq<Span>)   // `marks` is the number of `#`
    | ListItem(style: ListStyle, spans: seq<Span>)
    | Spacer                                  // the empty `h-1` div of a blank line
    | Paragraph(spans: seq<Span>)

  /** A classified line: its branch and the text handed to `formatInline`. */
  datatype Line = Line(kind: LineKind, body: string)

  /** Length of the run of decimal digits that starts at `i`. */
  function DigitRun(s: string, i: nat): (r: nat)
    requires i <= |s|
    ensures i + r <= |s|
    ensures forall k :: i <= k < i + r ==> IsDigit(s[k])
    ensures i + r == |s| || !IsDigit(s[i + r])
    decreases |s| - i
  {
    if i < |s| && IsDigit(s[i]) then 1 + DigitRun(s, i + 1) else 0
  }

  /** The length of the prefix `^\d+\.\s` matches, if it matches. Since `.`
      is not a digit, the digits it matches are the whole leading run. */
  function OrderedMarker(line: string): (r: Option<nat>)
    ensures r.Some? ==> 2 < r.value <= |line|
  {
    var n := DigitRun(line, 0);
    if n > 0 && n + 1 < |line| && line[n] == '.' && IsSpace(line[n + 1]) then Some(n + 2) else None
  }

  /** The test of branch `k`. */
  predicate Tests(k: LineKind, line: string)
  {
    match k
    case H3 => StartsWith(line, "### ")
    case H2 => StartsWith(line, "## ")
    case H1 => StartsWith(line, "# ")
    case Bullet => StartsWith(line, "- ") || StartsWith(line, "* ")
    case Ordered => OrderedMarker(line).Some?
    case NestedBullet => StartsWith(Trim(line), "   - ") || StartsWith(Trim(line), "   * ")
    case BlankLine => Trim(line) == []
    case Para => true
  }

  /** The if-chain of `renderMarkdown` on one line: the branch taken and the
      line with that branch's marker removed. */
  function Classify(line: string): Line
  {
    if StartsWith(line, "### ") then Line(H3, line[4..])
    else if StartsWith(line, "## ") then Line(H2, line[3..])
    else if StartsWith(line, "# ") then Line(H1, line[2..])
    else if StartsWith(line, "- ") || StartsWith(line, "* ") then Line(Bullet, line[2..])
    else if OrderedMarker(line).Some? then Line(Ordered, line[OrderedMarker(line).value..])
    else if StartsWith(Trim(line), "   - ") || StartsWith(Trim(line), "   * ") then Line(NestedBullet, Trim(line)[2..])
    else if Trim(line) == [] then Line(BlankLine, line)
    else Line(Para, line)
  }

  /** The block a classified line renders as, its body formatted inline. */
  function ToBlock(c: Line): Block
  {
    match c.kind
    case H3 => Heading(3, FormatInline(c.body))
    case H2 => Heading(2, FormatInline(c.body))
    case H1 => Heading(1, FormatInline(c.body))
    case Bullet => ListItem(Disc, FormatInline(c.body))
    case Ordered => ListItem(Decimal, FormatInline(c.body))
    case NestedBullet => ListItem(NestedDisc, FormatInline(c.body))
    case BlankLine => Spacer
    case Para => Paragraph(FormatInline(c.body))
  }

  /** One line of the rendered markdown. */
  function RenderLine(line: string): Block
  {
    ToBlock(Classify(line))
  }

  /** `renderMarkdown(text)`: nothing (`null`) for the empty string, and
      otherwise one block per `'\n'`-separated line, in order, so one more
      block than the text has newlines. */
  function RenderMarkdown(text: string): (r: Option<seq<Block>>)
    ensures r.None? <==> text == []
    ensures r.Some? ==> |r.value| == Occurrences(text, '\n') + 1
    ensures r.Some? ==> forall i :: 0 <= i < |r.value| ==> r.value[i] == RenderLine(SplitOn(text, '\n')[i])
  {
    if text == [] then None
    else
      var lines := SplitOn(text, '\n');
      Some(seq(|lines|, i requires 0 <= i < |lines| => RenderLine(lines[i])))
  }

  /** Two lines joined by a newline render as those two lines' blocks. */
  lemma RenderTwoLines(a: string, b: string)
    requires '\n' !in a && '\n' !in b
    ensures RenderMarkdown(a + "\n" + b) == Some([RenderLine(a), RenderLine(b)])
  {
    var text := a + "\n" + b;
    SplitTwoLines(a, b);
    assert text != [] by { assert text[|a|] == '\n'; }
    var lines := SplitOn(text, '\n');
    var r := RenderMarkdown(text).value;
    assert |r| == 2;
    assert r[0] == RenderLine(lines[0]);
    assert r[1] == RenderLine(lines[1]);
    assert r == [RenderLine(a), RenderLine(b)];
  }

  /** Cutting two lines joined by a newline gives those two lines back. */
  lemma SplitTwoLines(a: string, b: string)
    requires '\n' !in a && '\n' !in b
    ensures SplitOn(a + "\n" + b, '\n') == [a, b]
  {
    assert a + "\n" + b == a + ['\n'] + b;
    SplitOnFirst(a, '\n', b);
    SplitOnNone(b, '\n');
  }

  // ---------------------------------------------------------------
  // Properties of the classifier
  // ---------------------------------------------------------------

  /** The branch taken is the first, in the order of the source, whose test
      holds. */
  lemma {:induction false} ClassifyFirstMatch(line: string)
    ensures Tests(Classify(line).kind, line)
    ensures forall k :: Rank(k) < Rank(Classify(line).kind) ==> !Tests(k, line)
  {
    var r := Classify(line);
    forall k | Rank(k) < Rank(r.kind) ensures !Tests(k, line) {
      match k
      case H3 =>
      case H2 =>
      case H1 =>
      case Bullet =>
      case Ordered =>
      case NestedBullet =>
      case BlankLine =>
      case Para =>
    }
  }

  /** A heading or bullet loses exactly the marker its test matched. */
  lemma MarkerRemoved(line: string)
    ensures Classify(line).kind == H3 ==> line == "### " + Classify(line).body
    ensures Classify(line).kind == H2 ==> line == "## " + Classify(line).body
    ensures Classify(line).kind == H1 ==> line == "# " + Classify(line).body
    ensures Classify(line).kind == Bullet ==>
      line == "- " + Classify(line).body || line == "* " + Classify(line).body
  {
    if StartsWith(line, "### ") {
      assert line == line[..4] + line[4..];
    } else if StartsWith(line, "## ") {
      assert line == line[..3] + line[3..];
    } else if StartsWith(line, "# ") {
      assert line == line[..2] + line[2..];
    } else if StartsWith(line, "- ") || StartsWith(line, "* ") {
      assert line == line[..2] + line[2..];
    }
  }

  /** An ordered item loses its numeral, the dot and the one white-space
      character after it, and nothing more. */
  lemma OrderedMarkerRemoved(line: string)
    requires Classify(line).kind == Ordered
    ensures var body := Classify(line).body;
      var n := |line| - |body|;
      && 2 < n && line[n - 2] == '.' && IsSpace(line[n - 1]) && line[n..] == body
      && forall k :: 0 <= k < n - 2 ==> IsDigit(line[k])
  {
    var n := DigitRun(line, 0);
    assert Classify(line).body == line[n + 2..];
  }

  /** The last two branches hand the whole line on untouched. */
  lemma FallthroughKeepsLine(line: string)
    ensures Classify(line).kind == BlankLine ==> AllSpace(line) && Classify(line).body == line
    ensures Classify(line).kind == Para ==> !AllSpace(line) && Classify(line).body == line
  {
  }

  /** The nested-bullet branch is never taken: `trim` has already removed the
      three leading spaces its test looks for. */
  lemma NestedBranchUnreachable(line: string)
    ensures Classify(line).kind != NestedBullet
  {
    ClassifyFirstMatch(line);
    TrimmedNotIndented(Trim(line));
  }

  /** A trimmed string does not start with white space. */
  lemma TrimmedNotIndented(t: string)
    requires Trimmed(t)
    ensures !StartsWith(t, "   - ") && !StartsWith(t, "   * ")
  {
    if |t| >= 5 {
      assert t[..5][0] == t[0];
    }
  }

  /** A line that starts with a digit is tested for an ordered marker
      before anything that needs `trim`. */
  lemma ClassifyDigitStart(line: string)
    requires line != [] && IsDigit(line[0]) && OrderedMarker(line).Some?
    ensures Classify(line) == Line(Ordered, line[OrderedMarker(line).value..])
  {
    NotStartsWith(line, "### ", 0);
    NotStartsWith(line, "## ", 0);
    NotStartsWith(line, "# ", 0);
    NotStartsWith(line, "- ", 0);
    NotStartsWith(line, "* ", 0);
  }

  /** `^\d+\.\s` matches a numeral, a dot and one white-space character. */
  lemma OrderedMarkerOf(digits: string, c: char, rest: string)
    requires digits != [] && forall k :: 0 <= k < |digits| ==> IsDigit(digits[k])
    requires IsSpace(c)
    ensures OrderedMarker(digits + ['.', c] + rest) == Some(|digits| + 2)
  {
    var line := digits + ['.', c] + rest;
    assert line[|digits|] == '.' && line[|digits| + 1] == c;
    assert forall k :: 0 <= k < |digits| ==> line[k] == digits[k];
  }

  /** An ordered item keeps only the text after `N.` and one white-space
      character: the numeral is discarded. */
  lemma OrderedDropsNumeral(digits: string, c: char, rest: string)
    requires digits != [] && forall k :: 0 <= k < |digits| ==> IsDigit(digits[k])
    requires IsSpace(c)
    ensures Classify(digits + ['.', c] + rest) == Line(Ordered, rest)
  {
    var line := digits + ['.', c] + rest;
    OrderedMarkerOf(digits, c, rest);
    assert line[0] == digits[0];
    ClassifyDigitStart(line);
    assert line[|digits| + 2..] == rest;
    assert Classify(line) == Line(Ordered, rest);
  }

  /** Two ordered items that differ only in their numeral render alike, as
      a decimal list item of the text after the marker. */
  lemma NumeralIrrelevant(d1: string, d2: string, c: char, rest: string)
    requires d1 != [] && forall k :: 0 <= k < |d1| ==> IsDigit(d1[k])
    requires d2 != [] && forall k :: 0 <= k < |d2| ==> IsDigit(d2[k])
    requires IsSpace(c)
    ensures RenderLine(d1 + ['.', c] + rest) == RenderLine(d2 + ['.', c] + rest)
  {
    OrderedDropsNumeral(d1, c, rest);
    OrderedDropsNumeral(d2, c, rest);
  }

  /** A line that starts with white space passes none of the marker tests:
      it is blank if it is all white space and a paragraph otherwise. */
  lemma ClassifySpaceStart(line: string)
    requires line != [] && IsSpace(line[0])
    ensures Classify(line) == if AllSpace(line) then Line(BlankLine, line) else Line(Para, line)
  {
    forall k | Rank(k) < Rank(BlankLine) ensures !Tests(k, line) {
      match k
      case H3 => NotStartsWith(line, "### ", 0);
      case H2 => NotStartsWith(line, "## ", 0);
      case H1 => NotStartsWith(line, "# ", 0);
      case Bullet =>
        NotStartsWith(line, "- ", 0);
        NotStartsWith(line, "* ", 0);
      case Ordered => assert !IsDigit(line[0]);
      case NestedBullet => TrimmedNotIndented(Trim(line));
    }
    ClassifyFallthrough(line);
  }

  /** A line that passes none of the six marker tests is blank if it is all
      white space and a paragraph otherwise, kept whole either way. */
  lemma ClassifyFallthrough(line: string)
    requires forall k :: Rank(k) < Rank(BlankLine) ==> !Tests(k, line)
    ensures Classify(line) == if AllSpace(line) then Line(BlankLine, line) else Line(Para, line)
  {
    assert !Tests(H3, line) && !Tests(H2, line) && !Tests(H1, line) && !Tests(Bullet, line);
    assert !Tests(Ordered, line) && !Tests(NestedBullet, line);
  }

  /** A line is rendered as a spacer exactly when it is all white space:
      such a line passes none of the earlier tests. */
  lemma BlankIff(line: string)
    ensures Classify(line).kind == BlankLine <==> AllSpace(line)
  {
    FallthroughKeepsLine(line);
    if AllSpace(line) && line != [] {
      ClassifySpaceStart(line);
    }
  }

  /** A line indented by three spaces before its `- ` or `* ` (as in the
      sample pricing answer) is not a list item: it falls through to a
      paragraph of the whole line, indentation included. */
  lemma IndentedLineIsParagraph(bullet: char, rest: string)
    requires bullet == '-' || bullet == '*'
    ensures Classify("   " + [bullet, ' '] + rest) == Line(Para, "   " + [bullet, ' '] + rest)
  {
    var line := "   " + [bullet, ' '] + rest;
    assert line[0] == ' ' && line[3] == bullet;
    assert !IsSpace(line[3]);
    ClassifySpaceStart(line);
  }

  /** A line starting with `- ` or `* ` is a bullet of the rest of the line. */
  lemma BulletMarkers(rest: string)
    ensures RenderLine("- " + rest) == ListItem(Disc, FormatInline(rest))
    ensures RenderLine("* " + rest) == ListItem(Disc, FormatInline(rest))
  {
    BulletMarker('-', rest);
    BulletMarker('*', rest);
  }

  lemma BulletMarker(bullet: char, rest: string)
    requires bullet == '-' || bullet == '*'
    ensures Classify([bullet, ' '] + rest) == Line(Bullet, rest)
  {
    var line := [bullet, ' '] + rest;
    assert line[..2] == [bullet, ' '] && line[2..] == rest;
    NotStartsWith(line, "### ", 0);
    NotStartsWith(line, "## ", 0);
    NotStartsWith(line, "# ", 0);
  }

  /** Each heading marker is recognised whatever follows it (a shorter
      marker can never look like a longer one), removed, and the rest
      formatted. */
  lemma HeadingMarkers(rest: string)
    ensures RenderLine("### " + rest) == Heading(3, FormatInline(rest))
    ensures RenderLine("## " + rest) == Heading(2, FormatInline(rest))
    ensures RenderLine("# " + rest) == Heading(1, FormatInline(rest))
  {
    assert ("### " + rest)[..4] == "### " && ("### " + rest)[4..] == rest;
    assert ("## " + rest)[..3] == "## " && ("## " + rest)[3..] == rest;
    assert ("# " + rest)[..2] == "# " && ("# " + rest)[2..] == rest;
    NotStartsWith("## " + rest, "### ", 2);
    NotStartsWith("# " + rest, "### ", 1);
    NotStartsWith("# " + rest, "## ", 1);
  }
}
