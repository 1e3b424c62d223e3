/** The inline formatter of the chat page's markdown renderer
    (`formatInline`, `formatBoldItalic`, `formatItalic`).

    Each stage calls JavaScript's `String.prototype.split` with a global
    regular expression that has capture groups:
      links   \[([^\]]+)\]\(([^)]+)\)   (two groups: label, url)
      bold    \*\*(.*?)\*\*             (one group)
      italic  \*(.*?)\*                 (one group)
    each with the global flag.
    `split` returns the text before the first match, then the match's groups,
    then the text up to the next match, and so on. The model writes each
    regular expression as a hand-made matcher (`MatchAt`) and `split` as the
    loop of `RegExp.prototype[@@split]` (`SplitFrom`). */
module Inline {
  import opened Wrappers
  import opened Text

  /** One rendered inline node. React flattens the nested arrays the source
      builds, so a line renders as a flat sequence of these. */
  datatype Span =
    | Plain(text: string)
    | Strong(text: string)
    | Em(text: string)
    | Link(text: string, href: string)

  /** The three regular expressions the formatter splits on. */
  datatype Pattern = LinkPattern | BoldPattern | ItalicPattern

  /** Number of capture groups of a pattern. */
  function Arity(p: Pattern): nat
  {
    if p.LinkPattern? then 2 else 1
  }

  /** One successful match: the captured groups and the index just past it. */
  datatype Match = Match(groups: seq<string>, end: nat)

  /** The first index `k >= j` with `s[k] == c`, as a greedy `[^c]+` scan
      stops there. */
  function IndexOf(s: string, c: char, j: nat): (r: Option<nat>)
    requires j <= |s|
    ensures r.Some? ==> j <= r.value < |s| && s[r.value] == c
    decreases |s| - j
  {
    if j == |s| then None
    else if s[j] == c then Some(j)
    else IndexOf(s, c, j + 1)
  }

  /** The lazy `(.*?)` followed by the closing delimiter, started at `j`: the
      first position at which `delim` occurs, provided no line terminator
      comes before it. */
  function Close(s: string, delim: string, j: nat): (r: Option<nat>)
    requires j <= |s|
    ensures r.Some? ==> j <= r.value && StartsAt(s, r.value, delim)
    decreases |s| - j
  {
    if StartsAt(s, j, delim) then Some(j)
    else if j < |s| && !IsLineTerminator(s[j]) then Close(s, delim, j + 1)
    else None
  }

  /** No position before the one `IndexOf` finds (or before the end, when
      it finds none) holds `c`. */
  lemma {:induction false} IndexOfFirst(s: string, c: char, j: nat)
    requires j <= |s|
    ensures var r := IndexOf(s, c, j);
      forall k :: j <= k < (if r.Some? then r.value else |s|) ==> s[k] != c
    decreases |s| - j
  {
    if j < |s| && s[j] != c {
      IndexOfFirst(s, c, j + 1);
    }
  }

  /** Neither a line terminator nor `delim` starts before the position at
      which the lazy group closes. */
  lemma {:induction false} CloseFirst(s: string, delim: string, j: nat)
    requires j <= |s|
    ensures var r := Close(s, delim, j);
      r.Some? ==> forall k :: j <= k < r.value ==> !IsLineTerminator(s[k]) && !StartsAt(s, k, delim)
    decreases |s| - j
  {
    if !StartsAt(s, j, delim) && j < |s| && !IsLineTerminator(s[j]) {
      CloseFirst(s, delim, j + 1);
    }
  }

  /** A `delim` at `k` with no line terminator between `j` and `k` is
      reached: the lazy group from `j` closes (at `k` or before). */
  lemma {:induction false} CloseReached(s: string, delim: string, j: nat, k: nat)
    requires j <= k <= |s| && StartsAt(s, k, delim) && NoLineTerminator(s[j..k])
    ensures Close(s, delim, j).Some?
    decreases k - j
  {
    if !StartsAt(s, j, delim) {
      assert s[j..k][0] == s[j];
      assert s[j + 1..k] == s[j..k][1..];
      CloseReached(s, delim, j + 1, k);
    }
  }

  /** The regular expression `p` tried at index `i` of `s` (an anchored,
      sticky match, as `RegExp.prototype[@@split]` tries it). */
  function MatchAt(p: Pattern, s: string, i: nat): (r: Option<Match>)
    requires i <= |s|
    ensures r.Some? ==> i < r.value.end <= |s| && |r.value.groups| == Arity(p)
  {
    match p
    case LinkPattern =>
      if i < |s| && s[i] == '[' then
        match IndexOf(s, ']', i + 1)
        case None => None
        case Some(j) =>
          if j > i + 1 && j + 1 < |s| && s[j + 1] == '(' then
            match IndexOf(s, ')', j + 2)
            case None => None
            case Some(k) => if k > j + 2 then Some(Match([s[i + 1..j], s[j + 2..k]], k + 1)) else None
          else None
      else None
    case BoldPattern =>
      if StartsAt(s, i, "**") then
        match Close(s, "**", i + 2)
        case None => None
        case Some(j) => Some(Match([s[i + 2..j]], j + 2))
      else None
    case ItalicPattern =>
      if StartsAt(s, i, "*") then
        match Close(s, "*", i + 1)
        case None => None
        case Some(j) => Some(Match([s[i + 1..j]], j + 1))
      else None
  }

  /** The leftmost match of `p` at or after index `q`, with its position. */
  function FindFrom(p: Pattern, s: string, q: nat): (r: Option<(nat, Match)>)
    requires q <= |s|
    ensures r.Some? ==> q <= r.value.0 < |s| && MatchAt(p, s, r.value.0) == Some(r.value.1)
    ensures forall k :: q <= k < (if r.Some? then r.value.0 else |s|) ==> MatchAt(p, s, k).None?
    decreases |s| - q
  {
    if q == |s| then None
    else
      match MatchAt(p, s, q)
      case Some(m) => Some((q, m))
      case None => FindFrom(p, s, q + 1)
  }

  /** `s.split(p)` continuing after the previous match, which ended at `from`:
      the text up to the next match, that match's groups, and the rest. */
  function SplitFrom(p: Pattern, s: string, from: nat): (r: seq<string>)
    requires from <= |s|
    ensures OnePastPeriods(|r|, Arity(p) + 1)
    decreases |s| - from
  {
    match FindFrom(p, s, from)
    case None => [s[from..]]
    case Some((i, m)) =>
      [s[from..i]] + m.groups + SplitFrom(p, s, m.end)
  }

  /** `k` is one more than a multiple of `d`: the part count of a split whose
      every match adds `d` parts. */
  predicate OnePastPeriods(k: nat, d: nat)
    requires d > 0
    decreases k
  {
    if k < d then k == 1 else OnePastPeriods(k - d, d)
  }

  /** Three parts per period: one past a multiple of three. */
  lemma {:induction false} OnePastThrees(k: nat)
    ensures OnePastPeriods(k, 3) <==> k % 3 == 1
    decreases k
  {
    if k >= 3 {
      OnePastThrees(k - 3);
      assert (k - 3) % 3 == k % 3;
    }
  }

  /** Two parts per period: odd. */
  lemma {:induction false} OnePastTwos(k: nat)
    ensures OnePastPeriods(k, 2) <==> k % 2 == 1
    decreases k
  {
    if k >= 2 {
      OnePastTwos(k - 2);
      assert (k - 2) % 2 == k % 2;
    }
  }

  /** A split on the link pattern has `3k + 1` parts, and a split on the bold
      or italic pattern has `2k + 1` parts. */
  lemma {:induction false} SplitParts(p: Pattern, s: string)
    ensures if p.LinkPattern? then |Split(p, s)| % 3 == 1 else |Split(p, s)| % 2 == 1
  {
    if p.LinkPattern? {
      OnePastThrees(|Split(p, s)|);
    } else {
      OnePastTwos(|Split(p, s)|);
    }
  }

  /** `s.split(p)`. */
  function Split(p: Pattern, s: string): seq<string>
  {
    SplitFrom(p, s, 0)
  }

  // ---------------------------------------------------------------
  // The three stages
  // ---------------------------------------------------------------

  /** `formatItalic`: odd parts of the italic split become emphasis. */
  function FormatItalic(text: string): seq<Span>
  {
    var parts := Split(ItalicPattern, text);
    if |parts| > 1 then ItalicNodes(parts, 0) else [Plain(text)]
  }

  /** The `italicParts.map(...)` of `formatItalic`, from index `i` on. */
  function ItalicNodes(parts: seq<string>, i: nat): seq<Span>
    requires i <= |parts|
    decreases |parts| - i
  {
    if i == |parts| then []
    else [if i % 2 == 1 then Em(parts[i]) else Plain(parts[i])] + ItalicNodes(parts, i + 1)
  }

  /** `formatBoldItalic`: odd parts of the bold split become strong text,
      taken literally; even parts go through `formatItalic`. */
  function FormatBoldItalic(text: string): seq<Span>
  {
    var parts := Split(BoldPattern, text);
    if |parts| > 1 then BoldNodes(parts, 0) else FormatItalic(text)
  }

  /** The `boldParts.map(...)` of `formatBoldItalic`, from index `i` on. */
  function BoldNodes(parts: seq<string>, i: nat): seq<Span>
    requires i <= |parts|
    decreases |parts| - i
  {
    if i == |parts| then []
    else (if i % 2 == 1 then [Strong(parts[i])] else FormatItalic(parts[i])) + BoldNodes(parts, i + 1)
  }

  /** `formatInline`: parts with `i % 3 == 1` are link labels, taken literally,
      whose url is the next part; url parts render nothing; the rest go
      through `formatBoldItalic`. */
  function FormatInline(text: string): seq<Span>
  {
    var parts := Split(LinkPattern, text);
    SplitParts(LinkPattern, text);
    if |parts| > 1 then LinkNodes(parts, 0) else FormatBoldItalic(text)
  }

  /** The `linkParts.map(...)` of `formatInline`, from index `i` on. */
  function LinkNodes(parts: seq<string>, i: nat): seq<Span>
    requires i <= |parts| && |parts| % 3 == 1
    decreases |parts| - i
  {
    if i == |parts| then []
    else
      (if i % 3 == 1 then [Link(parts[i], parts[i + 1])]
       else if i % 3 == 2 then []
       else FormatBoldItalic(parts[i]))
      + LinkNodes(parts, i + 1)
  }

  // ---------------------------------------------------------------
  // Reconstructing the source text
  // ---------------------------------------------------------------

  /** The text one match consumed: its groups with their delimiters. */
  function GroupsText(p: Pattern, groups: seq<string>): string
    requires |groups| == Arity(p)
  {
    match p
    case LinkPattern => "[" + groups[0] + "](" + groups[1] + ")"
    case BoldPattern => "**" + groups[0] + "**"
    case ItalicPattern => "*" + groups[0] + "*"
  }

  /** The inverse of `split`, one period (a text part and one match's
      groups) at a time. A split has `1 + k * (Arity(p) + 1)` parts, so a
      remainder shorter than a period is only ever the final text part. */
  function Unsplit(p: Pattern, parts: seq<string>): string
    decreases |parts|
  {
    if parts == [] then ""
    else if |parts| <= Arity(p) then parts[0]
    else parts[0] + (GroupsText(p, parts[1..Arity(p) + 1]) + Unsplit(p, parts[Arity(p) + 1..]))
  }

  /** What a match consumed is its groups with their delimiters back. */
  lemma {:induction false} MatchText(p: Pattern, s: string, i: nat)
    requires i <= |s| && MatchAt(p, s, i).Some?
    ensures s[i..MatchAt(p, s, i).value.end] == GroupsText(p, MatchAt(p, s, i).value.groups)
  {
    match p
    case LinkPattern => LinkMatchText(s, i);
    case BoldPattern => DelimitedMatchText(BoldPattern, "**", s, i);
    case ItalicPattern => DelimitedMatchText(ItalicPattern, "*", s, i);
  }

  lemma {:induction false} LinkMatchText(s: string, i: nat)
    requires i <= |s| && MatchAt(LinkPattern, s, i).Some?
    ensures var m := MatchAt(LinkPattern, s, i).value;
      s[i..m.end] == "[" + m.groups[0] + "](" + m.groups[1] + ")"
  {
    var j := IndexOf(s, ']', i + 1).value;
    var k := IndexOf(s, ')', j + 2).value;
    assert MatchAt(LinkPattern, s, i).value == Match([s[i + 1..j], s[j + 2..k]], k + 1);
    LinkText(s, i, j, k);
  }

  /** The characters of a link match, spelled out around its two groups. */
  lemma {:induction false} LinkText(s: string, i: nat, j: nat, k: nat)
    requires i < j && j + 2 <= k < |s|
    requires s[i] == '[' && s[j] == ']' && s[j + 1] == '(' && s[k] == ')'
    ensures s[i..k + 1] == "[" + s[i + 1..j] + "](" + s[j + 2..k] + ")"
  {
    assert s[i..i + 1] == "[" && s[j..j + 2] == "](" && s[k..k + 1] == ")";
    SliceSplit(s, i, i + 1, j);
    SliceSplit(s, i, j, j + 2);
    SliceSplit(s, i, j + 2, k);
    SliceSplit(s, i, k, k + 1);
  }

  lemma {:induction false} DelimitedMatchText(p: Pattern, d: string, s: string, i: nat)
    requires p == BoldPattern || p == ItalicPattern
    requires d == if p == BoldPattern then "**" else "*"
    requires i <= |s| && MatchAt(p, s, i).Some?
    ensures var m := MatchAt(p, s, i).value; s[i..m.end] == d + m.groups[0] + d
  {
    var n := |d|;
    assert StartsAt(s, i, d);
    var j := Close(s, d, i + n).value;
    assert MatchAt(p, s, i).value == Match([s[i + n..j]], j + n);
    DelimitedText(s, d, i, j);
  }

  /** The characters of a bold or italic match, around its group. */
  lemma {:induction false} DelimitedText(s: string, d: string, i: nat, j: nat)
    requires i + |d| <= j && StartsAt(s, i, d) && StartsAt(s, j, d)
    ensures s[i..j + |d|] == d + s[i + |d|..j] + d
  {
    SliceSplit(s, i, i + |d|, j);
    SliceSplit(s, i, j, j + |d|);
  }

  lemma {:induction false} SliceSplit(s: string, a: nat, b: nat, c: nat)
    requires a <= b <= c <= |s|
    ensures s[a..c] == s[a..b] + s[b..c]
  {
  }

  /** A suffix cut into a text part, a match, and what follows. */
  lemma {:induction false} SuffixCut(s: string, a: nat, b: nat, c: nat)
    requires a <= b <= c <= |s|
    ensures s[a..] == s[a..b] + (s[b..c] + s[c..])
  {
  }

  /** The parts of one period followed by the rest, seen through the slices
      `Unsplit` and `PartsOk` take. */
  lemma {:induction false} PeriodSlices(p: Pattern, t: string, groups: seq<string>, rest: seq<string>)
    requires |groups| == Arity(p)
    ensures var parts := [t] + groups + rest;
      |parts| > Arity(p) && parts[0] == t && parts[1..Arity(p) + 1] == groups && parts[Arity(p) + 1..] == rest
  {
    var parts := [t] + groups + rest;
    assert parts[1..Arity(p) + 1] == groups;
    assert parts[Arity(p) + 1..] == rest;
  }

  /** The suffix of `parts` from a text part at `i` on, when a whole period
      starts there. */
  lemma {:induction false} SuffixPeriod(p: Pattern, parts: seq<string>, i: nat)
    requires i + Arity(p) < |parts|
    ensures parts[i..] == [parts[i]] + parts[i + 1..i + Arity(p) + 1] + parts[i + Arity(p) + 1..]
  {
    assert parts[i..] == [parts[i]] + parts[i + 1..i + Arity(p) + 1] + parts[i + Arity(p) + 1..];
  }

  /** `Unsplit` of a suffix that starts with a whole period. */
  lemma {:induction false} UnsplitPeriod(p: Pattern, parts: seq<string>, i: nat)
    requires i + Arity(p) < |parts|
    ensures Unsplit(p, parts[i..]) ==
      parts[i] + (GroupsText(p, parts[i + 1..i + Arity(p) + 1]) + Unsplit(p, parts[i + Arity(p) + 1..]))
  {
    SuffixPeriod(p, parts, i);
    PeriodSlices(p, parts[i], parts[i + 1..i + Arity(p) + 1], parts[i + Arity(p) + 1..]);
  }

  /** Round trip of one pass: restoring the delimiters of `split`'s parts
      gives back the text that was split. */
  lemma {:induction false} SplitUnsplit(p: Pattern, s: string, from: nat)
    requires from <= |s|
    ensures Unsplit(p, SplitFrom(p, s, from)) == s[from..]
    decreases |s| - from
  {
    var found := FindFrom(p, s, from);
    if found.Some? {
      var i, m := found.value.0, found.value.1;
      var rest := SplitFrom(p, s, m.end);
      assert SplitFrom(p, s, from) == [s[from..i]] + m.groups + rest;
      SplitUnsplit(p, s, m.end);
      MatchText(p, s, i);
      PeriodSlices(p, s[from..i], m.groups, rest);
      SuffixCut(s, from, i, m.end);
    } else {
      assert SplitFrom(p, s, from) == [s[from..]];
    }
  }

  /** The markup a span stands for. */
  function SpanText(sp: Span): string
  {
    match sp
    case Plain(t) => t
    case Strong(t) => "**" + t + "**"
    case Em(t) => "*" + t + "*"
    case Link(t, h) => "[" + t + "](" + h + ")"
  }

  /** The markup a sequence of spans stands for. */
  function Source(spans: seq<Span>): string
  {
    if spans == [] then "" else SpanText(spans[0]) + Source(spans[1..])
  }

  lemma {:induction false} SourceCons(sp: Span, rest: seq<Span>)
    ensures Source([sp] + rest) == SpanText(sp) + Source(rest)
  {
    assert ([sp] + rest)[0] == sp;
    assert ([sp] + rest)[1..] == rest;
  }

  lemma {:induction false} SourceAppend(a: seq<Span>, b: seq<Span>)
    ensures Source(a + b) == Source(a) + Source(b)
    decreases |a|
  {
    if a != [] {
      assert a + b == [a[0]] + (a[1..] + b);
      assert a == [a[0]] + a[1..];
      SourceAppend(a[1..], b);
      SourceCons(a[0], a[1..] + b);
    } else {
      assert a + b == b;
    }
  }

  /** A text part and a following period of `n` parts: the next text part is
      `n` further on, and the period's groups lie in between. */
  lemma {:induction false} NextPair(n: nat, i: nat)
    requires n % 2 == 1 && i % 2 == 0 && i + 1 < n
    ensures (i + 1) % 2 == 1 && (i + 2) % 2 == 0 && i + 2 < n
  {
  }

  /** Positions `i + 1`, `i + 2` of a list of `3k + 1` parts hold a label
      and its url when `i` holds text and is not the last part. */
  lemma {:induction false} NextPeriod(n: nat, i: nat)
    requires n % 3 == 1 && i % 3 == 0 && i + 1 < n
    ensures (i + 1) % 3 == 1 && (i + 2) % 3 == 2 && (i + 3) % 3 == 0 && i + 3 < n
  {
  }

  lemma {:induction false} ItalicNodesSource(parts: seq<string>, i: nat)
    requires i < |parts| && |parts| % 2 == 1 && i % 2 == 0
    ensures Source(ItalicNodes(parts, i)) == Unsplit(ItalicPattern, parts[i..])
    decreases |parts| - i
  {
    var text := Plain(parts[i]);
    if i + 1 == |parts| {
      assert ItalicNodes(parts, i) == [text] + [];
      assert parts[i..] == [parts[i]];
      SourceCons(text, []);
    } else {
      NextPair(|parts|, i);
      ItalicNodesSource(parts, i + 2);
      var em, rest := Em(parts[i + 1]), ItalicNodes(parts, i + 2);
      assert ItalicNodes(parts, i) == [text] + ([em] + rest);
      SourceCons(text, [em] + rest);
      SourceCons(em, rest);
      SuffixPeriod(ItalicPattern, parts, i);
      PeriodSlices(ItalicPattern, parts[i], parts[i + 1..i + 2], parts[i + 2..]);
    }
  }

  /** `formatItalic` loses no text: its spans spell out their input. */
  lemma {:induction false} FormatItalicSource(text: string)
    ensures Source(FormatItalic(text)) == text
  {
    var parts := Split(ItalicPattern, text);
    if |parts| > 1 {
      SplitParts(ItalicPattern, text);
      SplitUnsplit(ItalicPattern, text, 0);
      ItalicNodesSource(parts, 0);
      assert parts[0..] == parts;
    } else {
      SourceCons(Plain(text), []);
    }
  }

  lemma {:induction false} BoldNodesSource(parts: seq<string>, i: nat)
    requires i < |parts| && |parts| % 2 == 1 && i % 2 == 0
    ensures Source(BoldNodes(parts, i)) == Unsplit(BoldPattern, parts[i..])
    decreases |parts| - i
  {
    var head := FormatItalic(parts[i]);
    FormatItalicSource(parts[i]);
    if i + 1 == |parts| {
      assert BoldNodes(parts, i) == head + [];
      assert head + [] == head;
      assert parts[i..] == [parts[i]];
    } else {
      NextPair(|parts|, i);
      BoldNodesSource(parts, i + 2);
      var strong, rest := Strong(parts[i + 1]), BoldNodes(parts, i + 2);
      assert BoldNodes(parts, i) == head + ([strong] + rest);
      SourceAppend(head, [strong] + rest);
      SourceCons(strong, rest);
      SuffixPeriod(BoldPattern, parts, i);
      PeriodSlices(BoldPattern, parts[i], parts[i + 1..i + 2], parts[i + 2..]);
    }
  }

  /** `formatBoldItalic` loses no text. */
  lemma {:induction false} FormatBoldItalicSource(text: string)
    ensures Source(FormatBoldItalic(text)) == text
  {
    var parts := Split(BoldPattern, text);
    if |parts| > 1 {
      SplitParts(BoldPattern, text);
      SplitUnsplit(BoldPattern, text, 0);
      BoldNodesSource(parts, 0);
      assert parts[0..] == parts;
    } else {
      FormatItalicSource(text);
    }
  }

  lemma {:induction false} LinkNodesSource(parts: seq<string>, i: nat)
    requires i < |parts| && |parts| % 3 == 1 && i % 3 == 0
    ensures Source(LinkNodes(parts, i)) == Unsplit(LinkPattern, parts[i..])
    decreases |parts| - i
  {
    if i + 1 == |parts| {
      var head := FormatBoldItalic(parts[i]);
      FormatBoldItalicSource(parts[i]);
      assert LinkNodes(parts, i) == head + [];
      assert head + [] == head;
      assert parts[i..] == [parts[i]];
    } else {
      NextPeriod(|parts|, i);
      LinkNodesSource(parts, i + 3);
      LinkPeriodSource(parts, i);
    }
  }

  /** One period of `LinkNodesSource`: a text part, a label and a url. */
  lemma {:induction false} LinkPeriodSource(parts: seq<string>, i: nat)
    requires i + 3 < |parts| && |parts| % 3 == 1 && i % 3 == 0
    requires (i + 1) % 3 == 1 && (i + 2) % 3 == 2
    requires Source(LinkNodes(parts, i + 3)) == Unsplit(LinkPattern, parts[i + 3..])
    ensures Source(LinkNodes(parts, i)) == Unsplit(LinkPattern, parts[i..])
  {
    LinkPeriodSpans(parts, i);
    UnsplitLinkPeriod(parts, i);
  }

  lemma {:induction false} UnsplitLinkPeriod(parts: seq<string>, i: nat)
    requires i + 3 < |parts|
    ensures Unsplit(LinkPattern, parts[i..]) ==
      parts[i] + (GroupsText(LinkPattern, [parts[i + 1], parts[i + 2]]) + Unsplit(LinkPattern, parts[i + 3..]))
  {
    UnsplitPeriod(LinkPattern, parts, i);
    assert parts[i + 1..i + 3] == [parts[i + 1], parts[i + 2]];
  }

  lemma {:induction false} LinkPeriodSpans(parts: seq<string>, i: nat)
    requires i + 3 < |parts| && |parts| % 3 == 1 && i % 3 == 0
    requires (i + 1) % 3 == 1 && (i + 2) % 3 == 2
    ensures Source(LinkNodes(parts, i)) ==
      parts[i] + (GroupsText(LinkPattern, [parts[i + 1], parts[i + 2]]) + Source(LinkNodes(parts, i + 3)))
  {
    LinkPeriodNodes(parts, i);
    LinkSpansText(FormatBoldItalic(parts[i]), parts[i + 1], parts[i + 2], LinkNodes(parts, i + 3));
    FormatBoldItalicSource(parts[i]);
  }

  /** The markup of some spans, a link, and more spans. */
  lemma {:induction false} LinkSpansText(head: seq<Span>, text: string, href: string, rest: seq<Span>)
    ensures Source(head + ([Link(text, href)] + rest)) == Source(head) + (GroupsText(LinkPattern, [text, href]) + Source(rest))
  {
    SourceAppend(head, [Link(text, href)] + rest);
    SourceCons(Link(text, href), rest);
  }

  /** The spans of one period of the link split: the text part's spans, then
      the link, then the url part's nothing. */
  lemma {:induction false} LinkPeriodNodes(parts: seq<string>, i: nat)
    requires i + 3 < |parts| && |parts| % 3 == 1 && i % 3 == 0
    requires (i + 1) % 3 == 1 && (i + 2) % 3 == 2
    ensures LinkNodes(parts, i) ==
      FormatBoldItalic(parts[i]) + ([Link(parts[i + 1], parts[i + 2])] + LinkNodes(parts, i + 3))
  {
    var rest := LinkNodes(parts, i + 3);
    assert LinkNodes(parts, i + 2) == [] + rest;
    assert [] + rest == rest;
    var tail := [Link(parts[i + 1], parts[i + 2])] + rest;
    assert LinkNodes(parts, i + 1) == tail;
    assert LinkNodes(parts, i) == FormatBoldItalic(parts[i]) + tail;
  }

  /** The whole inline pass loses no text and invents none: the spans of a
      line, with their markup restored, spell out the line. In particular a
      link label and the inner text of strong text appear exactly as written,
      and a url is rendered only as the link's target. */
  lemma {:induction false} FormatInlineSource(text: string)
    ensures Source(FormatInline(text)) == text
  {
    var parts := Split(LinkPattern, text);
    if |parts| > 1 {
      SplitParts(LinkPattern, text);
      SplitUnsplit(LinkPattern, text, 0);
      LinkNodesSource(parts, 0);
      assert parts[0..] == parts;
    } else {
      FormatBoldItalicSource(text);
    }
  }

  // ---------------------------------------------------------------
  // What the captured groups can contain
  // ---------------------------------------------------------------

  /** `**` starts at `k` exactly when the characters at `k` and `k + 1`
      are both `*`. */
  lemma {:induction false} StarPairAt(t: string, k: nat)
    requires k + 1 < |t|
    ensures StartsAt(t, k, "**") <==> t[k] == '*' && t[k + 1] == '*'
  {
    assert t[k..k + 2] == [t[k], t[k + 1]];
  }

  /** No two adjacent asterisks: `**` starts nowhere. */
  predicate NoStarPair(t: string)
  {
    forall k :: 0 <= k < |t| ==> !StartsAt(t, k, "**")
  }

  /** What the regular expression allows one match's groups to hold: a link
      label is non-empty and has no `]`, a url is non-empty and has no `)`,
      strong text has no `**` and italic text no `*`, and neither crosses a
      line terminator. */
  predicate GroupsOk(p: Pattern, groups: seq<string>)
    requires |groups| == Arity(p)
  {
    match p
    case LinkPattern => groups[0] != [] && ']' !in groups[0] && groups[1] != [] && ')' !in groups[1]
    case BoldPattern => NoLineTerminator(groups[0]) && NoStarPair(groups[0])
    case ItalicPattern => '*' !in groups[0] && NoLineTerminator(groups[0])
  }

  /** Every whole period of `parts` has groups that satisfy `GroupsOk`; text
      parts are unconstrained. */
  predicate PartsOk(p: Pattern, parts: seq<string>)
    decreases |parts|
  {
    |parts| <= Arity(p) || (GroupsOk(p, parts[1..Arity(p) + 1]) && PartsOk(p, parts[Arity(p) + 1..]))
  }

  /** The groups of one match satisfy `GroupsOk`. */
  lemma {:induction false} MatchGroupsOk(p: Pattern, s: string, i: nat)
    requires i <= |s| && MatchAt(p, s, i).Some?
    ensures GroupsOk(p, MatchAt(p, s, i).value.groups)
  {
    match p
    case LinkPattern => LinkGroupsOk(s, i);
    case BoldPattern => BoldGroupOk(s, i);
    case ItalicPattern => ItalicGroupOk(s, i);
  }

  lemma {:induction false} LinkGroupsOk(s: string, i: nat)
    requires i <= |s| && MatchAt(LinkPattern, s, i).Some?
    ensures var m := MatchAt(LinkPattern, s, i).value;
      m.groups[0] != [] && ']' !in m.groups[0] && m.groups[1] != [] && ')' !in m.groups[1]
  {
    var j := IndexOf(s, ']', i + 1).value;
    var k := IndexOf(s, ')', j + 2).value;
    IndexOfFirst(s, ']', i + 1);
    IndexOfFirst(s, ')', j + 2);
    var text, href := s[i + 1..j], s[j + 2..k];
    assert MatchAt(LinkPattern, s, i).value.groups == [text, href];
    assert forall t :: 0 <= t < |text| ==> text[t] == s[i + 1 + t];
    assert forall t :: 0 <= t < |href| ==> href[t] == s[j + 2 + t];
  }

  lemma {:induction false} BoldGroupOk(s: string, i: nat)
    requires i <= |s| && MatchAt(BoldPattern, s, i).Some?
    ensures var g := MatchAt(BoldPattern, s, i).value.groups[0]; NoLineTerminator(g) && NoStarPair(g)
  {
    var j := Close(s, "**", i + 2).value;
    CloseFirst(s, "**", i + 2);
    var inner := s[i + 2..j];
    assert MatchAt(BoldPattern, s, i).value.groups == [inner];
    forall t | 0 <= t < |inner| ensures !StartsAt(inner, t, "**") {
      if t + 2 <= |inner| {
        assert !StartsAt(s, i + 2 + t, "**");
        assert inner[t..t + 2] == s[i + 2 + t..i + 4 + t];
      }
    }
    assert forall t :: 0 <= t < |inner| ==> inner[t] == s[i + 2 + t];
  }

  lemma {:induction false} ItalicGroupOk(s: string, i: nat)
    requires i <= |s| && MatchAt(ItalicPattern, s, i).Some?
    ensures var g := MatchAt(ItalicPattern, s, i).value.groups[0]; '*' !in g && NoLineTerminator(g)
  {
    var j := Close(s, "*", i + 1).value;
    CloseFirst(s, "*", i + 1);
    var inner := s[i + 1..j];
    assert MatchAt(ItalicPattern, s, i).value.groups == [inner];
    forall t | 0 <= t < |inner|
      ensures inner[t] != '*' && !IsLineTerminator(inner[t])
    {
      assert !StartsAt(s, i + 1 + t, "*");
      assert s[i + 1 + t..i + 2 + t] == [inner[t]];
    }
  }

  /** Every period of a split satisfies `GroupsOk`. */
  lemma {:induction false} SplitGroupsOk(p: Pattern, s: string, from: nat)
    requires from <= |s|
    ensures PartsOk(p, SplitFrom(p, s, from))
    decreases |s| - from
  {
    var found := FindFrom(p, s, from);
    if found.Some? {
      var i, m := found.value.0, found.value.1;
      var rest := SplitFrom(p, s, m.end);
      assert SplitFrom(p, s, from) == [s[from..i]] + m.groups + rest;
      SplitGroupsOk(p, s, m.end);
      MatchGroupsOk(p, s, i);
      PeriodSlices(p, s[from..i], m.groups, rest);
    } else {
      assert SplitFrom(p, s, from) == [s[from..]];
    }
  }

  /** What each kind of span can hold. */
  predicate SpanOk(sp: Span)
  {
    match sp
    case Plain(_) => true
    case Strong(t) => NoLineTerminator(t) && NoStarPair(t)
    case Em(t) => '*' !in t && NoLineTerminator(t)
    case Link(t, h) => t != [] && ']' !in t && h != [] && ')' !in h
  }

  /** Every span is well formed and, if `links` is false, none is a link. */
  predicate SpansOk(spans: seq<Span>, links: bool)
  {
    forall k :: 0 <= k < |spans| ==> SpanOk(spans[k]) && (links || !spans[k].Link?)
  }

  lemma {:induction false} SpansOkAppend(a: seq<Span>, b: seq<Span>, links: bool)
    requires SpansOk(a, links) && SpansOk(b, links)
    ensures SpansOk(a + b, links)
  {
    assert forall k :: |a| <= k < |a + b| ==> (a + b)[k] == b[k - |a|];
  }

  lemma {:induction false} ItalicNodesOk(parts: seq<string>, i: nat)
    requires i < |parts| && |parts| % 2 == 1 && i % 2 == 0
    requires PartsOk(ItalicPattern, parts[i..])
    ensures SpansOk(ItalicNodes(parts, i), false)
    decreases |parts| - i
  {
    var text := Plain(parts[i]);
    if i + 1 == |parts| {
      assert ItalicNodes(parts, i) == [text];
    } else {
      NextPair(|parts|, i);
      SuffixPeriod(ItalicPattern, parts, i);
      PeriodSlices(ItalicPattern, parts[i], parts[i + 1..i + 2], parts[i + 2..]);
      ItalicNodesOk(parts, i + 2);
      var em, rest := Em(parts[i + 1]), ItalicNodes(parts, i + 2);
      assert ItalicNodes(parts, i) == [text] + ([em] + rest);
      SpansOkAppend([em], rest, false);
      SpansOkAppend([text], [em] + rest, false);
    }
  }

  /** `formatItalic` makes no links; its emphasis holds no `*`. */
  lemma {:induction false} FormatItalicOk(text: string)
    ensures SpansOk(FormatItalic(text), false)
  {
    var parts := Split(ItalicPattern, text);
    if |parts| > 1 {
      SplitParts(ItalicPattern, text);
      SplitGroupsOk(ItalicPattern, text, 0);
      assert parts[0..] == parts;
      ItalicNodesOk(parts, 0);
    }
  }

  lemma {:induction false} BoldNodesOk(parts: seq<string>, i: nat)
    requires i < |parts| && |parts| % 2 == 1 && i % 2 == 0
    requires PartsOk(BoldPattern, parts[i..])
    ensures SpansOk(BoldNodes(parts, i), false)
    decreases |parts| - i
  {
    var head := FormatItalic(parts[i]);
    FormatItalicOk(parts[i]);
    if i + 1 == |parts| {
      assert BoldNodes(parts, i) == head + [];
    } else {
      NextPair(|parts|, i);
      SuffixPeriod(BoldPattern, parts, i);
      PeriodSlices(BoldPattern, parts[i], parts[i + 1..i + 2], parts[i + 2..]);
      BoldNodesOk(parts, i + 2);
      var strong, rest := Strong(parts[i + 1]), BoldNodes(parts, i + 2);
      assert BoldNodes(parts, i) == head + ([strong] + rest);
      SpansOkAppend([strong], rest, false);
      SpansOkAppend(head, [strong] + rest, false);
    }
  }

  /** `formatBoldItalic` makes no links; its strong text holds no `**`. */
  lemma {:induction false} FormatBoldItalicOk(text: string)
    ensures SpansOk(FormatBoldItalic(text), false)
  {
    var parts := Split(BoldPattern, text);
    if |parts| > 1 {
      SplitParts(BoldPattern, text);
      SplitGroupsOk(BoldPattern, text, 0);
      assert parts[0..] == parts;
      BoldNodesOk(parts, 0);
    } else {
      FormatItalicOk(text);
    }
  }

  lemma {:induction false} LinkNodesOk(parts: seq<string>, i: nat)
    requires i < |parts| && |parts| % 3 == 1 && i % 3 == 0
    requires PartsOk(LinkPattern, parts[i..])
    ensures SpansOk(LinkNodes(parts, i), true)
    decreases |parts| - i
  {
    var head := FormatBoldItalic(parts[i]);
    FormatBoldItalicOk(parts[i]);
    if i + 1 == |parts| {
      assert LinkNodes(parts, i) == head + [];
    } else {
      NextPeriod(|parts|, i);
      SuffixPeriod(LinkPattern, parts, i);
      PeriodSlices(LinkPattern, parts[i], parts[i + 1..i + 3], parts[i + 3..]);
      LinkNodesOk(parts, i + 3);
      var link, rest := Link(parts[i + 1], parts[i + 2]), LinkNodes(parts, i + 3);
      assert SpanOk(link);
      assert LinkNodes(parts, i + 2) == rest;
      assert LinkNodes(parts, i) == head + ([link] + rest);
      SpansOkAppend([link], rest, true);
      SpansOkAppend(head, [link] + rest, true);
    }
  }

  /** Every span of a formatted line is well formed: each link has a
      non-empty label without `]` and a non-empty url without `)`, strong
      text contains no `**`, emphasis no `*`. */
  lemma {:induction false} FormatInlineOk(text: string)
    ensures SpansOk(FormatInline(text), true)
  {
    var parts := Split(LinkPattern, text);
    if |parts| > 1 {
      SplitParts(LinkPattern, text);
      SplitGroupsOk(LinkPattern, text, 0);
      assert parts[0..] == parts;
      LinkNodesOk(parts, 0);
    } else {
      FormatBoldItalicOk(text);
    }
  }

  // ---------------------------------------------------------------
  // Counting links
  // ---------------------------------------------------------------

  /** Number of link spans. */
  function CountLinks(spans: seq<Span>): nat
  {
    if spans == [] then 0 else (if spans[0].Link? then 1 else 0) + CountLinks(spans[1..])
  }

  lemma {:induction false} CountLinksAppend(a: seq<Span>, b: seq<Span>)
    ensures CountLinks(a + b) == CountLinks(a) + CountLinks(b)
    decreases |a|
  {
    if a != [] {
      assert (a + b)[0] == a[0];
      assert (a + b)[1..] == a[1..] + b;
      CountLinksAppend(a[1..], b);
    } else {
      assert a + b == b;
    }
  }

  lemma {:induction false} CountLinksNone(spans: seq<Span>)
    requires SpansOk(spans, false)
    ensures CountLinks(spans) == 0
    decreases |spans|
  {
    if spans != [] {
      assert SpansOk(spans[1..], false) by {
        assert forall k :: 0 <= k < |spans| - 1 ==> spans[1..][k] == spans[k + 1];
      }
      CountLinksNone(spans[1..]);
    }
  }

  lemma {:induction false} LinkNodesCount(parts: seq<string>, i: nat)
    requires i <= |parts| && |parts| % 3 == 1 && i % 3 == 0
    ensures 3 * CountLinks(LinkNodes(parts, i)) + 1 == |parts| - i
    decreases |parts| - i
  {
    var head := FormatBoldItalic(parts[i]);
    FormatBoldItalicOk(parts[i]);
    CountLinksNone(head);
    assert LinkNodes(parts, i) == head + LinkNodes(parts, i + 1);
    CountLinksAppend(head, LinkNodes(parts, i + 1));
    if i + 1 < |parts| {
      NextPeriod(|parts|, i);
      LinkNodesCount(parts, i + 3);
      var link := Link(parts[i + 1], parts[i + 2]);
      assert LinkNodes(parts, i + 1) == [link] + LinkNodes(parts, i + 2);
      assert LinkNodes(parts, i + 2) == LinkNodes(parts, i + 3);
      CountLinksAppend([link], LinkNodes(parts, i + 3));
    }
  }

  /** A line whose link split has `3k + 1` parts renders exactly `k` links. */
  lemma {:induction false} LinkCount(text: string)
    ensures |Split(LinkPattern, text)| == 3 * CountLinks(FormatInline(text)) + 1
  {
    var parts := Split(LinkPattern, text);
    if |parts| > 1 {
      SplitParts(LinkPattern, text);
      LinkNodesCount(parts, 0);
    } else {
      FormatBoldItalicOk(text);
      CountLinksNone(FormatBoldItalic(text));
    }
  }

  /** Number of strong spans. */
  function CountStrong(spans: seq<Span>): nat
  {
    if spans == [] then 0 else (if spans[0].Strong? then 1 else 0) + CountStrong(spans[1..])
  }

  lemma {:induction false} CountStrongAppend(a: seq<Span>, b: seq<Span>)
    ensures CountStrong(a + b) == CountStrong(a) + CountStrong(b)
    decreases |a|
  {
    if a != [] {
      assert (a + b)[0] == a[0];
      assert (a + b)[1..] == a[1..] + b;
      CountStrongAppend(a[1..], b);
    } else {
      assert a + b == b;
    }
  }

  /** The italic pass makes no strong span. */
  lemma {:induction false} ItalicNodesNoStrong(parts: seq<string>, i: nat)
    requires i <= |parts|
    ensures CountStrong(ItalicNodes(parts, i)) == 0
    decreases |parts| - i
  {
    if i < |parts| {
      var head := [if i % 2 == 1 then Em(parts[i]) else Plain(parts[i])];
      ItalicNodesNoStrong(parts, i + 1);
      CountStrongAppend(head, ItalicNodes(parts, i + 1));
    }
  }

  lemma {:induction false} FormatItalicNoStrong(text: string)
    ensures CountStrong(FormatItalic(text)) == 0
  {
    ItalicNodesNoStrong(Split(ItalicPattern, text), 0);
  }

  lemma {:induction false} BoldNodesCount(parts: seq<string>, i: nat)
    requires i < |parts| && |parts| % 2 == 1 && i % 2 == 0
    ensures 2 * CountStrong(BoldNodes(parts, i)) + 1 == |parts| - i
    decreases |parts| - i
  {
    var head := FormatItalic(parts[i]);
    FormatItalicNoStrong(parts[i]);
    if i + 1 == |parts| {
      assert BoldNodes(parts, i) == head + [];
      CountStrongAppend(head, []);
    } else {
      NextPair(|parts|, i);
      BoldNodesCount(parts, i + 2);
      var strong, rest := Strong(parts[i + 1]), BoldNodes(parts, i + 2);
      assert BoldNodes(parts, i) == head + ([strong] + rest);
      CountStrongAppend(head, [strong] + rest);
      CountStrongAppend([strong], rest);
    }
  }

  /** A line whose bold split has `2k + 1` parts renders exactly `k` strong
      spans. */
  lemma {:induction false} StrongCount(text: string)
    ensures |Split(BoldPattern, text)| == 2 * CountStrong(FormatBoldItalic(text)) + 1
  {
    var parts := Split(BoldPattern, text);
    SplitParts(BoldPattern, text);
    if |parts| > 1 {
      BoldNodesCount(parts, 0);
    } else {
      FormatItalicNoStrong(text);
    }
  }

  // ---------------------------------------------------------------
  // Text that is left alone
  // ---------------------------------------------------------------

  /** No position of `s` starts a `[label](url)` match. */
  predicate NoLinkMatch(s: string)
  {
    forall i :: 0 <= i < |s| ==> MatchAt(LinkPattern, s, i).None?
  }

  /** Without a `[` there is no link. */
  lemma {:induction false} BracketFreeHasNoLink(s: string)
    requires '[' !in s
    ensures NoLinkMatch(s)
  {
  }

  /** A split without a match returns the whole text as its only part. */
  lemma {:induction false} SplitWithoutMatch(p: Pattern, s: string)
    requires forall i :: 0 <= i < |s| ==> MatchAt(p, s, i).None?
    ensures Split(p, s) == [s]
  {
    assert FindFrom(p, s, 0).None?;
  }

  /** At most one `*` occurs in `s`. */
  predicate AtMostOneStar(s: string)
  {
    forall i, j :: 0 <= i < j < |s| && s[i] == '*' ==> s[j] != '*'
  }

  /** A bold match starts with two asterisks. */
  lemma {:induction false} BoldMatchStars(s: string, i: nat)
    requires i <= |s|
    ensures MatchAt(BoldPattern, s, i).Some? ==> i + 1 < |s| && s[i] == '*' && s[i + 1] == '*'
  {
    if MatchAt(BoldPattern, s, i).Some? {
      assert s[i..i + 2] == "**";
    }
  }

  /** An italic match starts and ends with an asterisk. */
  lemma {:induction false} ItalicMatchStars(s: string, i: nat)
    requires i <= |s|
    ensures MatchAt(ItalicPattern, s, i).Some? ==>
      var e := MatchAt(ItalicPattern, s, i).value.end;
      i < e - 1 && s[i] == '*' && s[e - 1] == '*'
  {
    if MatchAt(ItalicPattern, s, i).Some? {
      assert s[i..i + 1] == "*";
      var j := Close(s, "*", i + 1).value;
      assert s[j..j + 1] == "*";
    }
  }

  /** A line with no link and no pair of asterisks (an unpartnered `*`, as in
      `cost *a lot`) is returned verbatim as one plain-text span. */
  lemma {:induction false} UnpairedStarVerbatim(s: string)
    requires NoLinkMatch(s) && AtMostOneStar(s)
    ensures FormatInline(s) == [Plain(s)]
  {
    SplitWithoutMatch(LinkPattern, s);
    forall i | 0 <= i < |s| ensures MatchAt(BoldPattern, s, i).None? {
      BoldMatchStars(s, i);
    }
    SplitWithoutMatch(BoldPattern, s);
    forall i | 0 <= i < |s| ensures MatchAt(ItalicPattern, s, i).None? {
      ItalicMatchStars(s, i);
    }
    SplitWithoutMatch(ItalicPattern, s);
  }

  /** A line containing no link and no `*` at all is returned verbatim. */
  lemma {:induction false} NoMarkupVerbatim(s: string)
    requires NoLinkMatch(s) && '*' !in s
    ensures FormatInline(s) == [Plain(s)]
  {
    UnpairedStarVerbatim(s);
  }

  /** The lone asterisk of `cost *a lot` stays literal. */
  lemma {:induction false} LoneStarStaysLiteral()
    ensures FormatInline("cost *a lot") == [Plain("cost *a lot")]
  {
    var s := "cost *a lot";
    BracketFreeHasNoLink(s);
    forall i, j | 0 <= i < j < |s| && s[i] == '*' ensures s[j] != '*' {
      assert i == 5;
    }
    UnpairedStarVerbatim(s);
  }

  /** The link split of a line that is one link. */
  lemma {:induction false} SingleLinkSplit(text: string, href: string)
    requires text != [] && ']' !in text && href != [] && ')' !in href
    ensures Split(LinkPattern, "[" + text + "](" + href + ")") == ["", text, href, ""]
  {
    var s := "[" + text + "](" + href + ")";
    SingleLinkMatch(text, href);
    assert FindFrom(LinkPattern, s, 0) == Some((0, Match([text, href], |s|)));
    assert s[0..0] == "" && s[|s|..] == "";
    assert SplitFrom(LinkPattern, s, |s|) == [""];
    assert Split(LinkPattern, s) == [""] + [text, href] + [""];
  }

  /** A line that is one link matches the link pattern as a whole. */
  lemma {:induction false} SingleLinkMatch(text: string, href: string)
    requires text != [] && ']' !in text && href != [] && ')' !in href
    ensures var s := "[" + text + "](" + href + ")"; MatchAt(LinkPattern, s, 0) == Some(Match([text, href], |s|))
  {
    var s := "[" + text + "](" + href + ")";
    var j, k := |text| + 1, |text| + |href| + 3;
    assert |s| == k + 1;
    assert s[1..j] == text && s[j] == ']' && s[j + 1] == '(' && s[j + 2..k] == href && s[k] == ')';
    assert forall t :: 1 <= t < j ==> s[t] == text[t - 1];
    assert forall t :: j + 2 <= t < k ==> s[t] == href[t - j - 2];
    IndexOfFinds(s, ']', 1, j);
    IndexOfFinds(s, ')', j + 2, k);
  }

  /** A line that is one link renders the label as written, without looking
      for bold or italic markup in it, and nothing of the url but the
      link's target. */
  lemma {:induction false} SingleLinkLiteral(text: string, href: string)
    requires text != [] && ']' !in text && href != [] && ')' !in href
    ensures FormatInline("[" + text + "](" + href + ")") == [Plain(""), Link(text, href), Plain("")]
  {
    SingleLinkSplit(text, href);
    OneLinkNodes(text, href);
  }

  /** The empty text is one empty plain span at every stage. */
  lemma {:induction false} EmptyFormats()
    ensures FormatItalic("") == [Plain("")] && FormatBoldItalic("") == [Plain("")]
  {
    SplitWithoutMatch(BoldPattern, "");
    SplitWithoutMatch(ItalicPattern, "");
  }

  /** The nodes of the parts of a line that is one link. */
  lemma {:induction false} OneLinkNodes(text: string, href: string)
    ensures LinkNodes(["", text, href, ""], 0) == [Plain(""), Link(text, href), Plain("")]
  {
    var parts := ["", text, href, ""];
    EmptyFormats();
    assert LinkNodes(parts, 4) == [];
    assert LinkNodes(parts, 3) == [Plain("")];
    assert LinkNodes(parts, 2) == [Plain("")];
    assert LinkNodes(parts, 1) == [Link(text, href), Plain("")];
  }

  /** A line that is one pair of `**` around text that holds no `**` is one
      strong span whose text is taken as written: a `*...*` inside it is not
      made emphasis. */
  lemma {:induction false} StrongLiteral(t: string)
    requires '[' !in t && NoLineTerminator(t) && NoStarPair(t)
    requires t != [] ==> t[|t| - 1] != '*'
    ensures FormatInline("**" + t + "**") == [Plain(""), Strong(t), Plain("")]
  {
    var s := "**" + t + "**";
    assert '[' !in s;
    BracketFreeHasNoLink(s);
    SplitWithoutMatch(LinkPattern, s);
    StrongSplit(t);
    var parts := ["", t, ""];
    EmptyFormats();
    assert BoldNodes(parts, 3) == [];
    assert BoldNodes(parts, 2) == [Plain("")];
    assert BoldNodes(parts, 1) == [Strong(t), Plain("")];
    assert BoldNodes(parts, 0) == [Plain(""), Strong(t), Plain("")];
  }

  /** The bold split of `"**" + t + "**"`: nothing, `t`, nothing. */
  lemma {:induction false} StrongSplit(t: string)
    requires NoLineTerminator(t) && NoStarPair(t)
    requires t != [] ==> t[|t| - 1] != '*'
    ensures Split(BoldPattern, "**" + t + "**") == ["", t, ""]
  {
    var s := "**" + t + "**";
    var n := |s|;
    StrongClose(t);
    assert s[2..n - 2] == t;
    assert MatchAt(BoldPattern, s, 0) == Some(Match([t], n)) by {
      assert s[0..2] == "**";
    }
    assert FindFrom(BoldPattern, s, 0) == Some((0, Match([t], n)));
    assert s[0..0] == "" && s[n..] == "";
    assert SplitFrom(BoldPattern, s, n) == [""];
    assert SplitFrom(BoldPattern, s, 0) == [""] + [t] + [""];
  }

  /** The lazy `(.*?)\*\*` started after the opening `**` of `"**" + t + "**"`
      stops at the closing `**`. */
  lemma {:induction false} StrongClose(t: string)
    requires NoLineTerminator(t) && NoStarPair(t)
    requires t != [] ==> t[|t| - 1] != '*'
    ensures Close("**" + t + "**", "**", 2) == Some(|t| + 2)
  {
    var s := "**" + t + "**";
    var e := |t| + 2;
    assert |s| == e + 2;
    assert forall k :: 2 <= k < e ==> s[k] == t[k - 2];
    assert s[e] == '*' && s[e + 1] == '*';
    assert StartsAt(s, e, "**") by { assert s[e..e + 2] == [s[e], s[e + 1]]; }
    assert NoLineTerminator(s[2..e]) by { assert s[2..e] == t; }
    StrongTextInside(s, 0, t);
    CloseAt(s, "**", 2, e);
  }

  // ---------------------------------------------------------------
  // Completeness of the matchers: every occurrence of the markup is
  // matched, wherever it stands in the line
  // ---------------------------------------------------------------

  /** A `c` at `k` with none before it from `j` on is what `IndexOf` finds. */
  lemma {:induction false} IndexOfFinds(s: string, c: char, j: nat, k: nat)
    requires j <= k < |s| && s[k] == c
    requires forall m :: j <= m < k ==> s[m] != c
    ensures IndexOf(s, c, j) == Some(k)
  {
    IndexOfFirst(s, c, j);
  }

  /** Every `[label](url)` whose label is non-empty and free of `]` and
      whose url is non-empty and free of `)` is matched at its `[`. */
  lemma {:induction false} LinkMatchComplete(s: string, i: nat, j: nat, k: nat)
    requires i + 1 < j && j + 2 < k < |s|
    requires s[i] == '[' && s[j] == ']' && s[j + 1] == '(' && s[k] == ')'
    requires ']' !in s[i + 1..j] && ')' !in s[j + 2..k]
    ensures MatchAt(LinkPattern, s, i) == Some(Match([s[i + 1..j], s[j + 2..k]], k + 1))
  {
    forall m | i + 1 <= m < j ensures s[m] != ']' {
      assert s[m] == s[i + 1..j][m - i - 1];
    }
    forall m | j + 2 <= m < k ensures s[m] != ')' {
      assert s[m] == s[j + 2..k][m - j - 2];
    }
    IndexOfFinds(s, ']', i + 1, j);
    IndexOfFinds(s, ')', j + 2, k);
  }

  /** The lazy group started at `j` closes at `e` when `delim` stands at `e`
      and neither `delim` nor a line terminator starts anywhere before. */
  lemma {:induction false} CloseAt(s: string, delim: string, j: nat, e: nat)
    requires j <= e && StartsAt(s, e, delim)
    requires forall m :: j <= m < e ==> !IsLineTerminator(s[m])
    requires forall m :: j <= m < e ==> !StartsAt(s, m, delim)
    ensures Close(s, delim, j) == Some(e)
  {
    assert NoLineTerminator(s[j..e]) by {
      assert forall m :: 0 <= m < e - j ==> s[j..e][m] == s[j + m];
    }
    CloseReached(s, delim, j, e);
    CloseFirst(s, delim, j);
  }

  /** Every `**text**` whose text holds no line terminator and no `**` is
      matched at its opening `**`, with that text as the group. */
  lemma {:induction false} StrongMatchComplete(s: string, i: nat, j: nat)
    requires i + 2 <= j && StartsAt(s, i, "**") && StartsAt(s, j, "**")
    requires forall m :: i + 2 <= m < j ==> !IsLineTerminator(s[m])
    requires forall m :: i + 2 <= m < j ==> !StartsAt(s, m, "**")
    ensures MatchAt(BoldPattern, s, i) == Some(Match([s[i + 2..j]], j + 2))
  {
    CloseAt(s, "**", i + 2, j);
    assert Close(s, "**", i + 2) == Some(j);
  }

  /** Every `*text*` whose text holds no `*` and no line terminator is
      matched at its opening `*`, with that text as the group. */
  lemma {:induction false} EmphasisMatchComplete(s: string, i: nat, j: nat)
    requires i < j < |s| && s[i] == '*' && s[j] == '*'
    requires forall m :: i < m < j ==> s[m] != '*' && !IsLineTerminator(s[m])
    ensures MatchAt(ItalicPattern, s, i) == Some(Match([s[i + 1..j]], j + 1))
  {
    assert StartsAt(s, i, "*") by { assert s[i..i + 1] == [s[i]]; }
    assert StartsAt(s, j, "*") by { assert s[j..j + 1] == [s[j]]; }
    forall m | i + 1 <= m < j ensures !IsLineTerminator(s[m]) && !StartsAt(s, m, "*") {
      assert m + 1 <= |s| ==> s[m..m + 1][0] == s[m];
    }
    CloseAt(s, "*", i + 1, j);
  }

  /** Without an opening delimiter, or with one whose lazy group cannot
      close, the bold and italic matchers fail. */
  lemma {:induction false} DelimitedMatchFails(p: Pattern, d: string, s: string, i: nat)
    requires p == BoldPattern || p == ItalicPattern
    requires d == if p == BoldPattern then "**" else "*"
    requires i <= |s|
    requires !StartsAt(s, i, d) || Close(s, d, i + |d|).None?
    ensures MatchAt(p, s, i) == None
  {
  }

  /** The leftmost match from `q` is the one at `i` when no position in
      between matches. */
  lemma {:induction false} FindFromAt(p: Pattern, s: string, q: nat, i: nat, m: Match)
    requires q <= i < |s| && MatchAt(p, s, i) == Some(m)
    requires forall k :: q <= k < i ==> MatchAt(p, s, k).None?
    ensures FindFrom(p, s, q) == Some((i, m))
  {
  }

  /** No `*` from `q` on: the italic pattern has no further match. */
  lemma {:induction false} NoStarNoItalic(s: string, q: nat)
    requires q <= |s|
    requires forall m :: q <= m < |s| ==> s[m] != '*'
    ensures FindFrom(ItalicPattern, s, q).None?
  {
    if FindFrom(ItalicPattern, s, q).Some? {
      ItalicMatchStars(s, FindFrom(ItalicPattern, s, q).value.0);
    }
  }

  /** One pair of `*` in a line makes its text emphasis, between the plain
      text before and after it, wherever the pair stands. */
  lemma {:induction false} EmphasisBetween(a: string, t: string, b: string)
    requires '*' !in a && '*' !in t && '*' !in b && NoLineTerminator(t)
    ensures FormatItalic(a + "*" + t + "*" + b) == [Plain(a), Em(t), Plain(b)]
  {
    EmphasisSplit(a, t, b);
    var parts := [a, t, b];
    assert ItalicNodes(parts, 3) == [];
    assert ItalicNodes(parts, 2) == [Plain(b)];
    assert ItalicNodes(parts, 1) == [Em(t), Plain(b)];
  }

  /** The italic split of a line with one pair of `*`: the text before, the
      text between, the text after. */
  lemma {:induction false} EmphasisSplit(a: string, t: string, b: string)
    requires '*' !in a && '*' !in t && '*' !in b && NoLineTerminator(t)
    ensures Split(ItalicPattern, a + "*" + t + "*" + b) == [a, t, b]
  {
    var s := a + "*" + t + "*" + b;
    var i, e := |a|, |a| + |t| + 2;
    EmphasisMatch(a, t, b);
    OutsideThePair(a, t, b);
    NoStarNoMatch(ItalicPattern, s, i);
    FindFromAt(ItalicPattern, s, 0, i, Match([t], e));
    NoStarNoItalic(s, e);
    SplitOnce(ItalicPattern, s, i, Match([t], e));
  }

  /** Neither the text before the pair nor the text after it holds a `*`. */
  lemma {:induction false} OutsideThePair(a: string, t: string, b: string)
    requires '*' !in a && '*' !in b
    ensures var s := a + "*" + t + "*" + b;
      && s[..|a|] == a && s[|a| + |t| + 2..] == b
      && (forall m :: 0 <= m < |a| ==> s[m] != '*')
      && (forall m :: |a| + |t| + 2 <= m < |s| ==> s[m] != '*')
  {
    var s := a + "*" + t + "*" + b;
    assert s[..|a|] == a && s[|a| + |t| + 2..] == b;
    forall m | 0 <= m < |a| ensures s[m] != '*' {
      assert s[m] == s[..|a|][m];
    }
    forall m | |a| + |t| + 2 <= m < |s| ensures s[m] != '*' {
      assert s[m] == s[|a| + |t| + 2..][m - |a| - |t| - 2];
    }
  }

  /** No position before `i` matches the bold or the italic pattern when
      none holds a `*`. */
  lemma {:induction false} NoStarNoMatch(p: Pattern, s: string, i: nat)
    requires !p.LinkPattern? && i <= |s|
    requires forall m :: 0 <= m < i ==> s[m] != '*'
    ensures forall m :: 0 <= m < i ==> MatchAt(p, s, m).None?
  {
    forall m | 0 <= m < i ensures MatchAt(p, s, m).None? {
      if p.BoldPattern? {
        BoldMatchStars(s, m);
      } else {
        ItalicMatchStars(s, m);
      }
    }
  }

  /** A split with exactly one match: the text before it, its groups, and
      the rest. */
  lemma {:induction false} SplitOnce(p: Pattern, s: string, i: nat, m: Match)
    requires FindFrom(p, s, 0) == Some((i, m)) && m.end <= |s|
    requires FindFrom(p, s, m.end).None?
    ensures Split(p, s) == [s[..i]] + m.groups + [s[m.end..]]
  {
    assert SplitFrom(p, s, m.end) == [s[m.end..]];
    assert SplitFrom(p, s, 0) == [s[0..i]] + m.groups + SplitFrom(p, s, m.end);
  }

  /** The one pair of `*` is matched where its first `*` stands. */
  lemma {:induction false} EmphasisMatch(a: string, t: string, b: string)
    requires '*' !in t && NoLineTerminator(t)
    ensures var s := a + "*" + t + "*" + b;
      MatchAt(ItalicPattern, s, |a|) == Some(Match([t], |a| + |t| + 2))
  {
    var s := a + "*" + t + "*" + b;
    var i, j := |a|, |a| + 1 + |t|;
    assert s[i] == '*' && s[j] == '*';
    forall m | i < m < j ensures s[m] != '*' && !IsLineTerminator(s[m]) {
      assert s[m] == t[m - i - 1];
    }
    EmphasisMatchComplete(s, i, j);
    assert s[i + 1..j] == t;
  }

  /** `a *b* c` renders `b` as emphasis. */
  lemma {:induction false} EmphasisExample()
    ensures FormatItalic("a *b* c") == [Plain("a "), Em("b"), Plain(" c")]
  {
    assert "a *b* c" == "a " + "*" + "b" + "*" + " c";
    EmphasisBetween("a ", "b", " c");
  }

  // ---------------------------------------------------------------
  // Matching only looks forward
  // ---------------------------------------------------------------
  // The lemmas below relate a text `s` to its suffix `t` at `n`. Every
  // position of `s` is passed as a variable of its own, tied to the
  // position in `t` by a `requires`, so that the functions on `s` are only
  // ever applied at plain positions.

  /** `t` is the text of `s` from index `n` on, character by character. */
  predicate IsSuffix(s: string, n: nat, t: string)
    decreases |t|
  {
    n + |t| == |s| && (t == [] || (t[0] == s[n] && IsSuffix(s, n + 1, t[1..])))
  }

  lemma {:induction false} SuffixAt(s: string, n: nat, t: string, k: nat)
    requires IsSuffix(s, n, t) && k < |t|
    ensures t[k] == s[n + k]
    decreases k
  {
    if k > 0 {
      SuffixAt(s, n + 1, t[1..], k - 1);
    }
  }

  lemma {:induction false} DropIsSuffix(s: string, n: nat)
    requires n <= |s|
    ensures IsSuffix(s, n, s[n..])
    decreases |s| - n
  {
    if n < |s| {
      assert s[n..][1..] == s[n + 1..];
      DropIsSuffix(s, n + 1);
    }
  }

  /** The slice `[x, y)` of the suffix is the slice `[a, b)` of the text. */
  lemma {:induction false} SuffixSlice(s: string, n: nat, t: string, x: nat, y: nat, a: nat, b: nat)
    requires IsSuffix(s, n, t) && x <= y <= |t| && a == n + x && b == n + y
    ensures b <= |s| && t[x..y] == s[a..b]
  {
    forall k | 0 <= k < y - x ensures t[x..y][k] == s[a..b][k] {
      SuffixAt(s, n, t, x + k);
    }
  }

  /** A position found in a suffix that starts at `n`, as a position of the
      whole text. */
  function ShiftIndex(r: Option<nat>, n: nat): Option<nat>
  {
    match r
    case None => None
    case Some(k) => Some(n + k)
  }

  /** A match found in a suffix that starts at `n`, at the positions of the
      whole text. */
  function ShiftMatch(m: Match, n: nat): Match
  {
    Match(m.groups, m.end + n)
  }

  function ShiftMatches(r: Option<Match>, n: nat): Option<Match>
  {
    match r
    case None => None
    case Some(m) => Some(ShiftMatch(m, n))
  }

  /** A search result in a suffix that starts at `n`, at the positions of
      the whole text. */
  function ShiftFound(r: Option<(nat, Match)>, n: nat): Option<(nat, Match)>
  {
    match r
    case None => None
    case Some((i, m)) => Some((n + i, ShiftMatch(m, n)))
  }

  lemma {:induction false} StartsAtSuffix(s: string, n: nat, t: string, i: nat, a: nat, d: string)
    requires IsSuffix(s, n, t) && i <= |t| && a == n + i
    ensures StartsAt(s, a, d) == StartsAt(t, i, d)
  {
    if i + |d| <= |t| {
      SuffixSlice(s, n, t, i, i + |d|, a, a + |d|);
    }
  }

  /** The scan for `c` from `a` in `s` is the scan from `j` in the suffix. */
  lemma {:induction false} IndexOfSuffix(s: string, n: nat, t: string, c: char, j: nat, a: nat)
    requires IsSuffix(s, n, t) && j <= |t| && a == n + j
    ensures IndexOf(s, c, a) == ShiftIndex(IndexOf(t, c, j), n)
  {
    IndexOfFirst(s, c, a);
    IndexOfFirst(t, c, j);
    if IndexOf(s, c, a).Some? {
      var k := IndexOf(s, c, a).value;
      forall m | j <= m < k - n ensures t[m] != c {
        SuffixAt(s, n, t, m);
      }
      SuffixAt(s, n, t, k - n);
      IndexOfFinds(t, c, j, k - n);
    }
    if IndexOf(t, c, j).Some? {
      var k := IndexOf(t, c, j).value;
      forall m | a <= m < n + k ensures s[m] != c {
        SuffixAt(s, n, t, m - n);
      }
      SuffixAt(s, n, t, k);
      IndexOfFinds(s, c, a, n + k);
    }
  }

  /** `delim` stands at `e`, and neither `delim` nor a line terminator starts
      in `[j, e)`: the lazy group from `j` closes at `e`. */
  predicate ClosesAt(s: string, delim: string, j: nat, e: nat)
  {
    && j <= e && StartsAt(s, e, delim)
    && (forall m :: j <= m < e ==> !IsLineTerminator(s[m]))
    && (forall m :: j <= m < e ==> !StartsAt(s, m, delim))
  }

  lemma {:induction false} ClosesAtSuffix(s: string, n: nat, t: string, d: string, j: nat, e: nat, a: nat, b: nat)
    requires IsSuffix(s, n, t) && e <= |t| && a == n + j && b == n + e
    ensures ClosesAt(s, d, a, b) <==> ClosesAt(t, d, j, e)
  {
    StartsAtSuffix(s, n, t, e, b, d);
    if ClosesAt(s, d, a, b) {
      forall m | j <= m < e ensures !IsLineTerminator(t[m]) && !StartsAt(t, m, d) {
        SuffixAt(s, n, t, m);
        StartsAtSuffix(s, n, t, m, n + m, d);
      }
    }
    if ClosesAt(t, d, j, e) {
      forall m | a <= m < b ensures !IsLineTerminator(s[m]) && !StartsAt(s, m, d) {
        SuffixAt(s, n, t, m - n);
        StartsAtSuffix(s, n, t, m - n, m, d);
      }
    }
  }

  /** The lazy group from `a` in `s` closes where the one from `j` in the
      suffix does. */
  lemma {:induction false} CloseSuffix(s: string, n: nat, t: string, d: string, j: nat, a: nat)
    requires IsSuffix(s, n, t) && j <= |t| && a == n + j
    ensures Close(s, d, a) == ShiftIndex(Close(t, d, j), n)
  {
    if Close(s, d, a).Some? {
      var e := Close(s, d, a).value;
      CloseFirst(s, d, a);
      assert ClosesAt(s, d, a, e);
      CloseInSuffix(s, n, t, d, j, a, e);
    } else if Close(t, d, j).Some? {
      var e := Close(t, d, j).value;
      CloseFirst(t, d, j);
      assert ClosesAt(t, d, j, e);
      CloseFromSuffix(s, n, t, d, j, a, e);
    }
  }

  lemma {:induction false} CloseInSuffix(s: string, n: nat, t: string, d: string, j: nat, a: nat, e: nat)
    requires IsSuffix(s, n, t) && j <= |t| && a == n + j && ClosesAt(s, d, a, e)
    ensures n <= e && Close(t, d, j) == Some(e - n)
  {
    ClosesAtSuffix(s, n, t, d, j, e - n, a, e);
    CloseAt(t, d, j, e - n);
  }

  lemma {:induction false} CloseFromSuffix(s: string, n: nat, t: string, d: string, j: nat, a: nat, e: nat)
    requires IsSuffix(s, n, t) && a == n + j && ClosesAt(t, d, j, e)
    ensures Close(s, d, a) == Some(n + e)
  {
    ClosesAtSuffix(s, n, t, d, j, e, a, n + e);
    CloseAt(s, d, a, n + e);
  }

  /** A pattern tried at `a` of `s` matches exactly as it does at `i` of the
      suffix, which is the same place: no pattern looks behind its start. */
  lemma {:induction false} MatchAtSuffix(p: Pattern, s: string, n: nat, t: string, i: nat, a: nat)
    requires IsSuffix(s, n, t) && i <= |t| && a == n + i
    ensures MatchAt(p, s, a) == ShiftMatches(MatchAt(p, t, i), n)
  {
    match p
    case LinkPattern => LinkMatchSuffix(s, n, t, i, a);
    case BoldPattern => BoldMatchSuffix(s, n, t, i, a);
    case ItalicPattern => ItalicMatchSuffix(s, n, t, i, a);
  }

  lemma {:induction false} LinkMatchSuffix(s: string, n: nat, t: string, i: nat, a: nat)
    requires IsSuffix(s, n, t) && i <= |t| && a == n + i
    ensures MatchAt(LinkPattern, s, a) == ShiftMatches(MatchAt(LinkPattern, t, i), n)
  {
    if i < |t| {
      SuffixAt(s, n, t, i);
      if t[i] == '[' {
        IndexOfSuffix(s, n, t, ']', i + 1, a + 1);
        if IndexOf(t, ']', i + 1).Some? {
          var j := IndexOf(t, ']', i + 1).value;
          LinkTailSuffix(s, n, t, i, a, j, n + j);
        }
      }
    }
    LinkMatchShift(s, n, t, i, a);
  }

  /** The part of a link match after its `]` at `j` (at `b` in `s`). */
  lemma {:induction false} LinkTailSuffix(s: string, n: nat, t: string, i: nat, a: nat, j: nat, b: nat)
    requires IsSuffix(s, n, t) && i < j < |t| && a == n + i && b == n + j
    ensures j + 1 < |t| ==> t[j + 1] == s[b + 1]
    ensures j + 1 < |t| ==> IndexOf(s, ')', b + 2) == ShiftIndex(IndexOf(t, ')', j + 2), n)
    ensures j + 1 < |t| && IndexOf(t, ')', j + 2).Some? ==>
      var k := IndexOf(t, ')', j + 2).value;
      t[i + 1..j] == s[a + 1..b] && t[j + 2..k] == s[b + 2..n + k]
  {
    if j + 1 < |t| {
      SuffixAt(s, n, t, j + 1);
      IndexOfSuffix(s, n, t, ')', j + 2, b + 2);
      if IndexOf(t, ')', j + 2).Some? {
        var k := IndexOf(t, ')', j + 2).value;
        SuffixSlice(s, n, t, i + 1, j, a + 1, b);
        SuffixSlice(s, n, t, j + 2, k, b + 2, n + k);
      }
    }
  }

  /** The link match at `a` of `s` from the facts that make `s` and `t`
      agree there: the `[`, the two scans, and the two groups. */
  lemma {:induction false} LinkMatchShift(s: string, n: nat, t: string, i: nat, a: nat)
    requires a <= |s| && i <= |t| && a == n + i && n + |t| == |s|
    requires i < |t| ==> t[i] == s[a]
    requires i < |t| && t[i] == '[' ==> IndexOf(s, ']', a + 1) == ShiftIndex(IndexOf(t, ']', i + 1), n)
    requires i < |t| && t[i] == '[' && IndexOf(t, ']', i + 1).Some? ==>
      var j := IndexOf(t, ']', i + 1).value;
      && (j + 1 < |t| ==> t[j + 1] == s[n + j + 1])
      && (j + 1 < |t| ==> IndexOf(s, ')', n + j + 2) == ShiftIndex(IndexOf(t, ')', j + 2), n))
      && (j + 1 < |t| && IndexOf(t, ')', j + 2).Some? ==>
            var k := IndexOf(t, ')', j + 2).value;
            t[i + 1..j] == s[a + 1..n + j] && t[j + 2..k] == s[n + j + 2..n + k])
    ensures MatchAt(LinkPattern, s, a) == ShiftMatches(MatchAt(LinkPattern, t, i), n)
  {
  }

  lemma {:induction false} BoldMatchSuffix(s: string, n: nat, t: string, i: nat, a: nat)
    requires IsSuffix(s, n, t) && i <= |t| && a == n + i
    ensures MatchAt(BoldPattern, s, a) == ShiftMatches(MatchAt(BoldPattern, t, i), n)
  {
    StartsAtSuffix(s, n, t, i, a, "**");
    if StartsAt(t, i, "**") {
      CloseSuffix(s, n, t, "**", i + 2, a + 2);
      if Close(t, "**", i + 2).Some? {
        var e := Close(t, "**", i + 2).value;
        SuffixSlice(s, n, t, i + 2, e, a + 2, n + e);
      }
    }
    BoldMatchShift(s, n, t, i, a);
  }

  lemma {:induction false} ItalicMatchSuffix(s: string, n: nat, t: string, i: nat, a: nat)
    requires IsSuffix(s, n, t) && i <= |t| && a == n + i
    ensures MatchAt(ItalicPattern, s, a) == ShiftMatches(MatchAt(ItalicPattern, t, i), n)
  {
    StartsAtSuffix(s, n, t, i, a, "*");
    if StartsAt(t, i, "*") {
      CloseSuffix(s, n, t, "*", i + 1, a + 1);
      if Close(t, "*", i + 1).Some? {
        var e := Close(t, "*", i + 1).value;
        SuffixSlice(s, n, t, i + 1, e, a + 1, n + e);
      }
    }
    ItalicMatchShift(s, n, t, i, a);
  }

  /** The bold match at `a` of `s` from the facts that make `s` and `t`
      agree there: the opening `**`, the close, and the group. */
  lemma {:induction false} BoldMatchShift(s: string, n: nat, t: string, i: nat, a: nat)
    requires a <= |s| && i <= |t| && a == n + i
    requires StartsAt(s, a, "**") == StartsAt(t, i, "**")
    requires StartsAt(t, i, "**") ==> Close(s, "**", a + 2) == ShiftIndex(Close(t, "**", i + 2), n)
    requires StartsAt(t, i, "**") && Close(t, "**", i + 2).Some? ==>
      var e := Close(t, "**", i + 2).value;
      t[i + 2..e] == s[a + 2..n + e]
    ensures MatchAt(BoldPattern, s, a) == ShiftMatches(MatchAt(BoldPattern, t, i), n)
  {
  }

  /** The italic match at `a` of `s`, likewise. */
  lemma {:induction false} ItalicMatchShift(s: string, n: nat, t: string, i: nat, a: nat)
    requires a <= |s| && i <= |t| && a == n + i
    requires StartsAt(s, a, "*") == StartsAt(t, i, "*")
    requires StartsAt(t, i, "*") ==> Close(s, "*", a + 1) == ShiftIndex(Close(t, "*", i + 1), n)
    requires StartsAt(t, i, "*") && Close(t, "*", i + 1).Some? ==>
      var e := Close(t, "*", i + 1).value;
      t[i + 1..e] == s[a + 1..n + e]
    ensures MatchAt(ItalicPattern, s, a) == ShiftMatches(MatchAt(ItalicPattern, t, i), n)
  {
  }

  /** From `q` on (from `a` in `s`), every match of `p` in the suffix `t` of
      `s` at `n` is the match at the same place in `s`, moved by `n`. */
  predicate MatchesShifted(p: Pattern, s: string, n: nat, t: string, q: nat, a: nat)
    decreases |t| - q
  {
    && n + |t| == |s| && q <= |t| && a == n + q
    && (q < |t| ==>
          && MatchAt(p, s, a) == ShiftMatches(MatchAt(p, t, q), n)
          && MatchesShifted(p, s, n, t, q + 1, a + 1))
  }

  lemma {:induction false} SuffixMatchesShifted(p: Pattern, s: string, n: nat, t: string, q: nat, a: nat)
    requires IsSuffix(s, n, t) && q <= |t| && a == n + q
    ensures MatchesShifted(p, s, n, t, q, a)
    decreases |t| - q
  {
    if q < |t| {
      MatchAtSuffix(p, s, n, t, q, a);
      SuffixMatchesShifted(p, s, n, t, q + 1, a + 1);
    }
  }

  /** The leftmost match from `a` in `s` is the leftmost one from `q` in the
      suffix, moved by `n`. */
  lemma {:induction false} FindFromSuffix(p: Pattern, s: string, n: nat, t: string, q: nat, a: nat)
    requires MatchesShifted(p, s, n, t, q, a)
    ensures FindFrom(p, s, a) == ShiftFound(FindFrom(p, t, q), n)
    decreases |t| - q, 1
  {
    if q < |t| {
      if MatchAt(p, t, q).None? {
        FindFromSuffixMiss(p, s, n, t, q, a);
      } else {
        FindFromShiftHit(p, s, n, t, q, a);
      }
    }
  }

  lemma {:induction false} FindFromSuffixMiss(p: Pattern, s: string, n: nat, t: string, q: nat, a: nat)
    requires MatchesShifted(p, s, n, t, q, a) && q < |t| && MatchAt(p, t, q).None?
    ensures FindFrom(p, s, a) == ShiftFound(FindFrom(p, t, q), n)
    decreases |t| - q, 0
  {
    FindFromSuffix(p, s, n, t, q + 1, a + 1);
    FindFromShiftMiss(p, s, n, t, q, a);
  }

  /** One step of the search where neither text matches at the position. */
  lemma {:induction false} FindFromShiftMiss(p: Pattern, s: string, n: nat, t: string, q: nat, a: nat)
    requires n + |t| == |s| && q < |t| && a == n + q
    requires MatchAt(p, t, q).None? && MatchAt(p, s, a) == ShiftMatches(MatchAt(p, t, q), n)
    requires FindFrom(p, s, a + 1) == ShiftFound(FindFrom(p, t, q + 1), n)
    ensures FindFrom(p, s, a) == ShiftFound(FindFrom(p, t, q), n)
  {
  }

  /** One step of the search where both texts match at the position. */
  lemma {:induction false} FindFromShiftHit(p: Pattern, s: string, n: nat, t: string, q: nat, a: nat)
    requires n + |t| == |s| && q < |t| && a == n + q
    requires MatchAt(p, t, q).Some? && MatchAt(p, s, a) == ShiftMatches(MatchAt(p, t, q), n)
    ensures FindFrom(p, s, a) == ShiftFound(FindFrom(p, t, q), n)
  {
  }

  /** Splitting `s` from `a` gives the parts of splitting its suffix `t` at
      `n` from `q`: the split of what follows a match ignores what came
      before. */
  lemma {:induction false} SplitFromSuffix(p: Pattern, s: string, n: nat, t: string, q: nat, a: nat)
    requires IsSuffix(s, n, t) && q <= |t| && a == n + q
    ensures SplitFrom(p, s, a) == SplitFrom(p, t, q)
    decreases |t| - q, 1
  {
    SuffixMatchesShifted(p, s, n, t, q, a);
    FindFromSuffix(p, s, n, t, q, a);
    match FindFrom(p, t, q)
    case None =>
      SuffixSlice(s, n, t, q, |t|, a, |s|);
      SplitFromLast(p, s, a);
      SplitFromLast(p, t, q);
    case Some((i, m)) =>
      SplitFromSuffixAt(p, s, n, t, q, a, i, m);
  }

  lemma {:induction false} SplitFromSuffixAt(p: Pattern, s: string, n: nat, t: string, q: nat, a: nat, i: nat, m: Match)
    requires IsSuffix(s, n, t) && q <= |t| && a == n + q
    requires FindFrom(p, t, q) == Some((i, m)) && FindFrom(p, s, a) == ShiftFound(FindFrom(p, t, q), n)
    ensures SplitFrom(p, s, a) == SplitFrom(p, t, q)
    decreases |t| - q, 0
  {
    var b, e := n + i, n + m.end;
    ShiftFoundSome(FindFrom(p, t, q), n, i, m, b, e);
    SuffixSlice(s, n, t, q, i, a, b);
    SplitFromSuffix(p, s, n, t, m.end, e);
    SplitShiftNext(p, s, n, t, q, i, m, a, b, e);
  }

  /** One step of the split where both texts have the same next match. */
  lemma {:induction false} SplitShiftNext(p: Pattern, s: string, n: nat, t: string, q: nat, i: nat, m: Match, a: nat, b: nat, e: nat)
    requires n + |t| == |s| && q <= |t| && a == n + q && b == n + i && e == n + m.end
    requires FindFrom(p, t, q) == Some((i, m))
    requires FindFrom(p, s, a) == Some((b, Match(m.groups, e)))
    requires b <= |s| && t[q..i] == s[a..b]
    requires SplitFrom(p, s, e) == SplitFrom(p, t, m.end)
    ensures SplitFrom(p, s, a) == SplitFrom(p, t, q)
  {
    SplitFromNext(p, s, a, b, Match(m.groups, e));
    SplitFromNext(p, t, q, i, m);
    SameParts(SplitFrom(p, s, a), SplitFrom(p, t, q), s[a..b], t[q..i], m.groups,
              SplitFrom(p, s, e), SplitFrom(p, t, m.end));
  }

  lemma {:induction false} SameParts(a: seq<string>, b: seq<string>, x: string, y: string, g: seq<string>, c: seq<string>, d: seq<string>)
    requires a == [x] + g + c && b == [y] + g + d && x == y && c == d
    ensures a == b
  {
  }

  lemma {:induction false} ShiftFoundSome(r: Option<(nat, Match)>, n: nat, i: nat, m: Match, b: nat, e: nat)
    requires r == Some((i, m)) && b == n + i && e == n + m.end
    ensures ShiftFound(r, n) == Some((b, Match(m.groups, e)))
  {
  }

  /** The split from `q` when no match is left: the rest of the text. */
  lemma {:induction false} SplitFromLast(p: Pattern, s: string, q: nat)
    requires q <= |s| && FindFrom(p, s, q).None?
    ensures SplitFrom(p, s, q) == [s[q..]] == [s[q..|s|]]
  {
    assert s[q..] == s[q..|s|];
  }

  /** The split from `q` at its next match. */
  lemma {:induction false} SplitFromNext(p: Pattern, s: string, q: nat, i: nat, m: Match)
    requires q <= |s| && FindFrom(p, s, q) == Some((i, m))
    ensures q <= i < m.end <= |s|
    ensures SplitFrom(p, s, q) == [s[q..i]] + m.groups + SplitFrom(p, s, m.end)
  {
  }

  /** A split is the text before the first match, that match's groups, and
      the split of the text after it. */
  lemma {:induction false} SplitAfterMatch(p: Pattern, s: string, i: nat, m: Match)
    requires FindFrom(p, s, 0) == Some((i, m))
    ensures Split(p, s) == [s[..i]] + m.groups + Split(p, s[m.end..])
  {
    DropIsSuffix(s, m.end);
    SplitFromSuffix(p, s, m.end, s[m.end..], 0, m.end);
    assert s[0..i] == s[..i];
  }

  /** A split with a single part is the text itself. */
  lemma {:induction false} SplitOnePart(p: Pattern, s: string)
    requires |Split(p, s)| == 1
    ensures Split(p, s) == [s]
  {
  }
  // ---------------------------------------------------------------
  // How the passes compose
  // ---------------------------------------------------------------

  /** The first and last pieces of a five-piece concatenation are its
      prefix and suffix. */
  lemma {:induction false} Framed<T>(a: seq<T>, p: seq<T>, t: seq<T>, q: seq<T>, b: seq<T>, s: seq<T>)
    requires s == a + p + t + q + b
    ensures s[..|a|] == a && s[|a| + |p| + |t| + |q|..] == b
  {
  }

  /** A split whose first match, at the end of `a`, has groups `g` and ends
      where `b` begins: `a`, the groups, then the split of `b`. */
  lemma {:induction false} SplitAround(p: Pattern, s: string, a: string, g: seq<string>, b: string, e: nat)
    requires e <= |s| && FindFrom(p, s, 0) == Some((|a|, Match(g, e)))
    requires s[..|a|] == a && s[e..] == b
    ensures Split(p, s) == [a] + g + Split(p, b)
  {
    SplitAfterMatch(p, s, |a|, Match(g, e));
  }

  /** Replacing the tail of a concatenation by an equal one, and regrouping. */
  lemma {:induction false} Regroup<T>(w: seq<T>, h: seq<T>, m: seq<T>, u: seq<T>, v: seq<T>)
    requires w == h + (m + u) && u == v
    ensures w == h + m + v
  {
  }

  /** The first bold match of `a + "**" + t + "**" + b`, when `a` holds no
      `*` and `t` is strong text that closes at its own `**`, is the pair
      around `t`. */
  lemma {:induction false} StrongFirst(a: string, t: string, b: string, s: string)
    requires NoStarPair(a) && (a != [] ==> a[|a| - 1] != '*')
    requires NoLineTerminator(t) && NoStarPair(t)
    requires t != [] ==> t[|t| - 1] != '*'
    requires s == a + "**" + t + "**" + b
    ensures FindFrom(BoldPattern, s, 0) == Some((|a|, Match([t], |a| + |t| + 4)))
  {
    var i, j := |a|, |a| + |t| + 2;
    Framed(a, "**", t, "**", b, s);
    NoPairNoBold(a, s);
    assert s[i] == '*' && s[i + 1] == '*' && s[j] == '*' && s[j + 1] == '*';
    assert s[i + 2..j] == t;
    StrongPairAt(s, i, t);
    FindFromAt(BoldPattern, s, 0, i, Match([t], j + 2));
  }

  /** No bold match starts inside a prefix that has no `**` and does not
      end in `*`, whatever follows it. */
  lemma {:induction false} NoPairNoBold(a: string, s: string)
    requires NoStarPair(a) && (a != [] ==> a[|a| - 1] != '*')
    requires |a| <= |s| && s[..|a|] == a
    ensures forall m :: 0 <= m < |a| ==> MatchAt(BoldPattern, s, m).None?
  {
    forall m | 0 <= m < |a| ensures MatchAt(BoldPattern, s, m).None? {
      assert s[m] == a[m];
      if m + 1 < |a| {
        assert s[m + 1] == a[m + 1];
        StarPairAt(a, m);
      }
      if m + 1 < |s| {
        StarPairAt(s, m);
      }
    }
  }

  /** `**t**` at `i` of `s`, with `t` strong text, is matched there. */
  lemma {:induction false} StrongPairAt(s: string, i: nat, t: string)
    requires NoLineTerminator(t) && NoStarPair(t) && (t != [] ==> t[|t| - 1] != '*')
    requires i + |t| + 4 <= |s| && s[i + 2..i + 2 + |t|] == t
    requires s[i] == '*' && s[i + 1] == '*' && s[i + |t| + 2] == '*' && s[i + |t| + 3] == '*'
    ensures MatchAt(BoldPattern, s, i) == Some(Match([t], i + |t| + 4))
  {
    var j := i + |t| + 2;
    assert StartsAt(s, i, "**") by { assert s[i..i + 2] == [s[i], s[i + 1]]; }
    assert StartsAt(s, j, "**") by { assert s[j..j + 2] == [s[j], s[j + 1]]; }
    StrongTextInside(s, i, t);
    StrongMatchComplete(s, i, j);
  }

  /** Inside `**t**` at `i`, neither a line terminator nor `**` starts. */
  lemma {:induction false} StrongTextInside(s: string, i: nat, t: string)
    requires NoLineTerminator(t) && NoStarPair(t) && (t != [] ==> t[|t| - 1] != '*')
    requires i + |t| + 4 <= |s| && s[i + 2..i + 2 + |t|] == t && s[i + |t| + 2] == '*'
    ensures forall m :: i + 2 <= m < i + |t| + 2 ==> !IsLineTerminator(s[m]) && !StartsAt(s, m, "**")
  {
    forall m | i + 2 <= m < i + |t| + 2 ensures !IsLineTerminator(s[m]) && !StartsAt(s, m, "**") {
      var k := m - i - 2;
      assert s[m] == t[k];
      StarPairAt(s, m);
      if k + 1 < |t| {
        assert s[m + 1] == t[k + 1];
        StarPairAt(t, k);
      }
    }
  }

  /** The bold nodes of `[x, y] + rest` from `k + 2` are those of `rest`
      from `k`: a match's two parts shift the rest by a whole period. */
  lemma {:induction false} BoldNodesAfter(x: string, y: string, rest: seq<string>, k: nat)
    requires k <= |rest|
    ensures BoldNodes([x, y] + rest, k + 2) == BoldNodes(rest, k)
    decreases |rest| - k
  {
    if k < |rest| {
      assert ([x, y] + rest)[k + 2] == rest[k];
      BoldNodesAfter(x, y, rest, k + 1);
    }
  }

  /** The bold pass of `b` is the map over its own bold split, also when
      that split is `b` alone. */
  lemma {:induction false} BoldNodesWhole(b: string)
    ensures BoldNodes(Split(BoldPattern, b), 0) == FormatBoldItalic(b)
  {
    if |Split(BoldPattern, b)| <= 1 {
      SplitParts(BoldPattern, b);
      SplitOnePart(BoldPattern, b);
      assert BoldNodes([b], 1) == [];
    }
  }

  /** The bold split of `a + "**" + t + "**" + b` is `a`, `t`, then the
      bold split of `b`. */
  lemma {:induction false} StrongSplitAround(a: string, t: string, b: string, s: string)
    requires NoStarPair(a) && (a != [] ==> a[|a| - 1] != '*')
    requires NoLineTerminator(t) && NoStarPair(t)
    requires t != [] ==> t[|t| - 1] != '*'
    requires s == a + "**" + t + "**" + b
    ensures Split(BoldPattern, s) == [a, t] + Split(BoldPattern, b)
  {
    assert [a] + [t] == [a, t];
    Framed(a, "**", t, "**", b, s);
    StrongFirst(a, t, b, s);
    SplitAround(BoldPattern, s, a, [t], b, |a| + |t| + 4);
  }

  /** The first bold period of `[a, t] + rest`: the italic pass of `a`, the
      strong span, then the nodes from the next period on. */
  lemma {:induction false} BoldNodesHead(a: string, t: string, rest: seq<string>)
    ensures BoldNodes([a, t] + rest, 0) == FormatItalic(a) + ([Strong(t)] + BoldNodes([a, t] + rest, 2))
  {
    var parts := [a, t] + rest;
    assert parts[0] == a && parts[1] == t;
    assert BoldNodes(parts, 1) == [Strong(t)] + BoldNodes(parts, 2);
  }

  /** The bold nodes of `[a, t] + rest`: the italic pass of `a`, the strong
      span `t`, then the nodes of `rest`. */
  lemma {:induction false} BoldNodesPair(a: string, t: string, rest: seq<string>)
    ensures BoldNodes([a, t] + rest, 0) == FormatItalic(a) + [Strong(t)] + BoldNodes(rest, 0)
  {
    BoldNodesHead(a, t, rest);
    BoldNodesAfter(a, t, rest, 0);
    Regroup(BoldNodes([a, t] + rest, 0), FormatItalic(a), [Strong(t)],
      BoldNodes([a, t] + rest, 2), BoldNodes(rest, 0));
  }

  /** A strong span between text with no `**` and any text: the text before
      it goes to the italic pass alone, and the text after it to the bold pass, as
      if it stood on its own. */
  lemma {:induction false} StrongBetween(a: string, t: string, b: string)
    requires NoStarPair(a) && (a != [] ==> a[|a| - 1] != '*')
    requires NoLineTerminator(t) && NoStarPair(t)
    requires t != [] ==> t[|t| - 1] != '*'
    ensures FormatBoldItalic(a + "**" + t + "**" + b) == FormatItalic(a) + [Strong(t)] + FormatBoldItalic(b)
  {
    StrongSplitAround(a, t, b, a + "**" + t + "**" + b);
    BoldNodesPair(a, t, Split(BoldPattern, b));
    BoldNodesWhole(b);
  }

  /** The first link match of `a + "[" + x + "](" + y + ")" + b`, when `a`
      holds no `[` and the label and url are well formed, is that link. */
  lemma {:induction false} LinkFirst(a: string, x: string, y: string, b: string, s: string)
    requires '[' !in a && x != [] && ']' !in x && y != [] && ')' !in y
    requires s == a + "[" + x + "](" + y + ")" + b
    ensures FindFrom(LinkPattern, s, 0) == Some((|a|, Match([x, y], |a| + |x| + |y| + 4)))
  {
    var i := |a|;
    var j := i + 1 + |x|;
    var k := j + 2 + |y|;
    assert s[i] == '[' && s[j] == ']' && s[j + 1] == '(' && s[k] == ')';
    assert s[i + 1..j] == x && s[j + 2..k] == y;
    LinkMatchComplete(s, i, j, k);
    forall m | 0 <= m < i ensures MatchAt(LinkPattern, s, m).None? {
      assert s[m] == a[m];
    }
    FindFromAt(LinkPattern, s, 0, i, Match([x, y], k + 1));
  }

  /** Where a link period that starts at `k` sits among `n` link parts. */
  lemma {:induction false} PeriodPhases(k: nat, n: nat)
    requires k % 3 == 0 && n % 3 == 1 && k < n
    ensures (k + 1) % 3 == 1 && (k + 2) % 3 == 2
    ensures (k + 3) % 3 == 0 && (k + 4) % 3 == 1 && (k + 5) % 3 == 2
    ensures k + 1 == n || k + 4 <= n
  {
  }

  /** The link nodes of `[x, y, z] + rest` from `k + 3` are those of `rest`
      from `k`, one period at a time. */
  lemma {:induction false} LinkNodesAfter(x: string, y: string, z: string, rest: seq<string>, k: nat)
    requires k < |rest| && |rest| % 3 == 1 && k % 3 == 0
    ensures LinkNodes([x, y, z] + rest, k + 3) == LinkNodes(rest, k)
    decreases |rest| - k
  {
    var parts := [x, y, z] + rest;
    PeriodPhases(k, |rest|);
    assert parts[k + 3] == rest[k];
    if k + 1 == |rest| {
      assert LinkNodes(parts, k + 4) == [];
      assert LinkNodes(rest, k + 1) == [];
    } else {
      LinkPeriodNodes(parts, k + 3);
      LinkPeriodNodes(rest, k);
      assert parts[k + 4] == rest[k + 1] && parts[k + 5] == rest[k + 2];
      LinkNodesAfter(x, y, z, rest, k + 3);
    }
  }

  /** The link pass of `b` is the map over its own link split, also when
      that split is `b` alone. */
  lemma {:induction false} LinkNodesWhole(b: string)
    ensures |Split(LinkPattern, b)| % 3 == 1 && LinkNodes(Split(LinkPattern, b), 0) == FormatInline(b)
  {
    SplitParts(LinkPattern, b);
    if |Split(LinkPattern, b)| <= 1 {
      SplitOnePart(LinkPattern, b);
      assert LinkNodes([b], 1) == [];
    }
  }

  /** The link split of `a + "[" + x + "](" + y + ")" + b` is `a`, `x`, `y`,
      then the link split of `b`. */
  lemma {:induction false} LinkSplitAround(a: string, x: string, y: string, b: string, s: string)
    requires '[' !in a && x != [] && ']' !in x && y != [] && ')' !in y
    requires s == a + "[" + x + "](" + y + ")" + b
    ensures Split(LinkPattern, s) == [a, x, y] + Split(LinkPattern, b)
  {
    assert [a] + [x, y] == [a, x, y];
    Framed(a, "[" + x, "](", y + ")", b, s);
    LinkFirst(a, x, y, b, s);
    SplitAround(LinkPattern, s, a, [x, y], b, |a| + |x| + |y| + 4);
  }

  /** The first link period of `[a, x, y] + rest`: the bold pass of `a`,
      then the link, then the nodes from the next period on. */
  lemma {:induction false} LinkNodesHead(a: string, x: string, y: string, rest: seq<string>)
    requires |rest| % 3 == 1
    ensures |[a, x, y] + rest| % 3 == 1
    ensures LinkNodes([a, x, y] + rest, 0) == FormatBoldItalic(a) + ([Link(x, y)] + LinkNodes([a, x, y] + rest, 3))
  {
    var parts := [a, x, y] + rest;
    assert |parts| == |rest| + 3;
    assert parts[0] == a && parts[1] == x && parts[2] == y;
    assert LinkNodes(parts, 2) == LinkNodes(parts, 3);
    assert LinkNodes(parts, 1) == [Link(x, y)] + LinkNodes(parts, 3);
  }

  /** The link nodes of `[a, x, y] + rest`: the bold pass of `a`, the link
      `x` to `y`, then the nodes of `rest`. */
  lemma {:induction false} LinkNodesTriple(a: string, x: string, y: string, rest: seq<string>)
    requires |rest| % 3 == 1
    ensures LinkNodes([a, x, y] + rest, 0) == FormatBoldItalic(a) + [Link(x, y)] + LinkNodes(rest, 0)
  {
    LinkNodesHead(a, x, y, rest);
    LinkNodesAfter(a, x, y, rest, 0);
    Regroup(LinkNodes([a, x, y] + rest, 0), FormatBoldItalic(a), [Link(x, y)],
      LinkNodes([a, x, y] + rest, 3), LinkNodes(rest, 0));
  }

  /** A link between text without `[` and any text: the text before it goes
      to the bold pass alone, and the text after it to the link pass, as if
      it stood on its own. */
  lemma {:induction false} LinkBetween(a: string, x: string, y: string, b: string)
    requires '[' !in a && x != [] && ']' !in x && y != [] && ')' !in y
    ensures FormatInline(a + "[" + x + "](" + y + ")" + b) == FormatBoldItalic(a) + [Link(x, y)] + FormatInline(b)
  {
    LinkSplitAround(a, x, y, b, a + "[" + x + "](" + y + ")" + b);
    LinkNodesWhole(b);
    LinkNodesTriple(a, x, y, Split(LinkPattern, b));
  }
}
