/** The string primitives of JavaScript that the chat page relies on:
    the white-space class of `\s` and `trim`, the line terminators that `.`
    excludes, `startsWith`, and `split` on a single character. */
module Text {

  /** JavaScript's WhiteSpace and LineTerminator characters: the set that
      `\s` matches and that `String.prototype.trim` removes. Below U+00A0
      these are the space and the controls TAB, LF, VT, FF and CR. */
  predicate IsSpace(c: char)
  {
    if c <= ' ' then c == ' ' || '\t' <= c <= '\r' else '\U{00A0}' <= c && IsWideSpace(c)
  }

  /** The white-space characters from U+00A0 up: NO-BREAK SPACE, the
      Unicode space separators, LINE and PARAGRAPH SEPARATOR, and the byte
      order mark. */
  predicate IsWideSpace(c: char)
  {
    c in WideSpaces
  }

  /** NO-BREAK SPACE, OGHAM SPACE MARK, EN QUAD to HAIR SPACE, LINE and
      PARAGRAPH SEPARATOR, NARROW NO-BREAK SPACE, MEDIUM MATHEMATICAL SPACE,
      IDEOGRAPHIC SPACE and ZERO WIDTH NO-BREAK SPACE. */
  const WideSpaces: set<char> :=
    {'\U{00A0}', '\U{1680}', '\U{2000}', '\U{2001}', '\U{2002}', '\U{2003}', '\U{2004}', '\U{2005}',
     '\U{2006}', '\U{2007}', '\U{2008}', '\U{2009}', '\U{200A}', '\U{2028}', '\U{2029}', '\U{202F}',
     '\U{205F}', '\U{3000}', '\U{FEFF}'}

  /** The characters a regular-expression `.` does not match (no `s` flag). */
  predicate IsLineTerminator(c: char)
  {
    c == '\n' || c == '\r' || c == '\U{2028}' || c == '\U{2029}'
  }

  /** `\d`: an ASCII decimal digit. */
  predicate IsDigit(c: char)
  {
    '0' <= c <= '9'
  }

  predicate NoLineTerminator(s: string)
  {
    forall k :: 0 <= k < |s| ==> !IsLineTerminator(s[k])
  }

  predicate AllSpace(s: string)
  {
    forall k :: 0 <= k < |s| ==> IsSpace(s[k])
  }

  /** `t` occurs in `s` at position `i`. */
  predicate StartsAt(s: string, i: nat, t: string)
  {
    i + |t| <= |s| && s[i..i + |t|] == t
  }

  /** `s.startsWith(prefix)`: `prefix` occurs at the start of `s`. */
  predicate StartsWith(s: string, prefix: string)
  {
    StartsAt(s, 0, prefix)
  }

  /** A string that differs from `prefix` at some index within both does
      not start with it. */
  lemma NotStartsWith(s: string, prefix: string, k: nat)
    requires k < |s| && k < |prefix| && s[k] != prefix[k]
    ensures !StartsWith(s, prefix)
  {
    if |prefix| <= |s| {
      assert s[..|prefix|][k] == s[k];
    }
  }

  /** `s.trimEnd()`: the prefix left after dropping trailing white space. */
  function TrimEnd(s: string): (r: string)
    ensures |r| <= |s| && r == s[..|r|]
    ensures AllSpace(s[|r|..])
    ensures r != [] ==> !IsSpace(r[|r| - 1])
  {
    if s != [] && IsSpace(s[|s| - 1]) then
      var r := TrimEnd(s[..|s| - 1]);
      assert AllSpace(s[|r|..]) by {
        forall k | 0 <= k < |s| - |r| ensures IsSpace(s[|r|..][k]) {
          if |r| + k < |s| - 1 {
            assert s[|r|..][k] == s[..|s| - 1][|r|..][k];
          }
        }
      }
      r
    else s
  }

  /** Neither the first nor the last character is white space. */
  predicate Trimmed(s: string)
  {
    s == [] || (!IsSpace(s[0]) && !IsSpace(s[|s| - 1]))
  }

  /** `s` is `r` with `k` characters of white space before it and only white
      space after it. */
  predicate SpaceAround(s: string, k: nat, r: string)
  {
    k + |r| <= |s| && r == s[k..k + |r|] && AllSpace(s[..k]) && AllSpace(s[k + |r|..])
  }

  /** `s.trim()`: leading white space is skipped one character at a time,
      then trailing white space is dropped. The result neither starts nor
      ends with white space, and it is empty exactly when `s` is all white
      space; `TrimIsSlice` shows it is what remains of `s` once the white
      space around it is removed. */
  function Trim(s: string): (r: string)
    ensures Trimmed(r)
    ensures r == [] <==> AllSpace(s)
    ensures |r| <= |s|
  {
    if s != [] && IsSpace(s[0]) then
      assert AllSpace(s) <==> AllSpace(s[1..]) by {
        assert forall k :: 0 <= k < |s| - 1 ==> s[1..][k] == s[k + 1];
      }
      Trim(s[1..])
    else
      TrimEndAround(s);
      TrimEnd(s)
  }

  /** What `trim` removes is white space and nothing else: the result is a
      slice of `s` with only white space before and after it. */
  lemma {:induction false} TrimIsSlice(s: string)
    ensures exists k: nat :: SpaceAround(s, k, Trim(s))
    decreases |s|
  {
    if s != [] && IsSpace(s[0]) {
      TrimIsSlice(s[1..]);
      TrimStartStep(s, Trim(s[1..]));
      assert Trim(s) == Trim(s[1..]);
    } else {
      TrimEndAround(s);
      assert SpaceAround(s, 0, Trim(s));
    }
  }

  /** Skipping one leading white-space character keeps the trim of the rest
      a slice with only white space around it. */
  lemma TrimStartStep(s: string, r: string)
    requires s != [] && IsSpace(s[0])
    requires exists k: nat :: SpaceAround(s[1..], k, r)
    ensures exists k: nat :: SpaceAround(s, k, r)
  {
    var k: nat :| SpaceAround(s[1..], k, r);
    LeadingSpaceShift(s, k, |r|);
    assert SpaceAround(s, k + 1, r);
  }

  /** When `s` does not start with white space, its trim is `TrimEnd(s)`:
      empty only for empty `s`, starting where `s` starts. */
  lemma TrimEndAround(s: string)
    requires s == [] || !IsSpace(s[0])
    ensures var r := TrimEnd(s);
      && (r == [] <==> AllSpace(s))
      && (r != [] ==> r[0] == s[0])
      && SpaceAround(s, 0, r)
  {
    var r := TrimEnd(s);
    if r == [] {
      assert s[|r|..] == s;
    }
    assert r == s[0..0 + |r|] && s[0 + |r|..] == s[|r|..];
  }

  /** Moving one leading white-space character into the skipped prefix. */
  lemma LeadingSpaceShift(s: string, k: nat, n: nat)
    requires s != [] && IsSpace(s[0]) && k + n <= |s| - 1
    requires AllSpace(s[1..][..k]) && AllSpace(s[1..][k + n..])
    ensures s[1..][k..k + n] == s[k + 1..k + 1 + n]
    ensures AllSpace(s[..k + 1]) && AllSpace(s[k + 1 + n..])
  {
    assert s[1..][k + n..] == s[k + 1 + n..];
    forall j | 0 <= j < k + 1 ensures IsSpace(s[j]) {
      if j > 0 { assert s[j] == s[1..][..k][j - 1]; }
    }
  }

  /** A string that neither starts nor ends with white space is its own trim. */
  lemma {:induction false} TrimOfTrimmed(s: string)
    requires Trimmed(s)
    ensures Trim(s) == s
  {
    if s != [] {
      assert TrimEnd(s) == s;
    }
  }

  /** Trimming twice is trimming once. */
  lemma TrimIdempotent(s: string)
    ensures Trim(Trim(s)) == Trim(s)
  {
    TrimOfTrimmed(Trim(s));
  }

  /** Number of occurrences of `c` in `s`. */
  function Occurrences(s: string, c: char): nat
  {
    if s == [] then 0 else (if s[0] == c then 1 else 0) + Occurrences(s[1..], c)
  }

  /** `parts.join(sep)`. */
  function JoinWith(parts: seq<string>, sep: char): string
  {
    if parts == [] then []
    else if |parts| == 1 then parts[0]
    else parts[0] + [sep] + JoinWith(parts[1..], sep)
  }

  /** `s.split(sep)` for a one-character separator: one part more than there
      are separators, no part contains the separator, and joining the parts
      back with the separator gives `s` again. */
  function SplitOn(s: string, sep: char): (r: seq<string>)
    ensures |r| == Occurrences(s, sep) + 1
    ensures forall i :: 0 <= i < |r| ==> sep !in r[i]
    ensures JoinWith(r, sep) == s
  {
    if s == [] then [[]]
    else
      var rest := SplitOn(s[1..], sep);
      if s[0] == sep then
        assert [s[0]] + s[1..] == s;
        [[]] + rest
      else
        var r := [[s[0]] + rest[0]] + rest[1..];
        assert r[1..] == rest[1..];
        assert JoinWith(r, sep) == [s[0]] + JoinWith(rest, sep) by {
          if |rest| > 1 {
            assert JoinWith(rest, sep) == rest[0] + [sep] + JoinWith(rest[1..], sep);
          }
        }
        assert [s[0]] + s[1..] == s;
        r
  }

  /** Splitting a string that has a first separator: the part before it, then
      the split of what follows it. */
  lemma {:induction false} SplitOnFirst(a: string, sep: char, rest: string)
    requires sep !in a
    ensures SplitOn(a + [sep] + rest, sep) == [a] + SplitOn(rest, sep)
    decreases |a|
  {
    var s := a + [sep] + rest;
    if a == [] {
      assert s[1..] == rest;
    } else {
      assert s[1..] == a[1..] + [sep] + rest;
      SplitOnFirst(a[1..], sep, rest);
      assert [a[0]] + a[1..] == a;
    }
  }

  /** A string without the separator splits into itself alone. */
  lemma {:induction false} SplitOnNone(a: string, sep: char)
    requires sep !in a
    ensures SplitOn(a, sep) == [a]
    decreases |a|
  {
    if a != [] {
      SplitOnNone(a[1..], sep);
      assert [a[0]] + a[1..] == a;
    }
  }
}
