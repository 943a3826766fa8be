/**
 * String primitives of the two host languages, as the backend (Python) and
 * the editor extension (TypeScript) use them: searching, splitting on one
 * separator character, stripping, replacing and decimal formatting.
 */
module Text {

  /** `sub` occurs in `s` starting at index `j`. */
  predicate OccursAt(s: string, sub: string, j: nat) {
    j + |sub| <= |s| && s[j..j + |sub|] == sub
  }

  /** Python's `s.startswith(prefix)`, JavaScript's `s.startsWith(prefix)`. */
  predicate StartsWith(s: string, prefix: string) {
    |prefix| <= |s| && s[..|prefix|] == prefix
  }

  /** Python's `s.endswith(suffix)`, JavaScript's `s.endsWith(suffix)`. */
  predicate EndsWith(s: string, suffix: string) {
    |suffix| <= |s| && s[|s| - |suffix|..] == suffix
  }

  /** Appending keeps every prefix. */
  lemma StartsWithAppend(s: string, t: string, prefix: string)
    requires StartsWith(s, prefix)
    ensures StartsWith(s + t, prefix)
  {
    assert (s + t)[..|prefix|] == s[..|prefix|];
  }

  /** Prepending keeps every suffix. */
  lemma EndsWithPrepend(s: string, t: string, suffix: string)
    requires EndsWith(s, suffix)
    ensures EndsWith(t + s, suffix)
  {
    assert (t + s)[|t + s| - |suffix|..] == s[|s| - |suffix|..];
  }

  /** A concatenation ends with its second part. */
  lemma EndsWithAppend(s: string, t: string)
    ensures EndsWith(s + t, t)
  {
    assert (s + t)[|s|..] == t;
  }

  /**
   * Python's `s.find(sub, start)`: the first index at or after `start` where
   * `sub` occurs, or -1 when there is none.
   */
  function Find(s: string, sub: string, start: nat): (i: int)
    ensures i == -1 || (start <= i && OccursAt(s, sub, i))
    ensures forall j: nat | start <= j && (i == -1 || j < i) :: !OccursAt(s, sub, j)
    decreases |s| - start
  {
    if |s| < start + |sub| then -1
    else if s[start..start + |sub|] == sub then start
    else Find(s, sub, start + 1)
  }

  /** Python's `sub in s`, JavaScript's `s.includes(sub)`. */
  function Contains(s: string, sub: string): (b: bool)
    ensures b <==> exists j: nat :: OccursAt(s, sub, j)
  {
    Find(s, sub, 0) >= 0
  }

  /** A pattern with a character that `s` lacks does not occur in `s`. */
  lemma AbsentCharNotContained(s: string, sub: string, k: nat)
    requires k < |sub| && sub[k] !in s
    ensures !Contains(s, sub)
  {
    forall j: nat
      ensures !OccursAt(s, sub, j)
    {
      if j + |sub| <= |s| {
        assert s[j..j + |sub|][k] == s[j + k];
      }
    }
  }

  /** A one-character pattern occurs exactly where that character stands. */
  lemma OccursAtChar(s: string, c: char, j: nat)
    ensures OccursAt(s, [c], j) <==> j < |s| && s[j] == c
  {
    if j < |s| {
      assert s[j..j + 1] == [s[j]];
    }
  }

  /** Searching for one character: nothing before the hit (or nothing at all) is that character. */
  lemma FindChar(s: string, c: char, start: nat)
    ensures var i := Find(s, [c], start);
      (i == -1 || (start <= i < |s| && s[i] == c)) &&
      forall j | start <= j < |s| && (i == -1 || j < i) :: s[j] != c
  {
    var i := Find(s, [c], start);
    if i != -1 {
      OccursAtChar(s, c, i);
    }
    forall j | start <= j < |s| && (i == -1 || j < i)
      ensures s[j] != c
    {
      OccursAtChar(s, c, j);
    }
  }

  predicate IsSlash(c: char) {
    c == '/'
  }

  /** `s` without its longest suffix of characters satisfying `p` (Python's `rstrip(chars)`, JavaScript's `trimEnd`). */
  function TrimEnd(s: string, p: char -> bool): (r: string)
    ensures StartsWith(s, r)
    ensures r == [] || !p(r[|r| - 1])
    ensures forall i | |r| <= i < |s| :: p(s[i])
  {
    if |s| > 0 && p(s[|s| - 1]) then
      var r := TrimEnd(s[..|s| - 1], p);
      assert s[..|r|] == s[..|s| - 1][..|r|];
      assert forall i | |r| <= i < |s| - 1 :: s[i] == s[..|s| - 1][i];
      r
    else s
  }

  /** `s` without its longest prefix of characters satisfying `p` (Python's `lstrip(chars)`, JavaScript's `trimStart`). */
  function TrimStart(s: string, p: char -> bool): (r: string)
    ensures EndsWith(s, r)
    ensures r == [] || !p(r[0])
    ensures forall i | 0 <= i < |s| - |r| :: p(s[i])
  {
    if |s| > 0 && p(s[0]) then
      var r := TrimStart(s[1..], p);
      assert s[|s| - |r|..] == s[1..][|s| - 1 - |r|..];
      assert forall i | 1 <= i < |s| - |r| :: s[i] == s[1..][i - 1];
      r
    else s
  }

  /**
   * Both ends stripped (Python's `strip(chars)`, JavaScript's `trim`): the
   * result neither starts nor ends with a `p` character.
   */
  function Trim(s: string, p: char -> bool): (r: string)
    ensures |r| <= |s|
    ensures r == [] || (!p(r[0]) && !p(r[|r| - 1]))
  {
    TrimEnd(TrimStart(s, p), p)
  }

  /**
   * The stripped string is the piece of `s` that starts after the cut
   * prefix, and everything cut away on either side satisfies `p`.
   */
  lemma TrimIsPiece(s: string, p: char -> bool)
    ensures var a, r := |s| - |TrimStart(s, p)|, Trim(s, p);
      && a + |r| <= |s|
      && r == s[a..a + |r|]
      && (forall i | 0 <= i < a :: p(s[i]))
      && (forall i | a + |r| <= i < |s| :: p(s[i]))
  {
    var left := TrimStart(s, p);
    var a, r := |s| - |left|, Trim(s, p);
    assert left == s[a..];
    assert r == left[..|r|];
    forall i | a + |r| <= i < |s|
      ensures p(s[i])
    {
      assert s[i] == left[i - a];
    }
  }

  /** Stripping keeps a piece of the string, so a character absent before is absent after. */
  lemma TrimKeepsAbsent(s: string, p: char -> bool, c: char)
    requires c !in s
    ensures c !in Trim(s, p)
  {
    var r := Trim(s, p);
    var a := |s| - |TrimStart(s, p)|;
    TrimIsPiece(s, p);
    assert r == s[a..a + |r|];
  }

  /** When no character of `s` satisfies `p`, trimming changes nothing. */
  lemma TrimNothing(s: string, p: char -> bool)
    requires forall i | 0 <= i < |s| :: !p(s[i])
    ensures Trim(s, p) == s
  {
    assert TrimStart(s, p) == s;
    assert TrimEnd(s, p) == s;
  }

  /** The parts joined with `sep` between neighbours (`sep.join(parts)` in Python). */
  function Join(parts: seq<string>, sep: char): string {
    if |parts| == 0 then ""
    else if |parts| == 1 then parts[0]
    else parts[0] + [sep] + Join(parts[1..], sep)
  }

  /**
   * Python's `s.split(sep)` and JavaScript's `s.split(sep)` for a one-character
   * separator: the pieces between separators, empty pieces included, so that
   * joining them again gives back `s`.
   */
  function Split(s: string, sep: char): (parts: seq<string>)
    ensures |parts| >= 1
    ensures forall i | 0 <= i < |parts| :: sep !in parts[i]
    ensures Join(parts, sep) == s
    ensures |parts| == 1 <==> sep !in s
  {
    if s == [] then [[]]
    else
      var rest := Split(s[1..], sep);
      assert s == [s[0]] + s[1..];
      assert sep in s <==> s[0] == sep || sep in s[1..];
      if s[0] == sep then
        var parts := [[]] + rest;
        assert parts[1..] == rest;
        assert forall i | 1 <= i < |parts| :: parts[i] == rest[i - 1];
        parts
      else
        var parts := [[s[0]] + rest[0]] + rest[1..];
        JoinPrepend(rest, s[0], sep);
        assert forall i | 1 <= i < |parts| :: parts[i] == rest[i];
        parts
  }

  /** Prepending a character to the first part prepends it to the joined string. */
  lemma JoinPrepend(parts: seq<string>, c: char, sep: char)
    requires |parts| >= 1
    ensures Join([[c] + parts[0]] + parts[1..], sep) == [c] + Join(parts, sep)
  {
    var q := [[c] + parts[0]] + parts[1..];
    assert q[1..] == parts[1..];
  }

  /** Without the separator there is one piece, the string itself. */
  lemma SplitWithoutSep(s: string, sep: char)
    requires sep !in s
    ensures Split(s, sep) == [s]
  {
  }

  /** One step of splitting: the first character either ends the first piece or joins it. */
  lemma SplitCons(c: char, t: string, sep: char)
    ensures var rest := Split(t, sep);
      Split([c] + t, sep) == if c == sep then [[]] + rest else [[c] + rest[0]] + rest[1..]
  {
    assert ([c] + t)[1..] == t;
  }

  /** A last separator splits off exactly the piece after it. */
  lemma {:induction false} SplitAppend(a: string, b: string, sep: char)
    requires sep !in b
    ensures Split(a + [sep] + b, sep) == Split(a, sep) + [b]
  {
    if a == [] {
      SplitCons(sep, b, sep);
      assert [] + [sep] + b == [sep] + b;
      SplitWithoutSep(b, sep);
    } else {
      var c, tail := a[0], a[1..] + [sep] + b;
      assert a + [sep] + b == [c] + tail;
      assert a == [c] + a[1..];
      SplitAppend(a[1..], b, sep);
      var inner := Split(a[1..], sep);
      SplitCons(c, tail, sep);
      SplitCons(c, a[1..], sep);
      if c == sep {
        assert [[]] + (inner + [b]) == ([[]] + inner) + [b];
      } else {
        assert (inner + [b])[0] == inner[0];
        assert (inner + [b])[1..] == inner[1..] + [b];
        assert [[c] + inner[0]] + (inner[1..] + [b]) == ([[c] + inner[0]] + inner[1..]) + [b];
      }
    }
  }

  /** Joining peels off the last part. */
  lemma {:induction false} JoinLast(parts: seq<string>, sep: char)
    requires |parts| >= 2
    ensures Join(parts, sep) == Join(parts[..|parts| - 1], sep) + [sep] + parts[|parts| - 1]
  {
    if |parts| > 2 {
      JoinLast(parts[1..], sep);
      assert parts[1..][..|parts| - 2] == parts[..|parts| - 1][1..];
    } else {
      assert parts[..1] == [parts[0]];
    }
  }

  /** The last two parts are the whole joined string, or end it after one more separator. */
  lemma JoinEndsWithLastTwo(parts: seq<string>, sep: char)
    requires |parts| >= 2
    ensures var tail := parts[|parts| - 2] + [sep] + parts[|parts| - 1];
      Join(parts, sep) == tail || EndsWith(Join(parts, sep), [sep] + tail)
  {
    var n := |parts|;
    var init := parts[..n - 1];
    JoinLast(parts, sep);
    if n == 2 {
      assert init == [parts[0]];
    } else {
      JoinLast(init, sep);
      assert init[..n - 2] == parts[..n - 2];
      var front := Join(parts[..n - 2], sep);
      var tail := parts[n - 2] + [sep] + parts[n - 1];
      assert Join(parts, sep) == front + ([sep] + tail);
      EndsWithAppend(front, [sep] + tail);
    }
  }

  /** JavaScript's `parts.filter(seg => seg.length > 0)`: the non-empty parts, in order. */
  function NonEmpty(parts: seq<string>): (r: seq<string>)
    ensures |r| <= |parts|
    ensures forall i | 0 <= i < |r| :: r[i] != []
    ensures forall x :: x in r <==> x in parts && x != []
  {
    if parts == [] then []
    else if parts[0] == [] then NonEmpty(parts[1..])
    else [parts[0]] + NonEmpty(parts[1..])
  }

  /**
   * JavaScript's `s.replace(pattern, replacement)` with a string pattern:
   * only the first occurrence is replaced.
   */
  function ReplaceFirst(s: string, pattern: string, replacement: string): (r: string)
    ensures !Contains(s, pattern) ==> r == s
    ensures Contains(s, pattern) ==>
      exists i: nat {:trigger OccursAt(s, pattern, i)} ::
        && OccursAt(s, pattern, i)
        && (forall j: nat | j < i :: !OccursAt(s, pattern, j))
        && r == s[..i] + replacement + s[i + |pattern|..]
  {
    var i := Find(s, pattern, 0);
    if i < 0 then s else s[..i] + replacement + s[i + |pattern|..]
  }

  /** JavaScript's `s.replace(/f/g, t)` for a single character `f`. */
  function ReplaceChar(s: string, from: char, to: char): (r: string)
    ensures |r| == |s|
    ensures forall i | 0 <= i < |s| :: r[i] == if s[i] == from then to else s[i]
  {
    if s == [] then [] else [if s[0] == from then to else s[0]] + ReplaceChar(s[1..], from, to)
  }

  /** The characters JavaScript's `String.prototype.trim` removes: white space and line terminators. */
  predicate IsJsWhitespace(c: char) {
    || c == '\t' || c == '\n' || c == '\U{000B}' || c == '\U{000C}' || c == '\r' || c == ' '
    || c == '\U{00A0}' || c == '\U{1680}' || ('\U{2000}' <= c <= '\U{200A}')
    || c == '\U{2028}' || c == '\U{2029}' || c == '\U{202F}' || c == '\U{205F}'
    || c == '\U{3000}' || c == '\U{FEFF}'
  }

  /** JavaScript's `s.trim()`. */
  function JsTrim(s: string): string {
    Trim(s, IsJsWhitespace)
  }

  function DigitChar(d: nat): (c: char)
    requires d < 10
    ensures '0' <= c <= '9'
  {
    ('0' as int + d) as char
  }

  function DigitValue(c: char): nat
    requires '0' <= c <= '9'
  {
    (c as int - '0' as int) as nat
  }

  /** The value of a string of decimal digits. */
  function DecimalValue(s: string): nat
    requires forall i | 0 <= i < |s| :: '0' <= s[i] <= '9'
  {
    if s == [] then 0 else 10 * DecimalValue(s[..|s| - 1]) + DigitValue(s[|s| - 1])
  }

  /** Decimal notation of a natural number, as `${n}` or `str(n)` write it. */
  function NatToString(n: nat): (r: string)
    ensures |r| >= 1
    ensures forall i | 0 <= i < |r| :: '0' <= r[i] <= '9'
    ensures r[0] == '0' ==> n == 0
  {
    if n < 10 then [DigitChar(n)] else NatToString(n / 10) + [DigitChar(n % 10)]
  }

  /** Reading the digits back gives the number. */
  lemma {:induction false} NatToStringRoundTrip(n: nat)
    ensures DecimalValue(NatToString(n)) == n
  {
    var r := NatToString(n);
    if n >= 10 {
      NatToStringRoundTrip(n / 10);
      assert r[..|r| - 1] == NatToString(n / 10);
      assert DigitValue(r[|r| - 1]) == n % 10;
    }
  }

  /** Different numbers are written differently. */
  lemma NatToStringInjective(m: nat, n: nat)
    requires NatToString(m) == NatToString(n)
    ensures m == n
  {
    NatToStringRoundTrip(m);
    NatToStringRoundTrip(n);
  }
}
