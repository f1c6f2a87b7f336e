/*
 * The JavaScript string built-ins the engine relies on (`trim`, `toLowerCase`,
 * `includes`, `split`, `join`, the `\s` class), written as functions over
 * `seq<char>`.
 *
 * White space is the fixed set that ECMAScript's `trim` and `\s` use (its
 * WhiteSpace and LineTerminator productions). Lower-casing is ASCII only.
 * Lengths count Dafny characters (Unicode scalar values), not UTF-16 units.
 */
module TextOps {

  import opened ListOps

  /** ECMAScript WhiteSpace and LineTerminator code points. */
  const SpaceChars: set<char> := {
    ' ', '\t', '\n', '\r', '\U{000B}', '\U{000C}', '\U{00A0}', '\U{1680}',
    '\U{2000}', '\U{2001}', '\U{2002}', '\U{2003}', '\U{2004}', '\U{2005}',
    '\U{2006}', '\U{2007}', '\U{2008}', '\U{2009}', '\U{200A}',
    '\U{2028}', '\U{2029}', '\U{202F}', '\U{205F}', '\U{3000}', '\U{FEFF}'
  }

  /** The `\s` class and what `trim` removes. */
  predicate IsSpace(c: char) {
    c in SpaceChars
  }

  /** The characters that end a line for the regex `.` */
  predicate IsLineTerminator(c: char) {
    c == '\n' || c == '\r' || c == '\U{2028}' || c == '\U{2029}'
  }

  predicate IsDigit(c: char) {
    '0' <= c <= '9'
  }

  /** Nothing but white space (what `s.trim().length === 0` tests). */
  predicate IsBlank(s: string) {
    forall i :: 0 <= i < |s| ==> IsSpace(s[i])
  }

  /** Neither end is white space: `trim` leaves such a string alone. */
  predicate IsTrimmed(s: string) {
    s == [] || (!IsSpace(s[0]) && !IsSpace(s[|s| - 1]))
  }

  /** No character of `s` is in `cs`. */
  predicate NoneOf(s: string, cs: set<char>) {
    forall i :: 0 <= i < |s| ==> s[i] !in cs
  }

  /** Every character of `s` is in `cs`. */
  predicate AllOf(s: string, cs: set<char>) {
    forall i :: 0 <= i < |s| ==> s[i] in cs
  }

  // ---------------------------------------------------------------- case

  function LowerChar(c: char): char {
    if 'A' <= c <= 'Z' then (c as int + 32) as char else c
  }

  /** `toLowerCase`, for ASCII letters only. */
  function ToLower(s: string): (r: string)
    ensures |r| == |s|
    ensures forall i :: 0 <= i < |s| ==> r[i] == LowerChar(s[i])
  {
    seq(|s|, i requires 0 <= i < |s| => LowerChar(s[i]))
  }

  lemma ToLowerAppend(a: string, b: string)
    ensures ToLower(a + b) == ToLower(a) + ToLower(b)
  {
  }

  // ---------------------------------------------------------------- trim

  /** Length of the white-space run that starts `s`. */
  function LeadingSpaces(s: string): (n: nat)
    ensures n <= |s|
    ensures forall i :: 0 <= i < n ==> IsSpace(s[i])
    ensures n < |s| ==> !IsSpace(s[n])
    decreases |s|
  {
    if |s| > 0 && IsSpace(s[0]) then 1 + LeadingSpaces(s[1..]) else 0
  }

  /** Length of the white-space run that ends `s`. */
  function TrailingSpaces(s: string): (n: nat)
    ensures n <= |s|
    ensures forall i :: |s| - n <= i < |s| ==> IsSpace(s[i])
    ensures n < |s| ==> !IsSpace(s[|s| - 1 - n])
    decreases |s|
  {
    if |s| > 0 && IsSpace(s[|s| - 1]) then 1 + TrailingSpaces(s[..|s| - 1]) else 0
  }

  /** `trim`: the part of `s` between its leading and trailing white space. */
  function Trim(s: string): (r: string)
    ensures IsTrimmed(r)
    ensures |r| <= |s|
    ensures r == [] <==> IsBlank(s)
    ensures LeadingSpaces(s) + |r| <= |s| && r == s[LeadingSpaces(s)..LeadingSpaces(s) + |r|]
    ensures IsBlank(s[..LeadingSpaces(s)]) && IsBlank(s[LeadingSpaces(s) + |r|..])
  {
    var a := LeadingSpaces(s);
    var b := TrailingSpaces(s[a..]);
    assert IsBlank(s[..a]);
    assert IsBlank(s[a..][|s[a..]| - b..]);
    assert s[a..][|s[a..]| - b..] == s[a + (|s| - a - b)..];
    s[a..|s| - b]
  }

  lemma TrimOfTrimmed(s: string)
    requires IsTrimmed(s)
    ensures Trim(s) == s
  {
  }

  /** Trimming only removes characters: a character missing from `s` is missing from `Trim(s)`. */
  lemma TrimKeepsNoneOf(s: string, cs: set<char>)
    requires NoneOf(s, cs)
    ensures NoneOf(Trim(s), cs)
  {
    var a := LeadingSpaces(s);
    var b := TrailingSpaces(s[a..]);
    assert Trim(s) == s[a..|s| - b];
  }

  /** Trimming keeps at least the characters from one non-space character to another. */
  lemma TrimLong(s: string, i: nat, j: nat)
    requires i <= j < |s| && !IsSpace(s[i]) && !IsSpace(s[j])
    ensures |Trim(s)| >= j - i + 1
    ensures LeadingSpaces(s) <= i && j - LeadingSpaces(s) < |Trim(s)|
  {
    var a := LeadingSpaces(s);
    var t := s[a..];
    var b := TrailingSpaces(t);
    assert |Trim(s)| == |s| - a - b;
    assert a <= i;
    assert t[j - a] == s[j];
    assert j - a < |t| - b;
  }

  /**
   * Trimming keeps everything between two non-space characters: each of
   * those characters appears in the trimmed text, shifted by the leading
   * white space.
   */
  lemma TrimKeepsSpan(s: string, i: nat, j: nat)
    requires i <= j < |s| && !IsSpace(s[i]) && !IsSpace(s[j])
    ensures LeadingSpaces(s) <= i && j - LeadingSpaces(s) < |Trim(s)|
    ensures forall k :: i <= k <= j ==> Trim(s)[k - LeadingSpaces(s)] == s[k]
  {
    TrimLong(s, i, j);
  }

  /**
   * A text with something before a word that ends in a non-space character
   * trims to more than that word.
   */
  lemma TrimAround(a: string, m: string, b: string)
    requires !IsBlank(a) && m != [] && !IsSpace(m[|m| - 1])
    ensures |Trim(a + m + b)| > |m|
  {
    var s := a + m + b;
    var i :| 0 <= i < |a| && !IsSpace(a[i]);
    assert s[i] == a[i];
    assert s[|a| + |m| - 1] == m[|m| - 1];
    TrimLong(s, i, |a| + |m| - 1);
  }

  lemma TrimIdempotent(s: string)
    ensures Trim(Trim(s)) == Trim(s)
  {
    TrimOfTrimmed(Trim(s));
  }

  // ---------------------------------------------------------------- search

  predicate StartsWith(s: string, p: string) {
    |p| <= |s| && s[..|p|] == p
  }

  /** `p` occurs in `s` at index `i`. */
  predicate OccursAt(s: string, p: string, i: int) {
    0 <= i <= |s| - |p| && s[i..i + |p|] == p
  }

  /** `s.includes(p)`, as a left-to-right scan. */
  function Includes(s: string, p: string): (r: bool)
    ensures r <==> exists i :: OccursAt(s, p, i)
    decreases |s|
  {
    if StartsWith(s, p) then
      assert OccursAt(s, p, 0);
      true
    else if |s| == 0 then
      false
    else
      var r := Includes(s[1..], p);
      IncludesShift(s, p);
      r
  }

  /** An occurrence after the first position of `s` is an occurrence in `s[1..]`, and back. */
  lemma IncludesShift(s: string, p: string)
    requires |s| > 0 && !StartsWith(s, p)
    ensures (exists i :: OccursAt(s, p, i)) <==> (exists i :: OccursAt(s[1..], p, i))
  {
    if i :| OccursAt(s, p, i) {
      assert i != 0;
      assert s[1..][i - 1..i - 1 + |p|] == s[i..i + |p|];
      assert OccursAt(s[1..], p, i - 1);
    }
    if i :| OccursAt(s[1..], p, i) {
      assert s[1..][i..i + |p|] == s[i + 1..i + 1 + |p|];
      assert OccursAt(s, p, i + 1);
    }
  }

  /** `patterns.some(p => s.includes(p))`. */
  function IncludesAny(s: string, patterns: seq<string>): (r: bool)
    ensures r <==> exists k :: 0 <= k < |patterns| && Includes(s, patterns[k])
  {
    if patterns == [] then false
    else Includes(s, patterns[0]) || IncludesAny(s, patterns[1..])
  }

  /** `s.replace(/p/g, '')`: delete every left-to-right, non-overlapping occurrence of `p`. */
  function RemoveAll(s: string, p: string): (r: string)
    requires p != []
    ensures |r| <= |s|
    decreases |s|
  {
    if s == [] then []
    else if StartsWith(s, p) then RemoveAll(s[|p|..], p)
    else [s[0]] + RemoveAll(s[1..], p)
  }

  /** A text in which `p` does not occur comes back unchanged. */
  lemma {:induction false} RemoveAllNotIncluded(s: string, p: string)
    requires p != [] && !Includes(s, p)
    ensures RemoveAll(s, p) == s
    decreases |s|
  {
    if s != [] {
      assert !OccursAt(s, p, 0);
      IncludesShift(s, p);
      RemoveAllNotIncluded(s[1..], p);
      assert [s[0]] + s[1..] == s;
    }
  }

  /**
   * The scan keeps everything before the first occurrence of `p`, deletes
   * that occurrence and goes on after it.
   */
  lemma {:induction false} RemoveAllStep(a: string, p: string, b: string)
    requires p != [] && !Includes(a + p[..|p| - 1], p)
    ensures RemoveAll(a + p + b, p) == a + RemoveAll(b, p)
    decreases |a|
  {
    if a == [] {
      RemoveAllAtStart(p, b);
    } else {
      NoEarlierStart(a, p, b);
      RemoveAllStep(a[1..], p, b);
      RemoveAllKeepsFirst(a, p, b);
    }
  }

  lemma RemoveAllKeepsFirst(a: string, p: string, b: string)
    requires a != [] && p != [] && !StartsWith(a + p + b, p)
    requires RemoveAll(a[1..] + p + b, p) == a[1..] + RemoveAll(b, p)
    ensures RemoveAll(a + p + b, p) == a + RemoveAll(b, p)
  {
    var s := a + p + b;
    var tail := a[1..];
    var r := RemoveAll(b, p);
    calc {
      RemoveAll(s, p);
    == { RemoveAllSkip(s, p); }
      [s[0]] + RemoveAll(s[1..], p);
    == { assert s[1..] == tail + p + b; }
      [a[0]] + (tail + r);
    == { ConcatAssoc([a[0]], tail, r); assert [a[0]] + tail == a; }
      a + r;
    }
  }

  lemma RemoveAllAtStart(p: string, b: string)
    requires p != []
    ensures RemoveAll(p + b, p) == RemoveAll(b, p)
  {
    var s := p + b;
    assert s[..|p|] == p;
    assert s[|p|..] == b;
  }

  lemma RemoveAllSkip(s: string, p: string)
    requires p != [] && s != [] && !StartsWith(s, p)
    ensures RemoveAll(s, p) == [s[0]] + RemoveAll(s[1..], p)
  {
  }

  /** Before the first occurrence, the scan does not match and nothing later matches earlier. */
  lemma NoEarlierStart(a: string, p: string, b: string)
    requires a != [] && p != [] && !Includes(a + p[..|p| - 1], p)
    ensures !StartsWith(a + p + b, p)
    ensures !Includes(a[1..] + p[..|p| - 1], p)
  {
    var front := a + p[..|p| - 1];
    var s := a + p + b;
    assert s[..|front|] == front;
    assert !OccursAt(front, p, 0);
    IncludesShift(front, p);
    assert front[1..] == a[1..] + p[..|p| - 1];
  }

  /** The text up to, not including, the first line terminator (what `(.*)` captures). */
  function RestOfLine(s: string): (r: string)
    ensures |r| <= |s| && r == s[..|r|]
    ensures forall i :: 0 <= i < |r| ==> !IsLineTerminator(r[i])
    ensures |r| < |s| ==> IsLineTerminator(s[|r|])
    decreases |s|
  {
    if s == [] || IsLineTerminator(s[0]) then [] else [s[0]] + RestOfLine(s[1..])
  }

  // ---------------------------------------------------------------- split and join

  /**
   * `s.split(sep)` for a separator that matches exactly one character of
   * `seps` (a string, or a regex alternation of single characters).
   */
  function Split(s: string, seps: set<char>): (r: seq<string>)
    ensures |r| >= 1
    ensures forall k :: 0 <= k < |r| ==> NoneOf(r[k], seps)
    decreases |s|
  {
    if s == [] then [""]
    else
      var rest := Split(s[1..], seps);
      if s[0] in seps then [""] + rest
      else [[s[0]] + rest[0]] + rest[1..]
  }

  lemma {:induction false} SplitNoSeparator(s: string, seps: set<char>)
    requires NoneOf(s, seps)
    ensures Split(s, seps) == [s]
    decreases |s|
  {
    if s != [] {
      SplitNoSeparator(s[1..], seps);
      assert [s[0]] + s[1..] == s;
    }
  }

  /** `s.split(/[...]+/)`: every maximal run of characters of `seps` separates two pieces. */
  function SplitRuns(s: string, seps: set<char>): (r: seq<string>)
    ensures |r| >= 1
    ensures forall k :: 0 <= k < |r| ==> NoneOf(r[k], seps)
    decreases |s|
  {
    if s == [] then [""]
    else
      var rest := SplitRuns(s[1..], seps);
      if s[0] in seps then (if |s| > 1 && s[1] in seps then rest else [""] + rest)
      else [[s[0]] + rest[0]] + rest[1..]
  }

  lemma {:induction false} SplitRunsNoSeparator(s: string, seps: set<char>)
    requires NoneOf(s, seps)
    ensures SplitRuns(s, seps) == [s]
    decreases |s|
  {
    if s != [] {
      SplitRunsNoSeparator(s[1..], seps);
      assert [s[0]] + s[1..] == s;
    }
  }

  /** A whole run of separators, however long, closes exactly one piece. */
  lemma {:induction false} SplitRunsRun(run: string, b: string, seps: set<char>)
    requires run != [] && AllOf(run, seps) && (b == [] || b[0] !in seps)
    ensures SplitRuns(run + b, seps) == [""] + SplitRuns(b, seps)
    decreases |run|
  {
    var s := run + b;
    assert s[0] == run[0];
    if |run| == 1 {
      assert s[1..] == b;
      assert |s| > 1 ==> s[1] == b[0];
    } else {
      SplitRunsRun(run[1..], b, seps);
      assert s[1..] == run[1..] + b;
      assert s[1] == run[1];
    }
  }

  /**
   * The pieces come in text order: the text up to the first run of
   * separators is the first piece, and the rest is split the same way.
   */
  lemma {:induction false} SplitRunsStep(a: string, run: string, b: string, seps: set<char>)
    requires NoneOf(a, seps) && run != [] && AllOf(run, seps) && (b == [] || b[0] !in seps)
    ensures SplitRuns(a + run + b, seps) == [a] + SplitRuns(b, seps)
    decreases |a|
  {
    if a == [] {
      assert a + run + b == run + b;
      SplitRunsRun(run, b, seps);
    } else {
      var s := a + run + b;
      SplitRunsStep(a[1..], run, b, seps);
      assert s[1..] == a[1..] + run + b;
      assert s[0] == a[0];
      assert [a[0]] + a[1..] == a;
    }
  }

  /** `xs.join(sep)`. */
  function Join(xs: seq<string>, sep: string): string
  {
    if xs == [] then ""
    else if |xs| == 1 then xs[0]
    else xs[0] + sep + Join(xs[1..], sep)
  }

  lemma {:induction false} SplitPrefix(a: string, c: char, t: string, seps: set<char>)
    requires NoneOf(a, seps) && c in seps
    ensures Split(a + [c] + t, seps) == [a] + Split(t, seps)
    decreases |a|
  {
    if a == [] {
      assert a + [c] + t == [c] + t;
      assert ([c] + t)[1..] == t;
    } else {
      SplitPrefix(a[1..], c, t, seps);
      assert (a + [c] + t)[1..] == a[1..] + [c] + t;
      assert [a[0]] + a[1..] == a;
    }
  }

  /** Joining on a one-character separator that no piece contains, then splitting, gives the pieces back. */
  lemma {:induction false} SplitJoin(xs: seq<string>, c: char)
    requires |xs| >= 1
    requires forall k :: 0 <= k < |xs| ==> NoneOf(xs[k], {c})
    ensures Split(Join(xs, [c]), {c}) == xs
    decreases |xs|
  {
    if |xs| == 1 {
      SplitNoSeparator(xs[0], {c});
    } else {
      SplitJoin(xs[1..], c);
      SplitPrefix(xs[0], c, Join(xs[1..], [c]), {c});
      assert [xs[0]] + xs[1..] == xs;
    }
  }

  // ---------------------------------------------------------------- filters

  predicate NotBlank(s: string) {
    !IsBlank(s)
  }

  /** `xs.filter(x => x.trim().length > 0)`: every non-blank string of `xs` and nothing else. */
  function NonBlank(xs: seq<string>): (r: seq<string>)
    ensures |r| <= |xs|
    ensures forall k :: 0 <= k < |r| ==> !IsBlank(r[k])
    ensures forall k :: 0 <= k < |r| ==> r[k] in xs
    ensures forall j :: 0 <= j < |xs| && !IsBlank(xs[j]) ==> xs[j] in r
  {
    FilterSound(xs, NotBlank);
    FilterKeepsAll(xs, NotBlank);
    Filter(xs, NotBlank)
  }

  /** The filter keeps order. */
  lemma NonBlankAppend(xs: seq<string>, ys: seq<string>)
    ensures NonBlank(xs + ys) == NonBlank(xs) + NonBlank(ys)
  {
    FilterAppend(xs, ys, NotBlank);
  }

  lemma NonBlankSingle(s: string)
    ensures NonBlank([s]) == if IsBlank(s) then [] else [s]
  {
    FilterSingle(s, NotBlank);
  }

  /** `xs.map(x => x.trim())`. */
  function TrimAll(xs: seq<string>): (r: seq<string>)
    ensures |r| == |xs|
    ensures forall k :: 0 <= k < |xs| ==> r[k] == Trim(xs[k])
  {
    seq(|xs|, k requires 0 <= k < |xs| => Trim(xs[k]))
  }

  predicate NonEmpty(s: string) {
    s != []
  }

  /** `xs.filter(x => x.length > 0)`: every non-empty string of `xs` and nothing else. */
  function DropEmpty(xs: seq<string>): (r: seq<string>)
    ensures |r| <= |xs|
    ensures forall k :: 0 <= k < |r| ==> r[k] != [] && r[k] in xs
    ensures forall j :: 0 <= j < |xs| && xs[j] != [] ==> xs[j] in r
  {
    FilterSound(xs, NonEmpty);
    FilterKeepsAll(xs, NonEmpty);
    Filter(xs, NonEmpty)
  }

  /** The filter keeps order. */
  lemma DropEmptyAppend(xs: seq<string>, ys: seq<string>)
    ensures DropEmpty(xs + ys) == DropEmpty(xs) + DropEmpty(ys)
  {
    FilterAppend(xs, ys, NonEmpty);
  }

  const SentenceEnds: set<char> := {'.', '!', '?'}

  /** The sentences of a text: `text.split(/[.!?]+/).filter(s => s.trim().length > 0)`. */
  function Sentences(text: string): (r: seq<string>)
    ensures forall k :: 0 <= k < |r| ==> !IsBlank(r[k]) && NoneOf(r[k], SentenceEnds)
  {
    var pieces := SplitRuns(text, SentenceEnds);
    NonBlank(pieces)
  }

  /** A text without `.`, `!` or `?` is one sentence, or none when it is blank. */
  lemma OneSentence(text: string)
    requires NoneOf(text, SentenceEnds)
    ensures Sentences(text) == if IsBlank(text) then [] else [text]
  {
    SplitRunsNoSeparator(text, SentenceEnds);
    NonBlankSingle(text);
  }

  /**
   * Sentences come in text order: the text before the first run of `.`, `!`
   * and `?` is the first sentence unless it is blank, and the rest of the
   * text gives the others.
   */
  lemma SentencesStep(a: string, run: string, b: string)
    requires NoneOf(a, SentenceEnds) && run != [] && AllOf(run, SentenceEnds)
    requires b == [] || b[0] !in SentenceEnds
    ensures Sentences(a + run + b) == (if IsBlank(a) then [] else [a]) + Sentences(b)
  {
    SplitRunsStep(a, run, b, SentenceEnds);
    NonBlankAppend([a], SplitRuns(b, SentenceEnds));
    NonBlankSingle(a);
  }
}
