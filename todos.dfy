/*
 * Task extraction (`extractTodos` and `extractTasksFromNaturalLanguage` in
 * src/utils/aiProcessor.ts): a structured pass over the lines of the
 * transcript, and a sentence-based fallback when that pass finds nothing.
 */
module TodoExtraction {
  import opened TextOps
  import opened ListOps
  import opened Types

  /** Cleaned lines equal to one of these (case-insensitively) are not tasks. */
  const StopWords: seq<string> := ["and", "also", "then", "next", "finally"]

  /** Phrases that mark a sentence as a task in the natural-language fallback. */
  const TaskIndicators: seq<string> :=
    ["need to", "should", "have to", "must", "remember to", "don't forget to", "to do", "todo", "task"]

  /** The fallback keeps at most this many sentences when none has an indicator. */
  const MaxFallbackSentences: nat := 5

  predicate IsBullet(c: char) {
    c == '-' || c == '*' || c == '\U{2022}'
  }

  predicate NoDigits(s: string) {
    forall i :: 0 <= i < |s| ==> !IsDigit(s[i])
  }

  predicate NoBullets(s: string) {
    forall i :: 0 <= i < |s| ==> !IsBullet(s[i])
  }

  // ---------------------------------------------------------------- numbered lists

  /** Length of the digit run that starts `s`. */
  function DigitRun(s: string): (n: nat)
    ensures n <= |s|
    ensures forall i :: 0 <= i < n ==> IsDigit(s[i])
    ensures n < |s| ==> !IsDigit(s[n])
    decreases |s|
  {
    if |s| > 0 && IsDigit(s[0]) then 1 + DigitRun(s[1..]) else 0
  }

  /** Length of the match of `\d+\.\s` that starts `s`, or 0 when none does. */
  function NumberMarkerLength(s: string): (n: nat)
    ensures n <= |s|
    ensures n > 0 ==> 3 <= n && s[n - 2] == '.' && IsSpace(s[n - 1])
    ensures n > 0 ==> forall k :: 0 <= k < n - 2 ==> IsDigit(s[k])
  {
    var d := DigitRun(s);
    if 0 < d && d + 1 < |s| && s[d] == '.' && IsSpace(s[d + 1]) then d + 2 else 0
  }

  /** `text.replace(/\d+\.\s/g, '\n')`: every numbered-list marker becomes a line break. */
  function ReplaceNumberMarkers(s: string): (r: string)
    ensures |r| <= |s|
    decreases |s|
  {
    if s == [] then []
    else
      var n := NumberMarkerLength(s);
      if n > 0 then "\n" + ReplaceNumberMarkers(s[n..])
      else [s[0]] + ReplaceNumberMarkers(s[1..])
  }

  /** The digit run ends exactly at the first character that is not a digit. */
  lemma {:induction false} DigitRunExact(s: string, d: nat)
    requires d <= |s| && (forall i :: 0 <= i < d ==> IsDigit(s[i]))
    requires d == |s| || !IsDigit(s[d])
    ensures DigitRun(s) == d
    decreases d
  {
    if d > 0 {
      DigitRunExact(s[1..], d - 1);
    }
  }

  /** Digits, a full stop and one white-space character at the front always make a marker. */
  lemma NumberMarkerComplete(ds: string, sp: char, b: string)
    requires ds != [] && (forall i :: 0 <= i < |ds| ==> IsDigit(ds[i])) && IsSpace(sp)
    ensures NumberMarkerLength(ds + ['.', sp] + b) == |ds| + 2
  {
    var s := ds + ['.', sp] + b;
    assert forall i :: 0 <= i < |ds| ==> s[i] == ds[i];
    assert s[|ds|] == '.' && s[|ds| + 1] == sp;
    DigitRunExact(s, |ds|);
  }

  /**
   * Markers are replaced in text order: text without digits before the first
   * marker is kept, the marker becomes a line break, and the rest is
   * processed the same way.
   */
  lemma ReplaceNumberMarkersStep(a: string, ds: string, sp: char, b: string)
    requires NoDigits(a)
    requires ds != [] && (forall i :: 0 <= i < |ds| ==> IsDigit(ds[i])) && IsSpace(sp)
    ensures ReplaceNumberMarkers(a + ds + ['.', sp] + b) == a + "\n" + ReplaceNumberMarkers(b)
  {
    var t := ds + ['.', sp] + b;
    var r := ReplaceNumberMarkers(b);
    assert a + ds + ['.', sp] + b == a + t;
    ReplaceNumberMarkersPrefix(a, t);
    ReplaceMarkerAtFront(ds, sp, b);
    ConcatAssoc(a, "\n", r);
  }

  /** No marker starts inside text without digits, so such a prefix is kept. */
  lemma {:induction false} ReplaceNumberMarkersPrefix(a: string, t: string)
    requires NoDigits(a)
    ensures ReplaceNumberMarkers(a + t) == a + ReplaceNumberMarkers(t)
    decreases |a|
  {
    if a == [] {
      assert a + t == t;
    } else {
      var s := a + t;
      var rest := a[1..];
      assert s[0] == a[0];
      DigitRunExact(s, 0);
      assert s[1..] == rest + t;
      ReplaceNumberMarkersPrefix(rest, t);
      ConcatAssoc([a[0]], rest, ReplaceNumberMarkers(t));
      assert [a[0]] + rest == a;
    }
  }

  /** A marker at the front becomes a line break. */
  lemma ReplaceMarkerAtFront(ds: string, sp: char, b: string)
    requires ds != [] && (forall i :: 0 <= i < |ds| ==> IsDigit(ds[i])) && IsSpace(sp)
    ensures ReplaceNumberMarkers(ds + ['.', sp] + b) == "\n" + ReplaceNumberMarkers(b)
  {
    var s := ds + ['.', sp] + b;
    NumberMarkerComplete(ds, sp, b);
    assert s[|ds| + 2..] == b;
  }

  lemma {:induction false} ReplaceNumberMarkersNoDigits(s: string)
    requires NoDigits(s)
    ensures ReplaceNumberMarkers(s) == s
    decreases |s|
  {
    if s != [] {
      ReplaceNumberMarkersNoDigits(s[1..]);
      assert [s[0]] + s[1..] == s;
    }
  }

  /** Nowhere a digit, a full stop and a white-space character in a row. */
  predicate NoMarker(s: string) {
    forall i :: 0 <= i < |s| - 2 ==> !(IsDigit(s[i]) && s[i + 1] == '.' && IsSpace(s[i + 2]))
  }

  /**
   * A character where no marker starts is kept and replacement goes on after
   * it, so the digits of `buy 2 apples`, `at 3.30` and `1.5 kg` stay.
   */
  lemma KeptNonMarker(s: string)
    requires s != [] && NumberMarkerLength(s) == 0
    ensures ReplaceNumberMarkers(s) == [s[0]] + ReplaceNumberMarkers(s[1..])
  {
  }

  /** Replacement leaves a text unchanged exactly when no marker occurs in it. */
  lemma ReplaceNumberMarkersUnchanged(s: string)
    ensures ReplaceNumberMarkers(s) == s <==> NoMarker(s)
  {
    if NoMarker(s) {
      NoMarkerKept(s);
    } else {
      var i :| 0 <= i < |s| - 2 && IsDigit(s[i]) && s[i + 1] == '.' && IsSpace(s[i + 2]);
      MarkerShortens(s, i);
    }
  }

  /** The "if" half of `ReplaceNumberMarkersUnchanged`. */
  lemma {:induction false} NoMarkerKept(s: string)
    requires NoMarker(s)
    ensures ReplaceNumberMarkers(s) == s
    decreases |s|
  {
    if s != [] {
      NoMarkerAtFront(s);
      NoMarkerTail(s);
      NoMarkerKept(s[1..]);
      assert [s[0]] + s[1..] == s;
    }
  }

  /** Proof aid: dropping the first character keeps `NoMarker`. */
  lemma NoMarkerTail(s: string)
    requires s != [] && NoMarker(s)
    ensures NoMarker(s[1..])
  {
    assert forall i :: 0 <= i < |s| - 1 ==> s[1..][i] == s[i + 1];
  }

  /** Without a digit, full stop and white space in a row, no marker matches at the front. */
  lemma NoMarkerAtFront(s: string)
    requires NoMarker(s)
    ensures NumberMarkerLength(s) == 0
  {
    var d := DigitRun(s);
    if 0 < d && d + 1 < |s| {
      assert IsDigit(s[d - 1]);
    }
  }

  /** A marker anywhere makes replacement shorten the text. */
  lemma {:induction false} MarkerShortens(s: string, i: nat)
    requires i < |s| - 2 && IsDigit(s[i]) && s[i + 1] == '.' && IsSpace(s[i + 2])
    ensures |ReplaceNumberMarkers(s)| < |s|
    decreases |s|
  {
    var n := NumberMarkerLength(s);
    if i == 0 {
      DigitRunExact(s, 1);
    } else if n == 0 {
      var u := s[1..];
      assert u[i - 1] == s[i] && u[i] == s[i + 1] && u[i + 1] == s[i + 2];
      MarkerShortens(u, i - 1);
    }
  }

  /** `s.replace(/\r\n|\r|\n/g, '\n')`: every line ending becomes `\n`. */
  function NormalizeLineEndings(s: string): (r: string)
    ensures NoneOf(r, {'\r'})
    decreases |s|
  {
    if s == [] then []
    else if s[0] == '\r' then
      "\n" + NormalizeLineEndings(if |s| > 1 && s[1] == '\n' then s[2..] else s[1..])
    else [s[0]] + NormalizeLineEndings(s[1..])
  }

  /** Text without carriage returns before the first one is kept. */
  lemma {:induction false} NormalizeLineEndingsPrefix(a: string, t: string)
    requires NoneOf(a, {'\r'})
    ensures NormalizeLineEndings(a + t) == a + NormalizeLineEndings(t)
    decreases |a|
  {
    if a == [] {
      assert a + t == t;
    } else {
      var s := a + t;
      var rest := a[1..];
      assert s[0] == a[0];
      assert s[1..] == rest + t;
      NormalizeLineEndingsPrefix(rest, t);
      ConcatAssoc([a[0]], rest, NormalizeLineEndings(t));
      assert [a[0]] + rest == a;
    }
  }

  /** `\r\n` becomes one line feed. */
  lemma NormalizeCrLf(a: string, b: string)
    requires NoneOf(a, {'\r'})
    ensures NormalizeLineEndings(a + "\r\n" + b) == a + "\n" + NormalizeLineEndings(b)
  {
    var t := "\r\n" + b;
    assert a + "\r\n" + b == a + t;
    NormalizeLineEndingsPrefix(a, t);
    assert t[2..] == b;
    ConcatAssoc(a, "\n", NormalizeLineEndings(b));
  }

  /** A carriage return not followed by a line feed also becomes one line feed. */
  lemma NormalizeLoneCr(a: string, b: string)
    requires NoneOf(a, {'\r'}) && (b == [] || b[0] != '\n')
    ensures NormalizeLineEndings(a + "\r" + b) == a + "\n" + NormalizeLineEndings(b)
  {
    var t := "\r" + b;
    assert a + "\r" + b == a + t;
    NormalizeLineEndingsPrefix(a, t);
    assert t[1..] == b;
    assert |t| > 1 ==> t[1] == b[0];
    ConcatAssoc(a, "\n", NormalizeLineEndings(b));
  }

  lemma {:induction false} NormalizeLineEndingsNoReturn(s: string)
    requires NoneOf(s, {'\r'})
    ensures NormalizeLineEndings(s) == s
    decreases |s|
  {
    if s != [] {
      NormalizeLineEndingsNoReturn(s[1..]);
      assert [s[0]] + s[1..] == s;
    }
  }

  // ---------------------------------------------------------------- bullets

  /** Length of the match of `\s+[-*•]\s+` that starts `s`, or 0 when none does. */
  function SpacedBulletLength(s: string): (n: nat)
    ensures n <= |s|
  {
    var w := LeadingSpaces(s);
    if 0 < w < |s| && IsBullet(s[w]) && LeadingSpaces(s[w + 1..]) > 0
    then w + 1 + LeadingSpaces(s[w + 1..])
    else 0
  }

  /** The global `\s+[-*•]\s+` alternative: delete each spaced bullet, left to right. */
  function RemoveSpacedBullets(s: string): string
    decreases |s|
  {
    if s == [] then []
    else
      var n := SpacedBulletLength(s);
      if n > 0 then RemoveSpacedBullets(s[n..])
      else [s[0]] + RemoveSpacedBullets(s[1..])
  }

  /** `line.replace(/^[-*•]|\s+[-*•]\s+/g, '')` */
  function StripBullets(line: string): string
  {
    if |line| > 0 && IsBullet(line[0]) then RemoveSpacedBullets(line[1..])
    else RemoveSpacedBullets(line)
  }

  /** No bullet directly follows a white-space character. */
  predicate NoSpaceBeforeBullet(s: string) {
    forall i :: 0 <= i < |s| - 1 ==> !(IsSpace(s[i]) && IsBullet(s[i + 1]))
  }

  /** Nowhere a white-space character, a bullet and a white-space character in a row. */
  predicate NoSpacedBullet(s: string) {
    forall i :: 0 <= i < |s| - 2 ==> !(IsSpace(s[i]) && IsBullet(s[i + 1]) && IsSpace(s[i + 2]))
  }

  /**
   * A prefix in which no bullet follows white space, and which does not end
   * in white space, is kept as it is: no spaced bullet can start inside it.
   */
  lemma {:induction false} RemoveSpacedBulletsPrefix(a: string, t: string)
    requires NoSpaceBeforeBullet(a)
    requires a == [] || !IsSpace(a[|a| - 1])
    ensures RemoveSpacedBullets(a + t) == a + RemoveSpacedBullets(t)
    decreases |a|
  {
    if a == [] {
      assert a + t == t;
    } else {
      var s := a + t;
      var rest := a[1..];
      NoSpacedBulletAt(a, t);
      assert s[1..] == rest + t;
      TailKeepsPrefixConditions(a);
      RemoveSpacedBulletsPrefix(rest, t);
      ConcatAssoc([a[0]], rest, RemoveSpacedBullets(t));
      assert [a[0]] + rest == a;
    }
  }

  /** Proof aid: dropping the first character keeps the conditions of `RemoveSpacedBulletsPrefix`. */
  lemma TailKeepsPrefixConditions(a: string)
    requires a != [] && NoSpaceBeforeBullet(a) && !IsSpace(a[|a| - 1])
    ensures NoSpaceBeforeBullet(a[1..])
    ensures a[1..] == [] || !IsSpace(a[1..][|a| - 2])
  {
    var rest := a[1..];
    assert forall i :: 0 <= i < |rest| ==> rest[i] == a[i + 1];
  }

  /**
   * No spaced bullet starts at the front of a text in which no bullet
   * follows white space and which does not end in white space.
   */
  lemma NoSpacedBulletAt(a: string, t: string)
    requires a != [] && NoSpaceBeforeBullet(a) && !IsSpace(a[|a| - 1])
    ensures SpacedBulletLength(a + t) == 0
  {
    var s := a + t;
    assert !IsSpace(s[|a| - 1]);
    var w := LeadingSpaces(s);
    assert w < |a|;
    assert s[w] == a[w];
    if w > 0 {
      assert s[w - 1] == a[w - 1];
    }
  }

  /**
   * A character where no spaced bullet starts is kept and deletion goes on
   * after it: any non-space character, and white space not followed by a
   * bullet and more white space, as the first space of `" -a - b"`.
   */
  lemma KeptUnmatched(x: char, t: string)
    requires SpacedBulletLength([x] + t) == 0
    ensures RemoveSpacedBullets([x] + t) == [x] + RemoveSpacedBullets(t)
  {
    assert ([x] + t)[1..] == t;
  }

  /**
   * Bullet removal leaves a text unchanged exactly when no bullet in it has
   * white space on both sides, so `x-ray`, `well-known` and `a -b` are kept.
   */
  lemma RemoveSpacedBulletsUnchanged(s: string)
    ensures RemoveSpacedBullets(s) == s <==> NoSpacedBullet(s)
  {
    if NoSpacedBullet(s) {
      NoSpacedBulletKept(s);
    } else {
      var i :| 0 <= i < |s| - 2 && IsSpace(s[i]) && IsBullet(s[i + 1]) && IsSpace(s[i + 2]);
      SpacedBulletShortens(s, i);
    }
  }

  /** The "if" half of `RemoveSpacedBulletsUnchanged`. */
  lemma {:induction false} NoSpacedBulletKept(s: string)
    requires NoSpacedBullet(s)
    ensures RemoveSpacedBullets(s) == s
    decreases |s|
  {
    if s != [] {
      NoMatchWithoutTriple(s);
      assert forall i :: 0 <= i < |s| - 1 ==> s[1..][i] == s[i + 1];
      NoSpacedBulletKept(s[1..]);
      assert [s[0]] + s[1..] == s;
    }
  }

  /** Without a spaced bullet in the text, none matches at its front. */
  lemma NoMatchWithoutTriple(s: string)
    requires NoSpacedBullet(s)
    ensures SpacedBulletLength(s) == 0
  {
    var w := LeadingSpaces(s);
    if 0 < w && w + 1 < |s| {
      assert s[w + 1..][0] == s[w + 1];
      assert IsSpace(s[w - 1]);
    }
  }

  /** A spaced bullet anywhere makes bullet removal shorten the text. */
  lemma {:induction false} SpacedBulletShortens(s: string, i: nat)
    requires i < |s| - 2 && IsSpace(s[i]) && IsBullet(s[i + 1]) && IsSpace(s[i + 2])
    ensures |RemoveSpacedBullets(s)| < |s|
    decreases |s|
  {
    var n := SpacedBulletLength(s);
    if i == 0 {
      MatchAtFront(s);
      RemoveSpacedBulletsShorter(s[n..]);
    } else if n > 0 {
      RemoveSpacedBulletsShorter(s[n..]);
    } else {
      var u := s[1..];
      assert u[i - 1] == s[i] && u[i] == s[i + 1] && u[i + 1] == s[i + 2];
      SpacedBulletShortens(u, i - 1);
    }
  }

  /** White space, a bullet and white space at the front of `s` are a match. */
  lemma MatchAtFront(s: string)
    requires |s| > 2 && IsSpace(s[0]) && IsBullet(s[1]) && IsSpace(s[2])
    ensures SpacedBulletLength(s) > 0
  {
    assert !IsSpace(s[1]);
    LeadingSpacesExact(s, 1);
    assert s[2..][0] == s[2];
  }

  /** Bullet removal never lengthens the text. */
  lemma {:induction false} RemoveSpacedBulletsShorter(s: string)
    ensures |RemoveSpacedBullets(s)| <= |s|
    decreases |s|
  {
    if s != [] {
      var n := SpacedBulletLength(s);
      if n > 0 {
        RemoveSpacedBulletsShorter(s[n..]);
      } else {
        RemoveSpacedBulletsShorter(s[1..]);
      }
    }
  }

  /**
   * Cleaning removes a leading bullet, and leaves the rest of the line as it
   * is exactly when no bullet in the rest has white space on both sides.
   */
  lemma LeadingBulletRemoved(b: char, s: string)
    requires IsBullet(b)
    ensures StripBullets([b] + s) == s <==> NoSpacedBullet(s)
  {
    assert ([b] + s)[1..] == s;
    RemoveSpacedBulletsUnchanged(s);
  }

  /** `LeadingSpaces` is the only length of a white-space prefix followed by a non-space. */
  lemma LeadingSpacesExact(s: string, n: nat)
    requires n <= |s| && forall i :: 0 <= i < n ==> IsSpace(s[i])
    requires n == |s| || !IsSpace(s[n])
    ensures LeadingSpaces(s) == n
  {
  }

  /** A blank run, a bullet and a blank run at the front of `t` form one spaced bullet. */
  lemma SpacedBulletMatch(w1: string, b: char, w2: string, c: string)
    requires w1 != [] && IsBlank(w1) && IsBullet(b) && w2 != [] && IsBlank(w2)
    requires c == [] || !IsSpace(c[0])
    ensures SpacedBulletLength(w1 + [b] + w2 + c) == |w1| + 1 + |w2|
    ensures (w1 + [b] + w2 + c)[|w1| + 1 + |w2|..] == c
  {
    var t := w1 + [b] + w2 + c;
    var n := |w1| + 1 + |w2|;
    assert forall i :: 0 <= i < |w1| ==> t[i] == w1[i];
    assert t[|w1|] == b;
    assert !IsSpace(b);
    LeadingSpacesExact(t, |w1|);
    var u := t[|w1| + 1..];
    assert u == w2 + c;
    assert forall i :: 0 <= i < |w2| ==> u[i] == w2[i];
    assert c != [] ==> u[|w2|] == c[0];
    LeadingSpacesExact(u, |w2|);
    assert t[n..] == c;
  }

  /**
   * Cleaning deletes the first bullet with white space on both sides together
   * with both runs, so `"a - b"` becomes `"ab"` and `"call x-ray - film"`
   * becomes `"call x-rayfilm"`; before it only a leading bullet goes.
   */
  lemma SpacedBulletRemoved(a: string, w1: string, b: char, w2: string, c: string)
    requires NoSpaceBeforeBullet(a) && (a == [] || !IsSpace(a[|a| - 1]))
    requires w1 != [] && IsBlank(w1) && IsBullet(b) && w2 != [] && IsBlank(w2)
    requires c == [] || !IsSpace(c[0])
    ensures StripBullets(a + w1 + [b] + w2 + c)
            == (if a != [] && IsBullet(a[0]) then a[1..] else a) + RemoveSpacedBullets(c)
  {
    Regroup(a, w1, b, w2, c);
    if a != [] && IsBullet(a[0]) {
      SpacedBulletAfterLeading(a, w1, b, w2, c);
    } else {
      SpacedBulletNoLeading(a, w1, b, w2, c);
    }
  }

  /** `SpacedBulletRemoved` when the line starts with a bullet. */
  lemma SpacedBulletAfterLeading(a: string, w1: string, b: char, w2: string, c: string)
    requires a != [] && IsBullet(a[0])
    requires NoSpaceBeforeBullet(a) && !IsSpace(a[|a| - 1])
    requires w1 != [] && IsBlank(w1) && IsBullet(b) && w2 != [] && IsBlank(w2)
    requires c == [] || !IsSpace(c[0])
    ensures StripBullets(a + (w1 + [b] + w2 + c)) == a[1..] + RemoveSpacedBullets(c)
  {
    var t := w1 + [b] + w2 + c;
    assert (a + t)[1..] == a[1..] + t;
    TailKeepsPrefixConditions(a);
    SpacedBulletsDeleted(a[1..], w1, b, w2, c);
  }

  /** `SpacedBulletRemoved` when the line does not start with a bullet. */
  lemma SpacedBulletNoLeading(a: string, w1: string, b: char, w2: string, c: string)
    requires a == [] || !IsBullet(a[0])
    requires NoSpaceBeforeBullet(a) && (a == [] || !IsSpace(a[|a| - 1]))
    requires w1 != [] && IsBlank(w1) && IsBullet(b) && w2 != [] && IsBlank(w2)
    requires c == [] || !IsSpace(c[0])
    ensures StripBullets(a + (w1 + [b] + w2 + c)) == a + RemoveSpacedBullets(c)
  {
    var s := a + (w1 + [b] + w2 + c);
    SpacedBulletsDeleted(a, w1, b, w2, c);
    if a == [] {
      assert s[0] == w1[0];
      SpaceNotBullet(w1[0]);
    } else {
      assert s[0] == a[0];
    }
    StripBulletsNoLeading(s);
  }

  /** The deletion part of `SpacedBulletRemoved`. */
  lemma SpacedBulletsDeleted(a: string, w1: string, b: char, w2: string, c: string)
    requires NoSpaceBeforeBullet(a) && (a == [] || !IsSpace(a[|a| - 1]))
    requires w1 != [] && IsBlank(w1) && IsBullet(b) && w2 != [] && IsBlank(w2)
    requires c == [] || !IsSpace(c[0])
    ensures RemoveSpacedBullets(a + (w1 + [b] + w2 + c)) == a + RemoveSpacedBullets(c)
  {
    var t := w1 + [b] + w2 + c;
    SpacedBulletMatch(w1, b, w2, c);
    SkipSpacedBullet(t);
    RemoveSpacedBulletsPrefix(a, t);
  }

  /** Proof aid: the same text grouped as prefix and rest. */
  lemma Regroup(a: string, w1: string, b: char, w2: string, c: string)
    ensures a + w1 + [b] + w2 + c == a + (w1 + [b] + w2 + c)
  {
  }

  lemma SpaceNotBullet(c: char)
    requires IsSpace(c)
    ensures !IsBullet(c)
  {
  }

  /** After a spaced bullet, deletion continues with the rest. */
  lemma SkipSpacedBullet(s: string)
    requires SpacedBulletLength(s) > 0
    ensures RemoveSpacedBullets(s) == RemoveSpacedBullets(s[SpacedBulletLength(s)..])
  {
  }

  /** A bullet at the very start goes, and then only spaced bullets are deleted. */
  lemma LeadingBulletStripped(b: char, s: string)
    requires IsBullet(b)
    ensures StripBullets([b] + s) == RemoveSpacedBullets(s)
  {
    assert ([b] + s)[1..] == s;
  }

  /** Without a leading bullet, cleaning only deletes spaced bullets. */
  lemma StripBulletsNoLeading(s: string)
    requires s == [] || !IsBullet(s[0])
    ensures StripBullets(s) == RemoveSpacedBullets(s)
  {
  }

  lemma SpacedBulletExample()
    ensures StripBullets("a - b") == "ab"
  {
    assert "a - b" == "a" + " " + ['-'] + " " + "b";
    SpacedBulletRemoved("a", " ", '-', " ", "b");
    assert LeadingSpaces("b") == 0;
    KeptUnmatched('b', []);
  }

  // ---------------------------------------------------------------- structured pass

  /** The non-blank lines of the transcript once numbered markers are line breaks. */
  function TodoLines(text: string): (lines: seq<string>)
    ensures forall k :: 0 <= k < |lines| ==> !IsBlank(lines[k]) && NoneOf(lines[k], {'\n'})
  {
    NonBlank(Split(NormalizeLineEndings(ReplaceNumberMarkers(text)), {'\n'}))
  }

  /** The cleaned form of a line: bullets removed, then trimmed. */
  function CleanLine(line: string): (cleaned: string)
    ensures IsTrimmed(cleaned)
  {
    Trim(StripBullets(line))
  }

  /** A cleaned line becomes a task when it is longer than 3 and not a stop word. */
  predicate KeptAsTask(cleaned: string) {
    |cleaned| > 3 && ToLower(cleaned) !in StopWords
  }

  /** Texts as open tasks (`{ text, completed: false }`). */
  function OpenItems(texts: seq<string>): (items: seq<TodoItem>)
    ensures |items| == |texts|
    ensures forall k :: 0 <= k < |texts| ==> items[k] == TodoItem(texts[k], false)
  {
    seq(|texts|, k requires 0 <= k < |texts| => TodoItem(texts[k], false))
  }

  /** The `map` and `filter` over the lines: clean each one, keep the qualifying ones as open tasks. */
  function TasksOfLines(lines: seq<string>): (items: seq<TodoItem>)
    ensures |items| <= |lines|
  {
    OpenItems(Filter(Map(lines, CleanLine), KeptAsTask))
  }

  /** Tasks keep line order: the tasks of a split list of lines are the tasks of its parts. */
  lemma TasksOfLinesAppend(xs: seq<string>, ys: seq<string>)
    ensures TasksOfLines(xs + ys) == TasksOfLines(xs) + TasksOfLines(ys)
  {
    MapAppend(xs, ys, CleanLine);
    FilterAppend(Map(xs, CleanLine), Map(ys, CleanLine), KeptAsTask);
    OpenItemsAppend(Filter(Map(xs, CleanLine), KeptAsTask), Filter(Map(ys, CleanLine), KeptAsTask));
  }

  lemma OpenItemsAppend(xs: seq<string>, ys: seq<string>)
    ensures OpenItems(xs + ys) == OpenItems(xs) + OpenItems(ys)
  {
  }

  /** The structured pass over the lines of the transcript. */
  function StructuredTodos(text: string): seq<TodoItem>
  {
    TasksOfLines(TodoLines(text))
  }

  /**
   * Every task of the structured pass is open, its text trimmed, longer
   * than 3 and not a stop word, and it is the cleaned form of one of the lines.
   */
  lemma StructuredTodosValid(text: string)
    ensures forall k :: 0 <= k < |StructuredTodos(text)| ==>
              var item := StructuredTodos(text)[k];
              !item.completed && |item.text| > 3 && ToLower(item.text) !in StopWords
              && IsTrimmed(item.text)
              && exists j :: 0 <= j < |TodoLines(text)| && item.text == CleanLine(TodoLines(text)[j])
  {
    TasksOfLinesValid(TodoLines(text));
  }

  /** `StructuredTodosValid` for any list of lines. */
  lemma TasksOfLinesValid(lines: seq<string>)
    ensures forall k :: 0 <= k < |TasksOfLines(lines)| ==>
              var item := TasksOfLines(lines)[k];
              !item.completed && KeptAsTask(item.text) && IsTrimmed(item.text)
              && exists j :: 0 <= j < |lines| && item.text == CleanLine(lines[j])
  {
    var cleaned := Map(lines, CleanLine);
    var kept := Filter(cleaned, KeptAsTask);
    var items := TasksOfLines(lines);
    assert items == OpenItems(kept);
    FilterSound(cleaned, KeptAsTask);
    forall k | 0 <= k < |items|
      ensures exists j :: 0 <= j < |lines| && items[k].text == CleanLine(lines[j])
    {
      var j :| 0 <= j < |cleaned| && cleaned[j] == kept[k];
    }
  }

  /** The structured pass finds nothing exactly when no cleaned line qualifies. */
  lemma StructuredTodosEmpty(text: string)
    ensures StructuredTodos(text) == [] <==>
            forall j :: 0 <= j < |TodoLines(text)| ==> !KeptAsTask(CleanLine(TodoLines(text)[j]))
  {
    FilterEmpty(Map(TodoLines(text), CleanLine), KeptAsTask);
  }

  // ---------------------------------------------------------------- natural-language fallback

  /** The lower-cased, trimmed sentence contains a task indicator. */
  predicate HasTaskIndicator(sentence: string) {
    IncludesAny(ToLower(Trim(sentence)), TaskIndicators)
  }

  /** A sentence with a task phrase has at least 4 characters once trimmed, the shortest phrase. */
  lemma IndicatorNotBlank(sentence: string)
    requires HasTaskIndicator(sentence)
    ensures |Trim(sentence)| >= 4
  {
    var k :| 0 <= k < |TaskIndicators| && Includes(ToLower(Trim(sentence)), TaskIndicators[k]);
    var i :| OccursAt(ToLower(Trim(sentence)), TaskIndicators[k], i);
    assert |TaskIndicators[k]| >= 4;
  }

  /** Trimmed texts as open tasks (`{ text: sentence.trim(), completed: false }`). */
  function TrimmedOpenItems(sentences: seq<string>): (items: seq<TodoItem>)
    ensures |items| == |sentences|
    ensures forall k :: 0 <= k < |sentences| ==> items[k] == TodoItem(Trim(sentences[k]), false)
  {
    OpenItems(TrimAll(sentences))
  }

  lemma TrimmedOpenItemsPush(sentences: seq<string>, s: string)
    ensures TrimmedOpenItems(sentences + [s]) == TrimmedOpenItems(sentences) + [TodoItem(Trim(s), false)]
  {
  }

  /** One step of the `forEach`: the next sentence is pushed exactly when it has an indicator. */
  lemma IndicatedStep(sentences: seq<string>, i: nat)
    requires i < |sentences|
    ensures TrimmedOpenItems(Filter(sentences[..i + 1], HasTaskIndicator))
         == TrimmedOpenItems(Filter(sentences[..i], HasTaskIndicator))
            + if IncludesAny(ToLower(Trim(sentences[i])), TaskIndicators) then [TodoItem(Trim(sentences[i]), false)] else []
  {
    assert sentences[..i + 1] == sentences[..i] + [sentences[i]];
    FilterPush(sentences[..i], sentences[i], HasTaskIndicator);
    TrimmedOpenItemsPush(Filter(sentences[..i], HasTaskIndicator), sentences[i]);
  }

  /** What `extractTasksFromNaturalLanguage` returns. */
  function NaturalLanguageTasks(text: string): (tasks: seq<TodoItem>)
    ensures forall k :: 0 <= k < |tasks| ==> !tasks[k].completed && tasks[k].text != [] && IsTrimmed(tasks[k].text)
    ensures Sentences(text) != [] ==> tasks != []
  {
    var sentences := Sentences(text);
    var chosen := Filter(sentences, HasTaskIndicator);
    if chosen == [] && |sentences| > 0 then
      var first := sentences[..if |sentences| < MaxFallbackSentences then |sentences| else MaxFallbackSentences];
      NonBlankTasks(first);
      TrimmedOpenItems(first)
    else
      FilterSound(sentences, HasTaskIndicator);
      IndicatedNonBlank(chosen);
      NonBlankTasks(chosen);
      TrimmedOpenItems(chosen)
  }

  lemma IndicatedNonBlank(chosen: seq<string>)
    requires forall k :: 0 <= k < |chosen| ==> HasTaskIndicator(chosen[k])
    ensures forall k :: 0 <= k < |chosen| ==> !IsBlank(chosen[k])
  {
    forall k | 0 <= k < |chosen|
      ensures !IsBlank(chosen[k])
    {
      IndicatorNotBlank(chosen[k]);
    }
  }

  /** Non-blank sentences make open, non-empty, trimmed tasks. */
  lemma NonBlankTasks(sentences: seq<string>)
    requires forall k :: 0 <= k < |sentences| ==> !IsBlank(sentences[k])
    ensures var tasks := TrimmedOpenItems(sentences);
            forall k :: 0 <= k < |tasks| ==> !tasks[k].completed && tasks[k].text != [] && IsTrimmed(tasks[k].text)
  {
  }

  /**
   * The fallback keeps, in order and trimmed, the sentences with an
   * indicator; when there is none it keeps the first min(5, n) sentences.
   */
  lemma NaturalLanguageTasksChoice(text: string)
    ensures Filter(Sentences(text), HasTaskIndicator) != [] ==>
              NaturalLanguageTasks(text) == TrimmedOpenItems(Filter(Sentences(text), HasTaskIndicator))
    ensures Filter(Sentences(text), HasTaskIndicator) == [] ==>
              var n := |Sentences(text)|;
              var m := if n < MaxFallbackSentences then n else MaxFallbackSentences;
              |NaturalLanguageTasks(text)| == m
              && forall k :: 0 <= k < m ==> NaturalLanguageTasks(text)[k] == TodoItem(Trim(Sentences(text)[k]), false)
  {
    var sentences := Sentences(text);
    if Filter(sentences, HasTaskIndicator) == [] {
      var n := |sentences|;
      var m := if n < MaxFallbackSentences then n else MaxFallbackSentences;
      assert NaturalLanguageTasks(text) == TrimmedOpenItems(sentences[..m]);
    }
  }

  /** `extractTasksFromNaturalLanguage`: collect the sentences with an indicator, else the first five. */
  method ExtractTasksFromNaturalLanguage(text: string) returns (tasks: seq<TodoItem>)
    ensures tasks == NaturalLanguageTasks(text)
  {
    var sentences := Sentences(text);
    tasks := [];
    for i := 0 to |sentences|
      invariant tasks == TrimmedOpenItems(Filter(sentences[..i], HasTaskIndicator))
    {
      var lowerSentence := ToLower(Trim(sentences[i]));
      IndicatedStep(sentences, i);
      if IncludesAny(lowerSentence, TaskIndicators) {
        tasks := tasks + [TodoItem(Trim(sentences[i]), false)];
      }
    }
    assert sentences[..|sentences|] == sentences;
    if |tasks| == 0 && |sentences| > 0 {
      var n := if |sentences| < MaxFallbackSentences then |sentences| else MaxFallbackSentences;
      tasks := TrimmedOpenItems(sentences[..n]);
    }
  }

  // ---------------------------------------------------------------- extractTodos

  /** `extractTodos`: the structured pass, or the natural-language fallback when it finds nothing. */
  function ExtractTodos(text: string): (items: seq<TodoItem>)
    ensures forall k :: 0 <= k < |items| ==>
              !items[k].completed && items[k].text != [] && IsTrimmed(items[k].text)
    ensures StructuredTodos(text) != [] ==> items == StructuredTodos(text)
    ensures StructuredTodos(text) == [] ==> items == NaturalLanguageTasks(text)
    ensures Sentences(text) != [] ==> items != []
  {
    var items := StructuredTodos(text);
    StructuredTodosValid(text);
    if |items| == 0 then NaturalLanguageTasks(text) else items
  }

  /**
   * When the transcript yields one line and its cleaned form qualifies,
   * that cleaned line is the only task, whatever markers or bullets it had.
   */
  lemma SingleLineTask(text: string, line: string)
    requires TodoLines(text) == [line] && KeptAsTask(CleanLine(line))
    ensures ExtractTodos(text) == [TodoItem(CleanLine(line), false)]
  {
    TasksOfSingleLine(line);
  }

  /** When the only line does not qualify, the sentences decide. */
  lemma SingleLineFallback(text: string, line: string)
    requires TodoLines(text) == [line] && !KeptAsTask(CleanLine(line))
    ensures ExtractTodos(text) == NaturalLanguageTasks(text)
  {
    TasksOfSingleLine(line);
  }

  /**
   * A memo on one line, without a numbered marker and without a bullet to
   * remove, whose trimmed text is longer than every stop word, gives exactly
   * one task: the whole trimmed line.
   */
  lemma OneLineMemo(text: string)
    requires NoneOf(text, {'\n', '\r'}) && NoMarker(text)
    requires NoSpacedBullet(text) && (text == [] || !IsBullet(text[0]))
    requires |Trim(text)| > 7
    ensures ExtractTodos(text) == [TodoItem(Trim(text), false)]
  {
    assert !IsBlank(text);
    OneLineTodoLines(text);
    OneLineTask(text);
  }

  /**
   * A line that neither starts with a bullet nor has a bullet with white
   * space on both sides, and whose trimmed text is longer than 7, is one task.
   */
  lemma OneLineTask(line: string)
    requires NoSpacedBullet(line) && (line == [] || !IsBullet(line[0]))
    requires |Trim(line)| > 7
    ensures TasksOfLines([line]) == [TodoItem(Trim(line), false)]
  {
    TasksOfSingleLine(line);
    CleanPlainLine(line);
    LongNotStopWord(Trim(line));
  }

  /** One line gives its cleaned form as a task when that qualifies, and nothing otherwise. */
  lemma TasksOfSingleLine(line: string)
    ensures TasksOfLines([line])
            == if KeptAsTask(CleanLine(line)) then [TodoItem(CleanLine(line), false)] else []
  {
    assert Map([line], CleanLine) == [CleanLine(line)];
    FilterSingle(CleanLine(line), KeptAsTask);
  }

  /** Cleaning a line that bullet removal leaves alone only trims it. */
  lemma CleanPlainLine(line: string)
    requires NoSpacedBullet(line) && (line == [] || !IsBullet(line[0]))
    ensures CleanLine(line) == Trim(line)
  {
    NoSpacedBulletKept(line);
    StripBulletsNoLeading(line);
  }

  /** A text without digits or bullets has no marker and no bullet to remove. */
  lemma PlainText(text: string)
    requires NoDigits(text) && NoBullets(text)
    ensures NoMarker(text) && NoSpacedBullet(text) && (text == [] || !IsBullet(text[0]))
  {
  }

  lemma OneLineTodoLines(text: string)
    requires NoneOf(text, {'\n', '\r'}) && NoMarker(text) && !IsBlank(text)
    ensures TodoLines(text) == [text]
  {
    NoMarkerKept(text);
    NormalizeLineEndingsNoReturn(text);
    SplitNoSeparator(text, {'\n'});
    NonBlankSingle(text);
  }

  /** No stop word is longer than 7 characters. */
  lemma LongNotStopWord(s: string)
    requires |s| > 7
    ensures ToLower(s) !in StopWords
  {
  }

}
