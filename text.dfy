/**
 * The string operations of the JavaScript standard library that the screens use:
 * `trim`, `split`, `join`, `includes`, `startsWith`, `toLowerCase`, and the
 * text ordering used for sorted listings.
 */
module Text {

  /** The code points `String.prototype.trim` removes: JavaScript's WhiteSpace
      (including every space separator) and LineTerminator characters. */
  predicate IsSpace(c: char) {
    || c == '\t' || c == '\n' || c == '\U{000B}' || c == '\U{000C}' || c == '\r'
    || c == ' ' || c == '\U{00A0}' || c == '\U{1680}'
    || ('\U{2000}' <= c <= '\U{200A}')
    || c == '\U{2028}' || c == '\U{2029}' || c == '\U{202F}' || c == '\U{205F}'
    || c == '\U{3000}' || c == '\U{FEFF}'
  }

  /** A string with no whitespace at either end. */
  predicate IsTrimmed(s: string) {
    s == [] || (!IsSpace(s[0]) && !IsSpace(s[|s| - 1]))
  }

  /** Number of whitespace characters at the start of `s`. */
  function LeadingSpaces(s: string): (k: nat)
    ensures k <= |s|
    ensures forall i :: 0 <= i < k ==> IsSpace(s[i])
    ensures k < |s| ==> !IsSpace(s[k])
  {
    if s != [] && IsSpace(s[0]) then 1 + LeadingSpaces(s[1..]) else 0
  }

  /** Index where the run of whitespace at the end of `s` begins. */
  function TrailingStart(s: string): (j: nat)
    ensures j <= |s|
    ensures forall i :: j <= i < |s| ==> IsSpace(s[i])
    ensures 0 < j ==> !IsSpace(s[j - 1])
  {
    if s != [] && IsSpace(s[|s| - 1]) then TrailingStart(s[..|s| - 1]) else |s|
  }

  /** `s.trim()`: drops the whitespace at both ends and keeps the rest as it is. */
  function Trim(s: string): (r: string)
    ensures IsTrimmed(r)
    ensures exists i, j :: 0 <= i <= j <= |s| && r == s[i..j]
                        && (forall k :: 0 <= k < i ==> IsSpace(s[k]))
                        && (forall k :: j <= k < |s| ==> IsSpace(s[k]))
    ensures |r| <= |s|
    ensures forall c :: c in r ==> c in s
  {
    var i := LeadingSpaces(s);
    var j := i + TrailingStart(s[i..]);
    assert forall k :: j <= k < |s| ==> IsSpace(s[k]) by {
      forall k | j <= k < |s| ensures IsSpace(s[k]) { assert s[k] == s[i..][k - i]; }
    }
    assert i < j ==> s[j - 1] == s[i..][j - i - 1];
    s[i..j]
  }

  /** A leading whitespace character makes no difference to `trim`. */
  lemma TrimSkipsSpace(c: char, s: string)
    requires IsSpace(c)
    ensures Trim([c] + s) == Trim(s)
  {
    SpaceShifts(c, s);
  }

  /** The bounds `Trim` cuts at move one place right past a leading whitespace character. */
  lemma SpaceShifts(c: char, s: string)
    requires IsSpace(c)
    ensures var i := LeadingSpaces(s);
            && LeadingSpaces([c] + s) == 1 + i
            && ([c] + s)[1 + i..] == s[i..]
            && ([c] + s)[1 + i..1 + i + TrailingStart(s[i..])] == s[i..i + TrailingStart(s[i..])]
  {
    var i := LeadingSpaces(s);
    assert ([c] + s)[1..] == s;
    assert LeadingSpaces([c] + s) == 1 + i;
    SliceCons(c, s, i, |s|);
    SliceCons(c, s, i, i + TrailingStart(s[i..]));
  }

  lemma SliceCons(c: char, s: string, a: nat, b: nat)
    requires a <= b <= |s|
    ensures ([c] + s)[1 + a..1 + b] == s[a..b]
  {
    assert forall k :: 0 <= k < b - a ==> ([c] + s)[1 + a..1 + b][k] == s[a..b][k];
  }

  /** Trimming an already trimmed string changes nothing. */
  lemma TrimTrimmed(s: string)
    requires IsTrimmed(s)
    ensures Trim(s) == s
  {
    assert LeadingSpaces(s) == 0;
    assert TrailingStart(s) == |s|;
  }

  /** The summed lengths of the parts. */
  function TotalLength(parts: seq<string>): nat {
    if parts == [] then 0 else |parts[0]| + TotalLength(parts[1..])
  }

  /** `parts.join(sep)`. */
  function Join(parts: seq<string>, sep: string): (r: string)
    ensures parts != [] ==> |r| == TotalLength(parts) + (|parts| - 1) * |sep|
  {
    if parts == [] then []
    else if |parts| == 1 then parts[0]
    else parts[0] + sep + Join(parts[1..], sep)
  }

  /** `s.split(sep)` for a one-character separator: the pieces between the
      separators, always at least one, and joining them back gives `s`. */
  function Split(s: string, sep: char): (r: seq<string>)
    ensures |r| >= 1
    ensures forall p :: p in r ==> sep !in p
    ensures Join(r, [sep]) == s
  {
    if s == [] then [[]]
    else
      var rest := Split(s[1..], sep);
      if s[0] == sep then
        assert Join([[]] + rest, [sep]) == [sep] + Join(rest, [sep]);
        [[]] + rest
      else
        var r := [[s[0]] + rest[0]] + rest[1..];
        assert r[1..] == rest[1..];
        assert Join(r, [sep]) == [s[0]] + Join(rest, [sep]);
        r
  }

  /** A string without the separator splits into itself. */
  lemma SplitNoSeparator(s: string, sep: char)
    requires sep !in s
    ensures Split(s, sep) == [s]
  {
    if s != [] {
      SplitNoSeparator(s[1..], sep);
    }
  }

  /** Splitting `a + sep + b`, where `a` has no separator, yields `a` followed by the pieces of `b`. */
  lemma {:induction false} SplitAtSeparator(a: string, sep: char, b: string)
    requires sep !in a
    ensures Split(a + [sep] + b, sep) == [a] + Split(b, sep)
  {
    var s := a + [sep] + b;
    if a == [] {
      assert s[1..] == b;
    } else {
      assert s[1..] == a[1..] + [sep] + b;
      SplitAtSeparator(a[1..], sep, b);
      assert [a[0]] + a[1..] == a;
    }
  }

  /** ASCII lower-casing of one character. */
  function ToLower(c: char): (r: char)
    ensures 'A' <= c <= 'Z' ==> 'a' <= r <= 'z' && r as int == c as int + 32
    ensures !('A' <= c <= 'Z') ==> r == c
  {
    if 'A' <= c <= 'Z' then (c as int + 32) as char else c
  }

  /** `s.toLowerCase()`, restricted to ASCII letters. */
  function Lower(s: string): (r: string)
    ensures |r| == |s|
    ensures forall i :: 0 <= i < |s| ==> r[i] == ToLower(s[i])
  {
    seq(|s|, i requires 0 <= i < |s| => ToLower(s[i]))
  }

  /** `s.startsWith(p)`. */
  predicate StartsWith(s: string, p: string) {
    |p| <= |s| && s[..|p|] == p
  }

  /** `n` occurs in `h` starting at index `i`. */
  predicate OccursAt(n: string, h: string, i: int) {
    0 <= i <= |h| - |n| && h[i..i + |n|] == n
  }

  /** `n` occurs in `h` at some index. */
  ghost predicate OccursIn(n: string, h: string) {
    exists i :: OccursAt(n, h, i)
  }

  /** An occurrence in a non-empty `h` is at its start or in its tail. */
  lemma OccursInTail(n: string, h: string)
    requires h != [] && !StartsWith(h, n)
    ensures OccursIn(n, h) <==> OccursIn(n, h[1..])
  {
    if OccursIn(n, h[1..]) {
      var i :| OccursAt(n, h[1..], i);
      assert h[i + 1..i + 1 + |n|] == h[1..][i..i + |n|];
      assert OccursAt(n, h, i + 1);
    }
    if OccursIn(n, h) {
      var i :| OccursAt(n, h, i);
      assert i != 0;
      assert h[1..][i - 1..i - 1 + |n|] == h[i..i + |n|];
      assert OccursAt(n, h[1..], i - 1);
    }
  }

  /** `h.includes(n)`. */
  function Includes(h: string, n: string): (b: bool)
    ensures b <==> OccursIn(n, h)
  {
    if StartsWith(h, n) then
      assert OccursAt(n, h, 0);
      true
    else if h == [] then
      false
    else
      OccursInTail(n, h);
      Includes(h[1..], n)
  }

  /** Every string includes the empty string. */
  lemma IncludesEmpty(h: string)
    ensures Includes(h, [])
  {
    assert OccursAt([], h, 0);
  }

  /** Lexicographic order on character codes. */
  predicate TextLe(a: string, b: string) {
    a == [] || (b != [] && (a[0] < b[0] || (a[0] == b[0] && TextLe(a[1..], b[1..]))))
  }

  lemma {:induction false} TextLeTotal(a: string, b: string)
    ensures TextLe(a, b) || TextLe(b, a)
  {
    if a != [] && b != [] && a[0] == b[0] {
      TextLeTotal(a[1..], b[1..]);
    }
  }

  lemma {:induction false} TextLeTransitive(a: string, b: string, c: string)
    requires TextLe(a, b) && TextLe(b, c)
    ensures TextLe(a, c)
  {
    if a != [] && b != [] && c != [] && a[0] == b[0] && b[0] == c[0] {
      TextLeTransitive(a[1..], b[1..], c[1..]);
    }
  }
}
