/** The Python `str` operations the bridge relies on: split, strip, rstrip, lower, startswith, ordering. */
module Strings {

  /** Number of occurrences of `c` in `s`. */
  function Count(s: string, c: char): nat
  {
    if s == [] then 0 else (if s[0] == c then 1 else 0) + Count(s[1..], c)
  }

  /** `sep.join(parts)` for a one-character separator. */
  function Join(parts: seq<string>, sep: char): string
    requires |parts| >= 1
  {
    if |parts| == 1 then parts[0] else parts[0] + [sep] + Join(parts[1..], sep)
  }

  /** `s.split(sep)` for a one-character separator: one more part than there are separators,
      no part contains the separator, and joining the parts gives back `s`. */
  function Split(s: string, sep: char): (parts: seq<string>)
    ensures |parts| == Count(s, sep) + 1
    ensures forall i :: 0 <= i < |parts| ==> sep !in parts[i]
    ensures Join(parts, sep) == s
    decreases |s|
  {
    if s == [] then [""]
    else
      var rest := Split(s[1..], sep);
      if s[0] == sep then
        [""] + rest
      else
        var parts := [[s[0]] + rest[0]] + rest[1..];
        assert parts[1..] == rest[1..];
        assert s == [s[0]] + s[1..];
        parts
  }

  /** With no separator in `s`, the split is `[s]`. */
  lemma {:induction false} SplitWithout(s: string, sep: char)
    requires sep !in s
    ensures Split(s, sep) == [s]
    decreases |s|
  {
    if s != [] {
      SplitWithout(s[1..], sep);
      assert s == [s[0]] + s[1..];
    }
  }

  /** One separator between two separator-free parts splits into exactly those parts. */
  lemma {:induction false} SplitAround(a: string, b: string, sep: char)
    requires sep !in a && sep !in b
    ensures Split(a + [sep] + b, sep) == [a, b]
    decreases |a|
  {
    var s := a + [sep] + b;
    if a == [] {
      assert s[1..] == b;
      SplitWithout(b, sep);
    } else {
      assert s[1..] == a[1..] + [sep] + b;
      SplitAround(a[1..], b, sep);
      assert a == [a[0]] + a[1..];
    }
  }

  /** Python's `str.isspace()` for one character: the Unicode whitespace characters. */
  predicate IsSpace(c: char)
  {
    var n := c as int;
    n == 0x20 || (0x09 <= n <= 0x0D) || (0x1C <= n <= 0x1F) || n == 0x85 || n == 0xA0
    || n == 0x1680 || (0x2000 <= n <= 0x200A) || n == 0x2028 || n == 0x2029
    || n == 0x202F || n == 0x205F || n == 0x3000
  }

  /** `s.lstrip()`: drops the leading whitespace. */
  function StripStart(s: string): (r: string)
    ensures |r| <= |s|
    decreases |s|
  {
    if s != [] && IsSpace(s[0]) then StripStart(s[1..]) else s
  }

  /** `s.rstrip(c)` for a single character, or `s.rstrip()` when `space` holds. */
  function StripEnd(s: string, space: bool, c: char): (r: string)
    ensures |r| <= |s|
    decreases |s|
  {
    if s != [] && (if space then IsSpace(s[|s| - 1]) else s[|s| - 1] == c) then StripEnd(s[..|s| - 1], space, c)
    else s
  }

  /** What `StripEnd` drops: which characters count. */
  predicate Dropped(x: char, space: bool, c: char)
  {
    if space then IsSpace(x) else x == c
  }

  /** `s.strip()`. */
  function Strip(s: string): string
  {
    StripEnd(StripStart(s), true, ' ')
  }

  /** `s.rstrip(c)` for a single character. */
  function RStripChar(s: string, c: char): string
  {
    StripEnd(s, false, c)
  }

  /** Stripping the start leaves a suffix, having dropped only whitespace and stopped at a
      character that is not whitespace. */
  lemma {:induction false} StripStartSpec(s: string)
    ensures var r := StripStart(s);
      |r| <= |s| && r == s[|s| - |r|..]
      && (forall i :: 0 <= i < |s| - |r| ==> IsSpace(s[i]))
      && (r == [] || !IsSpace(r[0]))
    decreases |s|
  {
    if s != [] && IsSpace(s[0]) {
      StripStartSpec(s[1..]);
      var r := StripStart(s[1..]);
      assert s[1..][|s[1..]| - |r|..] == s[|s| - |r|..];
      forall i | 1 <= i < |s| - |r| ensures IsSpace(s[i]) {
        assert s[i] == s[1..][i - 1];
      }
    }
  }

  /** Stripping the end leaves a prefix, having dropped only the stripped characters and stopped
      at one that is not stripped. */
  lemma {:induction false} StripEndSpec(s: string, space: bool, c: char)
    ensures var r := StripEnd(s, space, c);
      |r| <= |s| && r == s[..|r|]
      && (forall i :: |r| <= i < |s| ==> Dropped(s[i], space, c))
      && (r == [] || !Dropped(r[|r| - 1], space, c))
    decreases |s|
  {
    if s != [] && Dropped(s[|s| - 1], space, c) {
      var init := s[..|s| - 1];
      StripEndSpec(init, space, c);
      var r := StripEnd(init, space, c);
      assert init[..|r|] == s[..|r|];
      forall i | |r| <= i < |s| - 1 ensures Dropped(s[i], space, c) {
        assert s[i] == init[i];
      }
    }
  }

  /** `s.strip()` is the part of `s` between its leading and trailing whitespace: everything
      dropped before and after it is whitespace, it has no whitespace at either end, and so
      stripping twice is stripping once. */
  lemma StripSpec(s: string)
    ensures var r := Strip(s); var i := |s| - |StripStart(s)|;
      i + |r| <= |s| && r == s[i..i + |r|]
      && (forall j :: 0 <= j < i ==> IsSpace(s[j]))
      && (forall j :: i + |r| <= j < |s| ==> IsSpace(s[j]))
      && (r == [] || (!IsSpace(r[0]) && !IsSpace(r[|r| - 1])))
      && Strip(r) == r
  {
    StripSlice(s);
    StripIdempotent(Strip(s));
  }

  lemma StripSlice(s: string)
    ensures var r := Strip(s); var i := |s| - |StripStart(s)|;
      i + |r| <= |s| && r == s[i..i + |r|]
      && (forall j :: 0 <= j < i ==> IsSpace(s[j]))
      && (forall j :: i + |r| <= j < |s| ==> IsSpace(s[j]))
      && (r == [] || (!IsSpace(r[0]) && !IsSpace(r[|r| - 1])))
  {
    StripEnds(s);
    StripDropsSpace(s);
  }

  lemma StripEnds(s: string)
    ensures var r := Strip(s); var i := |s| - |StripStart(s)|;
      i + |r| <= |s| && r == s[i..i + |r|]
      && (r == [] || (!IsSpace(r[0]) && !IsSpace(r[|r| - 1])))
  {
    var t := StripStart(s);
    var r := StripEnd(t, true, ' ');
    StripStartSpec(s);
    StripEndSpec(t, true, ' ');
    var i := |s| - |t|;
    assert r == t[..|r|];
    assert t == s[i..];
    assert r == s[i..i + |r|];
    if r != [] {
      assert r[0] == t[0];
    }
  }

  /** What `strip()` drops, before and after what it keeps, is whitespace. */
  lemma StripDropsSpace(s: string)
    ensures var r := Strip(s); var i := |s| - |StripStart(s)|;
      (forall j :: 0 <= j < i ==> IsSpace(s[j]))
      && (forall j :: i + |r| <= j < |s| ==> IsSpace(s[j]))
  {
    var t := StripStart(s);
    var r := StripEnd(t, true, ' ');
    StripStartSpec(s);
    StripEndSpec(t, true, ' ');
    var i := |s| - |t|;
    forall j | i + |r| <= j < |s| ensures IsSpace(s[j]) {
      assert s[j] == t[j - i];
      assert Dropped(t[j - i], true, ' ');
    }
  }

  lemma StripIdempotent(r: string)
    requires r == [] || (!IsSpace(r[0]) && !IsSpace(r[|r| - 1]))
    ensures Strip(r) == r
  {
    assert StripStart(r) == r;
    assert StripEnd(r, true, ' ') == r;
  }

  /** `s.rstrip(c)` is the prefix of `s` left by dropping its trailing `c`s. */
  lemma RStripCharSpec(s: string, c: char)
    ensures var r := RStripChar(s, c);
      |r| <= |s| && r == s[..|r|]
      && (forall i :: |r| <= i < |s| ==> s[i] == c)
      && (r == [] || r[|r| - 1] != c)
  {
    StripEndSpec(s, false, c);
  }

  function LowerChar(c: char): char
  {
    if 'A' <= c <= 'Z' then (c as int + 32) as char else c
  }

  /** `s.lower()` on the ASCII letters. */
  function Lower(s: string): string
  {
    seq(|s|, i requires 0 <= i < |s| => LowerChar(s[i]))
  }

  /** `s.lower().strip()`, how the bridge normalises every console answer. */
  function Normalize(s: string): string
  {
    Strip(Lower(s))
  }

  /** Every character of `s` is whitespace. */
  predicate AllSpace(s: string)
  {
    forall i :: 0 <= i < |s| ==> IsSpace(s[i])
  }

  /** Lower-casing works character by character and leaves whitespace alone. */
  lemma LowerPadded(pre: string, w: string, post: string)
    requires AllSpace(pre) && AllSpace(post)
    ensures Lower(pre + w + post) == pre + Lower(w) + post
  {
    var s := pre + w + post;
    forall i | 0 <= i < |s| ensures Lower(s)[i] == (pre + Lower(w) + post)[i] {
      if i < |pre| {
        assert IsSpace(pre[i]);
      } else if i >= |pre| + |w| {
        assert IsSpace(post[i - |pre| - |w|]);
      }
    }
  }

  lemma {:induction false} StripStartPadded(pre: string, w: string)
    requires AllSpace(pre) && (w == [] || !IsSpace(w[0]))
    ensures StripStart(pre + w) == w
    decreases |pre|
  {
    if pre == [] {
      assert pre + w == w;
    } else {
      assert IsSpace(pre[0]);
      assert (pre + w)[1..] == pre[1..] + w;
      assert AllSpace(pre[1..]) by {
        forall i | 0 <= i < |pre[1..]| ensures IsSpace(pre[1..][i]) { assert pre[1..][i] == pre[i + 1]; }
      }
      StripStartPadded(pre[1..], w);
    }
  }

  lemma {:induction false} StripEndPadded(w: string, post: string)
    requires AllSpace(post) && (w == [] || !IsSpace(w[|w| - 1]))
    ensures StripEnd(w + post, true, ' ') == w
    decreases |post|
  {
    if post == [] {
      assert w + post == w;
    } else {
      var n := |post| - 1;
      assert IsSpace(post[n]);
      assert (w + post)[..|w + post| - 1] == w + post[..n];
      assert AllSpace(post[..n]) by {
        forall i | 0 <= i < n ensures IsSpace(post[..n][i]) { assert post[..n][i] == post[i]; }
      }
      StripEndPadded(w, post[..n]);
    }
  }

  /** Whitespace alone strips to nothing. */
  lemma StripBlank(s: string)
    ensures AllSpace(s) ==> Strip(s) == ""
  {
    if AllSpace(s) {
      assert s + [] == s;
      StripStartPadded(s, []);
    }
  }

  /** Whatever whitespace surrounds a word with no whitespace at its ends, `strip()` gives back
      the word. */
  lemma StripPadded(pre: string, w: string, post: string)
    requires AllSpace(pre) && AllSpace(post) && w != [] && !IsSpace(w[0]) && !IsSpace(w[|w| - 1])
    ensures Strip(pre + w + post) == w
  {
    assert pre + w + post == pre + (w + post);
    StripStartPadded(pre, w + post);
    StripEndPadded(w, post);
  }

  /** `s.startswith(p)`. */
  predicate StartsWith(s: string, p: string)
  {
    |p| <= |s| && s[..|p|] == p
  }

  /** `a < b` on Python strings: lexicographic by code point, a proper prefix being smaller. */
  predicate LexLess(a: string, b: string)
    decreases |a|
  {
    if a == [] then b != []
    else if b == [] then false
    else if a[0] != b[0] then a[0] < b[0]
    else LexLess(a[1..], b[1..])
  }

  lemma {:induction false} LexLessIrreflexive(a: string)
    ensures !LexLess(a, a)
    decreases |a|
  {
    if a != [] { LexLessIrreflexive(a[1..]); }
  }

  lemma {:induction false} LexLessTransitive(a: string, b: string, c: string)
    requires LexLess(a, b) && LexLess(b, c)
    ensures LexLess(a, c)
    decreases |a|
  {
    if a != [] && b != [] && c != [] && a[0] == b[0] && b[0] == c[0] {
      LexLessTransitive(a[1..], b[1..], c[1..]);
    }
  }

  lemma {:induction false} LexLessTotal(a: string, b: string)
    requires a != b
    ensures LexLess(a, b) || LexLess(b, a)
    decreases |a|
  {
    if a != [] && b != [] && a[0] == b[0] {
      assert a == [a[0]] + a[1..] && b == [b[0]] + b[1..];
      LexLessTotal(a[1..], b[1..]);
    }
  }
}
