/**
 The handful of Python `str` operations the program relies on:
 `str.isspace`, `str.split()` with no separator, `str.strip()`,
 `str.lower()`, `sep.join(...)`, `x in s` and `str(int)`.
 */
module Text {

  /** Python's `str.isspace` for one character. The same set is used by
      `str.split()`, `str.strip()` and the regular-expression class `\s`. */
  predicate IsSpace(c: char) {
    if c <= ' ' then c == ' ' || '\t' <= c <= '\r' || '\U{1C}' <= c
    else
      '\U{85}' <= c &&
      (|| c == '\U{85}' || c == '\U{A0}' || c == '\U{1680}'
       || ('\U{2000}' <= c <= '\U{200A}')
       || c == '\U{2028}' || c == '\U{2029}' || c == '\U{202F}' || c == '\U{205F}' || c == '\U{3000}')
  }

  predicate NoSpace(s: string) {
    forall k :: 0 <= k < |s| ==> !IsSpace(s[k])
  }

  /** Length of the longest prefix of `s` free of whitespace. */
  function WordLen(s: string): (n: nat)
    ensures n <= |s|
    ensures forall k :: 0 <= k < n ==> !IsSpace(s[k])
    ensures n == |s| || IsSpace(s[n])
  {
    if s == [] || IsSpace(s[0]) then 0 else 1 + WordLen(s[1..])
  }

  /** Python's `s.split()`: the maximal runs of non-whitespace, in order. */
  function Split(s: string): (ws: seq<string>)
    ensures forall k :: 0 <= k < |ws| ==> ws[k] != [] && NoSpace(ws[k])
    ensures ws == [] <==> NoneButSpace(s)
    decreases |s|
  {
    if s == [] then []
    else if IsSpace(s[0]) then Split(s[1..])
    else
      var n := WordLen(s);
      [s[..n]] + Split(s[n..])
  }

  predicate NoneButSpace(s: string) {
    forall k :: 0 <= k < |s| ==> IsSpace(s[k])
  }

  /** Python's `s.lstrip()`. */
  function StripLeft(s: string): (r: string)
    ensures |r| <= |s|
    ensures r == [] || !IsSpace(r[0])
  {
    if s != [] && IsSpace(s[0]) then StripLeft(s[1..]) else s
  }

  /** Python's `s.rstrip()`. */
  function StripRight(s: string): (r: string)
    ensures |r| <= |s|
    ensures r == [] || !IsSpace(r[|r| - 1])
  {
    if s != [] && IsSpace(s[|s| - 1]) then StripRight(s[..|s| - 1]) else s
  }

  /** Python's `s.strip()`. */
  function Strip(s: string): string {
    StripRight(StripLeft(s))
  }

  /** Python's `str.lower` on one character; only ASCII letters are mapped. */
  function LowerChar(c: char): char {
    if 'A' <= c <= 'Z' then (c as int + 32) as char else c
  }

  function Lower(s: string): (r: string)
    ensures |r| == |s|
    ensures forall k :: 0 <= k < |s| ==> r[k] == LowerChar(s[k])
  {
    seq(|s|, k requires 0 <= k < |s| => LowerChar(s[k]))
  }

  /** Python's `sep.join(ws)`. */
  function Join(sep: string, ws: seq<string>): string
    decreases |ws|
  {
    if ws == [] then ""
    else if |ws| == 1 then ws[0]
    else ws[0] + sep + Join(sep, ws[1..])
  }

  /** Python's `q in s` for strings: `q` occurs as a contiguous piece of `s`. */
  predicate Contains(s: string, q: string) {
    exists k :: 0 <= k <= |s| - |q| && OccursAt(s, q, k)
  }

  predicate OccursAt(s: string, q: string, k: int)
    requires 0 <= k <= |s| - |q|
  {
    s[k..k + |q|] == q
  }

  predicate StartsWith(s: string, prefix: string) {
    |prefix| <= |s| && s[..|prefix|] == prefix
  }

  predicate EndsWith(s: string, suffix: string) {
    |suffix| <= |s| && s[|s| - |suffix|..] == suffix
  }

  function Concat(ss: seq<string>): string
    decreases |ss|
  {
    if ss == [] then "" else ss[0] + Concat(ss[1..])
  }

  function DigitChar(d: nat): char
    requires d < 10
  {
    ('0' as int + d) as char
  }

  /** Python's `str(n)` for a natural number. */
  function NatToDec(n: nat): (s: string)
    ensures |s| >= 1
    ensures n >= 10 ==> |s| >= 2
    ensures forall k :: 0 <= k < |s| ==> '0' <= s[k] <= '9'
  {
    if n < 10 then [DigitChar(n)] else NatToDec(n / 10) + [DigitChar(n % 10)]
  }

  /** Python's `str(i)` for an integer. */
  function IntToDec(i: int): string {
    if i < 0 then "-" + NatToDec(-i) else NatToDec(i)
  }

  // ---------------------------------------------------------------------
  // Facts about the helpers

  /** `rstrip` removes a whitespace-only tail and nothing else. */
  lemma {:induction false} StripRightParts(s: string)
    ensures s == StripRight(s) + s[|StripRight(s)|..]
    ensures StripRight(s) == s[..|StripRight(s)|]
    ensures NoneButSpace(s[|StripRight(s)|..])
    decreases |s|
  {
    if s != [] && IsSpace(s[|s| - 1]) {
      StripRightParts(s[..|s| - 1]);
    }
  }

  lemma {:induction false} LowerIdempotent(s: string)
    ensures Lower(Lower(s)) == Lower(s)
  {
  }

  lemma LowerConcat(a: string, b: string)
    ensures Lower(a + b) == Lower(a) + Lower(b)
  {
  }

  lemma LowerKeepsSpace(s: string)
    ensures forall k :: 0 <= k < |s| ==> (IsSpace(Lower(s)[k]) <==> IsSpace(s[k]))
  {
  }

  lemma {:induction false} StripLeftLower(s: string)
    ensures StripLeft(Lower(s)) == Lower(StripLeft(s))
    decreases |s|
  {
    if s != [] {
      assert Lower(s)[1..] == Lower(s[1..]);
      if IsSpace(s[0]) {
        StripLeftLower(s[1..]);
      }
    }
  }

  lemma {:induction false} StripRightLower(s: string)
    ensures StripRight(Lower(s)) == Lower(StripRight(s))
    decreases |s|
  {
    if s != [] {
      assert Lower(s)[..|s| - 1] == Lower(s[..|s| - 1]);
      if IsSpace(s[|s| - 1]) {
        StripRightLower(s[..|s| - 1]);
      }
    }
  }

  /** Lower-casing and trimming commute, so `x.strip().lower()` is trimmed. */
  lemma StripLower(s: string)
    ensures Strip(Lower(s)) == Lower(Strip(s))
    ensures Strip(Lower(Strip(s))) == Lower(Strip(s))
  {
    StripLeftLower(s);
    StripRightLower(StripLeft(s));
    StripLeftLower(Strip(s));
    StripRightLower(StripLeft(Strip(s)));
    StripIdempotent(s);
  }

  lemma StripIdempotent(s: string)
    ensures Strip(Strip(s)) == Strip(s)
  {
    var l := StripLeft(s);
    var r := Strip(s);
    StripRightParts(l);
    if r != [] {
      assert r[0] == l[0];
      assert StripLeft(r) == r;
    }
  }

  lemma NoSpaceStrip(s: string)
    requires NoSpace(s)
    ensures StripLeft(s) == s && StripRight(s) == s && Strip(s) == s
  {
    if s != [] {
      assert !IsSpace(s[0]) && !IsSpace(s[|s| - 1]);
    }
  }

  /** Left-trimming removes a whitespace-only string entirely. */
  lemma {:induction false} AllSpaceStripLeft(w: string)
    requires NoneButSpace(w)
    ensures StripLeft(w) == []
    decreases |w|
  {
    if w != [] {
      AllSpaceStripLeft(w[1..]);
    }
  }

  lemma {:induction false} WordLenAppend(a: string, b: string)
    requires NoSpace(a)
    requires b == [] || IsSpace(b[0])
    ensures WordLen(a + b) == |a|
    decreases |a|
  {
    if a != [] {
      assert (a + b)[1..] == a[1..] + b;
      WordLenAppend(a[1..], b);
    }
  }

  /** `sep.join` of words is undone by `split()` when the separator is a space. */
  lemma {:induction false} SplitJoin(ws: seq<string>)
    requires forall k :: 0 <= k < |ws| ==> ws[k] != [] && NoSpace(ws[k])
    ensures Split(Join(" ", ws)) == ws
    decreases |ws|
  {
    if ws == [] {
    } else if |ws| == 1 {
      var s := ws[0];
      WordLenAppend(s, "");
      assert s + "" == s;
      assert s[|s|..] == [];
    } else {
      var s := Join(" ", ws);
      var rest := Join(" ", ws[1..]);
      assert s == ws[0] + (" " + rest);
      WordLenAppend(ws[0], " " + rest);
      assert !IsSpace(s[0]);
      assert s[..|ws[0]|] == ws[0];
      assert s[|ws[0]|..] == " " + rest;
      assert (" " + rest)[1..] == rest;
      SplitJoin(ws[1..]);
    }
  }

  lemma {:induction false} SplitAfterSpaces(s: string)
    ensures Split(StripLeft(s)) == Split(s)
    decreases |s|
  {
    if s != [] && IsSpace(s[0]) {
      SplitAfterSpaces(s[1..]);
    }
  }

  lemma {:induction false} WordLenPrefix(a: string, b: string)
    requires WordLen(a) < |a|
    ensures WordLen(a + b) == WordLen(a)
    decreases |a|
  {
    if !IsSpace(a[0]) {
      assert (a + b)[1..] == a[1..] + b;
      WordLenPrefix(a[1..], b);
    }
  }

  /** Trailing whitespace never changes what `split()` returns. */
  lemma {:induction false} SplitTrailingSpaces(a: string, w: string)
    requires NoneButSpace(w)
    ensures Split(a + w) == Split(a)
    decreases |a|
  {
    if a == [] {
      assert a + w == w;
    } else if IsSpace(a[0]) {
      assert (a + w)[1..] == a[1..] + w;
      SplitTrailingSpaces(a[1..], w);
    } else {
      var n := WordLen(a);
      if n < |a| {
        WordLenPrefix(a, w);
        assert (a + w)[..n] == a[..n];
        assert (a + w)[n..] == a[n..] + w;
        SplitTrailingSpaces(a[n..], w);
      } else {
        WordLenAppend(a, w);
        assert (a + w)[0] == a[0];
        assert (a + w)[..n] == a[..n];
        assert (a + w)[n..] == w;
        assert a[n..] == [];
        assert Split(w) == [];
        assert Split(a + w) == [a[..n]] + Split(w);
      }
    }
  }

  /** `s.strip().split()` is `s.split()`. */
  lemma SplitStrip(s: string)
    ensures Split(Strip(s)) == Split(s)
  {
    var l := StripLeft(s);
    SplitAfterSpaces(s);
    var r := StripRight(l);
    StripRightParts(l);
    SplitTrailingSpaces(r, l[|r|..]);
  }

  lemma {:induction false} NatToDecInjective(a: nat, b: nat)
    requires NatToDec(a) == NatToDec(b)
    ensures a == b
    decreases a
  {
    if a >= 10 && b >= 10 {
      var sa, sb := NatToDec(a), NatToDec(b);
      assert sa[|sa| - 1] == sb[|sb| - 1];
      assert sa[..|sa| - 1] == NatToDec(a / 10);
      assert sb[..|sb| - 1] == NatToDec(b / 10);
      NatToDecInjective(a / 10, b / 10);
    }
  }

  lemma ConcatAppend(ss: seq<string>, t: string)
    ensures Concat(ss + [t]) == Concat(ss) + t
  {
    if ss != [] {
      assert (ss + [t])[1..] == ss[1..] + [t];
      ConcatAppend(ss[1..], t);
    }
  }
}
