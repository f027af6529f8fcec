/**
 `slugify` of the projects page (kaya/ui/projects_page.py): the folder name
 made from a project's display name. Characters Windows forbids in file
 names are dropped, each run of whitespace becomes one space, the ends are
 trimmed, spaces become dashes, the Turkish letters are folded to ASCII,
 everything outside `[A-Za-z0-9_-]` is dropped, and an empty result
 becomes `project`.
 */
module Slug {
  import opened Text

  /** The nine characters of the first substitution's class: backslash,
      slash, star, question mark, colon, double quote, angle brackets and
      the vertical bar. */
  predicate IsForbidden(c: char) {
    c == '\\' || c == '/' || c == '*' || c == '?' || c == ':' || c == '"' || c == '<' || c == '>' || c == '|'
  }

  /** The complement of `[^A-Za-z0-9\-_]`: what the last substitution keeps. */
  predicate IsAllowed(c: char) {
    ('A' <= c <= 'Z') || ('a' <= c <= 'z') || ('0' <= c <= '9') || c == '-' || c == '_'
  }

  predicate AllAllowed(s: string) {
    forall k :: 0 <= k < |s| ==> IsAllowed(s[k])
  }

  /** The first substitution: every forbidden character is removed. */
  function DropForbidden(s: string): (r: string)
    ensures |r| <= |s|
    decreases |s|
  {
    if s == [] then []
    else if IsForbidden(s[0]) then DropForbidden(s[1..])
    else [s[0]] + DropForbidden(s[1..])
  }

  /** `re.sub(r'\s+', ' ', s)`: every maximal run of whitespace becomes a
      single space. */
  function Collapse(s: string): (r: string)
    decreases |s|
  {
    if s == [] then []
    else if IsSpace(s[0]) then
      assert StripLeft(s) == StripLeft(s[1..]);
      " " + Collapse(StripLeft(s))
    else [s[0]] + Collapse(s[1..])
  }

  /** `s.replace(' ', '-')`. */
  function Dashes(s: string): (r: string)
    ensures |r| == |s|
    ensures forall k :: 0 <= k < |s| ==> r[k] == (if s[k] == ' ' then '-' else s[k])
  {
    seq(|s|, k requires 0 <= k < |s| => if s[k] == ' ' then '-' else s[k])
  }

  /** The table `str.maketrans("çğıöşüÇĞİÖŞÜ", "cgiosuCGIOSU")`. */
  function FoldChar(c: char): char {
    if c == '\U{E7}' then 'c'
    else if c == '\U{11F}' then 'g'
    else if c == '\U{131}' then 'i'
    else if c == '\U{F6}' then 'o'
    else if c == '\U{15F}' then 's'
    else if c == '\U{FC}' then 'u'
    else if c == '\U{C7}' then 'C'
    else if c == '\U{11E}' then 'G'
    else if c == '\U{130}' then 'I'
    else if c == '\U{D6}' then 'O'
    else if c == '\U{15E}' then 'S'
    else if c == '\U{DC}' then 'U'
    else c
  }

  /** One of the twelve Turkish letters the table folds. */
  predicate IsTurkish(c: char) {
    FoldChar(c) != c
  }

  /** `s.translate(tr)`. */
  function Fold(s: string): (r: string)
    ensures |r| == |s|
    ensures forall k :: 0 <= k < |s| ==> r[k] == FoldChar(s[k])
  {
    seq(|s|, k requires 0 <= k < |s| => FoldChar(s[k]))
  }

  /** `re.sub(r'[^A-Za-z0-9\-_]+', '', s)`. */
  function KeepAllowed(s: string): (r: string)
    ensures |r| <= |s|
    ensures AllAllowed(r)
    decreases |s|
  {
    if s == [] then []
    else if IsAllowed(s[0]) then [s[0]] + KeepAllowed(s[1..])
    else KeepAllowed(s[1..])
  }

  /** Everything `slugify` does after removing the forbidden characters. */
  function Tidy(a: string): (r: string)
    ensures r != [] && AllAllowed(r)
  {
    var e := KeepAllowed(Fold(Dashes(Strip(Collapse(a)))));
    if e == [] then "project" else e
  }

  /** `slugify(name)`. */
  function Slugify(name: string): (r: string)
    ensures r != [] && AllAllowed(r)
  {
    Tidy(DropForbidden(name))
  }

  // ---------------------------------------------------------------------
  // Whitespace handling

  /** A word at the front of the text is copied unchanged. */
  lemma {:induction false} CollapseWord(t: string)
    requires t != [] && !IsSpace(t[0])
    ensures Collapse(t) == t[..WordLen(t)] + Collapse(t[WordLen(t)..])
    decreases |t|
  {
    var n := WordLen(t);
    var t1 := t[1..];
    assert Collapse(t) == [t[0]] + Collapse(t1);
    if n > 1 {
      assert WordLen(t1) == n - 1;
      CollapseWord(t1);
      assert t1[n - 1..] == t[n..];
      Regroup1(t[0], t1[..n - 1], Collapse(t[n..]));
      assert [t[0]] + t1[..n - 1] == t[..n];
    } else {
      assert t[..1] == [t[0]];
    }
  }

  lemma Regroup1(c: char, a: string, b: string)
    ensures [c] + (a + b) == ([c] + a) + b
  {
  }

  /** Trimming the left end commutes with collapsing. */
  lemma CollapseStripLeft(s: string)
    ensures StripLeft(Collapse(s)) == Collapse(StripLeft(s))
  {
    var t := StripLeft(s);
    if t != [] {
      assert Collapse(t)[0] == t[0];
    }
  }

  /** Trailing whitespace after something that survives `rstrip` is all it removes. */
  lemma {:induction false} StripRightAfter(a: string, b: string)
    requires StripRight(b) != []
    ensures StripRight(a + b) == a + StripRight(b)
    decreases |b|
  {
    var ab := a + b;
    assert ab[|ab| - 1] == b[|b| - 1];
    if IsSpace(b[|b| - 1]) {
      assert ab[..|ab| - 1] == a + b[..|b| - 1];
      StripRightAfter(a, b[..|b| - 1]);
    }
  }

  lemma JoinStartsWithWord(ws: seq<string>)
    requires ws != [] && ws[0] != []
    ensures Join(" ", ws) != []
  {
    if |ws| > 1 {
      assert |Join(" ", ws)| >= |ws[0]|;
    }
  }

  /** For text with no leading whitespace, collapsing and right-trimming
      leaves exactly its words separated by single spaces. */
  lemma {:induction false} CollapseTrimmed(t: string)
    requires t == [] || !IsSpace(t[0])
    ensures StripRight(Collapse(t)) == Join(" ", Split(t))
    decreases |t|
  {
    if t != [] {
      var n := WordLen(t);
      CollapseWord(t);
      var rest := t[n..];
      if rest == [] {
        LastWord(t);
      } else {
        var u := StripLeft(rest);
        if u == [] {
          WordThenSpaces(t);
        } else {
          CollapseTrimmed(u);
          WordThenMore(t);
        }
      }
    }
  }

  /** The first word of `t` and its last character. */
  lemma FirstWord(t: string)
    requires t != [] && !IsSpace(t[0])
    ensures var n := WordLen(t);
      && n >= 1 && Split(t) == [t[..n]] + Split(t[n..])
      && !IsSpace(t[..n][n - 1])
  {
  }

  lemma LastWord(t: string)
    requires t != [] && !IsSpace(t[0]) && WordLen(t) == |t|
    requires Collapse(t) == t[..WordLen(t)] + Collapse(t[WordLen(t)..])
    ensures StripRight(Collapse(t)) == Join(" ", Split(t))
  {
    FirstWord(t);
    var n := WordLen(t);
    assert t[n..] == [];
    assert Collapse(t) == t[..n];
    assert Split(t) == [t[..n]];
  }

  lemma WordThenSpaces(t: string)
    requires t != [] && !IsSpace(t[0]) && WordLen(t) < |t|
    requires StripLeft(t[WordLen(t)..]) == []
    requires Collapse(t) == t[..WordLen(t)] + Collapse(t[WordLen(t)..])
    ensures StripRight(Collapse(t)) == Join(" ", Split(t))
  {
    FirstWord(t);
    var n := WordLen(t);
    var word := t[..n];
    var rest := t[n..];
    SplitAfterSpaces(rest);
    assert Collapse(rest) == " ";
    assert Collapse(t) == word + " ";
    assert (word + " ")[..n] == word;
    assert Split(t) == [word];
  }

  lemma WordThenMore(t: string)
    requires t != [] && !IsSpace(t[0]) && WordLen(t) < |t|
    requires var u := StripLeft(t[WordLen(t)..]);
      u != [] && StripRight(Collapse(u)) == Join(" ", Split(u))
    requires Collapse(t) == t[..WordLen(t)] + Collapse(t[WordLen(t)..])
    ensures StripRight(Collapse(t)) == Join(" ", Split(t))
  {
    var n := WordLen(t);
    var word := t[..n];
    var u := StripLeft(t[n..]);
    AfterWord(t);
    var ws := Split(u);
    JoinStartsWithWord(ws);
    StripRightAfter(word + " ", Collapse(u));
    JoinCons(word, ws);
  }

  /** A word followed by whitespace and more text: the word, one space,
      and whatever the rest becomes. */
  lemma AfterWord(t: string)
    requires t != [] && !IsSpace(t[0]) && WordLen(t) < |t|
    requires StripLeft(t[WordLen(t)..]) != []
    requires Collapse(t) == t[..WordLen(t)] + Collapse(t[WordLen(t)..])
    ensures var n := WordLen(t);
      var u := StripLeft(t[n..]);
      && Collapse(t) == (t[..n] + " ") + Collapse(u)
      && Split(t) == [t[..n]] + Split(u)
      && Split(u) != [] && Split(u)[0] != []
  {
    FirstWord(t);
    var n := WordLen(t);
    var rest := t[n..];
    var u := StripLeft(rest);
    SplitAfterSpaces(rest);
    SpacesFirst(rest);
    Regroup2(t[..n], " ", Collapse(u));
    TextHasWord(u);
  }

  lemma SpacesFirst(s: string)
    requires s != [] && IsSpace(s[0])
    ensures Collapse(s) == " " + Collapse(StripLeft(s))
  {
  }

  lemma Regroup2(a: string, b: string, c: string)
    ensures a + (b + c) == (a + b) + c
  {
  }

  lemma TextHasWord(u: string)
    requires u != [] && !IsSpace(u[0])
    ensures Split(u) != [] && Split(u)[0] != []
  {
    assert !NoneButSpace(u);
  }

  lemma JoinCons(w: string, ws: seq<string>)
    requires ws != []
    ensures Join(" ", [w] + ws) == (w + " ") + Join(" ", ws)
  {
    assert ([w] + ws)[1..] == ws;
  }

  /** `re.sub(r'\s+', ' ', s).strip()` is `' '.join(s.split())`. */
  lemma CollapseWords(s: string)
    ensures Strip(Collapse(s)) == Join(" ", Split(s))
  {
    CollapseStripLeft(s);
    CollapseTrimmed(StripLeft(s));
    SplitAfterSpaces(s);
  }

  lemma DashesConcat(a: string, b: string)
    ensures Dashes(a + b) == Dashes(a) + Dashes(b)
  {
  }

  /** Replacing the separating spaces gives the words joined by dashes. */
  lemma {:induction false} DashesJoin(ws: seq<string>)
    requires forall k :: 0 <= k < |ws| ==> NoSpace(ws[k])
    ensures Dashes(Join(" ", ws)) == Join("-", ws)
    decreases |ws|
  {
    if ws != [] {
      assert Dashes(ws[0]) == ws[0];
      if |ws| > 1 {
        DashesJoin(ws[1..]);
        DashesConcat(ws[0] + " ", Join(" ", ws[1..]));
        DashesConcat(ws[0], " ");
      }
    }
  }

  /** The slug is built from the words of the name, joined by dashes: how
      much whitespace separates them, or surrounds them, does not matter. */
  lemma SlugifyWords(name: string)
    ensures var e := KeepAllowed(Fold(Join("-", Split(DropForbidden(name)))));
      Slugify(name) == if e == [] then "project" else e
  {
    var a := DropForbidden(name);
    CollapseWords(a);
    DashesJoin(Split(a));
  }

  // ---------------------------------------------------------------------
  // Forbidden characters, folding, idempotence

  lemma {:induction false} DropForbiddenConcat(a: string, b: string)
    ensures DropForbidden(a + b) == DropForbidden(a) + DropForbidden(b)
    decreases |a|
  {
    if a != [] {
      assert (a + b)[0] == a[0];
      assert (a + b)[1..] == a[1..] + b;
      DropForbiddenConcat(a[1..], b);
      if !IsForbidden(a[0]) {
        assert [a[0]] + (DropForbidden(a[1..]) + DropForbidden(b)) ==
               ([a[0]] + DropForbidden(a[1..])) + DropForbidden(b);
      }
    } else {
      assert a + b == b;
    }
  }

  /** A character Windows forbids, wherever it appears, has no effect. */
  lemma ForbiddenIgnored(a: string, c: char, b: string)
    requires IsForbidden(c)
    ensures Slugify(a + [c] + b) == Slugify(a + b)
  {
    DropForbiddenConcat(a + [c], b);
    DropForbiddenConcat(a, [c]);
    DropForbiddenConcat(a, b);
    assert DropForbidden([c]) == [];
    assert DropForbidden(a + [c] + b) == DropForbidden(a + b);
  }

  lemma {:induction false} KeepAllowedKeeps(s: string)
    requires AllAllowed(s)
    ensures KeepAllowed(s) == s
    decreases |s|
  {
    if s != [] {
      KeepAllowedKeeps(s[1..]);
    }
  }

  lemma {:induction false} CollapseKeepsWord(s: string)
    requires NoSpace(s)
    ensures Collapse(s) == s
    decreases |s|
  {
    if s != [] {
      CollapseKeepsWord(s[1..]);
    }
  }

  /** A single word without forbidden characters passes the whitespace
      steps unchanged. */
  lemma TidyWord(s: string)
    requires NoSpace(s)
    ensures var e := KeepAllowed(Fold(s));
      Tidy(s) == if e == [] then "project" else e
  {
    CollapseKeepsWord(s);
    NoSpaceStrip(s);
    assert Dashes(s) == s by {
      assert forall k :: 0 <= k < |s| ==> s[k] != ' ';
    }
  }

  lemma AllowedIsPlain(s: string)
    requires AllAllowed(s)
    ensures NoSpace(s)
    ensures forall k :: 0 <= k < |s| ==> !IsForbidden(s[k])
    ensures Fold(s) == s
  {
  }

  /** A non-empty string of allowed characters is its own slug. */
  lemma SlugFixesAllowed(s: string)
    requires s != [] && AllAllowed(s)
    ensures Slugify(s) == s
  {
    AllowedIsPlain(s);
    NoForbiddenKept(s);
    TidyWord(s);
    KeepAllowedKeeps(s);
  }

  /** Slugifying a slug changes nothing. */
  lemma SlugifyIdempotent(name: string)
    ensures Slugify(Slugify(name)) == Slugify(name)
  {
    SlugFixesAllowed(Slugify(name));
  }

  predicate IsLetterOrTurkish(c: char) {
    ('A' <= c <= 'Z') || ('a' <= c <= 'z') || IsTurkish(c)
  }

  /** A one-word name in Latin or Turkish letters keeps every letter, with
      the Turkish ones folded to their ASCII base letters. */
  lemma TurkishFolded(s: string)
    requires s != [] && forall k :: 0 <= k < |s| ==> IsLetterOrTurkish(s[k])
    ensures Slugify(s) == Fold(s)
  {
    LettersArePlain(s);
    NoForbiddenKept(s);
    TidyWord(s);
    KeepAllowedKeeps(Fold(s));
  }

  lemma LettersArePlain(s: string)
    requires forall k :: 0 <= k < |s| ==> IsLetterOrTurkish(s[k])
    ensures NoSpace(s)
    ensures forall k :: 0 <= k < |s| ==> !IsForbidden(s[k])
    ensures AllAllowed(Fold(s))
  {
  }

  lemma {:induction false} NoForbiddenKept(s: string)
    requires forall k :: 0 <= k < |s| ==> !IsForbidden(s[k])
    ensures DropForbidden(s) == s
    decreases |s|
  {
    if s != [] {
      NoForbiddenKept(s[1..]);
    }
  }
}
