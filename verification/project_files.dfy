/**
 The file helpers of the projects page (kaya/ui/projects_page.py):
 `ensure_unique_path`, the extension tests `is_image_file` and
 `is_textish_file`, and the rule by which the project explorer hides the
 metadata folder and dot-files. The file system is a parameter: the set of
 paths that exist.
 */
module ProjectFiles {
  import opened Text

  /** A path as `parent / name`. */
  datatype FsPath = FsPath(parent: string, name: string)

  /** `name.rfind('.')`: the index of the last dot, or -1. */
  function LastDot(s: string): (i: int)
    ensures -1 <= i < |s|
    ensures i >= 0 ==> s[i] == '.'
    ensures forall k :: i < k < |s| ==> s[k] != '.'
    decreases |s|
  {
    if s == [] then -1
    else if s[|s| - 1] == '.' then |s| - 1
    else LastDot(s[..|s| - 1])
  }

  /** Whether `Path.suffix` is non-empty: a last dot that is neither the
      first nor the last character. */
  predicate HasSuffix(name: string) {
    0 < LastDot(name) < |name| - 1
  }

  /** `Path.suffix`. */
  function Suffix(name: string): string {
    if HasSuffix(name) then name[LastDot(name)..] else ""
  }

  /** `Path.stem`. */
  function Stem(name: string): string {
    if HasSuffix(name) then name[..LastDot(name)] else name
  }

  /** `parent / f"{stem} ({i}){suf}"`. */
  function Candidate(p: FsPath, i: nat): FsPath {
    FsPath(p.parent, Stem(p.name) + " (" + NatToDec(i) + ")" + Suffix(p.name))
  }

  /** `ensure_unique_path(p)`: `p` itself when free, otherwise the first of
      `stem (1)suf`, `stem (2)suf`, ... that is free. The loop ends because
      the candidates are pairwise distinct and only finitely many paths
      exist. */
  method EnsureUniquePath(p: FsPath, existing: set<FsPath>) returns (r: FsPath)
    ensures r !in existing
    ensures r.parent == p.parent
    ensures p !in existing ==> r == p
    ensures p in existing ==>
      exists i :: i >= 1 && r == Candidate(p, i) && forall j :: 1 <= j < i ==> Candidate(p, j) in existing
  {
    if p !in existing {
      return p;
    }
    var i: nat := 1;
    ghost var tried: set<FsPath> := {};
    while Candidate(p, i) in existing
      invariant i >= 1
      invariant tried <= existing && |tried| == i - 1 && |tried| <= |existing|
      invariant forall j :: 1 <= j < i ==> Candidate(p, j) in tried
      invariant forall q :: q in tried ==> exists j :: 1 <= j < i && q == Candidate(p, j)
      decreases |existing| - |tried|
    {
      NewCandidate(p, i, tried);
      tried := tried + {Candidate(p, i)};
      SubsetSize(tried, existing);
      i := i + 1;
    }
    r := Candidate(p, i);
  }

  lemma {:induction false} SubsetSize<T>(a: set<T>, b: set<T>)
    requires a <= b
    ensures |a| <= |b|
    decreases |a|
  {
    if a != {} {
      var x :| x in a;
      SubsetSize(a - {x}, b - {x});
    }
  }

  lemma NewCandidate(p: FsPath, i: nat, tried: set<FsPath>)
    requires forall q :: q in tried ==> exists j :: 1 <= j < i && q == Candidate(p, j)
    ensures Candidate(p, i) !in tried
  {
    if Candidate(p, i) in tried {
      var j :| 1 <= j < i && Candidate(p, i) == Candidate(p, j);
      CandidateInjective(p, i, j);
    }
  }

  /** Different numbers give different candidates. */
  lemma CandidateInjective(p: FsPath, i: nat, j: nat)
    requires Candidate(p, i) == Candidate(p, j)
    ensures i == j
  {
    var a := Stem(p.name) + " (";
    var b := ")" + Suffix(p.name);
    var x := a + NatToDec(i) + b;
    var y := a + NatToDec(j) + b;
    assert Candidate(p, i).name == x && Candidate(p, j).name == y;
    assert |NatToDec(i)| == |NatToDec(j)|;
    assert x[|a|..|a| + |NatToDec(i)|] == NatToDec(i);
    assert y[|a|..|a| + |NatToDec(j)|] == NatToDec(j);
    NatToDecInjective(i, j);
  }

  // ---------------------------------------------------------------------
  // File kinds

  const ImageSuffixes: set<string> := {".png", ".jpg", ".jpeg", ".gif", ".bmp", ".webp"}
  const TextSuffixes: set<string> :=
    {".md", ".txt", ".json", ".py", ".js", ".ts", ".html", ".css", ".csv", ".yaml", ".yml"}

  /** `is_image_file(path)`. */
  predicate IsImageFile(p: FsPath) {
    Lower(Suffix(p.name)) in ImageSuffixes
  }

  /** `is_textish_file(path)`. */
  predicate IsTextishFile(p: FsPath) {
    Lower(Suffix(p.name)) in TextSuffixes
  }

  /** The stem and the suffix together are the whole name. */
  lemma StemSuffix(name: string)
    ensures Stem(name) + Suffix(name) == name
    ensures Suffix(name) == "" || (Suffix(name)[0] == '.' && |Suffix(name)| >= 2)
    ensures forall k :: 1 <= k < |Suffix(name)| ==> Suffix(name)[k] != '.'
  {
  }

  /** No file is both an image and text. */
  lemma KindsDisjoint(p: FsPath)
    ensures !(IsImageFile(p) && IsTextishFile(p))
  {
  }

  lemma {:induction false} LastDotLower(s: string)
    ensures LastDot(Lower(s)) == LastDot(s)
    decreases |s|
  {
    if s != [] {
      assert Lower(s)[..|s| - 1] == Lower(s[..|s| - 1]);
      LastDotLower(s[..|s| - 1]);
    }
  }

  /** The extension test ignores the case of the file name. */
  lemma KindIgnoresCase(p: FsPath)
    ensures IsImageFile(p.(name := Lower(p.name))) == IsImageFile(p)
    ensures IsTextishFile(p.(name := Lower(p.name))) == IsTextishFile(p)
  {
    var n := p.name;
    LastDotLower(n);
    if HasSuffix(n) {
      assert Suffix(Lower(n)) == Lower(Suffix(n));
      LowerIdempotent(Suffix(n));
    }
  }

  /** A numbered copy is the same kind of file as the original: with an
      extension it keeps the extension, and without one it gains none that
      either test accepts. */
  lemma CandidateKeepsKind(p: FsPath, i: nat)
    ensures IsImageFile(Candidate(p, i)) == IsImageFile(p)
    ensures IsTextishFile(Candidate(p, i)) == IsTextishFile(p)
  {
    var c := Candidate(p, i).name;
    if HasSuffix(p.name) {
      CandidateSuffix(p, i);
    } else {
      CandidateNoSuffix(p, i);
    }
  }

  lemma CandidateSuffix(p: FsPath, i: nat)
    requires HasSuffix(p.name)
    ensures Suffix(Candidate(p, i).name) == Suffix(p.name)
  {
    var suf := Suffix(p.name);
    var head := Stem(p.name) + " (" + NatToDec(i) + ")";
    var c := head + suf;
    StemSuffix(p.name);
    assert c[|head|] == '.';
    assert forall k :: |head| < k < |c| ==> c[k] != '.' by {
      forall k | |head| < k < |c| ensures c[k] != '.' {
        assert c[k] == suf[k - |head|];
      }
    }
    LastDotAt(c, |head|);
    assert c[|head|..] == suf;
  }

  lemma LastDotAt(s: string, i: int)
    requires 0 <= i < |s| && s[i] == '.'
    requires forall k :: i < k < |s| ==> s[k] != '.'
    ensures LastDot(s) == i
  {
  }

  lemma CandidateNoSuffix(p: FsPath, i: nat)
    requires !HasSuffix(p.name)
    ensures !IsImageFile(Candidate(p, i)) && !IsTextishFile(Candidate(p, i))
  {
    var c := Candidate(p, i).name;
    assert c == p.name + " (" + NatToDec(i) + ")";
    assert c[|c| - 1] == ')';
    if HasSuffix(c) {
      var s := Suffix(c);
      assert s[|s| - 1] == ')';
      assert Lower(s)[|s| - 1] == ')';
    }
  }

  // ---------------------------------------------------------------------
  // What the project explorer shows

  /** A row of the file-system model: an invalid index, or a path given by
      its components. */
  datatype Row = Invalid | Entry(parts: seq<string>)

  predicate IsPrefix(root: seq<string>, path: seq<string>) {
    |root| <= |path| && path[..|root|] == root
  }

  /** `any(part.startswith(".") for part in parts)`. */
  function AnyDotted(parts: seq<string>): bool
    decreases |parts|
  {
    parts != [] && (StartsWith(parts[0], ".") || AnyDotted(parts[1..]))
  }

  /** `filterAcceptsRow`: invalid rows are kept; paths outside the project
      folder (where `relative_to` raises) are hidden; below the folder a
      path is hidden when any component starts with a dot. */
  function Accepts(root: seq<string>, row: Row): bool {
    match row
    case Invalid => true
    case Entry(path) => IsPrefix(root, path) && !AnyDotted(path[|root|..])
  }

  lemma {:induction false} AnyDottedExists(parts: seq<string>)
    ensures AnyDotted(parts) <==> exists k :: 0 <= k < |parts| && StartsWith(parts[k], ".")
    decreases |parts|
  {
    if parts != [] {
      AnyDottedExists(parts[1..]);
      assert forall k :: 1 <= k < |parts| ==> parts[1..][k - 1] == parts[k];
    }
  }

  /** A path is shown exactly when it lies in the project folder and no
      component below the folder starts with a dot. */
  lemma AcceptsExactly(root: seq<string>, path: seq<string>)
    ensures Accepts(root, Entry(path)) <==>
      IsPrefix(root, path) && forall k :: |root| <= k < |path| ==> !StartsWith(path[k], ".")
  {
    if IsPrefix(root, path) {
      var rel := path[|root|..];
      AnyDottedExists(rel);
      assert forall k :: |root| <= k < |path| ==> path[k] == rel[k - |root|];
    }
  }

  /** The project folder itself is shown. */
  lemma RootShown(root: seq<string>)
    ensures Accepts(root, Entry(root))
  {
  }

  /** The metadata folder and everything inside it are hidden. */
  lemma MetaHidden(root: seq<string>, below: seq<string>)
    ensures !Accepts(root, Entry(root + [".kaya"] + below))
  {
    var path := root + [".kaya"] + below;
    AcceptsExactly(root, path);
    assert path[..|root|] == root;
    assert path[|root|] == ".kaya";
    assert StartsWith(".kaya", ".");
  }

  /** A shown path's ancestors inside the folder are shown too, so a hidden
      folder hides its whole subtree. */
  lemma AncestorsShown(root: seq<string>, path: seq<string>, n: nat)
    requires Accepts(root, Entry(path))
    requires |root| <= n <= |path|
    ensures Accepts(root, Entry(path[..n]))
  {
    AcceptsExactly(root, path);
    AcceptsExactly(root, path[..n]);
    assert path[..n][..|root|] == root;
  }
}
