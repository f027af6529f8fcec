/**
 The search box and the type overview of the projects page
 (kaya/ui/projects_page.py, `_refresh` and `_open_type_list`): the query
 is trimmed and lower-cased, a non-empty query keeps the projects whose
 name plus folder name, or whose space-joined tags, contain it, and the
 kept projects are counted and grouped by type for the five overview
 tiles. Scanning the folder and the widgets are not part of this model:
 the scanned projects are a parameter.
 */
module ProjectSearch {
  import opened Wrappers
  import opened Text

  /** The metadata `_refresh` reads: the name (which scanning always
      fills), the optional `type`, and the tags. */
  datatype Meta = Meta(name: string, kind: Option<string>, tags: seq<string>)

  /** A scanned project: its folder's name and its metadata. */
  datatype Project = Project(dir: string, meta: Meta)

  const TypeOrder: seq<string> := ["standard", "engineering", "edu", "research", "custom"]

  /** `(self.search.text() or "").strip().lower()`. */
  function Query(search: string): string {
    Lower(Strip(search))
  }

  /** The test of the list comprehension. */
  predicate Matches(q: string, p: Project) {
    || Contains(Lower(p.meta.name + p.dir), q)
    || Contains(Lower(Join(" ", p.meta.tags)), q)
  }

  function Keep(q: string, ps: seq<Project>): (r: seq<Project>)
    ensures |r| <= |ps|
    decreases |ps|
  {
    if ps == [] then []
    else (if Matches(q, ps[0]) then [ps[0]] else []) + Keep(q, ps[1..])
  }

  /** The projects the page lists for the text in the search box. */
  function Visible(search: string, ps: seq<Project>): seq<Project> {
    var q := Query(search);
    if q == "" then ps else Keep(q, ps)
  }

  /** `m.get("type", "standard")`. */
  function TypeOf(p: Project): string {
    p.meta.kind.GetOr("standard")
  }

  /** The projects of type `t`, in order: the reference the buckets and
      counts are checked against. */
  function OfType(ps: seq<Project>, t: string): (r: seq<Project>)
    ensures |r| <= |ps|
    decreases |ps|
  {
    if ps == [] then []
    else (if TypeOf(ps[0]) == t then [ps[0]] else []) + OfType(ps[1..], t)
  }

  function TypesOf(ps: seq<Project>): set<string> {
    set p | p in ps :: TypeOf(p)
  }

  /** The counting loop of `_refresh`: `counts` and `buckets` start with a
      zero and an empty list for each of the five types, and every project
      adds itself to its type's entry, creating one for a type outside the
      five. */
  method Tally(ps: seq<Project>) returns (counts: map<string, nat>, buckets: map<string, seq<Project>>)
    ensures counts.Keys == buckets.Keys
    ensures forall t :: t in counts <==> t in TypeOrder || t in TypesOf(ps)
    ensures forall t :: t in buckets ==> buckets[t] == OfType(ps, t)
    ensures forall t :: t in counts ==> counts[t] == |OfType(ps, t)|
  {
    counts := map t | t in TypeOrder :: 0;
    buckets := map t | t in TypeOrder :: [];
    var i := 0;
    assert ps[..0] == [];
    while i < |ps|
      invariant i <= |ps|
      invariant Tallied(ps[..i], counts, buckets)
    {
      var t := TypeOf(ps[i]);
      TallyStep(ps[..i], ps[i], counts, buckets);
      Snoc(ps, i);
      counts := counts[t := (if t in counts then counts[t] else 0) + 1];
      buckets := buckets[t := (if t in buckets then buckets[t] else []) + [ps[i]]];
      i := i + 1;
    }
    assert ps[..i] == ps;
  }

  lemma Snoc<T>(s: seq<T>, i: int)
    requires 0 <= i < |s|
    ensures s[..i + 1] == s[..i] + [s[i]]
  {
  }

  /** The loop's invariant: the maps hold the tally of the projects seen. */
  ghost predicate Tallied(seen: seq<Project>, counts: map<string, nat>, buckets: map<string, seq<Project>>) {
    && counts.Keys == buckets.Keys
    && (forall t :: t in counts <==> t in TypeOrder || t in TypesOf(seen))
    && (forall t :: t in buckets ==> buckets[t] == OfType(seen, t))
    && (forall t :: t in counts ==> counts[t] == |OfType(seen, t)|)
  }

  lemma TallyStep(seen: seq<Project>, p: Project, counts: map<string, nat>, buckets: map<string, seq<Project>>)
    requires Tallied(seen, counts, buckets)
    ensures var t := TypeOf(p);
      Tallied(seen + [p],
              counts[t := (if t in counts then counts[t] else 0) + 1],
              buckets[t := (if t in buckets then buckets[t] else []) + [p]])
  {
    var t := TypeOf(p);
    TypesSnoc(seen, p);
    OfTypeSnoc(seen, p);
    if t !in counts {
      OfTypeNone(seen, t);
    }
  }

  lemma TypesSnoc(seen: seq<Project>, p: Project)
    ensures TypesOf(seen + [p]) == TypesOf(seen) + {TypeOf(p)}
  {
  }

  lemma OfTypeSnoc(seen: seq<Project>, p: Project)
    ensures forall u :: OfType(seen + [p], u) == OfType(seen, u) + (if TypeOf(p) == u then [p] else [])
  {
    forall u ensures OfType(seen + [p], u) == OfType(seen, u) + (if TypeOf(p) == u then [p] else []) {
      OfTypeConcat(seen, [p], u);
    }
  }

  lemma {:induction false} OfTypeNone(ps: seq<Project>, t: string)
    requires t !in TypesOf(ps)
    ensures OfType(ps, t) == []
    decreases |ps|
  {
    if ps != [] {
      assert ps[0] in ps;
      assert TypesOf(ps[1..]) <= TypesOf(ps) by {
        forall u | u in TypesOf(ps[1..]) ensures u in TypesOf(ps) {
          var p :| p in ps[1..] && TypeOf(p) == u;
          assert p in ps;
        }
      }
      OfTypeNone(ps[1..], t);
    }
  }

  lemma {:induction false} OfTypeConcat(a: seq<Project>, b: seq<Project>, t: string)
    ensures OfType(a + b, t) == OfType(a, t) + OfType(b, t)
    decreases |a|
  {
    if a == [] {
      assert a + b == b;
    } else {
      assert (a + b)[0] == a[0];
      assert (a + b)[1..] == a[1..] + b;
      OfTypeConcat(a[1..], b, t);
      var h := if TypeOf(a[0]) == t then [a[0]] else [];
      assert h + (OfType(a[1..], t) + OfType(b, t)) == (h + OfType(a[1..], t)) + OfType(b, t);
    }
  }

  // ---------------------------------------------------------------------
  // The search

  /** A project is listed exactly when it was scanned and matches the
      query, or the query is empty. */
  lemma {:induction false} KeepExactly(q: string, ps: seq<Project>, p: Project)
    ensures p in Keep(q, ps) <==> p in ps && Matches(q, p)
    decreases |ps|
  {
    if ps != [] {
      KeepExactly(q, ps[1..], p);
      assert ps == [ps[0]] + ps[1..];
    }
  }

  /** The filter keeps the scanned order: it distributes over
      concatenation. */
  lemma {:induction false} KeepConcat(q: string, a: seq<Project>, b: seq<Project>)
    ensures Keep(q, a + b) == Keep(q, a) + Keep(q, b)
    decreases |a|
  {
    if a == [] {
      assert a + b == b;
    } else {
      assert (a + b)[0] == a[0];
      assert (a + b)[1..] == a[1..] + b;
      KeepConcat(q, a[1..], b);
      var h := if Matches(q, a[0]) then [a[0]] else [];
      assert h + (Keep(q, a[1..]) + Keep(q, b)) == (h + Keep(q, a[1..])) + Keep(q, b);
    }
  }

  lemma {:induction false} KeepTwice(q: string, ps: seq<Project>)
    ensures Keep(q, Keep(q, ps)) == Keep(q, ps)
    decreases |ps|
  {
    if ps != [] {
      KeepTwice(q, ps[1..]);
      KeepConcat(q, if Matches(q, ps[0]) then [ps[0]] else [], Keep(q, ps[1..]));
    }
  }

  /** The query ignores case and surrounding whitespace. */
  lemma QueryNormalized(search: string)
    ensures Query(Lower(search)) == Query(search)
    ensures Query(Strip(search)) == Query(search)
  {
    StripLower(search);
    LowerIdempotent(Strip(search));
    StripIdempotent(search);
  }

  /** An empty or all-blank search lists every project. */
  lemma BlankSearchListsAll(search: string, ps: seq<Project>)
    requires NoneButSpace(search)
    ensures Visible(search, ps) == ps
  {
    AllSpaceStripLeft(search);
  }

  lemma {:induction false} KeepOfType(q: string, ps: seq<Project>, t: string)
    ensures OfType(Keep(q, ps), t) == Keep(q, OfType(ps, t))
    decreases |ps|
  {
    if ps != [] {
      KeepOfType(q, ps[1..], t);
      var h := if Matches(q, ps[0]) then [ps[0]] else [];
      OfTypeConcat(h, Keep(q, ps[1..]), t);
      KeepConcat(q, if TypeOf(ps[0]) == t then [ps[0]] else [], OfType(ps[1..], t));
    }
  }

  // ---------------------------------------------------------------------
  // The list of one type

  predicate IsLetter(c: char) {
    ('a' <= c <= 'z') || ('A' <= c <= 'Z')
  }

  function UpperChar(c: char): char {
    if 'a' <= c <= 'z' then (c as int - 32) as char else c
  }

  /** `str.title()` for ASCII text: a letter after a non-letter is
      upper-cased, every other letter lower-cased. */
  function Title(s: string): (r: string)
    ensures |r| == |s|
  {
    seq(|s|, k requires 0 <= k < |s| =>
      if IsLetter(s[k]) && (k == 0 || !IsLetter(s[k - 1])) then UpperChar(s[k]) else LowerChar(s[k]))
  }

  /** The list shown after a tile is opened and the search text changes:
      the bucket of the type whose title the header shows, filtered again
      when the query is not empty. */
  function TypeList(header: string, search: string, ps: seq<Project>): seq<Project> {
    var shown := Visible(search, ps);
    var typed := OfType(shown, Lower(Strip(header)));
    var q := Query(search);
    if q == "" then typed else Keep(q, typed)
  }

  predicate LowerWord(t: string) {
    t != [] && forall k :: 0 <= k < |t| ==> 'a' <= t[k] <= 'z'
  }

  /** The header of a tile's list, read back, names the tile's type. */
  lemma TitleRoundTrip(t: string)
    requires LowerWord(t)
    ensures Lower(Strip(Title(t))) == t
  {
    var h := Title(t);
    TitleLetters(t);
    NoSpaceStrip(h);
  }

  lemma TitleLetters(t: string)
    requires LowerWord(t)
    ensures NoSpace(Title(t)) && Lower(Title(t)) == t
  {
    var h := Title(t);
    forall k | 0 <= k < |h| ensures !IsSpace(h[k]) && LowerChar(h[k]) == t[k] {
      LetterCase(t[k]);
    }
  }

  lemma LetterCase(c: char)
    requires 'a' <= c <= 'z'
    ensures 'A' <= UpperChar(c) <= 'Z' && LowerChar(UpperChar(c)) == c && LowerChar(c) == c
  {
  }

  /** Re-filtering the bucket changes nothing: the list of a type is
      exactly the visible projects of that type, in scanned order. */
  lemma TypeListIsBucket(t: string, search: string, ps: seq<Project>)
    requires LowerWord(t)
    ensures TypeList(Title(t), search, ps) == OfType(Visible(search, ps), t)
  {
    TitleRoundTrip(t);
    var q := Query(search);
    if q != "" {
      KeepOfType(q, ps, t);
      KeepTwice(q, OfType(ps, t));
    }
  }

  // ---------------------------------------------------------------------
  // The tiles

  /** The five tiles' counts added up. */
  function TileTotal(ps: seq<Project>, ts: seq<string>): nat
    decreases |ts|
  {
    if ts == [] then 0 else |OfType(ps, ts[0])| + TileTotal(ps, ts[1..])
  }

  /** The projects whose type has a tile. */
  function WithTile(ps: seq<Project>, ts: seq<string>): seq<Project>
    decreases |ps|
  {
    if ps == [] then []
    else (if TypeOf(ps[0]) in ts then [ps[0]] else []) + WithTile(ps[1..], ts)
  }

  predicate Distinct(ts: seq<string>) {
    forall i, j :: 0 <= i < j < |ts| ==> ts[i] != ts[j]
  }

  lemma {:induction false} TileTotalCons(p: Project, rest: seq<Project>, ts: seq<string>)
    requires Distinct(ts)
    ensures TileTotal([p] + rest, ts) == (if TypeOf(p) in ts then 1 else 0) + TileTotal(rest, ts)
    decreases |ts|
  {
    if ts != [] {
      assert ([p] + rest)[1..] == rest;
      assert Distinct(ts[1..]) by {
        assert forall i :: 0 <= i < |ts[1..]| ==> ts[1..][i] == ts[i + 1];
      }
      TileTotalCons(p, rest, ts[1..]);
      if TypeOf(p) == ts[0] {
        assert TypeOf(p) !in ts[1..] by {
          assert forall i :: 0 <= i < |ts[1..]| ==> ts[1..][i] == ts[i + 1];
        }
      } else {
        assert TypeOf(p) in ts <==> TypeOf(p) in ts[1..] by {
          assert ts == [ts[0]] + ts[1..];
        }
      }
    }
  }

  /** The tiles together count every listed project whose type has a tile,
      each once; a project of any other type is counted by no tile. */
  lemma {:induction false} TilesCountTiledProjects(ps: seq<Project>, ts: seq<string>)
    requires Distinct(ts)
    ensures TileTotal(ps, ts) == |WithTile(ps, ts)|
    decreases |ps|
  {
    if ps == [] {
      TileTotalEmpty(ts);
    } else {
      assert ps == [ps[0]] + ps[1..];
      TileTotalCons(ps[0], ps[1..], ts);
      TilesCountTiledProjects(ps[1..], ts);
    }
  }

  lemma {:induction false} TileTotalEmpty(ts: seq<string>)
    ensures TileTotal([], ts) == 0
    decreases |ts|
  {
    if ts != [] {
      TileTotalEmpty(ts[1..]);
    }
  }

  lemma {:induction false} AllTiled(ps: seq<Project>, ts: seq<string>)
    requires forall p :: p in ps ==> TypeOf(p) in ts
    ensures WithTile(ps, ts) == ps
    decreases |ps|
  {
    if ps != [] {
      AllTiled(ps[1..], ts);
    }
  }

  /** When every listed project has one of the five types the tiles add up
      to the number of listed projects. */
  lemma TilesAddUp(search: string, ps: seq<Project>)
    requires forall p :: p in ps ==> TypeOf(p) in TypeOrder
    ensures TileTotal(Visible(search, ps), TypeOrder) == |Visible(search, ps)|
  {
    var v := Visible(search, ps);
    var q := Query(search);
    forall p | p in v ensures TypeOf(p) in TypeOrder {
      if q != "" {
        KeepExactly(q, ps, p);
      }
    }
    TilesCountTiledProjects(v, TypeOrder);
    AllTiled(v, TypeOrder);
  }

  // ---------------------------------------------------------------------
  // The counts

  /** `counts` added up over the listed keys. */
  function SumCounts(counts: map<string, nat>, ts: seq<string>): nat
    requires forall k :: 0 <= k < |ts| ==> ts[k] in counts
    decreases |ts|
  {
    if ts == [] then 0 else counts[ts[0]] + SumCounts(counts, ts[1..])
  }

  lemma {:induction false} SumIsTileTotal(ps: seq<Project>, counts: map<string, nat>, ts: seq<string>)
    requires forall k :: 0 <= k < |ts| ==> ts[k] in counts && counts[ts[k]] == |OfType(ps, ts[k])|
    ensures SumCounts(counts, ts) == TileTotal(ps, ts)
    decreases |ts|
  {
    if ts != [] {
      SumIsTileTotal(ps, counts, ts[1..]);
    }
  }

  /** The counts `_refresh` builds add up to the number of listed projects,
      whichever order their keys are taken in: every project is counted
      once, under its own type, a type outside the five included. */
  lemma CountsAddUp(ps: seq<Project>, counts: map<string, nat>, ts: seq<string>)
    requires forall t :: t in counts <==> t in TypeOrder || t in TypesOf(ps)
    requires forall t :: t in counts ==> counts[t] == |OfType(ps, t)|
    requires Distinct(ts) && forall t :: t in counts <==> t in ts
    ensures SumCounts(counts, ts) == |ps|
  {
    SumIsTileTotal(ps, counts, ts);
    TilesCountTiledProjects(ps, ts);
    forall p | p in ps ensures TypeOf(p) in ts {
      assert TypeOf(p) in TypesOf(ps);
    }
    AllTiled(ps, ts);
  }
}
