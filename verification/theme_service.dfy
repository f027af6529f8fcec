/**
 The `theme` command (kaya/services/theme_service.py): the parameter
 normaliser that reduces any of the four payload shapes to a
 sub-command and an accent name, and the handler that lists, sets and
 resets the accent, persisting it in the one-line store.
 */
module ThemeService {
  import opened Wrappers
  import opened Text
  import opened Payload
  import opened ThemeStore
  import Accents

  /** The normaliser's answer: `(sub, name)`, each a string or None. */
  datatype Normalized = Normalized(sub: Option<string>, name: Option<string>)

  /** Mapping keys probed, in order, for the sub-command and for the name. */
  const SubKeys: seq<string> := ["sub", "action", "verb", "cmd", "0"]
  const NameKeys: seq<string> := ["name", "accent", "value", "1"]
  /** Keys that may hold the auxiliary token list, first present wins. */
  const TokenKeys: seq<string> := ["args", "argv", "tokens"]
  const RestKey: string := "rest"

  /** `p.get(k)`: the stored value, or None for a missing key. */
  function Get(m: map<string, Value>, k: string): Value {
    if k in m then m[k] else Scalar(Null)
  }

  /** `p.get(k1) or p.get(k2) or ... or ""`: the first truthy value among the
      keys, or the empty string. */
  function FirstTruthy(m: map<string, Value>, keys: seq<string>): (v: Value)
    ensures !Truthy(v) ==> v == S("")
    decreases |keys|
  {
    if keys == [] then S("")
    else if Truthy(Get(m, keys[0])) then Get(m, keys[0])
    else FirstTruthy(m, keys[1..])
  }

  /** The `or` chain picks the earliest truthy value, and comes back falsy
      exactly when every probed value is falsy. */
  lemma {:induction false} FirstTruthyPicksEarliest(m: map<string, Value>, keys: seq<string>)
    ensures var v := FirstTruthy(m, keys);
      && (Truthy(v) ==> exists k :: 0 <= k < |keys| && Get(m, keys[k]) == v &&
                                   forall j :: 0 <= j < k ==> !Truthy(Get(m, keys[j])))
      && (!Truthy(v) <==> forall k :: 0 <= k < |keys| ==> !Truthy(Get(m, keys[k])))
    decreases |keys|
  {
    if keys != [] && !Truthy(Get(m, keys[0])) {
      FirstTruthyPicksEarliest(m, keys[1..]);
      var v := FirstTruthy(m, keys);
      if Truthy(v) {
        var k :| 0 <= k < |keys[1..]| && Get(m, keys[1..][k]) == v &&
                 forall j :: 0 <= j < k ==> !Truthy(Get(m, keys[1..][j]));
        assert Get(m, keys[k + 1]) == v;
        assert forall j :: 0 <= j < k + 1 ==> !Truthy(Get(m, keys[j])) by {
          forall j | 0 <= j < k + 1
            ensures !Truthy(Get(m, keys[j]))
          {
            if j > 0 {
              assert keys[j] == keys[1..][j - 1];
            }
          }
        }
      } else {
        forall k | 0 <= k < |keys|
          ensures !Truthy(Get(m, keys[k]))
        {
          if k > 0 {
            assert keys[k] == keys[1..][k - 1];
          }
        }
      }
    }
  }

  /** The first of `keys` present in the mapping, if any. */
  function FirstPresent(m: map<string, Value>, keys: seq<string>): (r: Option<string>)
    ensures r.Some? ==> r.value in m && r.value in keys
    decreases |keys|
  {
    if keys == [] then None
    else if keys[0] in m then Some(keys[0])
    else FirstPresent(m, keys[1..])
  }

  /** No key of the list is present exactly when the search comes back empty. */
  lemma {:induction false} FirstPresentNone(m: map<string, Value>, keys: seq<string>)
    ensures FirstPresent(m, keys).None? <==> forall k :: 0 <= k < |keys| ==> keys[k] !in m
    decreases |keys|
  {
    if keys != [] && keys[0] !in m {
      FirstPresentNone(m, keys[1..]);
      assert forall k :: 0 < k < |keys| ==> keys[k] == keys[1..][k - 1];
    }
  }

  /** The auxiliary token list: the value under the first of
      `args`/`argv`/`tokens` present (a list as it is, anything else
      stringified and split), else a string under `rest` split, else none. */
  function AuxTokens(m: map<string, Value>): Option<seq<Value>> {
    match FirstPresent(m, TokenKeys)
    case Some(k) =>
      (match m[k]
       case Items(xs) => Some(xs)
       case Scalar(a) => Some(StrValues(Split(AtomStr(a)))))
    case None =>
      if RestKey in m && m[RestKey].Scalar? && m[RestKey].a.Str? then
        Some(StrValues(Split(m[RestKey].a.s)))
      else None
  }

  /** The final step: a non-empty string is trimmed and lower-cased; an
      empty string or a value of another type becomes None. */
  function Finish(v: Value): (r: Option<string>)
    ensures r.Some? <==> v.Scalar? && v.a.Str? && v.a.s != ""
    ensures r.Some? ==> r.value == Lower(Strip(v.a.s))
    ensures IsLowered(r) && IsTrimmed(r)
  {
    if v.Scalar? && v.a.Str? && v.a.s != "" then
      StripLower(v.a.s);
      LowerIdempotent(Strip(v.a.s));
      Some(Lower(Strip(v.a.s)))
    else None
  }

  /** The mapping branch of `_normalize`. */
  function NormalizeFields(m: map<string, Value>): Normalized {
    var sub0 := FirstTruthy(m, SubKeys);
    var name0 := FirstTruthy(m, NameKeys);
    var toks := AuxTokens(m);
    var filled := toks.Some? && toks.value != [];
    var sub1 := if filled && !Truthy(sub0) then toks.value[0] else sub0;
    var name1 := if filled && !Truthy(name0) && |toks.value| > 1 then toks.value[1] else name0;
    Normalized(Finish(sub1), Finish(name1))
  }

  /** The string and list branches: the first two tokens, lower-cased. */
  function FromTokens(toks: seq<string>): Normalized {
    if toks == [] then Normalized(None, None)
    else Normalized(Some(Lower(toks[0])), if |toks| > 1 then Some(Lower(toks[1])) else None)
  }

  predicate IsLowered(o: Option<string>) {
    o.Some? ==> Lower(o.value) == o.value
  }

  predicate IsTrimmed(o: Option<string>) {
    o.Some? ==> Strip(o.value) == o.value
  }

  /** `_normalize`. */
  function Normalize(p: Payload): (r: Normalized)
    ensures p.PNone? ==> r == Normalized(None, None)
    ensures p.PStr? ==> (r.sub.None? <==> Split(p.s) == [])
    ensures p.PStr? ==> r.sub.None? ==> r.name.None?
    ensures p.PStr? && Split(p.s) != [] ==>
      && r.sub == Some(Lower(Split(p.s)[0]))
      && r.name == (if |Split(p.s)| > 1 then Some(Lower(Split(p.s)[1])) else None)
    ensures p.PList? ==> (r.sub.None? <==> p.elems == [])
    ensures p.PList? && p.elems != [] ==>
      && r.sub == Some(Lower(AtomStr(p.elems[0])))
      && r.name == (if |p.elems| > 1 then Some(Lower(AtomStr(p.elems[1]))) else None)
    ensures IsLowered(r.sub) && IsLowered(r.name)
    ensures p.PStr? || p.PMap? ==> IsTrimmed(r.sub) && IsTrimmed(r.name)
  {
    match p
    case PNone => Normalized(None, None)
    case PStr(s) =>
      SplitStrip(s);
      var toks := Split(Strip(s));
      TokenLowered(toks);
      FromTokens(toks)
    case PList(xs) =>
      var toks := seq(|xs|, k requires 0 <= k < |xs| => AtomStr(xs[k]));
      LowerIdempotent(if toks == [] then "" else toks[0]);
      LowerIdempotent(if |toks| > 1 then toks[1] else "");
      FromTokens(toks)
    case PMap(m) => NormalizeFields(m)
  }

  lemma TokenLowered(toks: seq<string>)
    requires forall k :: 0 <= k < |toks| ==> toks[k] != [] && NoSpace(toks[k])
    ensures var r := FromTokens(toks);
      IsLowered(r.sub) && IsLowered(r.name) && IsTrimmed(r.sub) && IsTrimmed(r.name)
  {
    if toks != [] {
      LowerIdempotent(toks[0]);
      LowerNoSpace(toks[0]);
      if |toks| > 1 {
        LowerIdempotent(toks[1]);
        LowerNoSpace(toks[1]);
      }
    }
  }

  lemma LowerNoSpace(t: string)
    requires NoSpace(t)
    ensures Strip(Lower(t)) == Lower(t)
  {
    LowerKeepsSpace(t);
    NoSpaceStrip(Lower(t));
  }


  // ---------------------------------------------------------------------
  // Facts about the normaliser

  /** All four encodings the terminal may produce for one remainder — the
      string, the token list, a mapping with the list under `args`, `argv`
      or `tokens`, and a mapping with the string under `rest` — normalise
      alike. */
  lemma {:induction false} NormalizeShapeEquivalence(s: string)
    ensures var expected := Normalize(PStr(s));
      && Normalize(PList(StrAtoms(Split(s)))) == expected
      && Normalize(PMap(map["args" := Items(StrValues(Split(s)))])) == expected
      && Normalize(PMap(map["argv" := Items(StrValues(Split(s)))])) == expected
      && Normalize(PMap(map["tokens" := Items(StrValues(Split(s)))])) == expected
      && Normalize(PMap(map[RestKey := S(s)])) == expected
  {
    var ws := Split(s);
    var atoms := StrAtoms(ws);
    assert seq(|atoms|, k requires 0 <= k < |atoms| => AtomStr(atoms[k])) == ws;
    TokenListFields("args", ws);
    TokenListFields("argv", ws);
    TokenListFields("tokens", ws);
    RestFields(s);
  }

  function StrAtoms(ws: seq<string>): (as_: seq<Atom>)
    ensures |as_| == |ws| && forall k :: 0 <= k < |ws| ==> as_[k] == Str(ws[k])
  {
    seq(|ws|, k requires 0 <= k < |ws| => Str(ws[k]))
  }

  lemma NoProbedKeys(m: map<string, Value>)
    requires forall k :: k in m ==> k !in SubKeys && k !in NameKeys
    ensures FirstTruthy(m, SubKeys) == S("") && FirstTruthy(m, NameKeys) == S("")
  {
    FirstTruthyPicksEarliest(m, SubKeys);
    FirstTruthyPicksEarliest(m, NameKeys);
    assert forall k :: 0 <= k < |SubKeys| ==> !Truthy(Get(m, SubKeys[k]));
    assert forall k :: 0 <= k < |NameKeys| ==> !Truthy(Get(m, NameKeys[k]));
  }

  /** Tokens found under one key, with no explicit fields, give the same
      answer as the token list itself. */
  lemma TokensOnly(m: map<string, Value>, ws: seq<string>)
    requires forall k :: k in m ==> k !in SubKeys && k !in NameKeys
    requires AuxTokens(m) == Some(StrValues(ws))
    requires forall k :: 0 <= k < |ws| ==> ws[k] != [] && NoSpace(ws[k])
    ensures NormalizeFields(m) == FromTokens(ws)
  {
    NoProbedKeys(m);
    var toks := StrValues(ws);
    if ws != [] {
      assert toks[0] == S(ws[0]);
      NoSpaceStrip(ws[0]);
      assert Finish(toks[0]) == Some(Lower(ws[0]));
      if |ws| > 1 {
        assert toks[1] == S(ws[1]);
        NoSpaceStrip(ws[1]);
        assert Finish(toks[1]) == Some(Lower(ws[1]));
      } else {
        assert Finish(S("")) == None;
      }
    }
  }

  lemma TokenListFields(key: string, ws: seq<string>)
    requires key in TokenKeys
    requires forall k :: 0 <= k < |ws| ==> ws[k] != [] && NoSpace(ws[k])
    ensures Normalize(PMap(map[key := Items(StrValues(ws))])) == FromTokens(ws)
  {
    var m := map[key := Items(StrValues(ws))];
    TokenKeyOnly(key, Items(StrValues(ws)));
    TokensOnly(m, ws);
  }

  /** A mapping with a single token key: no probed key is present, and that
      key supplies the tokens. */
  lemma TokenKeyOnly(key: string, v: Value)
    requires key in TokenKeys
    ensures var m := map[key := v];
      && (forall k :: k in m ==> k !in SubKeys && k !in NameKeys)
      && FirstPresent(m, TokenKeys) == Some(key)
  {
    var m := map[key := v];
    assert FirstPresent(m, TokenKeys) == Some(key);
  }

  /** A string payload normalises like its whitespace-separated words. */
  lemma StrTokens(s: string)
    ensures Normalize(PStr(s)) == FromTokens(Split(s))
  {
    SplitStrip(s);
  }

  lemma RestFields(s: string)
    ensures Normalize(PMap(map[RestKey := S(s)])) == Normalize(PStr(s))
  {
    var m := map[RestKey := S(s)];
    assert FirstPresent(m, TokenKeys) == None;
    TokensOnly(m, Split(s));
    StrTokens(s);
  }

  lemma FirstTruthyIgnores(m: map<string, Value>, keys: seq<string>, k: string, v: Value)
    requires k !in keys
    ensures FirstTruthy(m[k := v], keys) == FirstTruthy(m, keys)
    decreases |keys|
  {
    if keys != [] {
      FirstTruthyIgnores(m, keys[1..], k, v);
    }
  }

  lemma FirstPresentIgnores(m: map<string, Value>, keys: seq<string>, k: string, v: Value)
    requires k !in keys
    ensures FirstPresent(m[k := v], keys) == FirstPresent(m, keys)
    decreases |keys|
  {
    if keys != [] {
      FirstPresentIgnores(m, keys[1..], k, v);
    }
  }

  /** A sub-command or name given explicitly is never overridden by the
      token list: changing the value under `args`, `argv`, `tokens` or
      `rest` leaves it as it was. */
  lemma ExplicitFieldsWin(m: map<string, Value>, key: string, v: Value)
    requires key in TokenKeys || key == RestKey
    ensures Truthy(FirstTruthy(m, SubKeys)) ==>
      Normalize(PMap(m[key := v])).sub == Normalize(PMap(m)).sub == Finish(FirstTruthy(m, SubKeys))
    ensures Truthy(FirstTruthy(m, NameKeys)) ==>
      Normalize(PMap(m[key := v])).name == Normalize(PMap(m)).name == Finish(FirstTruthy(m, NameKeys))
  {
    FirstTruthyIgnores(m, SubKeys, key, v);
    FirstTruthyIgnores(m, NameKeys, key, v);
  }

  /** Once one of `args`, `argv`, `tokens` is present — even holding an empty
      list — the value under `rest` is never consulted. */
  lemma RestIgnoredWhenTokenKeyPresent(m: map<string, Value>, v: Value)
    requires exists k :: k in TokenKeys && k in m
    ensures Normalize(PMap(m[RestKey := v])) == Normalize(PMap(m))
  {
    FirstTruthyIgnores(m, SubKeys, RestKey, v);
    FirstTruthyIgnores(m, NameKeys, RestKey, v);
    FirstPresentIgnores(m, TokenKeys, RestKey, v);
    FirstPresentNone(m, TokenKeys);
    var k := FirstPresent(m, TokenKeys).value;
    assert m[RestKey := v][k] == m[k];
  }

  /** Tokens fill only the fields still empty: the first token supplies a
      missing sub-command, the second a missing name. */
  lemma TokensFillMissing(m: map<string, Value>, toks: seq<Value>)
    requires AuxTokens(m) == Some(toks) && toks != []
    ensures !Truthy(FirstTruthy(m, SubKeys)) ==> Normalize(PMap(m)).sub == Finish(toks[0])
    ensures !Truthy(FirstTruthy(m, NameKeys)) && |toks| > 1 ==> Normalize(PMap(m)).name == Finish(toks[1])
    ensures !Truthy(FirstTruthy(m, NameKeys)) && |toks| == 1 ==> Normalize(PMap(m)).name == None
  {
  }

  /** A whitespace-only string is truthy, so it is chosen and trims to the
      empty string rather than to None. */
  lemma WhitespaceIsNotEmpty(m: map<string, Value>, w: string)
    requires FirstTruthy(m, SubKeys) == S(w) && w != [] && NoneButSpace(w)
    ensures Normalize(PMap(m)).sub == Some("")
  {
    AllSpaceStripLeft(w);
    assert Strip(w) == [];
    assert Lower([]) == [];
  }

  /** A mapping with explicit, non-empty fields and no token list. */
  lemma ExplicitOnly(m: map<string, Value>, a: string, b: string)
    requires FirstTruthy(m, SubKeys) == S(a) && FirstTruthy(m, NameKeys) == S(b)
    requires a != "" && b != "" && AuxTokens(m) == None
    ensures Normalize(PMap(m)) == Normalized(Some(Lower(Strip(a))), Some(Lower(Strip(b))))
  {
  }

  /** A bare word: no whitespace, so the normaliser only lower-cases it. */
  lemma Word(s: string, l: string)
    requires NoSpace(s) && Lower(s) == l
    ensures Lower(Strip(s)) == l
  {
    NoSpaceStrip(s);
  }

  lemma ExampleWords()
    ensures Lower(Strip("SET")) == "set" && Lower(Strip("BLUE")) == "blue"
    ensures Lower(Strip("set")) == "set" && Lower(Strip("blue")) == "blue"
    ensures Lower(Strip("None")) == "none"
  {
    WordSet();
    WordBlue();
    WordNone();
  }

  lemma WordSet()
    ensures Lower(Strip("SET")) == "set" && Lower(Strip("set")) == "set"
  {
    Word("SET", "set");
    Word("set", "set");
  }

  lemma WordBlue()
    ensures Lower(Strip("BLUE")) == "blue" && Lower(Strip("blue")) == "blue"
  {
    Word("BLUE", "blue");
    Word("blue", "blue");
  }

  lemma WordNone()
    ensures Lower(Strip("None")) == "none"
  {
    Word("None", "none");
  }

  /** The sub-command and the name are probed independently: a name from
      `name` and a sub-command from the token list combine. */
  lemma NormalizeMixedSources()
    ensures Normalize(PMap(map["name" := S("blue"), "args" := Items([S("set")])])) ==
            Normalized(Some("set"), Some("blue"))
  {
    var m := map["name" := S("blue"), "args" := Items([S("set")])];
    MixedProbes();
    assert NormalizeFields(m) == Normalized(Finish(S("set")), Finish(S("blue")));
    ExampleWords();
  }

  lemma MixedProbes()
    ensures var m := map["name" := S("blue"), "args" := Items([S("set")])];
      && FirstTruthy(m, SubKeys) == S("")
      && FirstTruthy(m, NameKeys) == S("blue")
      && AuxTokens(m) == Some([S("set")])
  {
    var m := map["name" := S("blue"), "args" := Items([S("set")])];
    assert FirstPresent(m, TokenKeys) == Some("args");
  }

  /** Probed keys are folded to lower case, as in `{cmd: "SET", value: "BLUE"}`. */
  lemma NormalizeFoldsCase()
    ensures Normalize(PMap(map["cmd" := S("SET"), "value" := S("BLUE")])) ==
            Normalized(Some("set"), Some("blue"))
  {
    var m := map["cmd" := S("SET"), "value" := S("BLUE")];
    FoldsCaseProbes();
    ExplicitOnly(m, "SET", "BLUE");
    ExampleWords();
  }

  lemma FoldsCaseProbes()
    ensures var m := map["cmd" := S("SET"), "value" := S("BLUE")];
      && FirstTruthy(m, SubKeys) == S("SET")
      && FirstTruthy(m, NameKeys) == S("BLUE")
      && AuxTokens(m) == None
  {
    FoldsCaseSub();
    FoldsCaseName();
    FoldsCaseTokens();
  }

  lemma FoldsCaseSub()
    ensures FirstTruthy(map["cmd" := S("SET"), "value" := S("BLUE")], SubKeys) == S("SET")
  {
  }

  lemma FoldsCaseName()
    ensures FirstTruthy(map["cmd" := S("SET"), "value" := S("BLUE")], NameKeys) == S("BLUE")
  {
  }

  lemma FoldsCaseTokens()
    ensures AuxTokens(map["cmd" := S("SET"), "value" := S("BLUE")]) == None
  {
    assert FirstPresent(map["cmd" := S("SET"), "value" := S("BLUE")], TokenKeys) == None;
  }

  /** A non-list value under `args` is stringified and split, exactly as a
      string payload of that text would be. */
  lemma ScalarArgs(a: Atom)
    ensures Normalize(PMap(map["args" := Scalar(a)])) == Normalize(PStr(AtomStr(a)))
  {
    var m := map["args" := Scalar(a)];
    var ws := Split(AtomStr(a));
    TokenKeyOnly("args", Scalar(a));
    assert AuxTokens(m) == Some(StrValues(ws));
    TokensOnly(m, ws);
    StrTokens(AtomStr(a));
  }

  /** A single bare word splits to itself. */
  lemma SplitWord(s: string)
    requires s != [] && NoSpace(s)
    ensures Split(s) == [s]
  {
    SplitJoin([s]);
    assert Join(" ", [s]) == s;
  }

  /** A payload of one bare word names the sub-command only. */
  lemma WordPayload(s: string)
    requires s != [] && NoSpace(s)
    ensures Normalize(PStr(s)) == Normalized(Some(Lower(s)), None)
  {
    SplitWord(s);
  }

  /** So `{args: None}` yields the sub-command "none". */
  lemma NormalizeNoneArgs()
    ensures Normalize(PMap(map["args" := Scalar(Null)])) == Normalized(Some("none"), None)
  {
    ScalarArgs(Null);
    NoneWord();
    WordPayload(AtomStr(Null));
  }

  lemma NoneWord()
    ensures AtomStr(Null) != [] && NoSpace(AtomStr(Null)) && Lower(AtomStr(Null)) == "none"
  {
    assert Lower("None") == "none";
  }

  // ---------------------------------------------------------------------
  // The handler

  /** The state the handler touches: the current accent of the stylesheet,
      the store file, and whether writing the store succeeds. */
  datatype ThemeWorld = ThemeWorld(accent: string, store: Store, writable: bool)

  datatype Reply = Reply(text: string, world: ThemeWorld)

  /** `", ".join(ACCENTS.keys())`. */
  function Catalogue(): string {
    Join(", ", Accents.Names())
  }

  const SetUsage: string := "Usage: theme set <name>\nThemes: "
  const Usage: string := "theme commands: list | set <name> | reset"

  /** `_read_saved`: the stripped file text, None when the file is missing,
      unreadable or blank. */
  function ReadSaved(st: Store): (r: Option<string>)
    ensures r.Some? <==> st.Holds? && Strip(st.text) != ""
    ensures r.Some? ==> r.value == Strip(st.text)
  {
    match st
    case Holds(t) => if Strip(t) != "" then Some(Strip(t)) else None
    case _ => None
  }

  /** Reading back what was just written: a successful write of `t` reads
      as the stripped `t` (nothing when blank), and a failed write leaves
      whatever was read before. */
  lemma ReadAfterWrite(st: Store, t: string)
    ensures ReadSaved(Write(st, true, t)) == (if Strip(t) == "" then None else Some(Strip(t)))
    ensures ReadSaved(Write(st, false, t)) == ReadSaved(st)
  {
  }

  /** `ui_theme.apply(win, name)` followed by `_save(name)`. */
  function ApplyAndSave(w: ThemeWorld, name: string): ThemeWorld {
    ThemeWorld(Accents.Apply(name), Write(w.store, w.writable, Strip(name)), w.writable)
  }

  lemma AccentNamesNoSpace(n: string)
    requires Accents.IsAccent(n)
    ensures Strip(n) == n
  {
    Accents.NamesAreWords(n);
    NoSpaceStrip(n);
  }

  /** The `set` branch of `handle`: usage without a name, a refusal naming
      an unknown accent, otherwise apply and persist. */
  function SetAccent(w: ThemeWorld, name: Option<string>): (r: Reply)
    ensures (name == None || name == Some("")) ==> r == Reply(SetUsage + Catalogue(), w)
    ensures name.Some? && name.value != "" && !Accents.IsAccent(name.value) ==>
      r == Reply("Unknown theme '" + name.value + "'. Available: " + Catalogue(), w)
    ensures name.Some? && Accents.IsAccent(name.value) ==>
      r == Reply("Theme set to: " + name.value,
                 ThemeWorld(name.value, Write(w.store, w.writable, name.value), w.writable))
  {
    if name.None? || name.value == "" then
      Accents.EmptyIsNoAccent();
      Reply(SetUsage + Catalogue(), w)
    else if !Accents.IsAccent(name.value) then
      Reply("Unknown theme '" + name.value + "'. Available: " + Catalogue(), w)
    else
      AccentNamesNoSpace(name.value);
      Reply("Theme set to: " + name.value, ApplyAndSave(w, name.value))
  }

  /** The `reset` branch: green, applied and persisted. */
  function Reset(w: ThemeWorld): (r: Reply)
    ensures r == Reply("Theme reset to: green", ThemeWorld("green", Write(w.store, w.writable, "green"), w.writable))
  {
    NoSpaceStrip("green");
    assert Accents.IsAccent("green") by { assert Accents.Names()[0] == "green"; }
    Reply("Theme reset to: green", ApplyAndSave(w, "green"))
  }

  /** `handle` once the parameters are normalised: one reply per
      sub-command, the usage line for anything else. */
  function Respond(w: ThemeWorld, n: Normalized): (r: Reply)
    ensures n.sub == Some("list") ==> r == Reply("Themes: " + Catalogue(), w)
    ensures n.sub == Some("set") ==> r == SetAccent(w, n.name)
    ensures n.sub == Some("reset") ==> r == Reset(w)
    ensures n.sub !in {Some("list"), Some("set"), Some("reset")} ==> r == Reply(Usage, w)
  {
    if n.sub == Some("list") then Reply("Themes: " + Catalogue(), w)
    else if n.sub == Some("set") then SetAccent(w, n.name)
    else if n.sub == Some("reset") then Reset(w)
    else Reply(Usage, w)
  }

  /** `ThemeService.handle`. It never raises, and it changes nothing but
      the accent and the store, and those only together: every change
      applies a catalogue accent and persists that same accent. */
  function Handle(w: ThemeWorld, params: Payload): (r: Reply)
    ensures r.world.writable == w.writable
    ensures r.world == w || (Accents.IsAccent(r.world.accent) && r.world.store == Write(w.store, w.writable, r.world.accent))
    ensures r.world != w ==> Normalize(params).sub in {Some("set"), Some("reset")}
  {
    Respond(w, Normalize(params))
  }

  datatype Started = Started(name: string, world: ThemeWorld)

  /** `apply_saved_or_default`: applies the saved name, or green when the
      store is missing, unreadable or blank, and returns the name it asked
      for. */
  function ApplySavedOrDefault(w: ThemeWorld): (r: Started)
    ensures r.world.store == w.store && r.world.writable == w.writable
    ensures r.name != "" && Accents.IsAccent(r.world.accent)
    ensures ReadSaved(w.store).None? ==> r.name == "green" && r.world.accent == "green"
    ensures ReadSaved(w.store).Some? ==> r.name == ReadSaved(w.store).value
    ensures Accents.IsAccent(r.name) ==> r.world.accent == r.name
    ensures !Accents.IsAccent(r.name) ==> r.world.accent == "green"
  {
    var name := ReadSaved(w.store).GetOr("green");
    Started(name, w.(accent := Accents.Apply(name)))
  }

  /** Setting an accent with `set <name>` while the store is writable, then
      starting later over the store that left behind, brings that accent
      back; with the store gone the default returns. */
  lemma ThemeRoundTrip(w: ThemeWorld, n: string, later: ThemeWorld)
    requires w.writable && Accents.IsAccent(n)
    ensures var saved := Handle(w, PStr("set " + n)).world.store;
      ApplySavedOrDefault(later.(store := saved)) == Started(n, later.(store := saved, accent := n))
    ensures ApplySavedOrDefault(later.(store := Missing)).name == "green"
  {
    SetStores(w, n);
    SavedComesBack(later.(store := Holds(n)), n);
    MissingStoreDefault(later);
  }

  lemma SetStores(w: ThemeWorld, n: string)
    requires w.writable && Accents.IsAccent(n)
    ensures Handle(w, PStr("set " + n)).world.store == Holds(n)
  {
    Accents.NamesAreWords(n);
    Accents.NamesAreLower(n);
    SetLine(w, n);
  }

  lemma SavedComesBack(later: ThemeWorld, n: string)
    requires later.store == Holds(n) && Accents.IsAccent(n)
    ensures ApplySavedOrDefault(later) == Started(n, later.(accent := n))
  {
    AccentNamesNoSpace(n);
    Accents.NamesAreWords(n);
  }

  lemma MissingStoreDefault(w: ThemeWorld)
    ensures ApplySavedOrDefault(w.(store := Missing)).name == "green"
  {
  }

  /** `theme set <word>` typed as one string reaches the `set` branch with
      the word lower-cased; an unknown word is reported by name and leaves
      the accent and the store untouched. */
  lemma SetLine(w: ThemeWorld, n: string)
    requires n != [] && NoSpace(n)
    ensures Normalize(PStr("set " + n)) == Normalized(Some("set"), Some(Lower(n)))
    ensures !Accents.IsAccent(Lower(n)) ==>
      Handle(w, PStr("set " + n)) == Reply("Unknown theme '" + Lower(n) + "'. Available: " + Catalogue(), w)
  {
    var ws := ["set", n];
    assert NoSpace("set");
    SplitJoin(ws);
    assert Join(" ", ws) == "set " + n;
    assert Lower("set") == "set";
    assert Lower(n) != [];
  }

  /** The current accent stays a catalogue accent across every command. */
  lemma HandleKeepsAccentValid(w: ThemeWorld, params: Payload)
    requires Accents.IsAccent(w.accent)
    ensures Accents.IsAccent(Handle(w, params).world.accent)
  {
  }
}
