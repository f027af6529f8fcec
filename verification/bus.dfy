/**
 The command bus of the main window (kaya/ui/main.py): a name-to-handler
 table with `register` and `dispatch`, and the four theme commands the
 window registers on top of the default ones. Handlers that live outside
 this model — the default commands and the project-opening hook — are
 named by `External` and their behaviour is the parameter `ext`.
 */
module Bus {
  import opened Wrappers
  import opened Payload
  import opened ThemeService

  /** What a registered name is bound to. */
  datatype Handler =
    | ThemeCmd                 // `theme`
    | ThemeList                // `theme.list`
    | ThemeSet                 // `theme.set`
    | ThemeReset               // `theme.reset`
    | External(name: string)   // a handler this model does not see into

  datatype Registry = Registry(h: map<string, Handler>)

  /** A handler either returns (a string, or None) or raises with a message. */
  datatype Outcome = Returned(value: Option<string>) | Raised(msg: string)

  datatype Dispatched = Dispatched(outcome: Outcome, world: ThemeWorld)

  /** The behaviour of the handlers outside the model: an outcome computed
      from the name and the payload, with no effect on the theme state. */
  type Ext = (string, Payload) -> Outcome

  /** `register(n, f)`: bind `n` to `f`, replacing any earlier binding. */
  function Register(b: Registry, n: string, f: Handler): (r: Registry)
    ensures n in r.h && r.h[n] == f
    ensures forall k :: k != n ==> (k in r.h <==> k in b.h)
    ensures forall k :: k != n && k in b.h ==> r.h[k] == b.h[k]
  {
    Registry(b.h[n := f])
  }

  /** The mapping `{"sub": sub, **(payload or {})}` builds, or the message of
      the TypeError raised when the payload is truthy but not a mapping. */
  datatype Merged = Merged(m: map<string, Value>) | NotMapping(msg: string)

  function MergeSub(sub: string, p: Payload): (r: Merged)
    ensures !PayloadTruthy(p) ==> r == Merged(map["sub" := S(sub)])
    ensures p.PMap? ==> r.Merged? && r.m.Keys == p.fields.Keys + {"sub"}
    ensures p.PMap? ==> forall k :: k in p.fields ==> r.m[k] == p.fields[k]
    ensures p.PMap? && "sub" !in p.fields ==> r.m["sub"] == S(sub)
    ensures PayloadTruthy(p) && p.PStr? ==> r == NotMapping("'str' object is not a mapping")
    ensures PayloadTruthy(p) && p.PList? ==> r == NotMapping("'list' object is not a mapping")
  {
    if !PayloadTruthy(p) then Merged(map["sub" := S(sub)])
    else
      match p
      case PMap(m) => Merged(map["sub" := S(sub)] + m)
      case PStr(_) => NotMapping("'str' object is not a mapping")
      case PList(_) => NotMapping("'list' object is not a mapping")
  }

  /** Handing the result of `ThemeService.handle` back through the bus. */
  function Replied(r: Reply): Dispatched {
    Dispatched(Returned(Some(r.text)), r.world)
  }

  /** Calling a handler with a payload. */
  function Invoke(f: Handler, w: ThemeWorld, p: Payload, ext: Ext): (r: Dispatched)
    ensures f.External? ==> r.world == w
    ensures f == ThemeCmd ==> r == Replied(Handle(w, p))
    ensures f == ThemeReset ==> r == Replied(Handle(w, PMap(map["sub" := S("reset")])))
  {
    match f
    case ThemeCmd => Replied(Handle(w, p))
    case ThemeList => Alias("list", w, p)
    case ThemeSet => Alias("set", w, p)
    case ThemeReset => Replied(Handle(w, PMap(map["sub" := S("reset")])))
    case External(n) => Dispatched(ext(n, p), w)
  }

  /** `theme.list` and `theme.set`: the theme handler over the merged mapping. */
  function Alias(sub: string, w: ThemeWorld, p: Payload): (r: Dispatched)
    ensures MergeSub(sub, p).NotMapping? ==> r == Dispatched(Raised(MergeSub(sub, p).msg), w)
    ensures MergeSub(sub, p).Merged? ==> r == Replied(Handle(w, PMap(MergeSub(sub, p).m)))
  {
    match MergeSub(sub, p)
    case Merged(m) => Replied(Handle(w, PMap(m)))
    case NotMapping(msg) => Dispatched(Raised(msg), w)
  }

  /** `dispatch(n, p)`: an unbound name raises `Unknown command: n` and
      changes nothing; a bound one runs its handler. */
  function Dispatch(b: Registry, n: string, p: Payload, w: ThemeWorld, ext: Ext): (r: Dispatched)
    ensures n !in b.h ==> r == Dispatched(Raised("Unknown command: " + n), w)
    ensures n in b.h ==> r == Invoke(b.h[n], w, p, ext)
  {
    if n !in b.h then Dispatched(Raised("Unknown command: " + n), w)
    else Invoke(b.h[n], w, p, ext)
  }

  /** `_bus()`: the default commands, then the project hook, then the
      four theme commands, each registration overriding earlier ones. */
  function Setup(defaults: set<string>): (b: Registry) {
    var b0 := Registry(map k | k in defaults :: External(k));
    var b1 := Register(b0, "ui.project_open", External("ui.project_open"));
    var b2 := Register(b1, "theme", ThemeCmd);
    var b3 := Register(b2, "theme.list", ThemeList);
    var b4 := Register(b3, "theme.set", ThemeSet);
    Register(b4, "theme.reset", ThemeReset)
  }

  const ThemeNames: set<string> := {"theme", "theme.list", "theme.set", "theme.reset"}

  // ---------------------------------------------------------------------
  // Facts about the bus

  /** After setup the theme commands and the project hook are bound to the
      window's own handlers, whatever the default commands registered;
      every other default command is kept as it was. */
  lemma SetupBindings(defaults: set<string>)
    ensures var b := Setup(defaults);
      && b.h["theme"] == ThemeCmd && b.h["theme.list"] == ThemeList
      && b.h["theme.set"] == ThemeSet && b.h["theme.reset"] == ThemeReset
      && b.h["ui.project_open"] == External("ui.project_open")
      && b.h.Keys == defaults + ThemeNames + {"ui.project_open"}
      && forall k :: k in defaults && k !in ThemeNames ==> b.h[k] == External(k)
  {
  }

  /** Names are matched exactly: a name bound nowhere raises and leaves the
      theme state alone, whatever the payload. */
  lemma UnknownCommandRaises(defaults: set<string>, n: string, p: Payload, w: ThemeWorld, ext: Ext)
    requires n !in defaults && n !in ThemeNames && n != "ui.project_open"
    ensures Dispatch(Setup(defaults), n, p, w, ext) == Dispatched(Raised("Unknown command: " + n), w)
  {
    SetupBindings(defaults);
  }

  /** `theme.reset` ignores its payload entirely. */
  lemma ResetIgnoresPayload(defaults: set<string>, p: Payload, q: Payload, w: ThemeWorld, ext: Ext)
    ensures Dispatch(Setup(defaults), "theme.reset", p, w, ext) ==
            Dispatch(Setup(defaults), "theme.reset", q, w, ext)
  {
    SetupBindings(defaults);
  }

  /** `theme.set` with a mapping that has no `sub` key acts as `theme` with
      the same mapping plus `sub = "set"`; a `sub` key in the payload
      overrides the alias, because the payload is unpacked last. */
  lemma SetAliasMerges(defaults: set<string>, m: map<string, Value>, w: ThemeWorld, ext: Ext)
    ensures "sub" !in m ==>
      Dispatch(Setup(defaults), "theme.set", PMap(m), w, ext) ==
      Dispatch(Setup(defaults), "theme", PMap(m["sub" := S("set")]), w, ext)
    ensures "sub" in m ==>
      Dispatch(Setup(defaults), "theme.set", PMap(m), w, ext) ==
      Dispatch(Setup(defaults), "theme", PMap(m), w, ext)
  {
    SetupBindings(defaults);
    MergeSubMap("set", m);
  }

  lemma MergeSubMap(sub: string, m: map<string, Value>)
    ensures MergeSub(sub, PMap(m)) == Merged(if "sub" in m then m else m["sub" := S(sub)])
  {
    var r := MergeSub(sub, PMap(m));
    if m == map[] {
      assert r.m == m["sub" := S(sub)];
    } else if "sub" in m {
      assert r.m == m;
    } else {
      assert r.m == m["sub" := S(sub)];
    }
  }

  /** A truthy string or list sent to `theme.list` or `theme.set` cannot be
      unpacked into a mapping: the call raises and nothing changes. */
  lemma AliasRejectsNonMapping(defaults: set<string>, s: string, w: ThemeWorld, ext: Ext)
    requires s != ""
    ensures Dispatch(Setup(defaults), "theme.set", PStr(s), w, ext) ==
            Dispatched(Raised("'str' object is not a mapping"), w)
    ensures Dispatch(Setup(defaults), "theme.list", PList([Str(s)]), w, ext) ==
            Dispatched(Raised("'list' object is not a mapping"), w)
  {
    SetupBindings(defaults);
  }

  /** Only the four theme commands can change the theme state: every other
      name reaches an outside handler, which the model takes to return an
      outcome and nothing else. */
  lemma ExternalKeepsTheme(defaults: set<string>, n: string, p: Payload, w: ThemeWorld, ext: Ext)
    requires n !in ThemeNames
    ensures Dispatch(Setup(defaults), n, p, w, ext).world == w
  {
    SetupBindings(defaults);
  }
}
