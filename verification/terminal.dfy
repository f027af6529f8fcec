/**
 The terminal page (kaya/ui/terminal_page.py): `log`, which queues a line
 on the typewriter, and `execute`, which echoes the typed line, guarantees
 the token keys of `theme` commands, dispatches through the bus and logs
 the answer or the error. The command-line parser is not part of this
 model: it is the parameter `parse`.
 */
module Terminal {
  import opened Wrappers
  import opened Text
  import opened Payload
  import opened ThemeService
  import opened Typewriter
  import opened Bus

  /** The page's state: the reentrancy lock, the pending blank line, the
      input box, the typewriter, and the theme state the handlers change. */
  datatype Session = Session(busy: bool, needsGap: bool, input: string, writer: Writer, world: ThemeWorld)

  /** What the parser makes of a line: a command name and a payload, or the
      message of the exception it raised. */
  datatype Parsed = Parsed(cmd: string, p: Payload) | ParseFailed(msg: string)

  type Parser = string -> Parsed

  /** The text `log(t)` queues: `t`, with a newline added when missing. */
  function LogLine(t: string): (r: string)
    ensures EndsWith(r, "\n")
    ensures StartsWith(r, t) && |r| <= |t| + 1
    ensures EndsWith(t, "\n") ==> r == t
  {
    if EndsWith(t, "\n") then t else t + "\n"
  }

  /** `log(t)`. */
  function Log(w: Writer, t: string): Writer {
    Enqueue(w, LogLine(t))
  }

  /** `p.setdefault(k, v)`. */
  function SetDefault(m: map<string, Value>, k: string, v: Value): (r: map<string, Value>)
    ensures r.Keys == m.Keys + {k}
    ensures forall j :: j in m ==> r[j] == m[j]
    ensures k !in m ==> r[k] == v
  {
    if k in m then m else m[k := v]
  }

  /** The four defaults a `theme` command's payload receives: the tokens
      after the command word under `args`, `argv`, `tokens`, and their
      space-joined text under `rest`. */
  function ThemeDefaults(m: map<string, Value>, rest: seq<string>): map<string, Value> {
    var toks := Items(StrValues(rest));
    SetDefault(SetDefault(SetDefault(SetDefault(m, "args", toks), "argv", toks), "tokens", toks),
               RestKey, S(Join(" ", rest)))
  }

  /** The payload after the `theme` step, or the message of the
      AttributeError raised when a truthy non-mapping meets `setdefault`. */
  datatype Prepared = Ready(p: Payload) | Failed(msg: string)

  function PrepareTheme(cmd: string, line: string, p: Payload): (r: Prepared)
    ensures cmd != "theme" || |Split(line)| <= 1 ==> r == Ready(p)
    ensures cmd == "theme" && |Split(line)| > 1 && !PayloadTruthy(p) ==>
      r == Ready(PMap(ThemeDefaults(map[], Split(line)[1..])))
    ensures cmd == "theme" && |Split(line)| > 1 && p.PMap? ==>
      r == Ready(PMap(ThemeDefaults(p.fields, Split(line)[1..])))
    ensures r.Failed? <==> cmd == "theme" && |Split(line)| > 1 && PayloadTruthy(p) && !p.PMap?
  {
    var parts := Split(line);
    if cmd != "theme" || |parts| <= 1 then Ready(p)
    else if !PayloadTruthy(p) then Ready(PMap(ThemeDefaults(map[], parts[1..])))
    else
      match p
      case PMap(m) => Ready(PMap(ThemeDefaults(m, parts[1..])))
      case PStr(_) => Failed("'str' object has no attribute 'setdefault'")
      case PList(_) => Failed("'list' object has no attribute 'setdefault'")
  }

  /** `p or {}`. */
  function OrEmpty(p: Payload): (r: Payload)
    ensures PayloadTruthy(p) ==> r == p
    ensures !PayloadTruthy(p) ==> r == PMap(map[])
  {
    if PayloadTruthy(p) then p else PMap(map[])
  }

  /** The line the page logs after the echo (None when it logs nothing), and
      the theme state afterwards. */
  datatype Answered = Answered(logged: Option<string>, world: ThemeWorld)

  /** Everything `execute` does between the echo and `finally`. */
  function AfterEcho(line: string, parsed: Parsed, b: Registry, w: ThemeWorld, ext: Ext): (r: Answered)
    ensures parsed.ParseFailed? ==> r == Answered(Some("Error: " + parsed.msg), w)
    // a failed `setdefault` is reported like any other exception, and nothing changes
    ensures parsed.Parsed? && PrepareTheme(parsed.cmd, line, parsed.p).Failed? ==>
      r == Answered(Some("Error: " + PrepareTheme(parsed.cmd, line, parsed.p).msg), w)
    // otherwise the dispatch decides: its state is kept, an exception is
    // logged as `Error: <msg>`, a truthy result is logged and a falsy one is not
    ensures parsed.Parsed? && PrepareTheme(parsed.cmd, line, parsed.p).Ready? ==>
      var d := Dispatch(b, parsed.cmd, OrEmpty(PrepareTheme(parsed.cmd, line, parsed.p).p), w, ext);
      && r.world == d.world
      && (d.outcome.Raised? ==> r.logged == Some("Error: " + d.outcome.msg))
      && (d.outcome.Returned? ==>
            r.logged == (if d.outcome.value.Some? && d.outcome.value.value != "" then d.outcome.value else None))
    ensures r.logged.Some? ==> r.logged.value != ""
  {
    match parsed
    case ParseFailed(msg) => Answered(Some("Error: " + msg), w)
    case Parsed(cmd, p) =>
      match PrepareTheme(cmd, line, p)
      case Failed(msg) => Answered(Some("Error: " + msg), w)
      case Ready(p1) =>
        var d := Dispatch(b, cmd, OrEmpty(p1), w, ext);
        match d.outcome
        case Raised(msg) => Answered(Some("Error: " + msg), d.world)
        case Returned(v) =>
          if v.Some? && v.value != "" then Answered(Some(v.value), d.world)
          else Answered(None, d.world)
  }

  /** `execute()`: ignored while a previous call is running; a blank line
      only clears the input; otherwise the blank separator line when due,
      the echo `> line`, then the answer or the error, in that order. */
  function Execute(s: Session, b: Registry, parse: Parser, ext: Ext): (r: Session)
    ensures s.busy ==> r == s
    ensures !s.busy ==> !r.busy && r.needsGap && r.input == ""
    ensures !s.busy && Strip(s.input) == "" ==> r.writer == s.writer && r.world == s.world
  {
    if s.busy then s
    else
      var line := Strip(s.input);
      if line == "" then s.(input := "", needsGap := true)
      else
        var w1 := if s.needsGap then Enqueue(s.writer, "\n") else s.writer;
        var w2 := Enqueue(w1, Echo(line));
        var a := AfterEcho(line, parse(line), b, s.world, ext);
        var w3 := if a.logged.Some? then Log(w2, a.logged.value) else w2;
        Session(false, true, "", w3, a.world)
  }

  // ---------------------------------------------------------------------
  // Facts about the page

  /** A typed command that nothing registered is answered with
      `Error: Unknown command: <cmd>`, and the theme state stays as it was. */
  lemma UnknownCommandAnswer(defaults: set<string>, line: string, cmd: string, p: Payload, w: ThemeWorld, ext: Ext)
    requires cmd !in defaults && cmd !in ThemeNames && cmd != "ui.project_open"
    ensures AfterEcho(line, Parsed(cmd, p), Setup(defaults), w, ext) ==
      Answered(Some("Error: Unknown command: " + cmd), w)
  {
    SetupBindings(defaults);
    UnboundAnswer(Setup(defaults), line, cmd, p, w, ext);
  }

  lemma UnboundAnswer(b: Registry, line: string, cmd: string, p: Payload, w: ThemeWorld, ext: Ext)
    requires cmd != "theme" && cmd !in b.h
    ensures AfterEcho(line, Parsed(cmd, p), b, w, ext) == Answered(Some("Error: Unknown command: " + cmd), w)
  {
    assert PrepareTheme(cmd, line, p) == Ready(p);
    assert "Error: " + ("Unknown command: " + cmd) == "Error: Unknown command: " + cmd;
  }

  /** The echo of the typed line. */
  function Echo(line: string): string {
    "> " + line + "\n"
  }

  /** The text `execute` promises to the pane for a non-blank line. */
  function Transcript(gap: bool, line: string, a: Answered): string {
    (if gap then "\n" else "") + Echo(line) + (if a.logged.Some? then LogLine(a.logged.value) else "")
  }

  lemma Regroup(a: string, b: string, c: string, d: string)
    ensures ((a + b) + c) + d == a + ((b + c) + d)
  {
  }

  /** Everything `execute` writes goes through the typewriter after what
      was already promised: the separator, the echo, then the answer. */
  lemma ExecuteTranscript(s: Session, b: Registry, parse: Parser, ext: Ext)
    requires !s.busy && Valid(s.writer) && Strip(s.input) != ""
    ensures var line := Strip(s.input);
      var r := Execute(s, b, parse, ext);
      && Valid(r.writer)
      && Emitted(r.writer) == Emitted(s.writer) + Transcript(s.needsGap, line, AfterEcho(line, parse(line), b, s.world, ext))
  {
    var line := Strip(s.input);
    var w0 := s.writer;
    var gap := if s.needsGap then "\n" else "";
    var w1 := if s.needsGap then Enqueue(w0, "\n") else w0;
    OperationsKeepValid(w0, "\n");
    EnqueueConserves(w0, "\n");
    assert Valid(w1) && Emitted(w1) == Emitted(w0) + gap;
    var w2 := Enqueue(w1, Echo(line));
    EnqueueConserves(w1, Echo(line));
    OperationsKeepValid(w1, Echo(line));
    var a := AfterEcho(line, parse(line), b, s.world, ext);
    var logged := if a.logged.Some? then LogLine(a.logged.value) else "";
    var w3 := if a.logged.Some? then Log(w2, a.logged.value) else w2;
    EnqueueConserves(w2, logged);
    OperationsKeepValid(w2, logged);
    assert Emitted(w3) == Emitted(w2) + logged;
    assert Execute(s, b, parse, ext).writer == w3;
    Regroup(Emitted(w0), gap, Echo(line), logged);
  }

  /** For a `theme` line whose parser produced no payload, the handler sees
      the words after `theme` exactly as if they had been typed to it as a
      string: `theme set blue` normalises to ("set", "blue"). */
  lemma ThemeLineTokens(line: string, p: Payload)
    requires |Split(line)| > 1 && !PayloadTruthy(p)
    ensures PrepareTheme("theme", line, p).Ready?
    ensures Normalize(OrEmpty(PrepareTheme("theme", line, p).p)) == FromTokens(Split(line)[1..])
  {
    var rest := Split(line)[1..];
    var m := ThemeDefaults(map[], rest);
    FreshPrepared(line, p);
    FreshThemeDefaults(rest);
    TokensOnly(m, rest);
    assert Normalize(PMap(m)) == NormalizeFields(m);
  }

  lemma FreshPrepared(line: string, p: Payload)
    requires |Split(line)| > 1 && !PayloadTruthy(p)
    ensures var m := ThemeDefaults(map[], Split(line)[1..]);
      && PrepareTheme("theme", line, p) == Ready(PMap(m))
      && OrEmpty(PMap(m)) == PMap(m)
  {
    var m := ThemeDefaults(map[], Split(line)[1..]);
    assert "args" in m;
  }

  /** The mapping built for a `theme` line with no payload of its own. */
  lemma FreshThemeDefaults(rest: seq<string>)
    ensures var m := ThemeDefaults(map[], rest);
      && m.Keys == {"args", "argv", "tokens", RestKey}
      && AuxTokens(m) == Some(StrValues(rest))
      && (forall k :: k in m ==> k !in SubKeys && k !in NameKeys)
  {
    var m := ThemeDefaults(map[], rest);
    assert m.Keys == {"args", "argv", "tokens", RestKey};
    assert m["args"] == Items(StrValues(rest));
    assert FirstPresent(m, TokenKeys) == Some("args");
  }

  /** Typing `theme set <accent>` applies and persists that accent and logs
      the confirmation after the echo. */
  lemma TypedThemeSet(s: Session, defaults: set<string>, parse: Parser, ext: Ext, n: string)
    requires !s.busy && s.world.writable && Accents.IsAccent(n)
    requires s.input == "theme set " + n
    requires parse("theme set " + n) == Parsed("theme", PNone)
    ensures var r := Execute(s, Setup(defaults), parse, ext);
      && r.world == ThemeWorld(n, ThemeStore.Holds(n), true)
      && AfterEcho("theme set " + n, parse("theme set " + n), Setup(defaults), s.world, ext).logged == Some("Theme set to: " + n)
  {
    var line := "theme set " + n;
    TypedLineSplits(n);
    assert Strip(s.input) == line;
    TypedSetNormalizes(n);
    Bus.SetupBindings(defaults);
  }

  lemma TypedSetNormalizes(n: string)
    requires Accents.IsAccent(n)
    ensures var prep := PrepareTheme("theme", "theme set " + n, PNone);
      prep.Ready? && Normalize(OrEmpty(prep.p)) == Normalized(Some("set"), Some(n))
  {
    var line := "theme set " + n;
    TypedLineSplits(n);
    ThemeLineTokens(line, PNone);
    var rest := Split(line)[1..];
    assert rest == ["set", n];
    SetWordLower();
    Accents.NamesAreLower(n);
  }

  lemma SetWordLower()
    ensures Lower("set") == "set"
  {
  }

  /** `theme set <accent>` is already trimmed and splits into its three words. */
  lemma TypedLineSplits(n: string)
    requires Accents.IsAccent(n)
    ensures Strip("theme set " + n) == "theme set " + n
    ensures Split("theme set " + n) == ["theme", "set", n]
  {
    Accents.NamesAreWords(n);
    var ws := ["theme", "set", n];
    assert NoSpace("theme") && NoSpace("set");
    SplitJoin(ws);
    TypedLineJoin(n);
    assert ("theme set " + n)[0] == 't';
    assert ("theme set " + n)[|"theme set " + n| - 1] == n[|n| - 1];
    NoSpaceEnds("theme set " + n);
  }

  lemma TypedLineJoin(n: string)
    ensures Join(" ", ["theme", "set", n]) == "theme set " + n
  {
    assert Join(" ", ["set", n]) == "set " + n;
    assert Join(" ", ["theme", "set", n]) == "theme " + ("set " + n);
    PrefixWords(n);
  }

  lemma PrefixWords(n: string)
    ensures "theme " + ("set " + n) == "theme set " + n
  {
    assert "theme " + "set " == "theme set ";
  }

  lemma NoSpaceEnds(s: string)
    requires s != [] && !IsSpace(s[0]) && !IsSpace(s[|s| - 1])
    ensures Strip(s) == s
  {
    assert StripLeft(s) == s;
    StripRightParts(s);
  }
}
