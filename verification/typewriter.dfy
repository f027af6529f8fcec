/**
 The typewriter of the terminal page (kaya/ui/terminal_page.py): a queue of
 texts written into the output pane a few characters per timer tick, with
 a skip that flushes everything at once. The timer, the widget and the
 `finished` signal are replaced by state: `running` says whether the
 timer is active, `out` is the text inserted so far, and `finished`
 counts the emitted signals.
 */
module Typewriter {
  import opened Text

  datatype Writer = Writer(
    queue: seq<string>,   // texts waiting after the current one
    cur: string,          // the text being written
    i: nat,               // how much of `cur` is written
    running: bool,        // whether the timer is active
    out: string,          // everything inserted into the pane
    finished: nat,        // how often `finished` was emitted
    chunk: nat)           // characters per tick

  /** What the class keeps true between calls: a positive chunk, a position
      inside the current text, and an empty queue while idle. */
  predicate Valid(w: Writer) {
    && w.chunk >= 1
    && w.i <= |w.cur|
    && (!w.running ==> w.queue == [])
  }

  /** `max(1, chunk)`: the constructor's clamped chunk size. */
  function ClampChunk(chunk: int): (c: nat)
    ensures c >= 1
    ensures chunk >= 1 ==> c == chunk
  {
    if chunk < 1 then 1 else chunk
  }

  /** A new, idle typewriter over a pane already holding `initial`. */
  function New(chunk: int, initial: string): (w: Writer)
    ensures Valid(w) && !w.running && w.queue == [] && w.out == initial && w.finished == 0
    ensures w.chunk == ClampChunk(chunk)
  {
    Writer([], "", 0, false, initial, 0, ClampChunk(chunk))
  }

  /** `self._cur[self._i:]`, with Python's clamping of the start. */
  function Rest(w: Writer): (r: string)
    ensures |r| <= |w.cur|
  {
    if w.i <= |w.cur| then w.cur[w.i..] else ""
  }

  /** The text not yet inserted but already promised: the rest of the
      current text while running, then the queue in order. */
  function Pending(w: Writer): string {
    (if w.running then Rest(w) else "") + Concat(w.queue)
  }

  /** Everything the typewriter will have written once it drains. */
  function Emitted(w: Writer): string {
    w.out + Pending(w)
  }

  /** `_start_next`: take the next queued text, or go idle and emit
      `finished` when there is none. */
  function StartNext(w: Writer): (r: Writer)
    ensures r.out == w.out && r.chunk == w.chunk
    ensures w.queue == [] ==> !r.running && r.finished == w.finished + 1
    ensures w.queue != [] ==>
      r.running && r.cur == w.queue[0] && r.i == 0 && r.queue == w.queue[1..] && r.finished == w.finished
  {
    if w.queue == [] then w.(running := false, finished := w.finished + 1)
    else w.(running := true, cur := w.queue[0], queue := w.queue[1..], i := 0)
  }

  /** `queue(text)`: append, and start writing when idle. */
  function Enqueue(w: Writer, text: string): (r: Writer)
    ensures r.out == w.out && r.chunk == w.chunk && r.finished == w.finished
    ensures r.running
    ensures w.running ==> r.queue == w.queue + [text] && r.cur == w.cur && r.i == w.i
    ensures !w.running && w.queue == [] ==> r.cur == text && r.i == 0 && r.queue == []
  {
    var w1 := w.(queue := w.queue + [text]);
    if w.running then w1 else StartNext(w1)
  }

  /** `_tick`: write the next piece of at most `chunk` characters, or, at the
      end of the current text, move on to the next one. */
  function Tick(w: Writer): (r: Writer)
    ensures r.chunk == w.chunk
    ensures w.i >= |w.cur| ==> r == StartNext(w)
    ensures w.i < |w.cur| ==>
      && r.running == w.running && r.queue == w.queue && r.cur == w.cur && r.finished == w.finished
      && w.i <= r.i <= |w.cur| && r.i - w.i <= w.chunk
      && (r.i == |w.cur| || r.i == w.i + w.chunk)
      && (w.chunk >= 1 ==> w.i < r.i)
      && r.out == w.out + w.cur[w.i..r.i]
  {
    if w.i >= |w.cur| then StartNext(w)
    else
      var nxt := if |w.cur| < w.i + w.chunk then |w.cur| else w.i + w.chunk;
      w.(out := w.out + w.cur[w.i..nxt], i := nxt)
  }

  /** `skip`: insert the rest of the current text (when running) and every
      queued text, go idle and emit `finished`. */
  function Skip(w: Writer): (r: Writer)
    ensures !r.running && r.queue == [] && r.chunk == w.chunk
    ensures r.finished == w.finished + 1
    ensures r.out == Emitted(w)
  {
    var o := if w.running && Rest(w) != "" then w.out + Rest(w) else w.out;
    w.(out := o + Concat(w.queue), queue := [], running := false, finished := w.finished + 1)
  }

  // ---------------------------------------------------------------------
  // Invariants and conservation

  lemma StartNextValid(w: Writer)
    requires w.chunk >= 1 && w.i <= |w.cur|
    ensures Valid(StartNext(w))
  {
  }

  /** Every operation keeps the class invariant. */
  lemma OperationsKeepValid(w: Writer, text: string)
    requires Valid(w)
    ensures Valid(Enqueue(w, text)) && Valid(Tick(w)) && Valid(Skip(w))
  {
  }

  /** Once the current text is done (or the timer idle), `_start_next`
      only moves a queued text to the front. */
  lemma StartNextConserves(w: Writer)
    requires !w.running || w.i >= |w.cur|
    ensures Emitted(StartNext(w)) == Emitted(w)
  {
    if w.queue != [] {
      var r := StartNext(w);
      assert Rest(r) == w.queue[0];
      assert Concat(w.queue) == w.queue[0] + Concat(w.queue[1..]);
    }
  }

  /** Queueing promises exactly the new text, after everything before it. */
  lemma EnqueueConserves(w: Writer, text: string)
    requires Valid(w)
    ensures Emitted(Enqueue(w, text)) == Emitted(w) + text
  {
    ConcatAppend(w.queue, text);
    var w1 := w.(queue := w.queue + [text]);
    if !w.running {
      StartNextConserves(w1);
    }
  }

  /** A tick of the running timer writes only what was promised, in order. */
  lemma TickConserves(w: Writer)
    requires Valid(w) && w.running
    ensures Emitted(Tick(w)) == Emitted(w)
  {
    if w.i >= |w.cur| {
      StartNextConserves(w);
      assert Rest(w) == "";
    } else {
      var r := Tick(w);
      var a := w.cur[w.i..r.i];
      var b := w.cur[r.i..];
      assert Rest(w) == a + b;
      assert Rest(r) == b && r.out == w.out + a && r.running && r.queue == w.queue;
      Regroup(w.out, a, b, Concat(w.queue));
    }
  }

  lemma Regroup(o: string, a: string, b: string, c: string)
    ensures (o + a) + (b + c) == o + ((a + b) + c)
  {
  }

  /** The measure a tick of the running timer strictly decreases. */
  function Measure(w: Writer): nat {
    2 * |Pending(w)| + |w.queue| + (if w.running then 1 else 0)
  }

  /** Each tick of the running timer makes progress. */
  lemma TickProgress(w: Writer)
    requires Valid(w) && w.running
    ensures Measure(Tick(w)) < Measure(w)
  {
    var r := Tick(w);
    if w.i >= |w.cur| {
      assert Rest(w) == "";
      if w.queue != [] {
        assert Pending(r) == w.queue[0] + Concat(w.queue[1..]);
      }
    } else {
      assert |Rest(r)| < |Rest(w)|;
    }
  }

  /** Runs the timer until the typewriter goes idle: the pane then holds
      everything that was promised, and `finished` fired once. */
  method Drain(w0: Writer) returns (w: Writer)
    requires Valid(w0)
    ensures Valid(w) && !w.running && w.queue == []
    ensures w.out == Emitted(w0)
    ensures w.finished == w0.finished + (if w0.running then 1 else 0)
  {
    w := w0;
    while w.running
      invariant Valid(w)
      invariant Emitted(w) == Emitted(w0)
      invariant w.running ==> w.finished == w0.finished
      invariant !w.running ==> w.finished == w0.finished + (if w0.running then 1 else 0)
      decreases Measure(w)
    {
      TickConserves(w);
      TickProgress(w);
      OperationsKeepValid(w, "");
      w := Tick(w);
    }
  }

  // ---------------------------------------------------------------------
  // Traces

  /** What may happen to a typewriter: a text is queued, the timer fires,
      or Esc is pressed. */
  datatype Event = Put(text: string) | Fire | Esc

  /** The timer fires only while it runs. */
  function Step(w: Writer, e: Event): Writer {
    match e
    case Put(t) => Enqueue(w, t)
    case Fire => if w.running then Tick(w) else w
    case Esc => Skip(w)
  }

  function Run(w: Writer, es: seq<Event>): Writer
    decreases |es|
  {
    if es == [] then w else Run(Step(w, es[0]), es[1..])
  }

  /** The texts queued by a trace, in order. */
  function Queued(es: seq<Event>): string
    decreases |es|
  {
    if es == [] then "" else (if es[0].Put? then es[0].text else "") + Queued(es[1..])
  }

  lemma StepConserves(w: Writer, e: Event)
    requires Valid(w)
    ensures Valid(Step(w, e))
    ensures Emitted(Step(w, e)) == Emitted(w) + (if e.Put? then e.text else "")
  {
    OperationsKeepValid(w, if e.Put? then e.text else "");
    match e
    case Put(t) => EnqueueConserves(w, t);
    case Fire => if w.running { TickConserves(w); }
    case Esc =>
  }

  /** Whatever the interleaving of queueing, ticks and skips, the pane plus
      what is still pending is the initial text followed by every queued
      text in order: nothing is lost, duplicated or reordered. */
  lemma {:induction false} RunConserves(w: Writer, es: seq<Event>)
    requires Valid(w)
    ensures Valid(Run(w, es))
    ensures Emitted(Run(w, es)) == Emitted(w) + Queued(es)
    decreases |es|
  {
    if es != [] {
      var w1 := Step(w, es[0]);
      StepConserves(w, es[0]);
      RunConserves(w1, es[1..]);
      RunStep(w, es);
      Chain(Emitted(w), if es[0].Put? then es[0].text else "", Queued(es[1..]),
            Emitted(w1), Emitted(Run(w1, es[1..])));
    }
  }

  lemma RunStep(w: Writer, es: seq<Event>)
    requires es != []
    ensures Run(w, es) == Run(Step(w, es[0]), es[1..])
    ensures Queued(es) == (if es[0].Put? then es[0].text else "") + Queued(es[1..])
  {
  }

  lemma Chain(a: string, h: string, q: string, x: string, y: string)
    requires x == a + h && y == x + q
    ensures y == a + (h + q)
  {
  }

  /** The pane only ever grows: what is written stays written. */
  lemma {:induction false} RunExtendsPane(w: Writer, es: seq<Event>)
    requires Valid(w)
    ensures StartsWith(Run(w, es).out, w.out)
    decreases |es|
  {
    if es != [] {
      var w1 := Step(w, es[0]);
      OperationsKeepValid(w, if es[0].Put? then es[0].text else "");
      assert StartsWith(w1.out, w.out);
      RunExtendsPane(w1, es[1..]);
    }
  }

  /** After queueing texts on a fresh typewriter and then draining or
      skipping, the pane holds the initial text and the texts in order. */
  lemma FreshThenSkip(initial: string, chunk: int, es: seq<Event>)
    ensures var w := Run(New(chunk, initial), es);
      Skip(w).out == initial + Queued(es)
  {
    RunConserves(New(chunk, initial), es);
  }
}
