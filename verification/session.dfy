/** A run of a script as a sequence of triggers on the world of handles:
    `$` calls, the zero-delay timers, `then`/`await`, `exitCode`, the stream
    getters, `noThrow`, `pipe`, output chunks and close events, in whatever
    order the event loop delivers them. `Valid` is the invariant every
    reachable world keeps; the lemmas at the end state what it buys. */
module Session {
  import opened Base
  import opened Outputs
  import opened Command
  import opened Lifecycle

  // ----- The combined buffer -----

  /** `c` is an interleaving of `a` and `b`: read from the back, every
      character of `c` is the last remaining one of `a` or of `b`. */
  ghost predicate Interleaves(c: string, a: string, b: string)
    decreases |c|
  {
    if c == [] then a == [] && b == []
    else
      || (a != [] && a[|a| - 1] == c[|c| - 1] && Interleaves(c[..|c| - 1], a[..|a| - 1], b))
      || (b != [] && b[|b| - 1] == c[|c| - 1] && Interleaves(c[..|c| - 1], a, b[..|b| - 1]))
  }

  lemma {:induction false} InterleavesAppendLeft(c: string, a: string, b: string, x: string)
    requires Interleaves(c, a, b)
    ensures Interleaves(c + x, a + x, b)
    decreases |x|
  {
    if x != [] {
      var x' := x[..|x| - 1];
      InterleavesAppendLeft(c, a, b, x');
      assert (c + x)[..|c + x| - 1] == c + x';
      assert (a + x)[..|a + x| - 1] == a + x';
    } else {
      assert c + x == c && a + x == a;
    }
  }

  lemma {:induction false} InterleavesAppendRight(c: string, a: string, b: string, x: string)
    requires Interleaves(c, a, b)
    ensures Interleaves(c + x, a, b + x)
    decreases |x|
  {
    if x != [] {
      var x' := x[..|x| - 1];
      InterleavesAppendRight(c, a, b, x');
      assert (c + x)[..|c + x| - 1] == c + x';
      assert (b + x)[..|b + x| - 1] == b + x';
    } else {
      assert c + x == c && b + x == b;
    }
  }

  /** An interleaving holds exactly the characters of its two parts. */
  lemma {:induction false} InterleavesContents(c: string, a: string, b: string)
    requires Interleaves(c, a, b)
    ensures |c| == |a| + |b|
    ensures multiset(c) == multiset(a) + multiset(b)
    decreases |c|
  {
    if c != [] {
      var c' := c[..|c| - 1];
      assert c == c' + [c[|c| - 1]];
      if a != [] && a[|a| - 1] == c[|c| - 1] && Interleaves(c', a[..|a| - 1], b) {
        InterleavesContents(c', a[..|a| - 1], b);
        assert a == a[..|a| - 1] + [a[|a| - 1]];
      } else {
        InterleavesContents(c', a, b[..|b| - 1]);
        assert b == b[..|b| - 1] + [b[|b| - 1]];
      }
    }
  }

  // ----- The invariant -----

  /** What was collected from a child: the combined text interleaves stdout
      and stderr, and nothing is collected from an uncaptured stdout. */
  ghost predicate BuffersOk(f: Future) {
    f.child.Some? ==>
      && Interleaves(f.child.value.combined, f.child.value.stdout, f.child.value.stderr)
      && (!f.child.value.capturesStdout ==> f.child.value.stdout == "")
  }

  ghost predicate SpawnedIn(trace: seq<Event>, i: Id) {
    exists k | 0 <= k < |trace| :: trace[k].Spawned? && trace[k].id == i
  }

  /** Every spawn in the trace belongs to a started handle and recorded the
      stdin mode and capture its child has. */
  ghost predicate SpawnsStarted(w: World) {
    forall k | 0 <= k < |w.trace| && w.trace[k].Spawned? ::
      && w.trace[k].id in w.futures
      && w.futures[w.trace[k].id].Started()
      && w.futures[w.trace[k].id].child.value.stdin == w.trace[k].stdin
      && w.futures[w.trace[k].id].child.value.capturesStdout == w.trace[k].capturesStdout
  }

  ghost predicate SpawnsDistinct(trace: seq<Event>) {
    forall k1, k2 | 0 <= k1 < k2 < |trace| && trace[k1].Spawned? && trace[k2].Spawned? ::
      trace[k1].id != trace[k2].id
  }

  /** No connection ever goes into the standard input of a started child. */
  ghost predicate NoStdinWiring(trace: seq<Event>) {
    forall k | 0 <= k < |trace| && trace[k].Wired? :: trace[k].sink.Into?
  }

  /** A settled handle has started, and its output carries what its child
      collected (no chunk arrives after the close). */
  ghost predicate SettledFromChild(f: Future) {
    f.Resolved() ==>
      && f.Started()
      && f.settled.value.output.Stdout() == f.child.value.stdout
      && f.settled.value.output.Stderr() == f.child.value.stderr
      && f.settled.value.output.ToString() == f.child.value.combined
  }

  ghost predicate Valid(w: World) {
    && (forall i | i in w.futures :: i < w.next)
    && Ready(w.futures)
    && (forall i | i in w.futures :: BuffersOk(w.futures[i]) && SettledFromChild(w.futures[i]))
    && SpawnsStarted(w)
    && SpawnsDistinct(w.trace)
    && (forall i | i in w.futures && w.futures[i].Started() :: SpawnedIn(w.trace, i))
    && NoStdinWiring(w.trace)
  }

  lemma EmptyValid()
    ensures Valid(Empty)
  {
  }

  /** `g` has the same spawn as `f`: started alike, with the same stdin mode
      and capture. */
  predicate SameSpawn(f: Future, g: Future) {
    && f.child.Some? == g.child.Some?
    && (f.child.Some? ==> g.child.value.stdin == f.child.value.stdin && g.child.value.capturesStdout == f.child.value.capturesStdout)
  }

  /** Replacing one handle by one with the same spawn keeps the world valid
      when the new handle is itself consistent. */
  lemma UpdateValid(w: World, id: Id, g: Future)
    requires Valid(w) && id in w.futures
    requires SameSpawn(w.futures[id], g)
    requires HookShape(w.futures.Keys, id, g) && BuffersOk(g) && SettledFromChild(g)
    ensures Valid(w.(futures := w.futures[id := g])) && Extends(w, w.(futures := w.futures[id := g]))
  {
    var r := w.(futures := w.futures[id := g]);
    assert r.futures.Keys == w.futures.Keys;
    forall i | i in r.futures && r.futures[i].Started()
      ensures SpawnedIn(r.trace, i)
    {
      assert w.futures[i].Started();
    }
  }

  /** The effect of starting a handle that had not started, as `Run`
      states it. */
  ghost predicate StartStep(w: World, id: Id, r: World) {
    && id in w.futures && !w.futures[id].Started()
    && r.next == w.next
    && r.futures == w.futures[id := AfterStart(w.futures[id])]
    && r.trace == w.trace + [SpawnEvent(id, w.futures[id])] + HookEvents(w.futures[id])
  }

  lemma StartKeepsSpawnLog(w: World, id: Id, r: World)
    requires Valid(w) && StartStep(w, id, r)
    ensures SpawnsStarted(r) && SpawnsDistinct(r.trace)
  {
    var n := |w.trace|;
    forall k | 0 <= k < |r.trace| && r.trace[k].Spawned?
      ensures r.trace[k].id in r.futures && r.futures[r.trace[k].id].Started()
      ensures r.futures[r.trace[k].id].child.value.stdin == r.trace[k].stdin
      ensures r.futures[r.trace[k].id].child.value.capturesStdout == r.trace[k].capturesStdout
    {
      if k < n {
        assert r.trace[k] == w.trace[k];
      } else {
        assert k == n && r.trace[k] == SpawnEvent(id, w.futures[id]);
      }
    }
    forall k1, k2 | 0 <= k1 < k2 < |r.trace| && r.trace[k1].Spawned? && r.trace[k2].Spawned?
      ensures r.trace[k1].id != r.trace[k2].id
    {
      assert r.trace[k1] == w.trace[k1];
      if k2 < n {
        assert r.trace[k2] == w.trace[k2];
      } else {
        assert k2 == n && r.trace[k2] == SpawnEvent(id, w.futures[id]);
      }
    }
  }

  lemma StartLogsSpawn(w: World, id: Id, r: World)
    requires Valid(w) && StartStep(w, id, r)
    ensures forall i | i in r.futures && r.futures[i].Started() :: SpawnedIn(r.trace, i)
  {
    var n := |w.trace|;
    forall i | i in r.futures && r.futures[i].Started()
      ensures SpawnedIn(r.trace, i)
    {
      if i == id {
        assert r.trace[n] == SpawnEvent(id, w.futures[id]);
      } else {
        var k :| 0 <= k < |w.trace| && w.trace[k].Spawned? && w.trace[k].id == i;
        assert r.trace[k] == w.trace[k];
      }
    }
  }

  lemma StartKeepsWiring(w: World, id: Id, r: World)
    requires Valid(w) && StartStep(w, id, r)
    ensures NoStdinWiring(r.trace)
  {
    var n := |w.trace|;
    forall k | 0 <= k < |r.trace| && r.trace[k].Wired?
      ensures r.trace[k].sink.Into?
    {
      if k < n {
        assert r.trace[k] == w.trace[k];
      } else {
        assert k == n + 1 && r.trace[k] == HookEvents(w.futures[id])[0];
      }
    }
  }

  /** `r` is a later world than `w`: no handle disappears or stops, the trace
      only grows, and a started child keeps its stdin mode. */
  ghost predicate Extends(w: World, r: World) {
    && r.next >= w.next && w.futures.Keys <= r.futures.Keys && w.trace <= r.trace
    && forall i | i in w.futures && w.futures[i].Started() ::
         r.futures[i].Started() && r.futures[i].child.value.stdin == w.futures[i].child.value.stdin
  }

  lemma RunValid(w: World, id: Id)
    requires Valid(w) && id in w.futures
    ensures Valid(Run(w, id)) && Extends(w, Run(w, id))
  {
    var r := Run(w, id);
    if !w.futures[id].Started() {
      StartValid(w, id, r);
    }
  }

  lemma StartValid(w: World, id: Id, r: World)
    requires Valid(w) && StartStep(w, id, r) && Ready(r.futures)
    ensures Valid(r) && Extends(w, r)
  {
    StartKeepsSpawnLog(w, id, r);
    StartLogsSpawn(w, id, r);
    StartKeepsWiring(w, id, r);
    assert BuffersOk(r.futures[id]) && SettledFromChild(r.futures[id]);
  }

  lemma AccessStreamValid(w: World, id: Id)
    requires Valid(w) && id in w.futures
    ensures Valid(AccessStream(w, id)) && Extends(w, AccessStream(w, id))
  {
    var g := w.futures[id].(inheritStdin := false);
    UpdateValid(w, id, g);
    RunValid(w.(futures := w.futures[id := g]), id);
  }

  lemma PipeValid(w: World, src: Id, dest: Dest)
    requires Valid(w) && src in w.futures
    ensures PipeInto(w, src, dest).Piped? ==>
      Valid(PipeInto(w, src, dest).world) && Extends(w, PipeInto(w, src, dest).world)
  {
    if !dest.DestText? && !w.futures[src].Resolved() {
      var s := w.futures[src].(piped := true);
      UpdateValid(w, src, s);
      var w1 := w.(futures := w.futures[src := s]);
      if IntoRunningStdin(w, dest) {
        var d := w1.futures[dest.id].(inheritStdin := false, preRun := Some(src),
                                      postRun := Some(PipeStdout(src, ChildStdin(dest.id))));
        UpdateValid(w1, dest.id, d);
      } else {
        UpdateValid(w1, src, s.(postRun := Some(PipeStdout(src, Into(dest)))));
      }
    }
  }

  lemma OnStdoutValid(w: World, id: Id, chunk: string)
    requires Valid(w) && Running(w, id)
    ensures Valid(OnStdout(w, id, chunk)) && Extends(w, OnStdout(w, id, chunk))
  {
    var f := w.futures[id];
    var c := f.child.value;
    if c.capturesStdout {
      InterleavesAppendLeft(c.combined, c.stdout, c.stderr, chunk);
      UpdateValid(w, id, f.(child := Some(c.(stdout := c.stdout + chunk, combined := c.combined + chunk))));
    }
  }

  lemma OnStderrValid(w: World, id: Id, chunk: string)
    requires Valid(w) && Running(w, id)
    ensures Valid(OnStderr(w, id, chunk)) && Extends(w, OnStderr(w, id, chunk))
  {
    var f := w.futures[id];
    var c := f.child.value;
    InterleavesAppendRight(c.combined, c.stdout, c.stderr, chunk);
    UpdateValid(w, id, f.(child := Some(c.(stderr := c.stderr + chunk, combined := c.combined + chunk))));
  }

  lemma CloseValid(w: World, id: Id, code: Option<int>, signal: Option<string>, from: string)
    requires Valid(w) && Running(w, id)
    ensures Valid(Close(w, id, code, signal, from)) && Extends(w, Close(w, id, code, signal, from))
  {
    var r := Close(w, id, code, signal, from);
    UpdateValid(w, id, r.futures[id]);
    assert r.futures == w.futures[id := r.futures[id]];
  }

  lemma CreateValid(w: World, config: Config, pieces: seq<string>, args: seq<Arg>)
    requires Valid(w) && |pieces| == |args| + 1
    ensures Valid(Create(w, config, pieces, args).0) && Extends(w, Create(w, config, pieces, args).0)
  {
    var r := Create(w, config, pieces, args).0;
    forall i | i in r.futures && r.futures[i].Started()
      ensures SpawnedIn(r.trace, i)
    {
      assert i in w.futures;
    }
  }

  // ----- Triggers -----

  datatype Stream = Stdin | Stdout | Stderr

  /** Everything that can happen next. A trigger that names a handle that
      does not exist, or an output event for a handle that is not running,
      is not enabled and changes nothing. */
  datatype Trigger =
    | Call(config: Config, pieces: seq<string>, args: seq<Arg>)
    | Timer(id: Id)
    | Then(id: Id)
    | ExitCodeRead(id: Id)
    | StreamRead(id: Id, stream: Stream)
    | MarkNoThrow(id: Id)
    | PipeCall(src: Id, dest: Dest)
    | StdoutData(id: Id, chunk: string)
    | StderrData(id: Id, chunk: string)
    | Closed(id: Id, code: Option<int>, signal: Option<string>, from: string)

  /** One trigger. The timer scheduled by `$`, `then` and the `exitCode`
      getter (which calls `then`) all run `_run`; every stream getter clears
      `inheritStdin` first. A `pipe` that throws leaves the world as it was. */
  function Step(w: World, t: Trigger): (r: World)
    requires Valid(w)
    ensures Valid(r) && Extends(w, r)
  {
    match t
    case Call(config, pieces, args) =>
      if |pieces| == |args| + 1 then CreateValid(w, config, pieces, args); Create(w, config, pieces, args).0
      else w
    case Timer(id) =>
      if id in w.futures then RunValid(w, id); Run(w, id) else w
    case Then(id) =>
      if id in w.futures then RunValid(w, id); Run(w, id) else w
    case ExitCodeRead(id) =>
      if id in w.futures then RunValid(w, id); Run(w, id) else w
    case StreamRead(id, _) =>
      if id in w.futures then AccessStreamValid(w, id); AccessStream(w, id) else w
    case MarkNoThrow(id) =>
      if id in w.futures then UpdateValid(w, id, w.futures[id].(noThrow := true)); NoThrow(w, id).0 else w
    case PipeCall(src, dest) =>
      if src in w.futures then
        PipeValid(w, src, dest);
        match PipeInto(w, src, dest)
        case Piped(w', _) => w'
        case PipeFailed(_) => w
      else w
    case StdoutData(id, chunk) =>
      if Running(w, id) then OnStdoutValid(w, id, chunk); OnStdout(w, id, chunk) else w
    case StderrData(id, chunk) =>
      if Running(w, id) then OnStderrValid(w, id, chunk); OnStderr(w, id, chunk) else w
    case Closed(id, code, signal, from) =>
      if Running(w, id) then CloseValid(w, id, code, signal, from); Close(w, id, code, signal, from) else w
  }

  /** A whole run: the triggers in the order they happen. */
  function Steps(w: World, ts: seq<Trigger>): (r: World)
    requires Valid(w)
    ensures Valid(r)
    ensures w.trace <= r.trace
    decreases |ts|
  {
    if ts == [] then w else Steps(Step(w, ts[0]), ts[1..])
  }

  // ----- What the invariant buys -----

  /** In every reachable world each handle has spawned at most once, and a
      handle has started exactly when the trace holds its spawn. */
  lemma SpawnAtMostOnce(ts: seq<Trigger>, k1: int, k2: int)
    requires var r := Steps(Empty, ts);
      0 <= k1 < k2 < |r.trace| && r.trace[k1].Spawned? && r.trace[k2].Spawned?
    ensures var r := Steps(Empty, ts);
      r.trace[k1].id != r.trace[k2].id
  {
  }

  lemma StartedIffSpawned(w: World, i: Id)
    requires Valid(w) && i in w.futures
    ensures w.futures[i].Started() <==> SpawnedIn(w.trace, i)
  {
    if SpawnedIn(w.trace, i) {
      var k :| 0 <= k < |w.trace| && w.trace[k].Spawned? && w.trace[k].id == i;
    }
  }

  /** The timer `$` schedules starts the handle if nothing did before; the
      spawn is then the first new effect and uses the stdin mode set so far. */
  lemma TimerForcesStart(w: World, id: Id)
    requires Valid(w) && id in w.futures
    ensures Step(w, Timer(id)).futures[id].Started()
    ensures !w.futures[id].Started() ==>
      |Step(w, Timer(id)).trace| > |w.trace| &&
      Step(w, Timer(id)).trace[|w.trace|] == SpawnEvent(id, w.futures[id])
    ensures w.futures[id].Started() ==> Step(w, Timer(id)) == w
  {
  }

  /** Asking for any stream of a handle that has not started spawns it with
      a piped standard input; starting it without doing so (and without a
      pipe into it) inherits the parent's. */
  lemma StreamReadPipesStdin(w: World, id: Id, s: Stream)
    requires Valid(w) && id in w.futures && !w.futures[id].Started()
    ensures var r := Step(w, StreamRead(id, s));
      r.trace[|w.trace|].Spawned? && r.trace[|w.trace|].stdin == Pipe
    ensures w.futures[id].inheritStdin ==>
      var r := Step(w, Then(id));
      r.trace[|w.trace|].Spawned? && r.trace[|w.trace|].stdin == Inherit
  {
  }

  /** A fresh handle is started by its timer with an inherited stdin and a
      captured stdout, running the configured prefix and command. */
  lemma FreshHandleSpawn(w: World, config: Config, pieces: seq<string>, args: seq<Arg>)
    requires Valid(w) && |pieces| == |args| + 1
    ensures var w1 := Step(w, Call(config, pieces, args));
            var r := Step(w1, Timer(w.next));
      && |r.trace| == |w.trace| + 1
      && r.trace[|w.trace|] == Spawned(w.next, config.prefix + Assemble(pieces, args), config.shell, Inherit, true)
  {
    var w1 := Step(w, Call(config, pieces, args));
    assert w1 == Create(w, config, pieces, args).0;
    assert w1.futures[w.next].postRun.None?;
  }

  /** The post-run hook runs after the spawn: when a handle with a pipe hook
      starts, the trace gains its spawn and then the connection of its
      stdout, in that order, and nothing else. */
  lemma HookRunsAfterSpawn(w: World, id: Id)
    requires Valid(w) && id in w.futures && !w.futures[id].Started() && w.futures[id].postRun.Some?
    ensures var r := Run(w, id);
      && r.trace == w.trace + [SpawnEvent(id, w.futures[id]), Wired(id, w.futures[id].postRun.value.sink)]
      && !r.futures[id].inheritStdin
  {
  }

  /** `pipe` into a running handle installs hooks that never fire: starting
      or reading that handle afterwards adds nothing to the trace. */
  lemma PipeIntoRunningIsInert(w: World, src: Id, dest: Dest)
    requires Valid(w) && src in w.futures && !w.futures[src].Resolved()
    requires IntoRunningStdin(w, dest)
    ensures var p := PipeInto(w, src, dest);
      && p.Piped? && p.handle == dest.id
      && Run(p.world, dest.id) == p.world
      && AccessStream(p.world, dest.id).trace == p.world.trace
  {
    PipeValid(w, src, dest);
  }

  /** `pipe` on a source that has already started stores a hook that never
      runs: the source's later starts add nothing to the trace. */
  lemma LatePipeIsInert(w: World, src: Id, dest: Dest)
    requires Valid(w) && src in w.futures && w.futures[src].Started() && !w.futures[src].Resolved()
    requires !dest.DestText? && !IntoRunningStdin(w, dest)
    ensures var p := PipeInto(w, src, dest);
      && p.Piped? && p.handle == src
      && Run(p.world, src) == p.world
      && AccessStream(p.world, src).trace == p.world.trace
  {
    PipeValid(w, src, dest);
  }

  /** A piped handle collects no stdout, so its output's `stdout` is empty,
      while its combined text still holds all of stderr. */
  lemma PipedOutputHasNoStdout(w: World, id: Id, code: Option<int>, signal: Option<string>, from: string)
    requires Valid(w) && Running(w, id) && !w.futures[id].child.value.capturesStdout
    ensures var o := Close(w, id, code, signal, from).futures[id].settled.value.output;
      o.Stdout() == "" && o.ToString() == o.Stderr()
  {
    var c := w.futures[id].child.value;
    InterleavesContents(c.combined, c.stdout, c.stderr);
    InterleavesOnlyRight(c.combined, c.stderr);
  }

  lemma {:induction false} InterleavesOnlyRight(c: string, b: string)
    requires Interleaves(c, "", b)
    ensures c == b
    decreases |c|
  {
    if c != [] {
      InterleavesOnlyRight(c[..|c| - 1], b[..|b| - 1]);
      assert c == c[..|c| - 1] + [c[|c| - 1]];
      assert b == b[..|b| - 1] + [b[|b| - 1]];
    }
  }

  /** The combined output of a settled handle holds exactly the characters
      of its stdout and its stderr. */
  lemma CombinedOutputContents(w: World, id: Id)
    requires Valid(w) && id in w.futures && w.futures[id].Resolved()
    ensures var o := w.futures[id].settled.value.output;
      && |o.ToString()| == |o.Stdout()| + |o.Stderr()|
      && multiset(o.ToString()) == multiset(o.Stdout()) + multiset(o.Stderr())
  {
    var c := w.futures[id].child.value;
    InterleavesContents(c.combined, c.stdout, c.stderr);
  }

  /** A handle settles once: after its close event, further chunks and
      closes change nothing. */
  lemma SettlesOnce(w: World, id: Id, code: Option<int>, signal: Option<string>, from: string, t: Trigger)
    requires Valid(w) && Running(w, id)
    requires t.StdoutData? || t.StderrData? || t.Closed?
    requires t.id == id
    ensures var r := Step(w, Closed(id, code, signal, from));
      Step(r, t) == r
  {
  }
}
