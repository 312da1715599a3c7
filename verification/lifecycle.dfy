/** The lifecycle of the deferred process handle that `$` returns
    (index.ts:39-112, 163-239, 340-343).

    A handle is created unstarted; the first of a zero-delay timer, `then`
    (and so `await` or `exitCode`) or a stream getter starts it, exactly
    once. `pipe` arranges hooks that run around the start, chunks of output
    are collected while the child runs, and the close event settles the
    handle. All handles live in one `World`, keyed by the order of
    creation, together with a trace of the externally visible effects: the
    spawns and the stream connections. */
module Lifecycle {
  import opened Base
  import opened Outputs
  import opened Command

  /** Handles are named by the order in which `$` created them. */
  type Id = nat

  /** How the child's standard input is set up at spawn. */
  datatype StdinMode = Inherit | Pipe

  /** The argument of `pipe`: another handle, a writable stream (an opaque
      resource), or a string, which `pipe` refuses. */
  datatype Dest = DestText(text: string) | DestFuture(id: Id) | DestWritable(handle: nat)

  /** The argument a pipe hook passes to the source's `stdout.pipe`: the
      standard input of a started child, or the `pipe` argument itself, as
      given. Only a writable stream can be piped into; a handle passed this
      way (`Into(DestFuture(_))`) is not a stream, and the hook is recorded
      as a `Wired` event without modelling what that call does with it. */
  datatype Sink = ChildStdin(owner: Id) | Into(dest: Dest)

  /** A post-run hook: `() => src.stdout.pipe(sink)`. */
  datatype Hook = PipeStdout(src: Id, sink: Sink)

  /** A spawned child and the text collected from it so far. */
  datatype Child = Child(stdin: StdinMode, capturesStdout: bool, stdout: string, stderr: string, combined: string)

  datatype Settlement = Fulfilled(output: ProcessOutput) | Rejected(output: ProcessOutput)

  /** The fields of one handle. `preRun` names the handle whose start it
      would trigger. */
  datatype Future = Future(
    command: string,
    config: Config,
    child: Option<Child>,
    noThrow: bool,
    inheritStdin: bool,
    piped: bool,
    preRun: Option<Id>,
    postRun: Option<Hook>,
    settled: Option<Settlement>)
  {
    predicate Started() { child.Some? }

    /** `_resolved`. */
    predicate Resolved() { settled.Some? }
  }

  /** The effects a handle has outside the model. */
  datatype Event =
    | Spawned(id: Id, commandLine: string, shell: string, stdin: StdinMode, capturesStdout: bool)
    | Wired(src: Id, sink: Sink)

  datatype World = World(futures: map<Id, Future>, next: Id, trace: seq<Event>)

  const Empty: World := World(map[], 0, [])

  // ----- Hooks and the start -----

  /** The hook fields of handle `i` are consistent: they name handles of the
      world, and a handle that has not started holds no pre-run hook and at
      most its own pipe hook (the only hooks `pipe` installs on an unstarted
      handle). */
  ghost predicate HookShape(keys: set<Id>, i: Id, f: Future) {
    && (f.preRun.Some? ==> f.preRun.value in keys)
    && (f.postRun.Some? ==> f.postRun.value.src in keys)
    && (!f.Started() ==> f.preRun.None? && (f.postRun.Some? ==> f.postRun.value.src == i && f.postRun.value.sink.Into?))
  }

  ghost predicate Ready(fs: map<Id, Future>) {
    forall i | i in fs :: HookShape(fs.Keys, i, fs[i])
  }

  ghost function Unstarted(fs: map<Id, Future>): set<Id> {
    set i | i in fs && !fs[i].Started()
  }

  lemma StartShrinks(fs: map<Id, Future>, id: Id, g: Future)
    requires id in fs && !fs[id].Started() && g.Started()
    ensures Unstarted(fs[id := g]) == Unstarted(fs) - {id}
    ensures |Unstarted(fs[id := g])| < |Unstarted(fs)|
  {
    assert id in Unstarted(fs);
  }

  lemma SameStart(fs: map<Id, Future>, id: Id, g: Future)
    requires id in fs && g.Started() == fs[id].Started()
    ensures Unstarted(fs[id := g]) == Unstarted(fs)
  {
  }

  /** The child a handle spawns, given its flags at that moment: stdin is
      inherited unless some stream was asked for or a pipe needs it, and
      stdout is collected unless the handle is piped. */
  function SpawnChild(f: Future): Child {
    Child(if f.inheritStdin then Inherit else Pipe, !f.piped, "", "", "")
  }

  /** The spawn: the prefix and the command, run by the configured shell. */
  function SpawnEvent(id: Id, f: Future): Event {
    Spawned(id, f.config.prefix + f.command, f.config.shell, SpawnChild(f).stdin, SpawnChild(f).capturesStdout)
  }

  /** The connection the post-run hook makes, if there is one. */
  function HookEvents(f: Future): seq<Event> {
    match f.postRun
    case None => []
    case Some(h) => [Wired(h.src, h.sink)]
  }

  /** The handle after its start. The pipe hook reads the handle's own
      `stdout`, which clears `inheritStdin` once more. */
  function AfterStart(f: Future): Future {
    f.(child := Some(SpawnChild(f)), inheritStdin := f.inheritStdin && f.postRun.None?)
  }

  /** `_run` (index.ts:179-234). A started handle is left alone; otherwise
      the child is spawned, recorded, and the post-run hook, if any, runs
      afterwards. The pre-run hook test of the source never succeeds here:
      `Ready` rules out a pre-run hook on a handle that has not started.
      The hook reads the source's `stdout` through its getter, which is where
      the recursion through `AccessStream` comes from. */
  function Run(w: World, id: Id): (r: World)
    requires Ready(w.futures) && id in w.futures
    ensures Ready(r.futures) && r.next == w.next && r.futures.Keys == w.futures.Keys
    ensures forall i | i in w.futures && i != id :: r.futures[i] == w.futures[i]
    ensures w.futures[id].Started() ==> r == w
    ensures !w.futures[id].Started() ==>
      && r.futures == w.futures[id := AfterStart(w.futures[id])]
      && r.trace == w.trace + [SpawnEvent(id, w.futures[id])] + HookEvents(w.futures[id])
    decreases |Unstarted(w.futures)|, 0
  {
    var f := w.futures[id];
    if f.Started() then w
    else
      var g := f.(child := Some(SpawnChild(f)));
      var w1 := w.(futures := w.futures[id := g], trace := w.trace + [SpawnEvent(id, f)]);
      StartShrinks(w.futures, id, g);
      match f.postRun
      case None => w1
      case Some(hook) =>
        var w2 := AccessStream(w1, hook.src);
        w2.(trace := w2.trace + [Wired(hook.src, hook.sink)])
  }

  /** The `stdin`, `stdout` and `stderr` getters (index.ts:59-75): clear
      `inheritStdin`, then start the handle. */
  function AccessStream(w: World, id: Id): (r: World)
    requires Ready(w.futures) && id in w.futures
    ensures Ready(r.futures) && r.next == w.next && r.futures.Keys == w.futures.Keys
    ensures forall i | i in w.futures && i != id :: r.futures[i] == w.futures[i]
    ensures w.futures[id].Started() ==>
      r == w.(futures := w.futures[id := w.futures[id].(inheritStdin := false)])
    ensures !w.futures[id].Started() ==>
      && r.futures[id] == AfterStart(w.futures[id].(inheritStdin := false))
      && r.trace == w.trace + [SpawnEvent(id, w.futures[id].(inheritStdin := false))] + HookEvents(w.futures[id])
    decreases |Unstarted(w.futures)|, 1
  {
    var g := w.futures[id].(inheritStdin := false);
    SameStart(w.futures, id, g);
    Run(w.(futures := w.futures[id := g]), id)
  }

  /** A pre-run hook never fires: the only place that installs one targets a
      handle that has already started, and `_run` returns at once there. */
  lemma PreRunNeverFires(w: World, id: Id)
    requires Ready(w.futures) && id in w.futures && w.futures[id].preRun.Some?
    ensures w.futures[id].Started()
    ensures Run(w, id) == w
  {
  }

  // ----- Creating a handle, `noThrow`, `pipe` -----

  /** `$` (index.ts:163-239): a new handle with the assembled command and
      the settings of the moment, not started. The command is the fold of
      index.ts:166-173 as written (`Assemble`): the first template fragment
      followed by the rendered slots. The zero-delay timer it schedules is
      the `Timer` trigger below. */
  function Create(w: World, config: Config, pieces: seq<string>, args: seq<Arg>): (r: (World, Id))
    requires |pieces| == |args| + 1
    requires w.next !in w.futures
    ensures r.1 == w.next && r.0.next == w.next + 1 && r.0.trace == w.trace
    ensures r.0.futures.Keys == w.futures.Keys + {r.1}
    ensures forall i | i in w.futures :: r.0.futures[i] == w.futures[i]
    ensures var f := r.0.futures[r.1];
      && !f.Started() && !f.Resolved() && f.inheritStdin && !f.piped && !f.noThrow
      && f.preRun.None? && f.postRun.None?
      && f.command == pieces[0] + Concat(RenderAll(args)) && f.config == config
  {
    var f := Future(Assemble(pieces, args), config, None, false, true, false, None, None, None);
    (w.(futures := w.futures[w.next := f], next := w.next + 1), w.next)
  }

  /** `noThrow` (index.ts:340-343): mark the handle and hand it back. */
  function NoThrow(w: World, id: Id): (r: (World, Id))
    requires id in w.futures
    ensures r.1 == id && r.0.next == w.next && r.0.trace == w.trace
    ensures r.0.futures == w.futures[id := w.futures[id].(noThrow := true)]
  {
    (w.(futures := w.futures[id := w.futures[id].(noThrow := true)]), id)
  }

  /** Marking twice is marking once. */
  lemma NoThrowIdempotent(w: World, id: Id)
    requires id in w.futures
    ensures NoThrow(NoThrow(w, id).0, id) == NoThrow(w, id)
  {
    var g := w.futures[id].(noThrow := true);
    assert w.futures[id := g][id := g] == w.futures[id := g];
  }

  datatype PipeError = StringDestination | AlreadyResolved

  /** What `pipe` returns, or the error it throws. */
  datatype PipeResult = Piped(world: World, handle: Id) | PipeFailed(error: PipeError)

  /** Whether `pipe` takes its first branch: the destination is a handle
      whose child is already running with a piped standard input. */
  predicate IntoRunningStdin(w: World, dest: Dest) {
    && dest.DestFuture?
    && dest.id in w.futures
    && w.futures[dest.id].child.Some?
    && w.futures[dest.id].child.value.stdin == Pipe
  }

  /** `pipe` (index.ts:87-111). A string destination and an already-resolved
      source are errors and change nothing. Otherwise the source is marked
      piped, and either the running destination gets pre- and post-run hooks
      and is returned, or the source gets a hook that calls its
      `stdout.pipe` on the destination argument and is returned. */
  function PipeInto(w: World, src: Id, dest: Dest): (r: PipeResult)
    requires src in w.futures
    ensures dest.DestText? ==> r == PipeFailed(StringDestination)
    ensures !dest.DestText? && w.futures[src].Resolved() ==> r == PipeFailed(AlreadyResolved)
    ensures !dest.DestText? && !w.futures[src].Resolved() ==>
      && r.Piped?
      && r.world.next == w.next && r.world.trace == w.trace && r.world.futures.Keys == w.futures.Keys
      && r.world.futures[src].piped
      && (IntoRunningStdin(w, dest) ==>
           && r.handle == dest.id
           && !r.world.futures[dest.id].inheritStdin
           && r.world.futures[dest.id].preRun == Some(src)
           && r.world.futures[dest.id].postRun == Some(PipeStdout(src, ChildStdin(dest.id)))
           && r.world.futures[dest.id].child == w.futures[dest.id].child
           && forall i | i in w.futures && i != src && i != dest.id :: r.world.futures[i] == w.futures[i])
      && (IntoRunningStdin(w, dest) ==>
           var marked := w.futures[src := w.futures[src].(piped := true)];
           r.world.futures == marked[dest.id := marked[dest.id].(
             inheritStdin := false, preRun := Some(src), postRun := Some(PipeStdout(src, ChildStdin(dest.id))))])
      && (!IntoRunningStdin(w, dest) ==>
           && r.handle == src
           && r.world.futures == w.futures[src := w.futures[src].(piped := true, postRun := Some(PipeStdout(src, Into(dest))))])
  {
    if dest.DestText? then PipeFailed(StringDestination)
    else if w.futures[src].Resolved() then PipeFailed(AlreadyResolved)
    else
      var s := w.futures[src].(piped := true);
      var fs := w.futures[src := s];
      if dest.DestFuture? && dest.id in fs && fs[dest.id].child.Some? && fs[dest.id].child.value.stdin == Pipe then
        var d := fs[dest.id].(inheritStdin := false, preRun := Some(src),
                              postRun := Some(PipeStdout(src, ChildStdin(dest.id))));
        Piped(w.(futures := fs[dest.id := d]), dest.id)
      else
        Piped(w.(futures := fs[src := s.(postRun := Some(PipeStdout(src, Into(dest))))]), src)
  }

  // ----- Output and close -----

  /** The part of a handle that a chunk or the close event may touch. */
  predicate Running(w: World, id: Id) {
    id in w.futures && w.futures[id].Started() && !w.futures[id].Resolved()
  }

  /** A chunk on the child's stdout (index.ts:219-223, 230): appended to
      stdout and to the combined text, but only when the listener was
      attached, i.e. the handle was not piped when it spawned. */
  function OnStdout(w: World, id: Id, chunk: string): (r: World)
    requires Running(w, id)
    ensures r.next == w.next && r.trace == w.trace && r.futures.Keys == w.futures.Keys
    ensures forall i | i in w.futures && i != id :: r.futures[i] == w.futures[i]
    ensures var c := w.futures[id].child.value;
      r.futures[id] == w.futures[id].(child := Some(
        if c.capturesStdout then c.(stdout := c.stdout + chunk, combined := c.combined + chunk) else c))
  {
    var f := w.futures[id];
    var c := f.child.value;
    if c.capturesStdout then
      w.(futures := w.futures[id := f.(child := Some(c.(stdout := c.stdout + chunk, combined := c.combined + chunk)))])
    else w
  }

  /** A chunk on the child's stderr (index.ts:225-229, 231): always
      appended, to stderr and to the combined text. */
  function OnStderr(w: World, id: Id, chunk: string): (r: World)
    requires Running(w, id)
    ensures r.next == w.next && r.trace == w.trace && r.futures.Keys == w.futures.Keys
    ensures forall i | i in w.futures && i != id :: r.futures[i] == w.futures[i]
    ensures var c := w.futures[id].child.value;
      r.futures[id] == w.futures[id].(child := Some(c.(stderr := c.stderr + chunk, combined := c.combined + chunk)))
  {
    var f := w.futures[id];
    var c := f.child.value;
    w.(futures := w.futures[id := f.(child := Some(c.(stderr := c.stderr + chunk, combined := c.combined + chunk)))])
  }

  /** The close event (index.ts:194-213): build the output from what was
      collected and settle the handle, fulfilled exactly when the status is
      0 or the handle was marked `noThrow`. `from` is the provenance text. */
  function Close(w: World, id: Id, code: Option<int>, signal: Option<string>, from: string): (r: World)
    requires Running(w, id)
    ensures r.next == w.next && r.trace == w.trace && r.futures.Keys == w.futures.Keys
    ensures forall i | i in w.futures && i != id :: r.futures[i] == w.futures[i]
    ensures r.futures[id].Resolved()
    ensures r.futures[id] == w.futures[id].(settled := r.futures[id].settled)
    ensures r.futures[id].settled.value.Fulfilled? <==> code == Some(0) || w.futures[id].noThrow
    ensures var o := r.futures[id].settled.value.output;
            var c := w.futures[id].child.value;
      && o.ExitCode() == code && o.Signal().None?
      && o.Stdout() == c.stdout && o.Stderr() == c.stderr && o.ToString() == c.combined
      && o.message == FailureMessage(c.stderr, from, code, signal)
  {
    var f := w.futures[id];
    var c := f.child.value;
    var output := MakeOutput(code, signal, c.stdout, c.stderr, c.combined, FailureMessage(c.stderr, from, code, signal));
    var s := if code == Some(0) || f.noThrow then Fulfilled(output) else Rejected(output);
    w.(futures := w.futures[id := f.(settled := Some(s))])
  }
}
