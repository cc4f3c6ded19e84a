/** The supervisor's main loop as a state machine.  Its state is whether
    the child has been seen to exit and whether the loop is still
    running; its events are the child's exit, a terminal resize and an
    action taken from the queue the terminal reader fills; what it does
    to the outside world is recorded as a list of effects. */
module EventLoop {
  import opened Wrappers
  import opened Text
  import opened Actions
  import opened Commands
  import opened Router

  /** `Dispatch` carries, besides the action, how many grace periods
      pass before the child exits if the action has to stop it: each one
      that passes ends in a SIGKILL. */
  datatype Event =
    | ChildExit(failed: bool)
    | Resize
    | Dispatch(action: Action, gracePeriods: nat)

  datatype Signal = Term | Kill

  datatype Effect =
    | SendSignal(signal: Signal)
    | ReportChildError
    | HoldNotice
    | ResizePty
    | ReplaceProcess(argv: seq<Bytes>)
    | RunCommand(argv: seq<Bytes>)

  /** `Returned`: the loop returned, and the program exits with status 0.
      `Replaced`: the process image was replaced by the `become`
      command. */
  datatype Phase = Looping | Returned | Replaced

  datatype Config = Config(childExited: bool, phase: Phase, effects: seq<Effect>)

  const Start := Config(false, Looping, [])

  function Kills(n: nat): seq<Effect> {
    if n == 0 then [] else Kills(n - 1) + [SendSignal(Kill)]
  }

  /** Stopping the child: nothing at all once it has exited; otherwise a
      SIGTERM, a SIGKILL for every grace period that passes, and then the
      child has exited. */
  function Stopped(c: Config, gracePeriods: nat): Config {
    if c.childExited then c
    else c.(childExited := true, effects := c.effects + [SendSignal(Term)] + Kills(gracePeriods))
  }

  /** One turn of the loop.  A child exit is only delivered while the
      child has not been seen to exit (the program then stops listening
      for it).  Without hold mode it ends the loop; with it the loop waits
      for a key.  A failed child is only reported. */
  function Next(hold: bool, stdinFile: Option<Bytes>, c: Config, e: Event): Config
    requires c.phase == Looping
  {
    match e
    case ChildExit(failed) =>
      if c.childExited then c
      else
        var d := c.(childExited := true, effects := c.effects + if failed then [ReportChildError] else []);
        if hold then d.(effects := d.effects + [HoldNotice]) else d.(phase := Returned)
    case Resize =>
      c.(effects := c.effects + [ResizePty])
    case Dispatch(a, g) =>
      match a.kind
      case Exit =>
        Stopped(c, g).(phase := Returned)
      case Become =>
        var d := Stopped(c, g);
        d.(phase := Replaced, effects := d.effects + [ReplaceProcess(ShellCommand(Substitute(a.arg, stdinFile)))])
      case Execute =>
        c.(effects := c.effects + [RunCommand(ShellCommand(Substitute(a.arg, stdinFile)))])
      case Unset =>
        c
  }

  /** The loop over a sequence of events, until it stops. */
  function Run(hold: bool, stdinFile: Option<Bytes>, c: Config, events: seq<Event>): Config
    decreases |events|
  {
    if events == [] || c.phase != Looping then c
    else Run(hold, stdinFile, Next(hold, stdinFile, c, events[0]), events[1..])
  }

  class Supervisor {
    const hold: bool
    const stdinFile: Option<Bytes>
    var childExited: bool
    var phase: Phase
    var effects: seq<Effect>

    function State(): Config
      reads this
    {
      Config(childExited, phase, effects)
    }

    constructor (hold: bool, stdinFile: Option<Bytes>)
      ensures this.hold == hold && this.stdinFile == stdinFile
      ensures State() == Start
    {
      this.hold := hold;
      this.stdinFile := stdinFile;
      childExited := false;
      phase := Looping;
      effects := [];
    }

    method StopChild(gracePeriods: nat)
      modifies this
      ensures State() == Stopped(old(State()), gracePeriods)
    {
      if childExited {
        return;
      }
      effects := effects + [SendSignal(Term)];
      var elapsed := 0;
      while elapsed < gracePeriods
        invariant elapsed <= gracePeriods
        invariant effects == old(effects) + [SendSignal(Term)] + Kills(elapsed)
        invariant childExited == old(childExited) && phase == old(phase)
      {
        effects := effects + [SendSignal(Kill)];
        elapsed := elapsed + 1;
      }
      childExited := true;
    }

    method Step(e: Event)
      requires phase == Looping
      modifies this
      ensures State() == Next(hold, stdinFile, old(State()), e)
    {
      match e
      case ChildExit(failed) =>
        if !childExited {
          childExited := true;
          if failed {
            effects := effects + [ReportChildError];
          }
          if !hold {
            phase := Returned;
          } else {
            effects := effects + [HoldNotice];
          }
        }
      case Resize =>
        effects := effects + [ResizePty];
      case Dispatch(a, g) =>
        match a.kind
        case Exit =>
          StopChild(g);
          phase := Returned;
        case Become =>
          StopChild(g);
          var arg := Substitute(a.arg, stdinFile);
          effects := effects + [ReplaceProcess(ShellCommand(arg))];
          phase := Replaced;
        case Execute =>
          var arg := Substitute(a.arg, stdinFile);
          effects := effects + [RunCommand(ShellCommand(arg))];
        case Unset =>
    }

    /** Handles events in order until the loop stops or they run out, and
        returns how many it handled. */
    method Loop(events: seq<Event>) returns (handled: nat)
      modifies this
      ensures State() == Run(hold, stdinFile, old(State()), events)
      ensures handled <= |events|
      ensures handled < |events| ==> phase != Looping
    {
      handled := 0;
      while handled < |events| && phase == Looping
        invariant handled <= |events|
        invariant Run(hold, stdinFile, State(), events[handled..]) == Run(hold, stdinFile, old(State()), events)
      {
        Step(events[handled]);
        assert events[handled..][1..] == events[handled + 1..];
        handled := handled + 1;
      }
    }
  }

  // ---------------------------------------------------------------------
  // Properties of the loop
  // ---------------------------------------------------------------------

  function Count(es: seq<Effect>, x: Effect): nat {
    if es == [] then 0 else Count(es[..|es| - 1], x) + if es[|es| - 1] == x then 1 else 0
  }

  lemma {:induction false} CountAppend(a: seq<Effect>, b: seq<Effect>, x: Effect)
    ensures Count(a + b, x) == Count(a, x) + Count(b, x)
    decreases |b|
  {
    if b != [] {
      assert (a + b)[..|a + b| - 1] == a + b[..|b| - 1];
      assert (a + b)[|a + b| - 1] == b[|b| - 1];
      CountAppend(a, b[..|b| - 1], x);
    } else {
      assert a + b == a;
    }
  }

  /** Only SIGKILLs, one per grace period. */
  lemma {:induction false} KillsShape(n: nat)
    ensures |Kills(n)| == n
    ensures forall i | 0 <= i < n :: Kills(n)[i] == SendSignal(Kill)
    ensures Count(Kills(n), SendSignal(Term)) == 0
  {
    if n > 0 {
      KillsShape(n - 1);
      CountAppend(Kills(n - 1), [SendSignal(Kill)], SendSignal(Term));
    }
  }

  /** Stopping is idempotent: once the child is stopped, stopping it
      again sends nothing and changes nothing. */
  lemma StopIdempotent(c: Config, g1: nat, g2: nat)
    ensures Stopped(c, g1).childExited
    ensures Stopped(Stopped(c, g1), g2) == Stopped(c, g1)
    ensures c.childExited ==> Stopped(c, g1) == c
  {
  }

  /** Stopping a running child sends one SIGTERM, then exactly as many
      SIGKILLs as grace periods pass. */
  lemma StopRunning(c: Config, g: nat)
    requires !c.childExited
    ensures var s := Stopped(c, g).effects;
      && |s| == |c.effects| + 1 + g
      && s[..|c.effects|] == c.effects
      && s[|c.effects|] == SendSignal(Term)
      && forall i | |c.effects| < i < |s| :: s[i] == SendSignal(Kill)
  {
    KillsShape(g);
    var s := Stopped(c, g).effects;
    forall i | |c.effects| < i < |s| ensures s[i] == SendSignal(Kill) {
      assert s[i] == Kills(g)[i - |c.effects| - 1];
    }
  }

  /** The child's exit ends the loop unless hold mode is on; with hold
      mode the loop goes on with the child marked as exited. */
  lemma ChildExitOutcome(hold: bool, stdinFile: Option<Bytes>, c: Config, failed: bool)
    requires c.phase == Looping && !c.childExited
    ensures var d := Next(hold, stdinFile, c, ChildExit(failed));
      && d.childExited
      && (d.phase == Returned <==> !hold)
      && (hold ==> d.phase == Looping)
      && d.effects == c.effects + (if failed then [ReportChildError] else []) + (if hold then [HoldNotice] else [])
  {
  }

  /** An exit action stops the child and then ends the loop. */
  lemma ExitActionOutcome(hold: bool, stdinFile: Option<Bytes>, c: Config, arg: Bytes, g: nat)
    requires c.phase == Looping
    ensures var d := Next(hold, stdinFile, c, Dispatch(Action(Exit, arg), g));
      d.phase == Returned && d.childExited && d.effects == Stopped(c, g).effects
  {
  }

  /** A become action stops the child and only then replaces the process
      with `bash -c` running the substituted command. */
  lemma BecomeOutcome(hold: bool, stdinFile: Option<Bytes>, c: Config, arg: Bytes, g: nat)
    requires c.phase == Looping
    ensures var d := Next(hold, stdinFile, c, Dispatch(Action(Become, arg), g));
      && d.phase == Replaced && d.childExited
      && d.effects == Stopped(c, g).effects + [ReplaceProcess(ShellCommand(Substitute(arg, stdinFile)))]
      && ShellOperands(d.effects[|d.effects| - 1].argv) == Some(ShellCall(Substitute(arg, stdinFile), None, []))
  {
    ShellCommandOperands(Substitute(arg, stdinFile));
  }

  /** An execute action runs its command and leaves the child and the
      loop as they were, so the child keeps receiving input. */
  lemma ExecuteOutcome(hold: bool, stdinFile: Option<Bytes>, c: Config, arg: Bytes, g: nat)
    requires c.phase == Looping
    ensures var d := Next(hold, stdinFile, c, Dispatch(Action(Execute, arg), g));
      && d.childExited == c.childExited && d.phase == Looping
      && d.effects == c.effects + [RunCommand(ShellCommand(Substitute(arg, stdinFile)))]
  {
  }

  /** A key bound to a spec the compiler did not recognise queues the
      zero action, which the loop ignores: the key is swallowed. */
  lemma UnsetIgnored(hold: bool, stdinFile: Option<Bytes>, c: Config, g: nat)
    requires c.phase == Looping
    ensures Next(hold, stdinFile, c, Dispatch(ZeroAction, g)) == c
  {
  }

  /** On the hold screen any unbound key queues one exit, which ends the
      loop without signalling the child that is already gone. */
  lemma HoldDismissed(stdinFile: Option<Bytes>, c: Config, m: map<Bytes, Action>, chunk: Bytes, g: nat)
    requires c.phase == Looping && c.childExited
    requires chunk !in m
    ensures Route(false, m, true, chunk) == Enqueued(ExitAction)
    ensures Next(true, stdinFile, c, Dispatch(ExitAction, g)) == c.(phase := Returned)
  {
  }

  /** The loop's safety invariant: the loop never leaves with the child
      still running, no signal is sent before the child is stopped, and
      SIGTERM is sent at most once. */
  ghost predicate Safe(c: Config) {
    && (c.phase != Looping ==> c.childExited)
    && (!c.childExited ==> Count(c.effects, SendSignal(Term)) == 0 && Count(c.effects, SendSignal(Kill)) == 0)
    && Count(c.effects, SendSignal(Term)) <= 1
  }

  /** Effects that send no signal. */
  predicate Quiet(es: seq<Effect>) {
    forall i | 0 <= i < |es| :: !es[i].SendSignal?
  }

  lemma {:induction false} QuietCount(es: seq<Effect>, x: Effect)
    requires Quiet(es) && x.SendSignal?
    ensures Count(es, x) == 0
    decreases |es|
  {
    if es != [] {
      QuietCount(es[..|es| - 1], x);
    }
  }

  /** Every turn that does not stop a running child only appends effects
      that send no signal. */
  lemma QuietStep(hold: bool, stdinFile: Option<Bytes>, c: Config, e: Event)
    requires c.phase == Looping
    requires !(e.Dispatch? && e.action.kind in {Exit, Become} && !c.childExited)
    ensures var d := Next(hold, stdinFile, c, e);
      && |c.effects| <= |d.effects| && d.effects[..|c.effects|] == c.effects
      && Quiet(d.effects[|c.effects|..])
      && (c.childExited ==> d.childExited)
      && (d.phase != Looping ==> d.childExited)
  {
  }

  /** Stopping a running child adds exactly one SIGTERM. */
  lemma StopCount(c: Config, g: nat, tail: seq<Effect>)
    requires !c.childExited && Quiet(tail)
    ensures Count(Stopped(c, g).effects + tail, SendSignal(Term)) == Count(c.effects, SendSignal(Term)) + 1
  {
    KillsShape(g);
    QuietCount(tail, SendSignal(Term));
    CountAppend(c.effects + [SendSignal(Term)] + Kills(g), tail, SendSignal(Term));
    CountAppend(c.effects + [SendSignal(Term)], Kills(g), SendSignal(Term));
    CountAppend(c.effects, [SendSignal(Term)], SendSignal(Term));
  }

  /** A turn of the loop only appends effects, never unmarks the child's
      exit, and keeps the loop safe. */
  lemma NextSafe(hold: bool, stdinFile: Option<Bytes>, c: Config, e: Event)
    requires c.phase == Looping && Safe(c)
    ensures var d := Next(hold, stdinFile, c, e);
      && Safe(d)
      && c.effects <= d.effects
      && (c.childExited ==> d.childExited)
  {
    var d := Next(hold, stdinFile, c, e);
    if e.Dispatch? && e.action.kind in {Exit, Become} && !c.childExited {
      var tail: seq<Effect> := if e.action.kind == Become
        then [ReplaceProcess(ShellCommand(Substitute(e.action.arg, stdinFile)))] else [];
      assert d.effects == Stopped(c, e.gracePeriods).effects + tail;
      StopCount(c, e.gracePeriods, tail);
    } else {
      QuietStep(hold, stdinFile, c, e);
      var extra := d.effects[|c.effects|..];
      assert d.effects == c.effects + extra;
      CountAppend(c.effects, extra, SendSignal(Term));
      CountAppend(c.effects, extra, SendSignal(Kill));
      QuietCount(extra, SendSignal(Term));
      QuietCount(extra, SendSignal(Kill));
    }
  }

  /** Whatever the events, the loop stays safe and the effects of earlier
      turns are kept. */
  lemma {:induction false} RunSafe(hold: bool, stdinFile: Option<Bytes>, c: Config, events: seq<Event>)
    requires Safe(c)
    ensures Safe(Run(hold, stdinFile, c, events))
    ensures c.effects <= Run(hold, stdinFile, c, events).effects
    decreases |events|
  {
    if events != [] && c.phase == Looping {
      var d := Next(hold, stdinFile, c, events[0]);
      NextSafe(hold, stdinFile, c, events[0]);
      RunSafe(hold, stdinFile, d, events[1..]);
    }
  }

  /** From the start, whatever happens: when the loop is over, the child
      has exited, and SIGTERM was sent at most once. */
  lemma StartSafe(hold: bool, stdinFile: Option<Bytes>, events: seq<Event>)
    ensures var c := Run(hold, stdinFile, Start, events);
      && (c.phase != Looping ==> c.childExited)
      && Count(c.effects, SendSignal(Term)) <= 1
  {
    RunSafe(hold, stdinFile, Start, events);
  }

  /** Once the loop has stopped, later events change nothing. */
  lemma RunStopped(hold: bool, stdinFile: Option<Bytes>, c: Config, events: seq<Event>)
    requires c.phase != Looping
    ensures Run(hold, stdinFile, c, events) == c
  {
  }
}
