/** The pause, resume and exit handshake between the peer task and the calls that control it. The
    control calls do not overlap each other; every interleaving with the task is covered. */
module PauseHandshake {
  /** Program points of the peer task. */
  datatype Task =
    | TTop            // about to look at `running`
    | TCheckPause     // about to look at `pause`
    | TInMainLoop     // inside the peer main loop
    | TSetPaused      // saw `pause`, PAUSED not yet set
    | TWaitResume     // waits for RESUME
    | TClearResume    // wait returned, RESUME not yet cleared
    | TSetExit        // left the loop, EXIT not yet set
    | TGone

  /** Program points of the BYE handler (H) and of the close call (K). */
  datatype Control =
    | CIdle
    | HStart
    | HCheckPause
    | HWaitPaused     // set `pause`, waits for PAUSED
    | HClearPaused
    | HCritical       // disconnects, stops the stream, reconnects
    | HCheckResume
    | HSetResume      // cleared `pause`, RESUME not yet set
    | KCheckPause(stillRunning: bool)
    | KSetResume(stillRunning: bool)
    | KStop(stillRunning: bool)
    | KWaitExit
    | KClearExit
    | KDisconnect
    | KClosed

  datatype State = State(running: bool, pause: bool, closing: bool, paused: bool, resume: bool, exit: bool,
                         task: Task, control: Control)

  datatype Action = TaskStep | ControlStep | Bye | Close

  predicate Enabled(s: State, a: Action) {
    match a
    case TaskStep => !s.task.TGone? && (s.task.TWaitResume? ==> s.resume)
    case ControlStep =>
      && !s.control.CIdle? && !s.control.KClosed?
      && (s.control.HWaitPaused? ==> s.paused) && (s.control.KWaitExit? ==> s.exit)
    case Bye => s.control.CIdle?
    case Close => s.control.CIdle?
  }

  function TaskNext(s: State): State {
    match s.task
    case TTop => s.(task := if s.running then TCheckPause else TSetExit)
    case TCheckPause => s.(task := if s.pause then TSetPaused else TInMainLoop)
    case TInMainLoop => s.(task := TTop)
    case TSetPaused => s.(paused := true, task := TWaitResume)
    case TWaitResume => s.(task := TClearResume)
    case TClearResume => s.(resume := false, task := TTop)
    case TSetExit => s.(exit := true, task := TGone)
    case TGone => s
  }

  function ControlNext(s: State): State {
    match s.control
    case CIdle => s
    case HStart => s.(control := if s.closing || !s.running then CIdle else HCheckPause)
    case HCheckPause => if s.pause then s.(control := HCritical) else s.(pause := true, control := HWaitPaused)
    case HWaitPaused => s.(control := HClearPaused)
    case HClearPaused => s.(paused := false, control := HCritical)
    case HCritical => s.(control := HCheckResume)
    case HCheckResume => if s.pause then s.(pause := false, control := HSetResume) else s.(control := CIdle)
    case HSetResume => s.(resume := true, control := CIdle)
    case KCheckPause(r) => if s.pause then s.(pause := false, control := KSetResume(r)) else s.(control := KStop(r))
    case KSetResume(r) => s.(resume := true, control := KStop(r))
    case KStop(r) => s.(running := false, control := if r then KWaitExit else KDisconnect)
    case KWaitExit => s.(control := KClearExit)
    case KClearExit => s.(exit := false, control := KDisconnect)
    case KDisconnect => s.(control := KClosed)
    case KClosed => s
  }

  function Apply(s: State, a: Action): State
    requires Enabled(s, a)
  {
    match a
    case TaskStep => TaskNext(s)
    case ControlStep => ControlNext(s)
    case Bye => s.(control := HStart)
    case Close => s.(closing := true, control := KCheckPause(s.running))
  }

  predicate EnabledRun(s: State, acts: seq<Action>)
    decreases |acts|
  { acts == [] || (Enabled(s, acts[0]) && EnabledRun(Apply(s, acts[0]), acts[1..])) }

  function Run(s: State, acts: seq<Action>): State
    requires EnabledRun(s, acts)
    decreases |acts|
  { if acts == [] then s else Run(Apply(s, acts[0]), acts[1..]) }

  /** The task has been created and has not run yet. */
  const START := State(true, false, false, false, false, false, TTop, CIdle)

  predicate HandlerHoldsTask(c: Control) { c.HClearPaused? || c.HCritical? || c.HCheckResume? || c.HSetResume? }

  predicate Stopped(c: Control) { c.KWaitExit? || c.KClearExit? || c.KDisconnect? || c.KClosed? }

  predicate Inv(s: State) {
    && (HandlerHoldsTask(s.control) ==> s.task.TWaitResume? && !s.resume)
    && (s.paused ==> s.task.TWaitResume? && !s.resume && (s.control.HWaitPaused? || s.control.HClearPaused?))
    && (s.resume ==> s.task.TWaitResume? || s.task.TClearResume?)
    && (s.task.TClearResume? ==> s.resume)
    && (s.task.TSetPaused? ==> s.control.HWaitPaused? && !s.paused)
    && (s.task.TWaitResume? && !s.resume ==> HandlerHoldsTask(s.control) || (s.control.HWaitPaused? && s.paused))
    && (s.pause
        <==> s.control.HWaitPaused? || s.control.HClearPaused? || s.control.HCritical? || s.control.HCheckResume?)
    && (s.running <==> !Stopped(s.control))
    && (s.task.TSetExit? || s.task.TGone? ==> !s.running)
    && (s.exit ==> s.task.TGone? && (s.control.KWaitExit? || s.control.KClearExit?))
    && (s.control.KClearExit? || s.control.KDisconnect? || s.control.KClosed? ==> s.task.TGone?)
    && (s.task.TGone? && s.control.KWaitExit? ==> s.exit)
    && (s.control.KCheckPause? || s.control.KSetResume? || s.control.KStop? ==> s.control.stillRunning)
    && (s.control.KCheckPause? || s.control.KSetResume? || s.control.KStop? || Stopped(s.control) ==> s.closing)
    && !s.control.KSetResume?
  }

  lemma TaskKeepsInv(s: State)
    requires Inv(s) && Enabled(s, TaskStep)
    ensures Inv(TaskNext(s))
  {
  }

  lemma ControlKeepsInv(s: State)
    requires Inv(s) && Enabled(s, ControlStep)
    ensures Inv(ControlNext(s))
  {
  }

  lemma StepKeepsInv(s: State, a: Action)
    requires Inv(s) && Enabled(s, a)
    ensures Inv(Apply(s, a))
  {
    hide TaskNext, ControlNext;
    match a
    case TaskStep => TaskKeepsInv(s);
    case ControlStep => ControlKeepsInv(s);
    case _ =>
  }

  lemma {:induction false} RunKeepsInv(s: State, acts: seq<Action>)
    requires Inv(s) && EnabledRun(s, acts)
    ensures Inv(Run(s, acts))
    decreases |acts|
  {
    if acts != [] {
      StepKeepsInv(s, acts[0]);
      RunKeepsInv(Apply(s, acts[0]), acts[1..]);
    }
  }

  /** In every interleaving: while the handler is between its wait for PAUSED and setting RESUME the
      task is parked; it is never inside the main loop then; between rounds no PAUSED bit is left
      over, and a RESUME bit only while the task it was meant for is still waking; and close
      disconnects only after the task has left its loop for good. */
  lemma HandshakeExcludes(acts: seq<Action>)
    requires EnabledRun(START, acts)
    ensures var s := Run(START, acts);
      && (HandlerHoldsTask(s.control) ==> s.task.TWaitResume? && !Enabled(s, TaskStep))
      && (s.control.HCritical? ==> !s.task.TInMainLoop? && !s.paused && !s.resume)
      && (s.control.CIdle? ==> !s.paused && !s.pause && (s.resume ==> s.task.TWaitResume? || s.task.TClearResume?))
      && (s.control.KDisconnect? || s.control.KClosed? ==> s.task.TGone? && !Enabled(s, TaskStep))
  {
    RunKeepsInv(START, acts);
  }

  // ----- neither wait is for ever -----

  /** Task steps left until it sets PAUSED, once `pause` is set, or EXIT, once `running` is clear. */
  function TaskRank(s: State): nat {
    match s.task
    case TWaitResume => if s.resume then 8 else 0
    case TClearResume => 7
    case TInMainLoop => 6
    case TCheckPause => if s.running then 4 else 7
    case TTop => 5
    case TSetPaused => 3
    case TSetExit => 2
    case TGone => 0
  }

  /** While a control call waits for the task, the task can move and every move brings the awaited
      bit nearer. */
  lemma WaitIsBounded(s: State)
    requires Inv(s)
    requires (s.control.HWaitPaused? && !s.paused) || (s.control.KWaitExit? && !s.exit)
    ensures Enabled(s, TaskStep)
    ensures TaskRank(TaskNext(s)) < TaskRank(s)
  {
  }

  /** So a control call waits for at most eight steps of the task. */
  lemma {:induction false} WaitEnds(s: State) returns (acts: seq<Action>)
    requires Inv(s) && (s.control.HWaitPaused? || s.control.KWaitExit?)
    ensures |acts| <= TaskRank(s) && EnabledRun(s, acts) && (forall a <- acts :: a == TaskStep)
    ensures var s' := Run(s, acts); s'.control == s.control && Enabled(s', ControlStep)
    decreases TaskRank(s)
  {
    acts := [];
    if !Enabled(s, ControlStep) {
      WaitIsBounded(s);
      StepKeepsInv(s, TaskStep);
      var rest := WaitEnds(TaskNext(s));
      acts := [TaskStep] + rest;
      assert acts[1..] == rest;
    }
  }

  // ----- the work gets done -----

  lemma {:induction false} RunConcat(s: State, acts: seq<Action>, more: seq<Action>)
    requires EnabledRun(s, acts) && EnabledRun(Run(s, acts), more)
    ensures EnabledRun(s, acts + more) && Run(s, acts + more) == Run(Run(s, acts), more)
    decreases |acts|
  {
    hide Apply, Enabled;
    if acts == [] {
      assert acts + more == more;
    } else {
      RunConcat(Apply(s, acts[0]), acts[1..], more);
      assert (acts + more)[1..] == acts[1..] + more;
    }
  }

  lemma RunOne(s: State, a: Action)
    requires Enabled(s, a)
    ensures EnabledRun(s, [a]) && Run(s, [a]) == Apply(s, a)
  {
    assert [a][1..] == [];
  }

  lemma Extend(s0: State, acts: seq<Action>, s: State, a: Action) returns (acts': seq<Action>, s': State)
    requires EnabledRun(s0, acts) && Run(s0, acts) == s && Enabled(s, a)
    ensures acts' == acts + [a] && EnabledRun(s0, acts') && Run(s0, acts') == s' == Apply(s, a)
  {
    acts', s' := acts + [a], Apply(s, a);
    RunOne(s, a);
    RunConcat(s0, acts, [a]);
  }

  lemma RunEmpty(s: State)
    ensures EnabledRun(s, []) && Run(s, []) == s
  {
  }

  /** As long as nobody asks it to pause or to end, the task runs the main loop again after at most two
      of its own steps. */
  lemma MainLoopRuns(s: State) returns (acts: seq<Action>)
    requires Inv(s) && s.running && !s.pause && (s.task.TTop? || s.task.TCheckPause?)
    ensures |acts| <= 2 && (forall a <- acts :: a == TaskStep)
    ensures EnabledRun(s, acts) && Run(s, acts) == s.(task := TInMainLoop)
  {
    hide Run, EnabledRun;
    RunEmpty(s);
    var s' := s;
    acts := [];
    if s.task.TTop? {
      acts, s' := Extend(s, acts, s', TaskStep);
    }
    acts, s' := Extend(s, acts, s', TaskStep);
  }

  /** From anywhere, while it is not asked to end and nobody holds it, the task gets back into the main
      loop. */
  lemma TaskGetsBack(s0: State, acts0: seq<Action>, s: State) returns (acts: seq<Action>, s': State)
    requires EnabledRun(s0, acts0) && Run(s0, acts0) == s
    requires Inv(s) && s.running && s.control.CIdle?
    ensures EnabledRun(s0, acts) && Run(s0, acts) == s' && acts0 <= acts
    ensures s'.task.TInMainLoop? && s'.control.CIdle? && s'.running && !s'.pause
  {
    hide Run, EnabledRun;
    acts, s' := acts0, s;
    if s'.task.TWaitResume? {
      acts, s' := Extend(s0, acts, s', TaskStep);
    }
    if s'.task.TClearResume? {
      acts, s' := Extend(s0, acts, s', TaskStep);
    }
    if s'.task.TTop? {
      acts, s' := Extend(s0, acts, s', TaskStep);
    }
    if s'.task.TCheckPause? {
      acts, s' := Extend(s0, acts, s', TaskStep);
    }
  }

  lemma {:induction false} TaskRunKeeps(s: State, acts: seq<Action>)
    requires EnabledRun(s, acts) && forall a <- acts :: a == TaskStep
    ensures var s' := Run(s, acts);
      s'.control == s.control && s'.pause == s.pause && s'.running == s.running && s'.closing == s.closing
    decreases |acts|
  {
    hide Apply, Enabled;
    if acts != [] {
      assert acts[0] in acts && forall a <- acts[1..] :: a in acts;
      TaskStepKeeps(s);
      TaskRunKeeps(Apply(s, acts[0]), acts[1..]);
    }
  }

  lemma TaskStepKeeps(s: State)
    requires Enabled(s, TaskStep)
    ensures Apply(s, TaskStep) == TaskNext(s)
    ensures var s' := TaskNext(s);
      s'.control == s.control && s'.pause == s.pause && s'.running == s.running && s'.closing == s.closing
  {
    hide ControlNext, Enabled;
    TaskNextKeeps(s);
    hide TaskNext;
  }

  lemma TaskNextKeeps(s: State)
    ensures var s' := TaskNext(s);
      s' == State(s.running, s.pause, s.closing, s'.paused, s'.resume, s'.exit, s'.task, s.control)
  {
    match s.task
    case TTop =>
    case TCheckPause =>
    case TInMainLoop =>
    case TSetPaused =>
    case TWaitResume =>
    case TClearResume =>
    case TSetExit =>
    case TGone =>
  }

  /** The task steps that set the bit a control call waits for, behind a run. */
  lemma WaitOut(s0: State, acts0: seq<Action>, s: State) returns (acts: seq<Action>, s': State)
    requires EnabledRun(s0, acts0) && Run(s0, acts0) == s
    requires Inv(s) && (s.control.HWaitPaused? || s.control.KWaitExit?)
    ensures EnabledRun(s0, acts) && Run(s0, acts) == s' && acts0 <= acts
    ensures Inv(s') && Enabled(s', ControlStep)
    ensures s'.control == s.control && s'.pause == s.pause && s'.running == s.running && s'.closing == s.closing
  {
    var wait := WaitEnds(s);
    TaskRunKeeps(s, wait);
    RunKeepsInv(s, wait);
    hide Run, EnabledRun, Inv;
    RunConcat(s0, acts0, wait);
    acts, s' := acts0 + wait, Run(s, wait);
  }

  /** A BYE that finds the task running is handled: some run that begins with it reaches the critical
      part, gives the task its resume, and ends with the task in the main loop. */
  lemma ByeIsHandled(s: State) returns (acts: seq<Action>, n: nat)
    requires Inv(s) && s.running && !s.closing && s.control.CIdle?
    ensures n <= |acts| && acts != [] && acts[0] == Bye && EnabledRun(s, acts)
    ensures EnabledRun(s, acts[..n]) && Run(s, acts[..n]).control.HCritical?
    ensures var s' := Run(s, acts); s'.control.CIdle? && s'.task.TInMainLoop? && s'.running && !s'.pause
  {
    hide Run, EnabledRun, Inv, Enabled, Apply;
    var critical, s1 := ByeReachesCritical(s);
    RunKeepsInv(s, critical);
    n := |critical|;
    var s2;
    acts, s2 := HandlerResumes(s, critical, s1);
    RunKeepsInv(s, acts);
    acts, s2 := TaskGetsBack(s, acts, s2);
    assert acts[..n] == critical && acts[0] == critical[0];
  }

  lemma ByeReachesCritical(s: State) returns (acts: seq<Action>, s': State)
    requires Inv(s) && s.running && !s.closing && s.control.CIdle?
    ensures acts != [] && acts[0] == Bye && EnabledRun(s, acts) && Run(s, acts) == s'
    ensures s'.control.HCritical? && s'.pause && s'.running
  {
    hide Run, EnabledRun;
    s' := s;
    RunEmpty(s);
    acts, s' := Extend(s, [], s', Bye);
    acts, s' := Extend(s, acts, s', ControlStep);
    acts, s' := Extend(s, acts, s', ControlStep);
    RunKeepsInv(s, acts);
    hide Inv;
    acts, s' := WaitOut(s, acts, s');
    acts, s' := Extend(s, acts, s', ControlStep);
    acts, s' := Extend(s, acts, s', ControlStep);
  }

  lemma HandlerResumes(s0: State, acts0: seq<Action>, s: State) returns (acts: seq<Action>, s': State)
    requires EnabledRun(s0, acts0) && Run(s0, acts0) == s && s.control.HCritical? && s.pause && s.running
    ensures EnabledRun(s0, acts) && Run(s0, acts) == s' && acts0 <= acts && s'.control.CIdle? && s'.running
  {
    hide Run, EnabledRun;
    acts, s' := Extend(s0, acts0, s, ControlStep);
    acts, s' := Extend(s0, acts, s', ControlStep);
    acts, s' := Extend(s0, acts, s', ControlStep);
  }

  /** A close that finds the task running is carried through: the task ends, and the connection is
      closed after that. */
  lemma CloseIsHandled(s: State) returns (acts: seq<Action>)
    requires Inv(s) && s.running && s.control.CIdle?
    ensures acts != [] && acts[0] == Close && EnabledRun(s, acts)
    ensures Run(s, acts).control.KDisconnect? && Run(s, acts).task.TGone?
  {
    hide Run, EnabledRun;
    var s' := s;
    RunEmpty(s);
    acts, s' := Extend(s, [], s', Close);
    acts, s' := Extend(s, acts, s', ControlStep);
    acts, s' := Extend(s, acts, s', ControlStep);
    RunKeepsInv(s, acts);
    acts, s' := WaitOut(s, acts, s');
    acts, s' := Extend(s, acts, s', ControlStep);
    acts, s' := Extend(s, acts, s', ControlStep);
    RunKeepsInv(s, acts);
  }
}
