/**
 The esp32 TLS session. The application, the handshake worker and the lwIP thread share one mbedTLS
 context without a lock on it. A step makes one access to a field that another thread may change
 at that moment, and the steps of the three threads interleave freely.
 */
module TlsSession {
  import opened Pattern

  /** The shared context; `torn` marks one whose user was deleted inside a call on it. */
  datatype Context = Context(handshakeDone: bool, engineFatal: bool, torn: bool)

  /** Where the worker is in `workerThunk` and `serviceTls`. */
  datatype WorkerPc =
    | NoWorker | Test | CheckContext | CheckFatal | CheckPcb | CheckConnected | CheckDone
    | InHandshake | SetDone | SetFatal | Sleep | ClearHandle | Ending | Finished

  /** Where the application is: outside, setting up, in a call and its tests, or in one of the stages of `close`. */
  datatype AppPc =
    | Idle | InSetup | Launch
    | CallContext | CallFatal | CallDone | InCall | Failing(down: bool) | Dropping
    | StopTest | StopWait | StopRecheck | StopTake | StopClear | StopDelete
    | NotifyContext | NotifyDone | NotifyFatal | InNotify | Detach | MarkDown | Free | ClearPointer | Deleted

  /** Where the lwIP thread is: outside, or in a callback that reports an error. */
  datatype LwipPc = Quiet | Unlinked | Dropped | Marking

  /** How a handshake call returns, and how a read, write or `available` call does. */
  datatype Handshake = Agreed | Again | Broken
  datatype Returned = Done | More | Down | Fatal(down: bool)

  /**
   `tls` is the context, and `dangling` is whether `m_tls` still points to one that has been freed.
   `running` and `handle` are `m_workerRunning` and whether `m_workerHandle` is set; `hooked` is whether
   the pcb's callbacks lead to this session, `begun` whether it was ever started. `wrongDelete` records a
   task deletion that hit the caller itself or a worker that had already ended, and `wildMark` a
   callback that marked a freed context.
   */
  datatype Session = Session(
    server: bool, begun: bool, tls: Option<Context>, dangling: bool, running: bool, handle: bool,
    pcb: bool, connected: bool, hooked: bool,
    worker: WorkerPc, app: AppPc, lwip: LwipPc, wrongDelete: bool, wildMark: bool)

  datatype Event =
    | WorkerStep(result: Handshake)
    | Start | SetupDone(ok: bool) | Launched(created: bool)
    | Call | CallStep | Return(how: Returned)
    | CloseCall | CloseStep(timeout: bool)
    | Connected | Error(gone: bool) | LwipStep

  /** A client before `connect`, or a server's end of an accepted connection before `beginServer`. */
  function Fresh(server: bool): Session {
    Session(server, false, None, false, false, false, server, server, server, NoWorker, Idle, Quiet, false, false)
  }

  /** The worker's task exists. */
  predicate Alive(w: WorkerPc) { !w.NoWorker? && !w.Finished? }

  /** The worker may still touch the session: it has not cleared its handle. */
  predicate WorkerActive(w: WorkerPc) { Alive(w) && !w.Ending? }

  predicate Calling(a: AppPc) { a.CallContext? || a.CallFatal? || a.CallDone? || a.Failing? || a.Dropping? }

  /** `stopTlsWorker` while it waits for the worker. */
  predicate Waiting(a: AppPc) { a.StopWait? || a.StopRecheck? }

  /** `stopTlsWorker` after it has given up waiting. */
  predicate Taking(a: AppPc) { a.StopTake? || a.StopClear? || a.StopDelete? }

  /** The stages of `close` after the worker has been dealt with. */
  predicate Dismantling(a: AppPc) {
    a.NotifyContext? || a.NotifyDone? || a.NotifyFatal? || a.InNotify? || a.Detach? || a.MarkDown? || a.Free?
  }

  predicate Enabled(s: Session, e: Event) {
    match e
    case WorkerStep(_) => Alive(s.worker)
    // a client closes before it starts again; a server is started once, on a new connection
    case Start => s.app.Idle? && s.tls == None && (s.server ==> !s.begun)
    case SetupDone(_) => s.app.InSetup?
    case Launched(_) => s.app.Launch?
    case Call => s.app.Idle?
    case CallStep => Calling(s.app)
    case Return(_) => s.app.InCall?
    case CloseCall => s.app.Idle?
    // detaching from the pcb takes the lwIP lock, so it waits for a callback to finish
    case CloseStep(_) =>
      || s.app.StopTest? || Waiting(s.app) || Taking(s.app) || s.app.ClearPointer?
      || (Dismantling(s.app) && (s.app.Detach? ==> s.lwip.Quiet?))
    case Connected => s.hooked && s.lwip.Quiet?
    case Error(_) => s.hooked && s.lwip.Quiet?
    case LwipStep => !s.lwip.Quiet?
  }

  function Mark(tls: Option<Context>): Option<Context> {
    match tls
    case Some(c) => Some(c.(engineFatal := true))
    case None => None
  }

  function Complete(tls: Option<Context>): Option<Context> {
    match tls
    case Some(c) => Some(c.(handshakeDone := true))
    case None => None
  }

  /** Where one access takes the worker. */
  function WorkerGoes(s: Session, result: Handshake): WorkerPc {
    match s.worker
    case Test => if s.running then CheckContext else ClearHandle
    case CheckContext => if s.tls.None? then Sleep else CheckFatal
    case CheckFatal => if s.tls.None? || s.tls.value.engineFatal then Sleep else CheckPcb
    case CheckPcb => if s.pcb then CheckConnected else Sleep
    case CheckConnected => if s.connected then CheckDone else Sleep
    case CheckDone => if s.tls.None? || s.tls.value.handshakeDone then Sleep else InHandshake
    case InHandshake => (match result case Agreed => SetDone case Again => Sleep case Broken => SetFatal)
    case SetDone => Sleep
    case SetFatal => Sleep
    case Sleep => Test
    case ClearHandle => Ending
    case Ending => Finished
    case NoWorker => NoWorker
    case Finished => Finished
  }

  /** One access of the worker. */
  function WorkerNext(s: Session, result: Handshake): Session {
    s.(worker := WorkerGoes(s, result),
       tls := if s.worker.SetDone? then Complete(s.tls) else if s.worker.SetFatal? then Mark(s.tls) else s.tls,
       handle := s.handle && !s.worker.ClearHandle?)
  }

  /** Where one access takes the application in read, write and available. */
  function CallGoes(s: Session): AppPc {
    match s.app
    case CallContext => if s.tls.None? then Idle else CallFatal
    case CallFatal => if s.tls.None? || s.tls.value.engineFatal then Idle else CallDone
    case CallDone => if s.tls.Some? && s.tls.value.handshakeDone then InCall else Idle
    case Failing(down) => if down then Dropping else Idle
    case Dropping => Idle
    case other => other
  }

  function CallNext(s: Session): Session {
    s.(app := CallGoes(s),
       tls := if s.app.Failing? then Mark(s.tls) else s.tls,
       connected := s.connected && !s.app.Dropping?)
  }

  /** Where a returning call leaves the application; write goes round without testing the flags again. */
  function ReturnGoes(how: Returned): AppPc {
    match how
    case Done => Idle
    case More => InCall
    case Down => Dropping
    case Fatal(down) => Failing(down)
  }

  /** Where one access takes the application in `close`. */
  function CloseGoes(s: Session, timeout: bool): AppPc {
    match s.app
    case StopTest => if s.running then StopWait else NotifyContext
    case StopWait => if s.handle && !timeout then StopWait else StopRecheck
    case StopRecheck => if s.handle then StopTake else NotifyContext
    // the handle is read once more, and deleting through a null handle deletes the caller
    case StopTake => if s.handle then StopClear else Deleted
    case StopClear => StopDelete
    case StopDelete => NotifyContext
    case NotifyContext => if s.tls.Some? then NotifyDone else Detach
    case NotifyDone => if s.tls.Some? && s.tls.value.handshakeDone then NotifyFatal else Detach
    case NotifyFatal => if s.tls.Some? && !s.tls.value.engineFatal then InNotify else Detach
    case InNotify => Detach
    case Detach => MarkDown
    case MarkDown => Free
    case Free => ClearPointer
    case ClearPointer => Idle
    case other => other
  }

  /** Deleting the worker's task inside a call leaves the context torn. */
  function CloseTls(s: Session): Option<Context> {
    if s.app.Free? then None
    else if s.app.StopDelete? && s.worker.InHandshake? && s.tls.Some? then Some(s.tls.value.(torn := true))
    else s.tls
  }

  /** One access of the application in `close`. */
  function CloseNext(s: Session, timeout: bool): Session {
    s.(app := CloseGoes(s, timeout),
       tls := CloseTls(s),
       dangling := s.app.Free? && s.tls.Some?,
       running := s.running && !s.app.StopTest?,
       handle := s.handle && !s.app.StopClear?,
       worker := if s.app.StopDelete? then NoWorker else s.worker,
       pcb := s.pcb && !s.app.Detach?,
       hooked := s.hooked && !s.app.Detach?,
       connected := s.connected && !s.app.MarkDown?,
       wrongDelete := s.wrongDelete || (s.app.StopDelete? && !Alive(s.worker)) || (s.app.StopTake? && !s.handle))
  }

  /** The end of the setup; only a client hooks its pcb here, a server's was hooked when it was accepted. */
  function SetupNext(s: Session, ok: bool): Session {
    s.(tls := if ok then s.tls else None,
       dangling := !ok,
       pcb := s.pcb || (ok && !s.server),
       hooked := s.hooked || (ok && !s.server),
       app := if ok then Launch else ClearPointer)
  }

  /** `startTlsWorker`; when there is no task, a server frees its context and a client closes. */
  function LaunchNext(s: Session, created: bool): Session {
    var failed := !s.running && !created;
    s.(running := s.running || created,
       handle := if s.running then s.handle else created,
       worker := if !s.running && created then Test else s.worker,
       tls := if failed && s.server then None else s.tls,
       dangling := failed && s.server,
       app := if !failed then Idle else if s.server then ClearPointer else StopTest)
  }

  /** One access of lwIP in a callback that reports an error. */
  function LwipNext(s: Session): Session {
    s.(lwip := if s.lwip.Unlinked? then Dropped else if s.lwip.Dropped? && (s.tls.Some? || s.dangling) then Marking else Quiet,
       connected := s.connected && !s.lwip.Unlinked?,
       tls := if s.lwip.Marking? then Mark(s.tls) else s.tls,
       wildMark := s.wildMark || (s.lwip.Marking? && s.tls.None?))
  }

  function Step(s: Session, e: Event): Session
    requires Enabled(s, e)
  {
    match e
    case WorkerStep(result) => WorkerNext(s, result)
    case Start => s.(tls := Some(Context(false, false, false)), begun := true, app := InSetup)
    case SetupDone(ok) => SetupNext(s, ok)
    case Launched(created) => LaunchNext(s, created)
    case Call => s.(app := CallContext)
    case CallStep => CallNext(s)
    case Return(how) => s.(app := ReturnGoes(how))
    case CloseCall => s.(app := StopTest)
    case CloseStep(timeout) => CloseNext(s, timeout)
    case Connected => s.(connected := true)
    // an error that takes the pcb away, or one that the code would be told with a segment or a connection attempt
    case Error(gone) => s.(pcb := s.pcb && !gone, hooked := s.hooked && !gone, lwip := if gone then Unlinked else Dropped)
    case LwipStep => LwipNext(s)
  }

  predicate WorkerInside(s: Session) { s.worker.InHandshake? }

  predicate AppInside(s: Session) { s.app.InSetup? || s.app.InCall? || s.app.InNotify? }

  /** The worker's side: while it lives it has its context, and the flags that a `close` looks at say so. */
  predicate WorkerOk(s: Session) {
    && (s.running ==> WorkerActive(s.worker))
    && (s.handle ==> WorkerActive(s.worker))
    && (WorkerActive(s.worker) ==>
          && s.tls.Some? && !s.tls.value.torn
          && !s.app.InSetup? && !s.app.Launch? && !Dismantling(s.app) && !s.app.ClearPointer? && !s.app.Deleted?)
    && (WorkerActive(s.worker) && (s.app.Idle? || Calling(s.app) || s.app.InCall? || s.app.StopTest?) ==>
          s.running && s.handle && !s.worker.ClearHandle?)
    && (WorkerActive(s.worker) && (Waiting(s.app) || s.app.StopTake?) ==> s.handle)
    && (s.worker.InHandshake? || s.worker.SetDone? || s.worker.SetFatal? ==> s.tls.Some? && !s.tls.value.handshakeDone)
  }

  /** The application's side. */
  predicate AppOk(s: Session) {
    && (s.app.InSetup? || s.app.Launch? ==> s.tls.Some? && !s.running)
    && (s.app.InCall? || s.app.NotifyFatal? || s.app.InNotify? ==> s.tls.Some? && s.tls.value.handshakeDone)
    && (s.app.CallFatal? || s.app.CallDone? || s.app.Failing? || s.app.NotifyDone? ==> s.tls.Some?)
    && (Waiting(s.app) || Taking(s.app) || Dismantling(s.app) || s.app.ClearPointer? || s.app.Deleted? ==> !s.running)
    && (s.dangling ==> s.app.ClearPointer? && s.tls.None?)
    && (s.app.StopDelete? ==> !s.handle)
    && (s.tls.Some? && s.tls.value.torn ==>
          !s.tls.value.handshakeDone && (s.app.NotifyContext? || s.app.NotifyDone? || s.app.Detach? || s.app.MarkDown? || s.app.Free?))
  }

  /** lwIP's side: after the detachment no callback runs, and a client that has no context yet is not hooked. */
  predicate LwipOk(s: Session) {
    && (s.app.MarkDown? || s.app.Free? ==> s.lwip.Quiet? && !s.hooked && !s.pcb)
    && (s.app.Free? ==> !s.connected)
    && (!s.server && (s.tls.None? || s.app.InSetup?) ==> s.lwip.Quiet? && !s.hooked)
    && (s.server && !s.begun ==> s.tls.None? && !s.dangling && !s.lwip.Marking?)
  }

  predicate Inv(s: Session) { WorkerOk(s) && AppOk(s) && LwipOk(s) }

  lemma WorkerKeeps(s: Session, result: Handshake)
    requires Inv(s) && Alive(s.worker)
    ensures Inv(WorkerNext(s, result))
  {
  }

  lemma CloseKeeps(s: Session, timeout: bool)
    requires Inv(s) && Enabled(s, CloseStep(timeout))
    ensures Inv(CloseNext(s, timeout))
  {
  }

  lemma LwipKeeps(s: Session, e: Event)
    requires Inv(s) && Enabled(s, e) && (e.Connected? || e.Error? || e.LwipStep?)
    ensures Inv(Step(s, e))
  {
  }

  lemma SetupKeeps(s: Session, e: Event)
    requires Inv(s) && Enabled(s, e) && (e.Start? || e.SetupDone? || e.Launched?)
    ensures Inv(Step(s, e))
  {
  }

  lemma CallKeeps(s: Session)
    requires Inv(s) && Enabled(s, CallStep)
    ensures Inv(CallNext(s))
  {
  }

  lemma EnterKeeps(s: Session, e: Event)
    requires Inv(s) && Enabled(s, e) && (e.Call? || e.Return? || e.CloseCall?)
    ensures Inv(Step(s, e))
  {
  }

  lemma StepKeeps(s: Session, e: Event)
    requires Inv(s) && Enabled(s, e)
    ensures Inv(Step(s, e))
  {
    hide Inv;
    if e.WorkerStep? {
      WorkerKeeps(s, e.result);
    } else if e.CloseStep? {
      CloseKeeps(s, e.timeout);
    } else if e.Start? || e.SetupDone? || e.Launched? {
      SetupKeeps(s, e);
    } else if e.Connected? || e.Error? || e.LwipStep? {
      LwipKeeps(s, e);
    } else if e.CallStep? {
      CallKeeps(s);
    } else {
      EnterKeeps(s, e);
    }
  }

  /** `t` can follow `s` when the threads' steps interleave as in `events`. */
  predicate Run(s: Session, events: seq<Event>, t: Session)
    decreases |events|
  {
    if events == [] then t == s
    else Enabled(s, events[0]) && Run(Step(s, events[0]), events[1..], t)
  }

  lemma {:induction false} RunKeeps(s: Session, events: seq<Event>, t: Session)
    requires Inv(s) && Run(s, events, t)
    ensures Inv(t)
    decreases |events|
  {
    hide Inv, Step, Enabled;
    if events == [] {
    } else {
      StepKeeps(s, events[0]);
      RunKeeps(Step(s, events[0]), events[1..], t);
    }
  }

  /**
   In every interleaving at most one thread is inside a call on the context, what it is inside of has
   not been freed or torn, and who may be inside is decided by `handshakeDone`.
   */
  lemma OneThreadInside(server: bool, events: seq<Event>, t: Session)
    requires Run(Fresh(server), events, t)
    ensures !(WorkerInside(t) && AppInside(t))
    ensures WorkerInside(t) || AppInside(t) ==> t.tls.Some? && !t.tls.value.torn
    ensures WorkerInside(t) ==> !t.tls.value.handshakeDone
    ensures t.app.InCall? || t.app.InNotify? ==> t.tls.value.handshakeDone
    ensures Dismantling(t.app) ==> !WorkerActive(t.worker)
  {
    RunKeeps(Fresh(server), events, t);
  }

  predicate Torn(s: Session) { s.tls.Some? && s.tls.value.torn }

  lemma TornStep(s: Session, e: Event)
    requires Inv(s) && Torn(s) && Enabled(s, e)
    ensures Torn(Step(s, e)) || Step(s, e).tls == None
  {
  }

  /** A context whose user was deleted inside a call is only ever freed: no thread enters it again. */
  lemma {:induction false} TornIsOnlyFreed(s: Session, events: seq<Event>, t: Session)
    requires Inv(s) && Torn(s) && Run(s, events, t)
    requires Start !in events
    ensures !WorkerInside(t) && !AppInside(t)
    decreases |events|
  {
    if events == [] {
    } else {
      hide Inv, Enabled, Step, Torn;
      StepKeeps(s, events[0]);
      TornStep(s, events[0]);
      var s1 := Step(s, events[0]);
      if Torn(s1) {
        TornIsOnlyFreed(s1, events[1..], t);
      } else {
        EmptyStaysEmpty(s1, events[1..], t);
      }
    }
  }

  /** Whatever a thread does but start, it makes no context. */
  lemma EmptyStep(s: Session, e: Event)
    requires s.tls == None && Enabled(s, e) && e != Start
    ensures Step(s, e).tls == None
  {
    hide *;
    if e.SetupDone? || e.Launched? {
      EmptySetup(s, e);
    } else if e.CloseStep? {
      EmptyClose(s, e);
    } else if e.WorkerStep? || e.LwipStep? {
      EmptyOthers(s, e);
    } else {
      EmptyCall(s, e);
    }
  }

  lemma EmptySetup(s: Session, e: Event)
    requires s.tls == None && Enabled(s, e) && (e.SetupDone? || e.Launched?)
    ensures Step(s, e).tls == None
  {
    hide Enabled;
  }

  lemma EmptyClose(s: Session, e: Event)
    requires s.tls == None && Enabled(s, e) && e.CloseStep?
    ensures Step(s, e).tls == None
  {
    hide Enabled, CloseGoes;
  }

  lemma EmptyOthers(s: Session, e: Event)
    requires s.tls == None && Enabled(s, e) && (e.WorkerStep? || e.LwipStep?)
    ensures Step(s, e).tls == None
  {
    hide Enabled, WorkerGoes;
  }

  lemma EmptyCall(s: Session, e: Event)
    requires s.tls == None && Enabled(s, e)
    requires e.Call? || e.CallStep? || e.Return? || e.CloseCall? || e.Connected? || e.Error?
    ensures Step(s, e).tls == None
  {
    hide Enabled, CallGoes, ReturnGoes;
  }

  lemma {:induction false} EmptyStaysEmpty(s: Session, events: seq<Event>, t: Session)
    requires Inv(s) && s.tls == None && Run(s, events, t)
    requires Start !in events
    ensures t.tls == None && !WorkerInside(t) && !AppInside(t)
    decreases |events|
  {
    if events == [] {
    } else {
      hide Inv, Enabled, Step;
      StepKeeps(s, events[0]);
      EmptyStep(s, events[0]);
      EmptyStaysEmpty(Step(s, events[0]), events[1..], t);
    }
  }

  // ---- the callback that marks the context

  /** The step frees the context of a server whose setup failed. */
  predicate Frees(s: Session, e: Event) { e == SetupDone(false) || (e == Launched(false) && s.server && !s.running) }

  /** A callback that is about to mark the context loses it, or one finds the pointer to a freed context. */
  predicate Undercut(s: Session, e: Event) {
    (s.lwip.Marking? && Frees(s, e)) || (s.lwip.Dropped? && e == LwipStep && s.dangling)
  }

  /** One of the steps of a run is like that. */
  predicate UndercutIn(s: Session, events: seq<Event>)
    decreases |events|
  {
    events != [] && Enabled(s, events[0]) && (Undercut(s, events[0]) || UndercutIn(Step(s, events[0]), events[1..]))
  }

  /** A callback has marked a freed context or is about to. */
  predicate Wild(s: Session) { s.wildMark || (s.lwip.Marking? && s.tls.None?) }

  lemma WildStep(s: Session, e: Event)
    requires Inv(s) && Enabled(s, e)
    ensures Wild(Step(s, e)) <==> Wild(s) || Undercut(s, e)
    ensures !s.server ==> !Undercut(s, e)
    ensures Step(s, e).server == s.server
  {
  }

  lemma {:induction false} WildRun(s: Session, events: seq<Event>, t: Session)
    requires Inv(s) && Run(s, events, t)
    ensures Wild(t) <==> Wild(s) || UndercutIn(s, events)
    ensures !s.server ==> !UndercutIn(s, events)
    decreases |events|
  {
    hide Inv, Enabled, Step, Wild, Undercut;
    if events == [] {
    } else {
      StepKeeps(s, events[0]);
      WildStep(s, events[0]);
      WildRun(Step(s, events[0]), events[1..], t);
    }
  }

  /** In no run of a client does a callback mark a freed context. */
  lemma ClientMarksItsContext(events: seq<Event>, t: Session)
    requires Run(Fresh(false), events, t)
    ensures !t.wildMark && (t.lwip.Marking? ==> t.tls.Some?)
  {
    WildRun(Fresh(false), events, t);
  }

  /**
   When a callback marks a freed context: in every run of a server to a state outside of callbacks, if and only
   if the server's setup failed after a callback had found the context and before it marked it, or a
   callback looked at the pointer between the deletion of the context and the clearing of the pointer.
   */
  lemma WildMarkExactly(server: bool, events: seq<Event>, t: Session)
    requires Run(Fresh(server), events, t) && t.lwip.Quiet?
    ensures t.wildMark <==> UndercutIn(Fresh(server), events)
  {
    WildRun(Fresh(server), events, t);
  }

  // ---- the deletion of the worker

  /**
   After the application has given up waiting, the worker clears its handle before the application has taken
   it, or ends before the application deletes it.
   */
  predicate Race(s: Session, e: Event) {
    e.WorkerStep? && ((s.worker.ClearHandle? && s.app.StopTake?) || (s.worker.Ending? && (s.app.StopClear? || s.app.StopDelete?)))
  }

  predicate RaceIn(s: Session, events: seq<Event>)
    decreases |events|
  {
    events != [] && Enabled(s, events[0]) && (Race(s, events[0]) || RaceIn(Step(s, events[0]), events[1..]))
  }

  /** A wrong task has been deleted or is about to be. */
  predicate Doomed(s: Session) {
    s.wrongDelete || (s.app.StopTake? && !s.handle) || ((s.app.StopClear? || s.app.StopDelete?) && !Alive(s.worker))
  }

  lemma DoomedStep(s: Session, e: Event)
    requires Inv(s) && Enabled(s, e)
    ensures Doomed(Step(s, e)) <==> Doomed(s) || Race(s, e)
  {
  }

  lemma {:induction false} DoomedRun(s: Session, events: seq<Event>, t: Session)
    requires Inv(s) && Run(s, events, t)
    ensures Doomed(t) <==> Doomed(s) || RaceIn(s, events)
    decreases |events|
  {
    hide Inv, Enabled, Step, Doomed, Race;
    if events == [] {
    } else {
      StepKeeps(s, events[0]);
      DoomedStep(s, events[0]);
      DoomedRun(Step(s, events[0]), events[1..], t);
    }
  }

  /**
   When `stopTlsWorker` deletes the caller or a task that has ended: in every run to a state in which it is not
   about to delete, if and only if, after the application gave up waiting, the worker cleared its handle before
   the application took it or ended before the application deleted it.
   */
  lemma WrongDeleteExactly(server: bool, events: seq<Event>, t: Session)
    requires Run(Fresh(server), events, t) && !Taking(t.app)
    ensures t.wrongDelete <==> RaceIn(Fresh(server), events)
  {
    DoomedRun(Fresh(server), events, t);
  }

  // ---- what raises the two flags

  /** The flags of the context. */
  datatype Flag = HandshakeDone | EngineFatal

  /**
   The step decides a flag: a handshake that was agreed on; one that broke, a call that failed, or an error
   that found a context.
   */
  predicate Raises(flag: Flag, s: Session, e: Event) {
    match flag
    case HandshakeDone => e == WorkerStep(Agreed) && s.worker.InHandshake?
    case EngineFatal =>
      || (e == WorkerStep(Broken) && s.worker.InHandshake?)
      || (e.Return? && e.how.Fatal?)
      || (e == LwipStep && s.lwip.Dropped? && s.tls.Some?)
  }

  /** The context goes. */
  predicate Discards(s: Session, e: Event) { Frees(s, e) || (e.CloseStep? && s.app.Free?) }

  /** What was decided comes to nothing: the context goes, or the worker is deleted before it has written it down. */
  predicate Lowers(flag: Flag, s: Session, e: Event) {
    || Discards(s, e)
    || (e.CloseStep? && s.app.StopDelete? &&
        match flag
        case HandshakeDone => s.worker.SetDone?
        case EngineFatal => s.worker.SetFatal? && s.tls.Some? && !s.tls.value.engineFatal && !s.lwip.Marking?)
  }

  predicate LowersIn(flag: Flag, s: Session, events: seq<Event>)
    decreases |events|
  {
    events != [] && Enabled(s, events[0]) && (Lowers(flag, s, events[0]) || LowersIn(flag, Step(s, events[0]), events[1..]))
  }

  /** A step of the run decides the flag, and what it decided lasts to the end of the run. */
  predicate RaisedIn(flag: Flag, s: Session, events: seq<Event>)
    decreases |events|
  {
    events != [] && Enabled(s, events[0]) &&
    var s1 := Step(s, events[0]);
    (Raises(flag, s, events[0]) && !LowersIn(flag, s1, events[1..])) || RaisedIn(flag, s1, events[1..])
  }

  /** A thread has the flag decided and will write it with its next step. */
  predicate AboutTo(flag: Flag, s: Session) {
    match flag
    case HandshakeDone => s.worker.SetDone?
    case EngineFatal => s.worker.SetFatal? || s.app.Failing? || (s.lwip.Marking? && s.tls.Some?)
  }

  predicate Written(flag: Flag, s: Session) {
    s.tls.Some? &&
    match flag
    case HandshakeDone => s.tls.value.handshakeDone
    case EngineFatal => s.tls.value.engineFatal
  }

  predicate Up(flag: Flag, s: Session) { Written(flag, s) || AboutTo(flag, s) }

  lemma DoneStep(s: Session, e: Event)
    requires Inv(s) && Enabled(s, e)
    ensures Up(HandshakeDone, Step(s, e)) <==>
            Raises(HandshakeDone, s, e) || (Up(HandshakeDone, s) && !Lowers(HandshakeDone, s, e))
  {
  }

  /** What a step should make of the fatal flag. */
  predicate FatalGoes(s: Session, e: Event)
    requires Enabled(s, e)
  {
    Up(EngineFatal, Step(s, e)) <==> Raises(EngineFatal, s, e) || (Up(EngineFatal, s) && !Lowers(EngineFatal, s, e))
  }

  lemma FatalByWorker(s: Session, e: Event)
    requires Inv(s) && Enabled(s, e) && e.WorkerStep?
    ensures FatalGoes(s, e)
  {
  }

  lemma FatalByCall(s: Session, e: Event)
    requires Inv(s) && Enabled(s, e) && (e.Call? || e.CallStep? || e.Return? || e.CloseCall?)
    ensures FatalGoes(s, e)
  {
  }

  lemma FatalByClose(s: Session, e: Event)
    requires Inv(s) && Enabled(s, e) && e.CloseStep?
    ensures FatalGoes(s, e)
  {
  }

  lemma FatalByOthers(s: Session, e: Event)
    requires Inv(s) && Enabled(s, e)
    requires e.Start? || e.SetupDone? || e.Launched? || e.Connected? || e.Error? || e.LwipStep?
    ensures FatalGoes(s, e)
  {
  }

  lemma FatalStep(s: Session, e: Event)
    requires Inv(s) && Enabled(s, e)
    ensures Up(EngineFatal, Step(s, e)) <==>
            Raises(EngineFatal, s, e) || (Up(EngineFatal, s) && !Lowers(EngineFatal, s, e))
  {
    hide Inv, Enabled, Step, Up, Raises, Lowers;
    if e.WorkerStep? {
      FatalByWorker(s, e);
    } else if e.CloseStep? {
      FatalByClose(s, e);
    } else if e.Call? || e.CallStep? || e.Return? || e.CloseCall? {
      FatalByCall(s, e);
    } else {
      FatalByOthers(s, e);
    }
  }

  lemma {:induction false} FlagRun(flag: Flag, s: Session, events: seq<Event>, t: Session)
    requires Inv(s) && Run(s, events, t)
    ensures Up(flag, t) <==> RaisedIn(flag, s, events) || (Up(flag, s) && !LowersIn(flag, s, events))
    decreases |events|
  {
    hide Inv, Enabled, Step, Raises, Lowers, Up;
    if events == [] {
    } else {
      StepKeeps(s, events[0]);
      match flag {
        case HandshakeDone => DoneStep(s, events[0]);
        case EngineFatal => FatalStep(s, events[0]);
      }
      FlagRun(flag, Step(s, events[0]), events[1..], t);
    }
  }

  /**
   In every run, the handshake counts as done if and only if the worker's handshake call came to an agreement, on
   the context that is still there, and the worker has had its next step.
   */
  lemma DoneExactly(server: bool, events: seq<Event>, t: Session)
    requires Run(Fresh(server), events, t)
    ensures Written(HandshakeDone, t) <==> RaisedIn(HandshakeDone, Fresh(server), events) && !t.worker.SetDone?
  {
    FlagRun(HandshakeDone, Fresh(server), events, t);
    RunKeeps(Fresh(server), events, t);
  }

  /**
   In every run, a context is marked fatal only if the handshake broke, a call failed or an error was reported
   while it was there; and once one of these has happened and no thread is about to mark it, it is marked.
   */
  lemma FatalExactly(server: bool, events: seq<Event>, t: Session)
    requires Run(Fresh(server), events, t)
    ensures Written(EngineFatal, t) ==> RaisedIn(EngineFatal, Fresh(server), events)
    ensures !AboutTo(EngineFatal, t) ==> (Written(EngineFatal, t) <==> RaisedIn(EngineFatal, Fresh(server), events))
  {
    FlagRun(EngineFatal, Fresh(server), events, t);
  }

  /** Who is about to write a flag writes it with its next step. */
  lemma WorkerWrites(s: Session, result: Handshake)
    requires Inv(s) && (s.worker.SetDone? || s.worker.SetFatal?)
    ensures Written(if s.worker.SetDone? then HandshakeDone else EngineFatal, Step(s, WorkerStep(result)))
  {
  }

  lemma CallWrites(s: Session)
    requires Inv(s) && s.app.Failing?
    ensures Written(EngineFatal, Step(s, CallStep))
  {
  }

  lemma CallbackWrites(s: Session)
    requires s.lwip.Marking? && s.tls.Some?
    ensures Written(EngineFatal, Step(s, LwipStep))
  {
  }

  // ---- a thread that nobody interrupts

  /** A context on which calls go through. */
  predicate Usable(s: Session) { s.tls.Some? && !s.tls.value.engineFatal && s.tls.value.handshakeDone }

  /** What the worker needs for a handshake. */
  predicate CanShake(s: Session) {
    s.tls.Some? && !s.tls.value.engineFatal && s.pcb && s.connected && !s.tls.value.handshakeDone
  }

  function Times(e: Event, n: nat): (events: seq<Event>)
    ensures |events| == n && forall i :: 0 <= i < n ==> events[i] == e
  {
    seq(n, _ => e)
  }

  /** One step and then a run. */
  lemma RunFirst(s: Session, e: Event, n: nat, t: Session)
    requires Enabled(s, e) && Run(Step(s, e), Times(e, n), t)
    ensures Run(s, Times(e, n + 1), t)
  {
    hide Step, Enabled;
    assert Times(e, n + 1)[1..] == Times(e, n);
  }

  lemma RunNothing(s: Session, e: Event)
    ensures Run(s, Times(e, 0), s)
  {
  }

  /** Where a turn of the worker ends that is not interrupted. */
  function TurnEnds(s: Session): WorkerPc {
    if s.worker.Test? && !s.running then ClearHandle else if CanShake(s) then InHandshake else Sleep
  }

  /** A worker that has got to one of its tests has passed the tests before it. */
  predicate Serving(s: Session) {
    || s.worker.Test? || s.worker.CheckContext?
    || (s.worker.CheckFatal? && s.tls.Some?)
    || (s.tls.Some? && !s.tls.value.engineFatal &&
        (s.worker.CheckPcb? || (s.pcb && (s.worker.CheckConnected? || (s.connected && s.worker.CheckDone?)))))
  }

  lemma WorkerMoves(s: Session)
    requires Serving(s)
    ensures Enabled(s, WorkerStep(Again)) && Step(s, WorkerStep(Again)) == s.(worker := WorkerGoes(s, Again))
  {
    hide WorkerGoes;
  }

  lemma WorkerLeads(s: Session)
    requires Serving(s)
    ensures var s1 := s.(worker := WorkerGoes(s, Again));
      || WorkerGoes(s, Again) == TurnEnds(s)
      || (Serving(s1) && StagesLeft(s1.worker) < StagesLeft(s.worker) && TurnEnds(s1) == TurnEnds(s))
  {
  }

  /** A turn of the worker calls the handshake if and only if there is something to shake hands on. */
  lemma {:induction false} WorkerTurn(s: Session) returns (n: nat)
    requires Serving(s)
    ensures Run(s, Times(WorkerStep(Again), n), s.(worker := TurnEnds(s)))
    decreases StagesLeft(s.worker)
  {
    hide Step, Enabled, Serving, TurnEnds, WorkerGoes, StagesLeft;
    WorkerMoves(s);
    WorkerLeads(s);
    var s1, m := Step(s, WorkerStep(Again)), 0;
    var goal := s.(worker := TurnEnds(s));
    if s1 == goal {
      RunNothing(s1, WorkerStep(Again));
    } else {
      m := WorkerTurn(s1);
      assert s1.(worker := TurnEnds(s1)) == goal;
    }
    RunFirst(s, WorkerStep(Again), m, goal);
    n := m + 1;
  }

  function StagesLeft(w: WorkerPc): nat {
    match w
    case Test => 6
    case CheckContext => 5
    case CheckFatal => 4
    case CheckPcb => 3
    case CheckConnected => 2
    case CheckDone => 1
    case _ => 0
  }

  /** A call that has got to one of its tests has passed the tests before it. */
  predicate Testing(s: Session) {
    || s.app.CallContext?
    || (s.app.CallFatal? && s.tls.Some?)
    || (s.app.CallDone? && s.tls.Some? && !s.tls.value.engineFatal)
  }

  function CallEnds(s: Session): Session { s.(app := if Usable(s) then InCall else Idle) }

  function CallStagesLeft(s: Session): nat { if s.app.CallContext? then 3 else if s.app.CallFatal? then 2 else 1 }

  /** A test changes nothing but where the call is. */
  lemma CallMoves(s: Session)
    requires Testing(s)
    ensures Enabled(s, CallStep) && Step(s, CallStep) == s.(app := CallGoes(s))
  {
    hide CallGoes;
  }

  /** It ends the call's way in as it should, or leads to the next test. */
  lemma CallLeads(s: Session)
    requires Testing(s)
    ensures var s1 := s.(app := CallGoes(s));
      CallGoes(s) == (if Usable(s) then InCall else Idle) || (Testing(s1) && CallStagesLeft(s1) < CallStagesLeft(s))
  {
  }

  lemma CallEndsSame(s: Session, app: AppPc)
    ensures CallEnds(s.(app := app)) == CallEnds(s) && CallEnds(s).app == (if Usable(s) then InCall else Idle)
    ensures app == CallEnds(s).app ==> s.(app := app) == CallEnds(s)
  {
  }

  lemma CallAdvances(s: Session)
    requires Testing(s)
    ensures var s1 := Step(s, CallStep);
      && Enabled(s, CallStep) && CallEnds(s1) == CallEnds(s)
      && (s1 == CallEnds(s) || (Testing(s1) && CallStagesLeft(s1) < CallStagesLeft(s)))
  {
    hide *;
    CallMoves(s);
    CallLeads(s);
    CallEndsSame(s, CallGoes(s));
  }

  /** A call goes into mbedTLS if and only if the context is usable, and changes nothing on its way. */
  lemma {:induction false} CallTurn(s: Session) returns (n: nat)
    requires Testing(s)
    ensures Run(s, Times(CallStep, n), s.(app := if Usable(s) then InCall else Idle))
    decreases CallStagesLeft(s)
  {
    hide Step, Enabled, Testing, Usable, CallStagesLeft;
    CallAdvances(s);
    var s1, m := Step(s, CallStep), 0;
    if s1 == CallEnds(s) {
      RunNothing(s1, CallStep);
    } else {
      m := CallTurn(s1);
    }
    RunFirst(s, CallStep, m, CallEnds(s));
    n := m + 1;
  }

  predicate Notifying(s: Session) {
    || s.app.NotifyContext?
    || (s.app.NotifyDone? && s.tls.Some?)
    || (s.app.NotifyFatal? && s.tls.Some? && s.tls.value.handshakeDone)
  }

  function NotifyEnds(s: Session): Session { s.(app := if Usable(s) then InNotify else Detach) }

  function NotifyStagesLeft(s: Session): nat { if s.app.NotifyContext? then 3 else if s.app.NotifyDone? then 2 else 1 }

  lemma NotifyMoves(s: Session)
    requires Notifying(s) && !s.dangling
    ensures Enabled(s, CloseStep(false)) && Step(s, CloseStep(false)) == s.(app := CloseGoes(s, false))
  {
    hide CloseGoes;
  }

  lemma NotifyLeads(s: Session)
    requires Notifying(s)
    ensures var s1 := s.(app := CloseGoes(s, false));
      || CloseGoes(s, false) == (if Usable(s) then InNotify else Detach)
      || (Notifying(s1) && NotifyStagesLeft(s1) < NotifyStagesLeft(s))
  {
  }

  lemma NotifyAdvances(s: Session)
    requires Notifying(s) && !s.dangling
    ensures var s1 := Step(s, CloseStep(false));
      && Enabled(s, CloseStep(false)) && NotifyEnds(s1) == NotifyEnds(s) && !s1.dangling
      && (s1 == NotifyEnds(s) || (Notifying(s1) && NotifyStagesLeft(s1) < NotifyStagesLeft(s)))
  {
    hide Step, CloseGoes, Notifying, NotifyStagesLeft, Enabled;
    NotifyMoves(s);
    NotifyLeads(s);
  }

  /** `close` sends its notification if and only if the context is usable. */
  lemma {:induction false} NotifyTurn(s: Session) returns (n: nat)
    requires Notifying(s) && !s.dangling
    ensures Run(s, Times(CloseStep(false), n), s.(app := if Usable(s) then InNotify else Detach))
    decreases NotifyStagesLeft(s)
  {
    hide Step, Enabled, Notifying, Usable, NotifyStagesLeft;
    NotifyAdvances(s);
    var s1, m := Step(s, CloseStep(false)), 0;
    if s1 == NotifyEnds(s) {
      RunNothing(s1, CloseStep(false));
    } else {
      m := NotifyTurn(s1);
    }
    RunFirst(s, CloseStep(false), m, NotifyEnds(s));
    n := m + 1;
  }

  /** A session that has begun to set its context up. */
  function Started(s: Session, app: AppPc): Session {
    s.(begun := true, tls := Some(Context(false, false, false)), app := app)
  }

  lemma StartStep(s: Session)
    requires Inv(s) && Enabled(s, Start)
    ensures Step(s, Start) == Started(s, InSetup) && !s.running && !s.handle && !s.dangling
  {
  }

  lemma SetupFailsStep(s: Session)
    requires s.tls == None && s.app.Idle? && !s.dangling
    ensures Enabled(Started(s, InSetup), SetupDone(false))
    ensures Step(Started(s, InSetup), SetupDone(false)) == s.(begun := true, app := ClearPointer, dangling := true)
  {
  }

  lemma ClearStep(s: Session)
    requires s.tls == None && s.app.ClearPointer?
    ensures Enabled(s, CloseStep(false)) && Step(s, CloseStep(false)) == s.(app := Idle, dangling := false)
  {
  }

  /** A setup that fails, uninterrupted, leaves the session as it was. */
  lemma SetupFails(s: Session)
    requires Inv(s) && Enabled(s, Start)
    ensures Run(s, [Start, SetupDone(false), CloseStep(false)], s.(begun := true))
  {
    StartStep(s);
    assert s.tls == None && s.app.Idle?;
    hide Step, Enabled, Started, Inv;
    SetupFailsStep(s);
    ClearStep(s.(begun := true, app := ClearPointer, dangling := true));
    RunThree(s, Start, SetupDone(false), CloseStep(false));
  }

  lemma RunThree(s: Session, a: Event, b: Event, c: Event)
    requires Enabled(s, a) && Enabled(Step(s, a), b) && Enabled(Step(Step(s, a), b), c)
    ensures Run(s, [a, b, c], Step(Step(Step(s, a), b), c))
  {
    hide Step, Enabled;
    var s1 := Step(s, a);
    var s2 := Step(s1, b);
    assert [a, b, c][1..] == [b, c] && [b, c][1..] == [c] && [c][1..] == [];
    assert Run(Step(s2, c), [], Step(s2, c));
    assert Run(s2, [c], Step(s2, c));
    assert Run(s1, [b, c], Step(s2, c));
  }

  /** The setup worked: only a client hooks its pcb now. */
  function SetUp(s: Session, app: AppPc): Session {
    Started(s, app).(pcb := s.pcb || !s.server, hooked := s.hooked || !s.server)
  }

  lemma SetupWorksStep(s: Session)
    requires s.tls == None && s.app.Idle? && !s.dangling
    ensures Enabled(Started(s, InSetup), SetupDone(true)) && Step(Started(s, InSetup), SetupDone(true)) == SetUp(s, Launch)
  {
  }

  lemma LaunchStep(s: Session, created: bool)
    requires s.tls == None && s.app.Idle? && !s.dangling && !s.running && !s.handle
    ensures Enabled(SetUp(s, Launch), Launched(created))
    ensures Step(SetUp(s, Launch), Launched(created)) ==
            if created then SetUp(s, Idle).(running := true, handle := true, worker := Test)
            else if s.server then SetUp(s, ClearPointer).(tls := None, dangling := true)
            else SetUp(s, StopTest)
  {
  }

  /**
   What comes of a setup that works, uninterrupted: a worker runs on a new context; or, when there is no task for
   it, a server is about to forget the context, and a client about to close.
   */
  lemma LaunchTurn(s: Session, created: bool)
    requires Inv(s) && Enabled(s, Start)
    ensures Run(s, [Start, SetupDone(true), Launched(created)],
                if created then SetUp(s, Idle).(running := true, handle := true, worker := Test)
                else if s.server then SetUp(s, ClearPointer).(tls := None, dangling := true)
                else SetUp(s, StopTest))
  {
    StartStep(s);
    assert s.tls == None && s.app.Idle?;
    hide Step, Enabled, Started, SetUp, Inv;
    SetupWorksStep(s);
    LaunchStep(s, created);
    RunThree(s, Start, SetupDone(true), Launched(created));
  }

  /** A call that comes back, uninterrupted: a failure marks the context, and one that says so ends the connection. */
  function CameBack(s: Session, how: Returned): Session {
    s.(app := if how.More? then InCall else Idle,
       tls := if how.Fatal? then Mark(s.tls) else s.tls,
       connected := s.connected && !how.Down? && how != Fatal(true))
  }

  lemma ReturnStep(s: Session, how: Returned)
    requires s.app.InCall?
    ensures Enabled(s, Return(how)) && Step(s, Return(how)) == s.(app := ReturnGoes(how))
  {
  }

  lemma FailingStep(s: Session, down: bool)
    requires s.app == Failing(down)
    ensures Enabled(s, CallStep) && Step(s, CallStep) == s.(app := if down then Dropping else Idle, tls := Mark(s.tls))
  {
  }

  lemma DroppingStep(s: Session)
    requires s.app.Dropping?
    ensures Enabled(s, CallStep) && Step(s, CallStep) == s.(app := Idle, connected := false)
  {
  }

  lemma RunOne(s: Session, e: Event)
    requires Enabled(s, e)
    ensures Run(s, Times(e, 1), Step(s, e))
  {
    hide Step, Enabled;
    RunNothing(Step(s, e), e);
    RunFirst(s, e, 0, Step(s, e));
  }

  lemma FailingTurn(s: Session, down: bool) returns (n: nat)
    requires s.app == Failing(down)
    ensures Run(s, Times(CallStep, n), s.(app := Idle, tls := Mark(s.tls), connected := s.connected && !down))
  {
    hide Step, Enabled, Mark, Run, Times;
    FailingStep(s, down);
    var s1 := Step(s, CallStep);
    if down {
      DroppingStep(s1);
      RunOne(s1, CallStep);
      RunFirst(s, CallStep, 1, Step(s1, CallStep));
      n := 2;
    } else {
      RunOne(s, CallStep);
      n := 1;
    }
  }

  lemma FatalTurn(s: Session, down: bool) returns (n: nat)
    requires s.app.InCall?
    ensures Run(Step(s, Return(Fatal(down))), Times(CallStep, n), CameBack(s, Fatal(down)))
  {
    hide Step, Enabled, Mark, Run, Times;
    ReturnStep(s, Fatal(down));
    n := FailingTurn(Step(s, Return(Fatal(down))), down);
  }

  lemma DownTurn(s: Session)
    requires s.app.InCall?
    ensures Run(Step(s, Return(Down)), Times(CallStep, 1), CameBack(s, Down))
  {
    hide Step, Enabled, Mark, Run, Times;
    ReturnStep(s, Down);
    DroppingStep(Step(s, Return(Down)));
    RunOne(Step(s, Return(Down)), CallStep);
  }

  lemma PlainTurn(s: Session, how: Returned)
    requires s.app.InCall? && (how.Done? || how.More?)
    ensures Run(Step(s, Return(how)), Times(CallStep, 0), CameBack(s, how))
  {
    hide Step, Enabled, Mark, Run, Times;
    ReturnStep(s, how);
    RunNothing(Step(s, Return(how)), CallStep);
  }

  lemma ReturnTurn(s: Session, how: Returned) returns (n: nat)
    requires s.app.InCall?
    ensures Run(Step(s, Return(how)), Times(CallStep, n), CameBack(s, how))
  {
    hide *;
    if how.Fatal? {
      n := FatalTurn(s, how.down);
    } else if how.Down? {
      DownTurn(s);
      n := 1;
    } else {
      PlainTurn(s, how);
      n := 0;
    }
  }

  /** An error report, uninterrupted: the context is marked, and an error that takes the pcb ends the connection. */
  function Reported(s: Session, gone: bool): Session {
    s.(pcb := s.pcb && !gone, hooked := s.hooked && !gone, connected := s.connected && !gone, tls := Mark(s.tls))
  }

  lemma LwipMoves(s: Session)
    requires !s.lwip.Quiet? && !s.dangling && (s.lwip.Marking? ==> s.tls.Some?)
    ensures Enabled(s, LwipStep)
    ensures Step(s, LwipStep) ==
            match s.lwip
            case Unlinked => s.(lwip := Dropped, connected := false)
            case Dropped => s.(lwip := if s.tls.Some? then Marking else Quiet)
            case _ => s.(lwip := Quiet, tls := Mark(s.tls))
  {
  }

  lemma ErrorStep(s: Session, gone: bool)
    requires s.hooked && s.lwip.Quiet?
    ensures Enabled(s, Error(gone))
    ensures Step(s, Error(gone)) == s.(pcb := s.pcb && !gone, hooked := !gone, lwip := if gone then Unlinked else Dropped)
  {
  }

  lemma DroppedTurn(s: Session) returns (n: nat)
    requires s.lwip.Dropped? && !s.dangling
    ensures Run(s, Times(LwipStep, n), s.(lwip := Quiet, tls := Mark(s.tls)))
  {
    hide Step, Enabled, Run, Times;
    LwipMoves(s);
    var s1 := Step(s, LwipStep);
    if s.tls.Some? {
      LwipMoves(s1);
      RunOne(s1, LwipStep);
      RunFirst(s, LwipStep, 1, Step(s1, LwipStep));
      n := 2;
    } else {
      RunOne(s, LwipStep);
      n := 1;
    }
  }

  lemma ErrorTurn(s: Session, gone: bool) returns (n: nat)
    requires s.hooked && s.lwip.Quiet? && !s.dangling
    ensures Run(Step(s, Error(gone)), Times(LwipStep, n), Reported(s, gone))
  {
    hide Step, Enabled, Run, Times, Mark;
    ErrorStep(s, gone);
    var s1 := Step(s, Error(gone));
    if gone {
      LwipMoves(s1);
      var s2 := Step(s1, LwipStep);
      var m := DroppedTurn(s2);
      RunFirst(s1, LwipStep, m, s2.(lwip := Quiet, tls := Mark(s2.tls)));
      n := m + 1;
    } else {
      n := DroppedTurn(s1);
    }
  }

  /** A session that has been closed: as before its first start, but for what it has to remember. */
  function Closed(t: Session): Session {
    Fresh(false).(server := t.server, begun := t.begun, worker := t.worker, wrongDelete := t.wrongDelete, wildMark := t.wildMark)
  }

  lemma FreeingLeaves(t: Session)
    requires Inv(t) && t.app.Free?
    ensures Step(t, CloseStep(false)) == Closed(t).(app := ClearPointer, dangling := t.tls.Some?)
  {
  }

  lemma ClearingLeaves(t: Session, dangling: bool)
    ensures var s := Closed(t).(app := ClearPointer, dangling := dangling);
            Enabled(s, CloseStep(false)) && Step(s, CloseStep(false)) == Closed(t)
  {
  }

  /** When `close` is through, nothing is left of the session. */
  lemma ClosedIsFresh(server: bool, events: seq<Event>, t: Session)
    requires Run(Fresh(server), events, t) && t.app.Free?
    ensures Run(t, Times(CloseStep(false), 2), Closed(t)) && !WorkerActive(t.worker)
  {
    var e := CloseStep(false);
    RunKeeps(Fresh(server), events, t);
    assert Enabled(t, e) && !WorkerActive(t.worker);
    hide Inv, Step, Enabled, Closed;
    FreeingLeaves(t);
    ClearingLeaves(t, t.tls.Some?);
    RunNothing(Closed(t), e);
    RunFirst(Step(t, e), e, 0, Closed(t));
    RunFirst(t, e, 1, Closed(t));
  }

  /** Until a wait has timed out, `close` has found the worker gone before it goes on. */
  predicate Patient(s: Session) { !Taking(s.app) && !s.app.Deleted? && (s.app.StopRecheck? ==> !s.handle) && !Torn(s) }

  lemma PatientStep(s: Session, e: Event)
    requires Inv(s) && Patient(s) && Enabled(s, e) && e != CloseStep(true)
    ensures Patient(Step(s, e))
  {
  }

  /** As long as no wait times out, no task is deleted and no context torn. */
  lemma {:induction false} PatientClose(s: Session, events: seq<Event>, t: Session)
    requires Inv(s) && Patient(s) && Run(s, events, t) && CloseStep(true) !in events
    ensures Patient(t)
    decreases |events|
  {
    hide Inv, Enabled, Step, Patient;
    if events == [] {
    } else {
      assert events[0] in events;
      StepKeeps(s, events[0]);
      PatientStep(s, events[0]);
      PatientClose(Step(s, events[0]), events[1..], t);
    }
  }

  // ---- runs in which these happen

  lemma {:induction false} RunOn(s: Session, before: seq<Event>, mid: Session, after: seq<Event>, t: Session)
    requires Run(s, before, mid) && Run(mid, after, t)
    ensures Run(s, before + after, t)
    decreases |before|
  {
    hide Step, Enabled;
    if before == [] {
      assert before + after == after;
    } else {
      assert (before + after)[1..] == before[1..] + after;
      RunOn(Step(s, before[0]), before[1..], mid, after, t);
    }
  }

  /** One more step at the end of a run. */
  lemma RunMore(s: Session, events: seq<Event>, t: Session, e: Event)
    requires Run(s, events, t) && Enabled(t, e)
    ensures Run(s, events + [e], Step(t, e))
  {
    assert Run(t, [e], Step(t, e)) by {
      assert Run(Step(t, e), [], Step(t, e));
    }
    hide Step, Enabled;
    RunOn(s, events, t, [e], Step(t, e));
  }

  /** A server's setup fails after a callback has found the context, and the callback marks freed memory. */
  lemma SetupFailsUnderCallback() returns (events: seq<Event>, t: Session)
    ensures Run(Fresh(true), events, t) && t.lwip.Quiet? && t.wildMark
  {
    var s0 := Fresh(true);
    var s1 := Step(s0, Start);
    var s2 := Step(s1, Error(true));
    var s3 := Step(s2, LwipStep);
    var s4 := Step(s3, LwipStep);
    var s5 := Step(s4, SetupDone(false));
    t := Step(s5, LwipStep);
    hide Step;
    RunMore(s0, [], s0, Start);
    events := [] + [Start];
    RunMore(s0, events, s1, Error(true));
    events := events + [Error(true)];
    RunMore(s0, events, s2, LwipStep);
    events := events + [LwipStep];
    RunMore(s0, events, s3, LwipStep);
    events := events + [LwipStep];
    RunMore(s0, events, s4, SetupDone(false));
    events := events + [SetupDone(false)];
    RunMore(s0, events, s5, LwipStep);
    events := events + [LwipStep];
  }

  /** The context is deleted and the pointer not yet cleared when a callback looks at it. */
  lemma CallbackFindsFreed() returns (events: seq<Event>, t: Session)
    ensures Run(Fresh(true), events, t) && t.lwip.Quiet? && t.wildMark
  {
    var s0 := Fresh(true);
    var s1 := Step(s0, Start);
    var s2 := Step(s1, SetupDone(false));
    var s3 := Step(s2, Error(true));
    var s4 := Step(s3, LwipStep);
    var s5 := Step(s4, LwipStep);
    t := Step(s5, LwipStep);
    hide Step;
    RunMore(s0, [], s0, Start);
    events := [] + [Start];
    RunMore(s0, events, s1, SetupDone(false));
    events := events + [SetupDone(false)];
    RunMore(s0, events, s2, Error(true));
    events := events + [Error(true)];
    RunMore(s0, events, s3, LwipStep);
    events := events + [LwipStep];
    RunMore(s0, events, s4, LwipStep);
    events := events + [LwipStep];
    RunMore(s0, events, s5, LwipStep);
    events := events + [LwipStep];
  }

  /** A client that connects, as its worker and its `close` go on. */
  function Connecting(running: bool, handle: bool, worker: WorkerPc, app: AppPc): Session {
    Session(false, true, Some(Context(false, false, false)), false, running, handle, true, false, true, worker, app, Quiet, false, false)
  }

  lemma ReachConnecting() returns (events: seq<Event>)
    ensures Run(Fresh(false), events, Connecting(true, true, Test, Idle))
  {
    var s0 := Fresh(false);
    var s1 := Step(s0, Start);
    var s2 := Step(s1, SetupDone(true));
    assert Step(s2, Launched(true)) == Connecting(true, true, Test, Idle);
    hide Step;
    RunMore(s0, [], s0, Start);
    RunMore(s0, [] + [Start], s1, SetupDone(true));
    RunMore(s0, [] + [Start] + [SetupDone(true)], s2, Launched(true));
    events := [] + [Start] + [SetupDone(true)] + [Launched(true)];
  }

  /** `close` waits, gives up, and sees that the worker is still there. */
  lemma ReachDeadline() returns (events: seq<Event>)
    ensures Run(Fresh(false), events, Connecting(false, true, Test, StopTake))
  {
    var s0, s5, s6 := Fresh(false), Connecting(false, true, Test, StopWait), Connecting(false, true, Test, StopRecheck);
    events := ReachClosing();
    assert Step(s5, CloseStep(true)) == s6 && Step(s6, CloseStep(false)) == Connecting(false, true, Test, StopTake);
    hide Step, Fresh;
    RunMore(s0, events, s5, CloseStep(true));
    RunMore(s0, events + [CloseStep(true)], s6, CloseStep(false));
    events := events + [CloseStep(true)] + [CloseStep(false)];
  }

  /** `close` tells the worker to end and waits. */
  lemma ReachClosing() returns (events: seq<Event>)
    ensures Run(Fresh(false), events, Connecting(false, true, Test, StopWait))
  {
    var s0, s3, s4 := Fresh(false), Connecting(true, true, Test, Idle), Connecting(true, true, Test, StopTest);
    events := ReachConnecting();
    assert Step(s3, CloseCall) == s4 && Step(s4, CloseStep(false)) == Connecting(false, true, Test, StopWait);
    hide Step, Fresh;
    RunMore(s0, events, s3, CloseCall);
    RunMore(s0, events + [CloseCall], s4, CloseStep(false));
    events := events + [CloseCall] + [CloseStep(false)];
  }

  /** The worker ends just then, and the application deletes itself. */
  lemma DeletesItself() returns (events: seq<Event>, t: Session)
    ensures Run(Fresh(false), events, t) && t.app.Deleted? && t.wrongDelete
  {
    var s0, s1, s2 := Fresh(false), Connecting(false, true, Test, StopTake), Connecting(false, true, ClearHandle, StopTake);
    var s3 := Connecting(false, false, Ending, StopTake);
    events := ReachDeadline();
    assert Step(s1, WorkerStep(Again)) == s2 && Step(s2, WorkerStep(Again)) == s3;
    t := Step(s3, CloseStep(false));
    assert t.app.Deleted? && t.wrongDelete;
    hide Step, Fresh;
    RunMore(s0, events, s1, WorkerStep(Again));
    RunMore(s0, events + [WorkerStep(Again)], s2, WorkerStep(Again));
    RunMore(s0, events + [WorkerStep(Again)] + [WorkerStep(Again)], s3, CloseStep(false));
    events := events + [WorkerStep(Again)] + [WorkerStep(Again)] + [CloseStep(false)];
  }

  /** A client whose handshake is done, as its worker and its application go on. */
  function Secured(running: bool, handle: bool, worker: WorkerPc, app: AppPc): Session {
    Session(false, true, Some(Context(true, false, false)), false, running, handle, true, true, true, worker, app, Quiet, false, false)
  }

  lemma ReachHandshake() returns (events: seq<Event>)
    ensures Run(Fresh(false), events, Connecting(true, true, InHandshake, Idle).(connected := true))
  {
    var s0, s3 := Fresh(false), Connecting(true, true, Test, Idle);
    var s4 := s3.(connected := true);
    events := ReachConnecting();
    assert Step(s3, Event.Connected) == s4 && Enabled(s3, Event.Connected);
    assert TurnEnds(s4) == InHandshake;
    hide Step, Enabled, Fresh;
    RunMore(s0, events, s3, Event.Connected);
    var n := WorkerTurn(s4);
    RunOn(s0, events + [Event.Connected], s4, Times(WorkerStep(Again), n), s4.(worker := InHandshake));
    events := events + [Event.Connected] + Times(WorkerStep(Again), n);
  }

  /** The handshake is agreed on, and the worker writes it down. */
  lemma ReachSecured() returns (events: seq<Event>)
    ensures Run(Fresh(false), events, Secured(true, true, Sleep, Idle))
  {
    var s0, s5 := Fresh(false), Connecting(true, true, InHandshake, Idle).(connected := true);
    var s6 := s5.(worker := SetDone);
    events := ReachHandshake();
    assert Step(s5, WorkerStep(Agreed)) == s6 && Step(s6, WorkerStep(Again)) == Secured(true, true, Sleep, Idle);
    hide Step, Fresh;
    RunMore(s0, events, s5, WorkerStep(Agreed));
    RunMore(s0, events + [WorkerStep(Agreed)], s6, WorkerStep(Again));
    events := events + [WorkerStep(Agreed)] + [WorkerStep(Again)];
  }

  /** A client shakes hands, and a call of the application is inside mbedTLS. */
  lemma ReachCall() returns (events: seq<Event>)
    ensures Run(Fresh(false), events, Secured(true, true, Sleep, InCall))
  {
    var s0, s7, s8 := Fresh(false), Secured(true, true, Sleep, Idle), Secured(true, true, Sleep, CallContext);
    events := ReachSecured();
    assert Step(s7, Call) == s8 && Usable(s8);
    hide Step, Fresh;
    RunMore(s0, events, s7, Call);
    var n := CallTurn(s8);
    RunOn(s0, events + [Call], s8, Times(CallStep, n), s8.(app := InCall));
    events := events + [Call] + Times(CallStep, n);
  }

  /** The call returns, and `close` tells the worker to end. */
  lemma ReachStopping() returns (events: seq<Event>)
    ensures Run(Fresh(false), events, Secured(false, true, Sleep, StopWait))
  {
    var s0, s9 := Fresh(false), Secured(true, true, Sleep, InCall);
    var s10, s11 := Secured(true, true, Sleep, Idle), Secured(true, true, Sleep, StopTest);
    events := ReachCall();
    assert Step(s9, Return(Done)) == s10 && Step(s10, CloseCall) == s11;
    assert Step(s11, CloseStep(false)) == Secured(false, true, Sleep, StopWait);
    hide Step, Fresh;
    RunMore(s0, events, s9, Return(Done));
    RunMore(s0, events + [Return(Done)], s10, CloseCall);
    RunMore(s0, events + [Return(Done)] + [CloseCall], s11, CloseStep(false));
    events := events + [Return(Done)] + [CloseCall] + [CloseStep(false)];
  }

  /** The worker ends. */
  lemma ReachStopped() returns (events: seq<Event>)
    ensures Run(Fresh(false), events, Secured(false, false, Ending, StopWait))
  {
    var s0, e := Fresh(false), WorkerStep(Again);
    var s12, s13, s14 := Secured(false, true, Sleep, StopWait), Secured(false, true, Test, StopWait), Secured(false, true, ClearHandle, StopWait);
    events := ReachStopping();
    assert Step(s12, e) == s13 && Step(s13, e) == s14 && Step(s14, e) == Secured(false, false, Ending, StopWait);
    hide Step, Fresh;
    RunMore(s0, events, s12, e);
    RunMore(s0, events + [e], s13, e);
    RunMore(s0, events + [e] + [e], s14, e);
    events := events + [e] + [e] + [e];
  }

  /** A whole session: handshake, call, and a `close` that notifies the peer with the worker gone. */
  lemma ReachNotify() returns (events: seq<Event>)
    ensures Run(Fresh(false), events, Secured(false, false, Ending, InNotify))
  {
    var s0, e := Fresh(false), CloseStep(false);
    var s15, s16, s17 := Secured(false, false, Ending, StopWait), Secured(false, false, Ending, StopRecheck), Secured(false, false, Ending, NotifyContext);
    events := ReachStopped();
    assert Step(s15, e) == s16 && Step(s16, e) == s17 && Usable(s17);
    hide Step, Fresh;
    RunMore(s0, events, s15, e);
    RunMore(s0, events + [e], s16, e);
    var n := NotifyTurn(s17);
    RunOn(s0, events + [e] + [e], s17, Times(e, n), s17.(app := InNotify));
    events := events + [e] + [e] + Times(e, n);
  }
}
