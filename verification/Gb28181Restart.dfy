/** Hot restart of the GB28181 SIP server against on-demand INVITEs
    (cmd/lalmax-nvr/main.go:890-943, cmd/lalmax-nvr/gb28181_whep_on_demand.go:
    146-164). Restarts hold the write side of gb28181Mu and INVITEs the read
    side; each statement that touches shared state is its own step, so that any
    interleaving the lock allows is a run. */
module Gb28181Restart {
  import opened Options

  type Server = nat

  /** What RestartGB28181 reads of its argument: on, with an id, valid, and the
      on-demand switch. */
  datatype Config = Config(enabled: bool, hasId: bool, valid: bool, whepOnDemand: bool)

  /** Where the restart that holds the write lock stands. */
  datatype Restart =
    | Entered(cfg: Config)
    | HookOff(cfg: Config)
    | Cleared(cfg: Config)
    | Created(cfg: Config, server: Server)
    | Installed(cfg: Config)
    | Leaving

  /** Where an INVITE that holds the read lock stands. */
  datatype Invite = Entering | Checked | Playing(server: Server)

  datatype State = State(
    svr: Option<Server>,
    hook: bool,
    hookEnabled: bool,
    writer: Option<Restart>,
    readers: map<nat, Invite>,
    unstopped: set<Server>,
    nextServer: Server,
    restarted: bool,
    crashed: bool)

  datatype Step =
    | Lock(cfg: Config)
    | DisableHook
    | StopOld
    | GiveUp
    | Create(ok: bool)
    | Install
    | EnableHook
    | Unlock
    | RLock(reader: nat)
    | Check(reader: nat, known: bool)
    | Issue(reader: nat)
    | Finish(reader: nat)

  /** One step, if the lock and the program's position allow it. */
  function Next(s: State, step: Step): Option<State> {
    match step
    case Lock(cfg) =>
      if s.writer == None && s.readers == map[] then Some(s.(writer := Some(Entered(cfg)))) else None
    case DisableHook =>
      if s.writer.Some? && s.writer.value.Entered? then
        Some(s.(hookEnabled := s.hookEnabled && !s.hook, writer := Some(HookOff(s.writer.value.cfg))))
      else None
    case StopOld =>
      if s.writer.Some? && s.writer.value.HookOff? then
        Some(s.(unstopped := s.unstopped - Set(s.svr), svr := None, writer := Some(Cleared(s.writer.value.cfg))))
      else None
    case GiveUp =>
      if s.writer.Some? && s.writer.value.Cleared? && !Usable(s.writer.value.cfg) then Some(s.(writer := Some(Leaving)))
      else None
    case Create(ok) =>
      if s.writer.Some? && s.writer.value.Cleared? && Usable(s.writer.value.cfg) then
        if ok then
          Some(s.(unstopped := s.unstopped + {s.nextServer}, nextServer := s.nextServer + 1,
                  writer := Some(Created(s.writer.value.cfg, s.nextServer))))
        else Some(s.(writer := Some(Leaving)))
      else None
    case Install =>
      if s.writer.Some? && s.writer.value.Created? then
        Some(s.(svr := Some(s.writer.value.server), writer := Some(Installed(s.writer.value.cfg))))
      else None
    case EnableHook =>
      if s.writer.Some? && s.writer.value.Installed? then
        Some(s.(hookEnabled := if s.hook then s.writer.value.cfg.whepOnDemand else s.hookEnabled, writer := Some(Leaving)))
      else None
    case Unlock =>
      if s.writer == Some(Leaving) then Some(s.(writer := None, restarted := true)) else None
    case RLock(r) =>
      if s.writer == None && r !in s.readers then Some(s.(readers := s.readers[r := Entering])) else None
    case Check(r, known) =>
      // returns with an error, releasing the lock, without a server or a known
      // online device and channel
      if r in s.readers && s.readers[r] == Entering then
        Some(s.(readers := if s.svr.Some? && known then s.readers[r := Checked] else s.readers - {r}))
      else None
    case Issue(r) =>
      // reads the field again: a nil server here would be a panic
      if r in s.readers && s.readers[r] == Checked then
        if s.svr.Some? then Some(s.(readers := s.readers[r := Playing(s.svr.value)])) else Some(s.(crashed := true))
      else None
    case Finish(r) =>
      if r in s.readers && s.readers[r].Playing? then Some(s.(readers := s.readers - {r})) else None
  }

  /** The lock: a restart enters when nobody else is in, an INVITE when no restart
      is. */
  lemma LockExcludes(s: State, cfg: Config, r: nat)
    ensures Next(s, Lock(cfg)).Some? <==> s.writer == None && s.readers == map[]
    ensures r !in s.readers ==> (Next(s, RLock(r)).Some? <==> s.writer == None)
  {
  }

  /** An INVITE goes on exactly with a server and a known online device and
      channel, and is then issued on the server installed. */
  lemma InviteIff(s: State, r: nat, known: bool)
    requires r in s.readers
    ensures s.readers[r] == Entering ==>
              Next(s, Check(r, known)).Some? && (r in Next(s, Check(r, known)).value.readers <==> s.svr.Some? && known)
    ensures s.readers[r] == Checked && s.svr.Some? ==>
              Next(s, Issue(r)).Some? && Next(s, Issue(r)).value.readers == s.readers[r := Playing(s.svr.value)]
  {
  }

  predicate Usable(cfg: Config) { cfg.enabled && cfg.hasId && cfg.valid }

  function Run(s: State, steps: seq<Step>): Option<State>
    decreases |steps|
  {
    if steps == [] then Some(s)
    else
      match Next(s, steps[0])
      case None => None
      case Some(s') => Run(s', steps[1..])
  }

  // -------------------------------------------------------------- start-up

  /** NewApp: the server starts only with the switch on and an id, but the hook,
      when one can be registered, takes its switch from the configuration. */
  function Start(cfg: Config, registered: bool): State {
    var svr := if cfg.enabled && cfg.hasId then Some(0) else None;
    State(svr, registered, registered && cfg.whepOnDemand, None, map[], Set(svr), 1, false, false)
  }

  function Set(svr: Option<Server>): set<Server> { if svr.Some? then {svr.value} else {} }

  /** An enabled hook always finds an installed server. */
  predicate HookBacked(s: State) { s.hook && s.hookEnabled ==> s.svr.Some? }

  /** That fails at start-up exactly when on-demand play is switched on without a
      server to serve it. */
  lemma StartHookBackedIff(cfg: Config, registered: bool)
    ensures HookBacked(Start(cfg, registered)) <==> !registered || !cfg.whepOnDemand || (cfg.enabled && cfg.hasId)
  {
  }

  // ------------------------------------------------------------- invariant

  ghost predicate Inv(s: State) {
    && !s.crashed
    && (s.writer.Some? ==> s.readers == map[])
    && s.unstopped == (if s.writer.Some? && s.writer.value.Created? then {s.writer.value.server} else Set(s.svr))
    && (s.svr.Some? ==> s.svr.value < s.nextServer)
    && (s.writer.Some? ==> WriterOk(s, s.writer.value))
    && (forall r | r in s.readers :: ReaderOk(s, s.readers[r]))
    && (s.restarted ==> HookBacked(s))
  }

  ghost predicate WriterOk(s: State, w: Restart) {
    match w
    case Entered(_) => true
    case HookOff(_) => !(s.hook && s.hookEnabled)
    case Cleared(_) => !(s.hook && s.hookEnabled) && s.svr == None
    case Created(_, server) => !(s.hook && s.hookEnabled) && s.svr == None && server < s.nextServer
    case Installed(_) => !(s.hook && s.hookEnabled) && s.svr.Some?
    case Leaving => HookBacked(s)
  }

  ghost predicate ReaderOk(s: State, i: Invite) {
    match i
    case Entering => true
    case Checked => s.svr.Some?
    case Playing(server) => s.svr == Some(server)
  }

  lemma StartInv(cfg: Config, registered: bool)
    ensures Inv(Start(cfg, registered))
  {
  }

  lemma StepInv(s: State, step: Step)
    requires Inv(s)
    ensures Next(s, step).Some? ==> Inv(Next(s, step).value)
  {
  }

  /** What every step of every interleaving does safely. */
  ghost predicate SafeStep(s: State, step: Step, s': State) {
    // one server at a time, and the only one is the installed one once it is in
    && |s'.unstopped| <= 1
    // an INVITE in progress is on the installed, running server
    && (forall r | r in s'.readers && s'.readers[r].Playing? ::
          s'.svr == Some(s'.readers[r].server) && s'.readers[r].server in s'.unstopped)
    // no server stops while an INVITE is in progress on any
    && (!(s.unstopped <= s'.unstopped) ==> forall r | r in s.readers :: !s.readers[r].Playing?)
    // once a restart has completed, an enabled hook has a server behind it
    && (s'.restarted ==> HookBacked(s'))
    && !s'.crashed
  }

  lemma InvSafe(s: State, step: Step)
    requires Inv(s)
    ensures Next(s, step).Some? ==> SafeStep(s, step, Next(s, step).value)
  {
    StepInv(s, step);
  }

  /** Every step of every run from start-up is safe. */
  lemma RunsAreSafe(cfg: Config, registered: bool, steps: seq<Step>, k: nat)
    requires k < |steps|
    requires Run(Start(cfg, registered), steps[..k]).Some?
    ensures var s := Run(Start(cfg, registered), steps[..k]).value;
      Inv(s) && (Next(s, steps[k]).Some? ==> SafeStep(s, steps[k], Next(s, steps[k]).value))
  {
    StartInv(cfg, registered);
    RunInv(Start(cfg, registered), steps[..k]);
    InvSafe(Run(Start(cfg, registered), steps[..k]).value, steps[k]);
  }

  lemma {:induction false} RunInv(s: State, steps: seq<Step>)
    requires Inv(s)
    ensures Run(s, steps).Some? ==> Inv(Run(s, steps).value)
    decreases |steps|
  {
    if steps != [] && Next(s, steps[0]).Some? {
      StepInv(s, steps[0]);
      RunInv(Next(s, steps[0]).value, steps[1..]);
    }
  }

  // ------------------------------------------------------------ the program

  /** RestartGB28181 itself, which nothing interrupts once it has the lock. */
  class App {
    var gb28181Svr: Option<Server>
    const gbWHEPHook: bool
    var hookEnabled: bool
    ghost var unstopped: set<Server>
    var created: Server
    ghost var restarted: bool

    constructor (cfg: Config, registered: bool)
      ensures View() == Start(cfg, registered)
      ensures gb28181Svr.Some? <==> cfg.enabled && cfg.hasId
      ensures gbWHEPHook == registered && (hookEnabled <==> registered && cfg.whepOnDemand)
    {
      gb28181Svr := if cfg.enabled && cfg.hasId then Some(0) else None;
      gbWHEPHook, hookEnabled, created := registered, registered && cfg.whepOnDemand, 1;
      unstopped, restarted := Set(if cfg.enabled && cfg.hasId then Some(0) else None), false;
    }

    ghost function View(): State
      reads this
    {
      State(gb28181Svr, gbWHEPHook, hookEnabled, None, map[], unstopped, created, restarted, false)
    }

    method RestartGB28181(cfg: Config, opens: bool) returns (ok: bool)
      modifies this
      ensures Run(old(View()), RestartSteps(cfg, opens)) == Some(View())
      ensures ok <==> !(cfg.enabled && cfg.hasId) || (cfg.valid && opens)
      ensures gb28181Svr == if cfg.enabled && cfg.hasId && cfg.valid && opens then Some(old(created)) else None
      ensures forall v :: v in unstopped <==> (v in old(unstopped) && old(gb28181Svr) != Some(v)) || gb28181Svr == Some(v)
      ensures hookEnabled <==>
                if gbWHEPHook then cfg.enabled && cfg.hasId && cfg.valid && opens && cfg.whepOnDemand else old(hookEnabled)
    {
      if gbWHEPHook {
        hookEnabled := false;
      }
      if gb28181Svr.Some? {
        unstopped := unstopped - {gb28181Svr.value};
        gb28181Svr := None;
      }
      assert unstopped == old(unstopped) - Set(old(gb28181Svr));
      restarted := true;
      RestartRun(old(View()), cfg, opens);
      if !cfg.enabled {
        return true;
      }
      if !cfg.hasId {
        return true;
      }
      if !cfg.valid {
        return false;
      }
      if !opens {
        return false;
      }
      gb28181Svr := Some(created);
      unstopped, created := unstopped + {created}, created + 1;
      if gbWHEPHook {
        hookEnabled := cfg.whepOnDemand;
      }
      return true;
    }
  }

  /** The steps of one call, from taking the lock to releasing it. */
  function RestartSteps(cfg: Config, opens: bool): seq<Step> {
    [Lock(cfg)] + ([DisableHook] + ([StopOld] + ReplaceSteps(cfg, opens)))
  }

  function ReplaceSteps(cfg: Config, opens: bool): seq<Step> {
    if !Usable(cfg) then [GiveUp, Unlock]
    else if !opens then [Create(false), Unlock]
    else [Create(true), Install, EnableHook, Unlock]
  }

  function AfterStop(s: State, cfg: Config): State {
    s.(svr := None, unstopped := s.unstopped - Set(s.svr), hookEnabled := s.hookEnabled && !s.hook, writer := Some(Cleared(cfg)))
  }

  function AfterReplace(s: State, cfg: Config, opens: bool): State {
    if !Usable(cfg) || !opens then s.(writer := None, restarted := true)
    else s.(svr := Some(s.nextServer), unstopped := s.unstopped + {s.nextServer}, nextServer := s.nextServer + 1,
            hookEnabled := if s.hook then cfg.whepOnDemand else s.hookEnabled, writer := None, restarted := true)
  }

  lemma RunCons(s: State, step: Step, rest: seq<Step>)
    ensures Run(s, [step] + rest) == match Next(s, step) case None => None case Some(s') => Run(s', rest)
  {
    assert ([step] + rest)[1..] == rest;
  }

  /** A call that nothing interrupts is the run of its steps. */
  lemma RestartRun(s: State, cfg: Config, opens: bool)
    requires s.writer == None && s.readers == map[]
    ensures Run(s, RestartSteps(cfg, opens)) == Some(AfterReplace(AfterStop(s, cfg), cfg, opens))
  {
    StopRun(s, cfg, ReplaceSteps(cfg, opens));
    ReplaceRun(AfterStop(s, cfg), cfg, opens, ReplaceSteps(cfg, opens));
  }

  lemma StopRun(s: State, cfg: Config, rest: seq<Step>)
    requires s.writer == None && s.readers == map[]
    ensures Run(s, [Lock(cfg)] + ([DisableHook] + ([StopOld] + rest))) == Run(AfterStop(s, cfg), rest)
  {
    var s1 := s.(writer := Some(Entered(cfg)));
    var s2 := s1.(hookEnabled := s.hookEnabled && !s.hook, writer := Some(HookOff(cfg)));
    RunCons(s, Lock(cfg), [DisableHook] + ([StopOld] + rest));
    RunCons(s1, DisableHook, [StopOld] + rest);
    RunCons(s2, StopOld, rest);
  }

  lemma ReplaceRun(s: State, cfg: Config, opens: bool, rest: seq<Step>)
    requires s.writer == Some(Cleared(cfg)) && s.svr == None
    requires rest == ReplaceSteps(cfg, opens)
    ensures Run(s, rest) == Some(AfterReplace(s, cfg, opens))
  {
    if !Usable(cfg) || !opens {
      var first := if !Usable(cfg) then GiveUp else Create(false);
      assert rest == [first] + ([Unlock] + []);
      RunCons(s, first, [Unlock] + []);
      RunCons(s.(writer := Some(Leaving)), Unlock, []);
    } else {
      var s1 := s.(unstopped := s.unstopped + {s.nextServer}, nextServer := s.nextServer + 1, writer := Some(Created(cfg, s.nextServer)));
      var s2 := s1.(svr := Some(s.nextServer), writer := Some(Installed(cfg)));
      var s3 := s2.(hookEnabled := if s.hook then cfg.whepOnDemand else s.hookEnabled, writer := Some(Leaving));
      assert rest == [Create(true)] + ([Install] + ([EnableHook] + ([Unlock] + [])));
      RunCons(s, Create(true), [Install] + ([EnableHook] + ([Unlock] + [])));
      RunCons(s1, Install, [EnableHook] + ([Unlock] + []));
      RunCons(s2, EnableHook, [Unlock] + []);
      RunCons(s3, Unlock, []);
    }
  }
}
