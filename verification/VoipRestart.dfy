/** Replacing the VoIP server (cmd/lalmax-nvr/voip.go:15-120). Both methods hold
    voipMu throughout, so a run is a sequence of calls. */
module VoipRestart {
  import opened Options

  // ---------------------------------------------------------- configuration

  /** The fields that matter here: the switch, the transport, which Normalize
      rewrites, one field that it only defaults, and the rest. */
  datatype Config = Config(enable: bool, pbxTransport: string, sipListenAddr: string, rest: string)

  predicate IsSpace(c: char) { c == ' ' || 9 <= c as int <= 13 }

  function TrimLeft(s: string): string {
    if s != "" && IsSpace(s[0]) then TrimLeft(s[1..]) else s
  }

  function TrimRight(s: string): string {
    if s != "" && IsSpace(s[|s| - 1]) then TrimRight(s[..|s| - 1]) else s
  }

  function TrimSpace(s: string): string { TrimRight(TrimLeft(s)) }

  function Lower(c: char): char {
    if 'A' <= c <= 'Z' then (c as int + 32) as char else c
  }

  function ToLower(s: string): (t: string)
    ensures |t| == |s|
  {
    seq(|s|, i requires 0 <= i < |s| => Lower(s[i]))
  }

  function Normalize(c: Config): Config {
    c.(pbxTransport := if c.pbxTransport == "" then "udp" else ToLower(TrimSpace(c.pbxTransport)),
       sipListenAddr := if c.sipListenAddr == "" then "0.0.0.0:5070" else c.sipListenAddr)
  }

  predicate Trimmed(s: string) {
    s == "" || (!IsSpace(s[0]) && !IsSpace(s[|s| - 1]))
  }

  lemma {:induction false} TrimLeftStarts(s: string)
    ensures var t := TrimLeft(s); t == "" || !IsSpace(t[0])
  {
    if s != "" && IsSpace(s[0]) {
      TrimLeftStarts(s[1..]);
    }
  }

  lemma {:induction false} TrimRightEnds(s: string)
    ensures var t := TrimRight(s); t <= s && (t == "" || !IsSpace(t[|t| - 1]))
  {
    if s != "" && IsSpace(s[|s| - 1]) {
      TrimRightEnds(s[..|s| - 1]);
    }
  }

  lemma TrimSpaceTrims(s: string)
    ensures Trimmed(TrimSpace(s))
  {
    TrimLeftStarts(s);
    TrimRightEnds(TrimLeft(s));
  }

  lemma LowerTwice(s: string)
    ensures ToLower(ToLower(s)) == ToLower(s)
    ensures Trimmed(s) ==> Trimmed(ToLower(s))
  {
  }

  /** Blanks are what is cut off, on both sides and nothing else. */
  lemma TrimSpaceCuts(s: string) returns (before: string, after: string)
    ensures s == before + TrimSpace(s) + after
    ensures forall c | c in before || c in after :: c in " \t\n\r" || c as int == 11 || c as int == 12
  {
    before := TrimLeftCuts(s);
    after := TrimRightCuts(TrimLeft(s));
    assert s == before + TrimSpace(s) + after;
  }

  lemma {:induction false} TrimLeftCuts(s: string) returns (before: string)
    ensures s == before + TrimLeft(s) && forall c | c in before :: IsSpace(c)
  {
    before := "";
    if s != "" && IsSpace(s[0]) {
      before := TrimLeftCuts(s[1..]);
      before := [s[0]] + before;
    }
  }

  lemma {:induction false} TrimRightCuts(s: string) returns (after: string)
    ensures s == TrimRight(s) + after && forall c | c in after :: IsSpace(c)
  {
    after := "";
    if s != "" && IsSpace(s[|s| - 1]) {
      after := TrimRightCuts(s[..|s| - 1]);
      after := after + [s[|s| - 1]];
    }
  }

  /** Letters become small letters, and no other character changes. */
  lemma LowerExact(s: string, i: nat)
    requires i < |s|
    ensures !('A' <= ToLower(s)[i] <= 'Z')
    ensures ToLower(s)[i] == s[i] || ('A' <= s[i] <= 'Z' && ToLower(s)[i] as int - s[i] as int == 'a' as int - 'A' as int)
  {
  }

  /** The defaults, and what is left alone. */
  lemma NormalizeExact(c: Config)
    ensures var n := Normalize(c);
      && n.enable == c.enable && n.rest == c.rest
      && n.sipListenAddr == (if c.sipListenAddr == "" then "0.0.0.0:5070" else c.sipListenAddr)
      && (c.pbxTransport == "" ==> n.pbxTransport == "udp")
      && (c.pbxTransport != "" ==> n.pbxTransport == ToLower(TrimSpace(c.pbxTransport)))
  {
  }

  /** A transport made of blanks, the one value that normalizing does not settle. */
  predicate Blank(transport: string) { transport != "" && TrimSpace(transport) == "" }

  predicate NormalForm(c: Config) { c.sipListenAddr != "" && ToLower(TrimSpace(c.pbxTransport)) == c.pbxTransport }

  lemma NormalizeGivesNormalForm(c: Config)
    ensures NormalForm(Normalize(c))
    ensures Normalize(c).pbxTransport == "" <==> Blank(c.pbxTransport)
  {
    var t := TrimSpace(c.pbxTransport);
    TrimSpaceTrims(c.pbxTransport);
    LowerTwice(t);
    assert TrimSpace(ToLower(t)) == ToLower(t);
    UdpIsNormal();
  }

  lemma UdpIsNormal()
    ensures ToLower(TrimSpace("udp")) == "udp"
  {
    assert TrimSpace("udp") == "udp" && ToLower("udp") == "udp";
  }

  lemma NormalFormStaysIff(c: Config)
    requires NormalForm(c)
    ensures Normalize(c) == c <==> c.pbxTransport != ""
  {
  }

  /** Normalizing again changes nothing, unless the transport is all blanks: it
      becomes empty the first time and "udp" the second. */
  lemma NormalizeIdempotentIff(c: Config)
    ensures Normalize(Normalize(c)) == Normalize(c) <==> !Blank(c.pbxTransport)
    ensures Blank(c.pbxTransport) ==> Normalize(c).pbxTransport == "" && Normalize(Normalize(c)).pbxTransport == "udp"
  {
    NormalizeGivesNormalForm(c);
    NormalFormStaysIff(Normalize(c));
  }

  // ------------------------------------------------------- opening, closing

  /** A server and the configuration it runs: NewServer normalizes once more. */
  datatype Server = Server(id: nat, config: Config)

  datatype Event = Opened(server: Server) | Closed(server: Server)

  function Opening(server: Option<Server>): seq<Event> { if server.Some? then [Opened(server.value)] else [] }

  function Closing(server: Option<Server>): seq<Event> { if server.Some? then [Closed(server.value)] else [] }

  /** The server left open by a history. */
  function Live(log: seq<Event>): Option<Server> {
    if log == [] || log[|log| - 1].Closed? then None else Some(log[|log| - 1].server)
  }

  /** A server opens only while none is open, and only the open one closes. */
  ghost predicate OneAtATime(log: seq<Event>) {
    log == [] || (
      var front, last := log[..|log| - 1], log[|log| - 1];
      && OneAtATime(front)
      && match last
         case Opened(_) => Live(front) == None
         case Closed(server) => Live(front) == Some(server))
  }

  function OpenCount(log: seq<Event>): int {
    if log == [] then 0 else OpenCount(log[..|log| - 1]) + if log[|log| - 1].Opened? then 1 else -1
  }

  /** So at every moment of the history at most one server is open. */
  lemma {:induction false} AtMostOneOpen(log: seq<Event>, k: nat)
    requires OneAtATime(log) && k <= |log|
    ensures OpenCount(log[..k]) == if Live(log[..k]) == None then 0 else 1
  {
    if k < |log| {
      AtMostOneOpen(log[..|log| - 1], k);
      assert log[..|log| - 1][..k] == log[..k];
    } else if log != [] {
      assert log[..k] == log;
      AtMostOneOpen(log[..k - 1], k - 1);
      assert log[..k - 1][..k - 1] == log[..k - 1];
    }
  }

  // ------------------------------------------------------------ the program

  datatype Result = Ok | Cancelled | ShuttingDown | Invalid | NotEmbedded | UpdateFailed | RestoreFailed

  /** What the world answers during one call: the contexts, Validate, the kind of
      media engine, and whether a listener can be opened for the new and then
      for the old configuration. */
  datatype World = World(cancelled: bool, stopping: bool, valid: bool, embedded: bool, opensNext: bool, opensOld: bool)

  class App {
    var voipSvr: Option<Server>
    var voipApplied: Config
    var voipStopped: bool
    var created: nat
    ghost var log: seq<Event>

    ghost predicate Valid()
      reads this
    {
      && OneAtATime(log) && Live(log) == voipSvr
      && (voipSvr.Some? ==> voipApplied.enable && voipSvr.value.config == Normalize(voipApplied))
      && (voipSvr.Some? ==> voipSvr.value.id < created)
      && (voipApplied.enable ==> NormalForm(voipApplied))
      && (voipStopped ==> voipSvr == None)
    }

    /** The running configuration is the one on record exactly when the record
        names a transport. */
    lemma RunsItsRecordIff()
      requires Valid() && voipSvr.Some?
      ensures voipSvr.value.config == voipApplied <==> voipApplied.pbxTransport != ""
    {
      NormalFormStaysIff(voipApplied);
    }

    constructor (zero: Config)
      requires !zero.enable
      ensures Valid() && voipSvr == None && voipApplied == zero && !voipStopped && log == []
    {
      voipSvr, voipApplied, voipStopped, created, log := None, zero, false, 0, [];
    }

    ghost predicate Untouched(svr0: Option<Server>, applied0: Config, log0: seq<Event>)
      reads this
    {
      voipSvr == svr0 && voipApplied == applied0 && log == log0
    }

    method Create(c: Config, opens: bool) returns (server: Option<Server>, ok: bool)
      modifies `created, `log
      ensures ok <==> !c.enable || opens
      ensures ok && c.enable ==>
                server.Some? && server.value.config == Normalize(c) && log == old(log) + [Opened(server.value)]
      ensures server.Some? ==> server.value.id == old(created) < created
      ensures created >= old(created)
      ensures !(ok && c.enable) ==> server == None && log == old(log)
    {
      if !c.enable {
        return None, true;
      }
      if !opens {
        return None, false;
      }
      var s := Server(created, Normalize(c));
      created, log := created + 1, log + [Opened(s)];
      return Some(s), true;
    }

    method CloseServer()
      requires Valid()
      modifies `voipSvr, `log
      ensures Valid() && voipSvr == None
      ensures log == old(log) + Closing(old(voipSvr))
    {
      if voipSvr.Some? {
        log := log + [Closed(voipSvr.value)];
        voipSvr := None;
      }
    }

    method RestartVoIP(cfg: Config, w: World) returns (r: Result)
      requires Valid()
      modifies this
      ensures Valid() && voipStopped == old(voipStopped)
      // refused, in this order, without touching anything
      ensures r in {Cancelled, ShuttingDown, Invalid, NotEmbedded} ==> Untouched(old(voipSvr), old(voipApplied), old(log))
      ensures r == Cancelled <==> w.cancelled
      ensures r == ShuttingDown <==> !w.cancelled && (w.stopping || voipStopped)
      ensures r == Invalid <==> !w.cancelled && !w.stopping && !voipStopped && cfg.enable && !w.valid
      ensures r == NotEmbedded <==> !w.cancelled && !w.stopping && !voipStopped && cfg.enable && w.valid && !w.embedded
      // accepted, but in force already: nothing is touched either
      ensures r !in {Cancelled, ShuttingDown, Invalid, NotEmbedded}
              && old(voipApplied) == Normalize(cfg) && (old(voipSvr).Some? || !cfg.enable) ==>
                r == Ok && Untouched(old(voipSvr), old(voipApplied), old(log))
      // accepted, and a change
      ensures r !in {Cancelled, ShuttingDown, Invalid, NotEmbedded}
              && !(old(voipApplied) == Normalize(cfg) && (old(voipSvr).Some? || !cfg.enable)) ==>
                && Replaced(r, old(voipApplied), Normalize(cfg), w)
                && Relogged(old(voipSvr), old(log))
                && (voipSvr.Some? ==> voipSvr.value.id >= old(created))
      ensures r == Ok && voipSvr.Some? ==> (voipSvr.value.config == voipApplied <==> !Blank(cfg.pbxTransport))
    {
      NormalizeIdempotentIff(cfg);
      NormalizeGivesNormalForm(cfg);
      if w.cancelled {
        return Cancelled;
      }
      if w.stopping || voipStopped {
        return ShuttingDown;
      }
      var next := Normalize(cfg);
      if next.enable {
        if !w.valid {
          return Invalid;
        }
        if !w.embedded {
          return NotEmbedded;
        }
      }
      if voipApplied == next && (voipSvr.Some? || !next.enable) {
        return Ok;
      }
      r := Replace(next, w);
    }

    /** The outcome of a change: the new configuration runs, or the old one does
        again, or nothing does and the old one stays on record. */
    ghost predicate Replaced(r: Result, applied0: Config, next: Config, w: World)
      reads this
    {
      && (voipSvr.Some? <==> voipApplied.enable && r != RestoreFailed)
      && voipApplied == (if r == Ok then next else applied0)
      && r == if !next.enable || w.opensNext then Ok
              else if !applied0.enable || w.opensOld then UpdateFailed
              else RestoreFailed
    }

    /** The old server is closed before the one that is left is opened, and
        nothing else happens to any server. */
    ghost predicate Relogged(svr0: Option<Server>, log0: seq<Event>)
      reads this
    {
      log == log0 + Closing(svr0) + Opening(voipSvr)
    }

    method Replace(next: Config, w: World) returns (r: Result)
      requires Valid() && !voipStopped && NormalForm(next)
      modifies `voipSvr, `voipApplied, `created, `log
      ensures Valid()
      ensures Replaced(r, old(voipApplied), next, w) && Relogged(old(voipSvr), old(log))
      ensures voipSvr.Some? ==> voipSvr.value.id >= old(created)
    {
      var previous := voipApplied;
      CloseServer();
      var server, ok := Create(next, w.opensNext);
      if !ok {
        var restored, restoredOk := Create(previous, w.opensOld);
        voipSvr := restored;
        return if restoredOk then UpdateFailed else RestoreFailed;
      }
      voipSvr := server;
      voipApplied := next;
      return Ok;
    }

    method StopVoIP()
      requires Valid()
      modifies this
      ensures Valid() && voipStopped && voipSvr == None && voipApplied == old(voipApplied)
      ensures log == old(log) + Closing(old(voipSvr))
    {
      voipStopped := true;
      if voipSvr.Some? {
        log := log + [Closed(voipSvr.value)];
        voipSvr := None;
      }
    }
  }

  // ------------------------------------------------------------ whole runs

  datatype Call = Restart(cfg: Config, w: World) | Stop

  /** A call for this configuration that passed the checks. */
  ghost predicate AsksFor(call: Call, c: Config) {
    call.Restart? && c == Normalize(call.cfg) && (c.enable ==> call.w.valid && call.w.embedded)
  }

  /** A stop is final: no call after it touches any server. */
  method Apply(app: App, call: Call)
    requires app.Valid()
    modifies app
    ensures app.Valid() && app.voipStopped == (old(app.voipStopped) || call.Stop?)
    ensures old(app.voipStopped) ==> app.log == old(app.log)
    ensures app.voipApplied == old(app.voipApplied) || AsksFor(call, app.voipApplied)
  {
    match call {
      case Restart(cfg, w) => var r := app.RestartVoIP(cfg, w);
      case Stop => app.StopVoIP();
    }
  }

  /** Any run of restarts and stops from start-up: one server at a time
      throughout, on a configuration some call asked for, and none opens after
      the first stop. What runs at the end is what is on record, exactly when the
      call that asked for it did not name a transport made of blanks. */
  method Replay(zero: Config, calls: seq<Call>)
    returns (ghost log: seq<Event>, ghost logAtStop: seq<seq<Event>>, finalSvr: Option<Server>, applied: Config)
    requires !zero.enable
    ensures Stop in calls ==> finalSvr == None
    ensures finalSvr.Some? ==> applied.enable && finalSvr.value.config == Normalize(applied)
    ensures finalSvr.Some? ==> exists i | 0 <= i < |calls| :: AsksFor(calls[i], applied)
    ensures finalSvr.Some? ==> forall i | 0 <= i < |calls| && AsksFor(calls[i], applied) ::
              finalSvr.value.config == applied <==> !Blank(calls[i].cfg.pbxTransport)
    ensures OneAtATime(log) && Live(log) == finalSvr
    ensures |logAtStop| == |calls|
    ensures forall i | 0 <= i < |calls| && calls[i].Stop? :: logAtStop[i] == log
  {
    var app := new App(zero);
    logAtStop := [];
    for i := 0 to |calls|
      invariant app.Valid() && fresh(app) && |logAtStop| == i
      invariant app.voipApplied == zero || exists j | 0 <= j < i :: AsksFor(calls[j], app.voipApplied)
      invariant forall j | 0 <= j < i && calls[j].Stop? :: app.voipStopped && logAtStop[j] == app.log
    {
      Apply(app, calls[i]);
      logAtStop := logAtStop + [app.log];
    }
    log, finalSvr, applied := app.log, app.voipSvr, app.voipApplied;
    forall i | 0 <= i < |calls| && AsksFor(calls[i], applied)
      ensures Normalize(applied) == applied <==> !Blank(calls[i].cfg.pbxTransport)
    {
      NormalizeIdempotentIff(calls[i].cfg);
    }
  }

  /** It does happen: a first call with a blank transport leaves "" on record and
      a server on "udp". */
  method RestartOnBlanks(zero: Config, cfg: Config) returns (applied: Config, server: Option<Server>)
    requires !zero.enable && cfg.enable && cfg.pbxTransport == " "
    ensures applied.pbxTransport == ""
    ensures server.Some? && server.value.config.pbxTransport == "udp"
  {
    var app := new App(zero);
    assert TrimLeft(" ") == "";
    assert Blank(cfg.pbxTransport);
    NormalizeIdempotentIff(cfg);
    var r := app.RestartVoIP(cfg, World(false, false, true, true, true, true));
    applied, server := app.voipApplied, app.voipSvr;
  }
}
