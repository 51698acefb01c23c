/** Admission of on-demand GB28181 streams (cmd/lalmax-nvr/
    gb28181_whep_on_demand.go:24-129). Every section under the hook's mutex is
    one method call; times are nanoseconds of one monotone clock. */
module WhepOnDemand {
  import opened Options
  import opened Sequences

  const COOLDOWN := 15_000_000_000
  const MAX_CONCURRENT := 4
  const RECENT_LIMIT := 512
  const RECENT_AGE := 120_000_000_000

  // ------------------------------------------------------------ stream ids

  datatype Channel = Channel(deviceId: string, channelId: string)

  predicate IsSipId(id: string) {
    |id| == 20 && forall i | 0 <= i < |id| :: '0' <= id[i] <= '9'
  }

  method CheckSipId(id: string) returns (ok: bool)
    ensures ok <==> IsSipId(id)
  {
    if |id| != 20 {
      return false;
    }
    for i := 0 to |id|
      invariant forall j | 0 <= j < i :: '0' <= id[j] <= '9'
    {
      if id[i] < '0' || id[i] > '9' {
        return false;
      }
    }
    return true;
  }

  /** strings.Cut(s, ":") */
  function Cut(s: string): Option<(string, string)> {
    if s == "" then None
    else if s[0] == ':' then Some(("", s[1..]))
    else
      match Cut(s[1..])
      case None => None
      case Some((before, after)) => Some(([s[0]] + before, after))
  }

  function SplitStreamId(stream: string): Option<Channel> {
    match Cut(stream)
    case None => None
    case Some((device, channel)) =>
      if IsSipId(device) && IsSipId(channel) then Some(Channel(device, channel)) else None
  }

  lemma {:induction false} CutFirst(before: string, after: string)
    requires forall i | 0 <= i < |before| :: before[i] != ':'
    ensures Cut(before + ":" + after) == Some((before, after))
  {
    var s := before + ":" + after;
    if before == "" {
      assert s == ":" + after;
      assert s[1..] == after;
    } else {
      CutFirst(before[1..], after);
      assert s[1..] == before[1..] + ":" + after;
      assert [before[0]] + before[1..] == before;
    }
  }

  lemma {:induction false} CutJoins(s: string)
    ensures Cut(s).Some? ==> s == Cut(s).value.0 + ":" + Cut(s).value.1
  {
    if s != "" && s[0] != ':' {
      CutJoins(s[1..]);
    }
  }

  /** Accepted streams are exactly two 20-digit ids joined by a colon, and they
      are taken apart correctly. */
  lemma SplitStreamIdIff(stream: string, device: string, channel: string)
    ensures SplitStreamId(stream) == Some(Channel(device, channel)) <==>
            IsSipId(device) && IsSipId(channel) && stream == device + ":" + channel
  {
    CutJoins(stream);
    if IsSipId(device) && IsSipId(channel) && stream == device + ":" + channel {
      CutFirst(device, channel);
    }
  }

  /** A 20-digit id. */
  ghost predicate TwentyDigits(id: string) { |id| == 20 && forall c | c in id :: c in "0123456789" }

  /** The stream is that of a channel. */
  ghost predicate NamesChannel(stream: string, device: string, channel: string) {
    TwentyDigits(device) && TwentyDigits(channel) && stream == device + ":" + channel
  }

  lemma SipIdExact(id: string)
    ensures IsSipId(id) <==> TwentyDigits(id)
  {
    forall c: char ensures '0' <= c <= '9' <==> c in "0123456789" {}
    if TwentyDigits(id) {
      assert forall i | 0 <= i < |id| :: id[i] in id;
    }
  }

  lemma SplitIffChannel(stream: string)
    ensures SplitStreamId(stream).Some? <==> exists device, channel :: NamesChannel(stream, device, channel)
  {
    if SplitStreamId(stream).Some? {
      var Channel(device, channel) := SplitStreamId(stream).value;
      SplitStreamIdIff(stream, device, channel);
      SipIdExact(device);
      SipIdExact(channel);
      assert NamesChannel(stream, device, channel);
    }
    forall device, channel | NamesChannel(stream, device, channel) ensures SplitStreamId(stream).Some? {
      SipIdExact(device);
      SipIdExact(channel);
      SplitStreamIdIff(stream, device, channel);
    }
  }

  // ----------------------------------------------------------------- events

  datatype Payload = Payload(app: string, stream: string, schema: string)

  /** A hook event, its payload when that decodes, and what eligible() answered
      for the channel it names. */
  datatype HookEvent = HookEvent(streamNotFound: bool, payload: Option<Payload>, eligible: bool)

  datatype Reply = Ignored | DecodeError | Admitted

  /** The checks made before the lock: the stream asked for, if any. */
  function Request(enabled: bool, e: HookEvent): Option<string> {
    if !enabled || !e.streamNotFound || e.payload.None? then None
    else
      var p := e.payload.value;
      if (p.app != "live" && p.app != "") || p.schema != "whep" then None
      else if SplitStreamId(p.stream).None? || !e.eligible then None
      else Some(p.stream)
  }

  type Times = map<string, int>

  predicate Cooling(recent: Times, stream: string, now: int) {
    stream in recent && now - recent[stream] < COOLDOWN
  }

  /** The decision under the lock, from the table of last admissions. */
  predicate Admits(recent: Times, inFlight: set<string>, stream: string, now: int) {
    stream !in inFlight && !Cooling(recent, stream, now) && |inFlight| < MAX_CONCURRENT
  }

  /** The event asks the enabled hook for a missing WHEP stream of a channel that
      may be started. */
  ghost predicate AsksForChannel(enabled: bool, e: HookEvent) {
    && enabled && e.streamNotFound && e.eligible && e.payload.Some?
    && e.payload.value.app in {"", "live"} && e.payload.value.schema == "whep"
    && exists device, channel :: NamesChannel(e.payload.value.stream, device, channel)
  }

  lemma RequestExact(enabled: bool, e: HookEvent)
    ensures Request(enabled, e).Some? <==> AsksForChannel(enabled, e)
    ensures Request(enabled, e).Some? ==> Request(enabled, e).value == e.payload.value.stream
  {
    if e.payload.Some? {
      SplitIffChannel(e.payload.value.stream);
    }
  }

  /** The stream was admitted less than 15 seconds ago. */
  ghost predicate AdmittedLately(admissions: seq<(string, int)>, stream: string, now: int) {
    exists i | 0 <= i < |admissions| :: admissions[i].0 == stream && now - admissions[i].1 < 15_000_000_000
  }

  lemma CoolingExact(admissions: seq<(string, int)>, full: Times, clock: int, stream: string, now: int)
    requires LastAdmissions(admissions, full, clock)
    ensures Cooling(full, stream, now) <==> AdmittedLately(admissions, stream, now)
  {
    if stream in full {
      var i :| 0 <= i < |admissions| && admissions[i] == (stream, full[stream]);
      assert admissions[i].0 == stream;
    }
  }

  // ------------------------------------------------------------ the program

  class Hook {
    var enabled: bool
    var inFlight: set<string>
    var recent: Times
    /** The goroutines that have been started and have not run their deferred
        clean-up, one entry each; the table of last admissions with nothing
        pruned; and the admissions so far. */
    ghost var workers: multiset<string>
    ghost var full: Times
    ghost var admissions: seq<(string, int)>
    ghost var clock: int

    ghost predicate Valid()
      reads this
    {
      && workers == multiset(inFlight) && |inFlight| <= 4
      && PrunedFrom(recent, full, clock)
      && LastAdmissions(admissions, full, clock)
      && Spaced(admissions)
    }

    ghost function View(): State
      reads this
    {
      State(enabled, inFlight, full)
    }

    constructor (now: int)
      ensures Valid() && !enabled && inFlight == {} && full == map[] && clock == now && admissions == []
    {
      enabled, inFlight, recent := false, {}, map[];
      workers, full, admissions, clock := multiset{}, map[], [], now;
    }

    method SetEnabled(on: bool)
      requires Valid()
      modifies `enabled
      ensures Valid() && enabled == on
    {
      enabled := on;
    }

    /** The decision is the one the never-pruned table would give. */
    method OnHookEvent(e: HookEvent, now: int) returns (reply: Reply)
      requires Valid() && now >= clock
      modifies this
      ensures Valid() && clock == now && enabled == old(enabled)
      ensures reply == Admitted <==>
                && AsksForChannel(enabled, e)
                && e.payload.value.stream !in old(inFlight) && |old(inFlight)| < 4
                && !AdmittedLately(old(admissions), e.payload.value.stream, now)
      ensures reply == Admitted <==> Accepts(old(View()), e, now)
      ensures reply == DecodeError <==> enabled && e.streamNotFound && e.payload.None?
      ensures reply == Admitted ==> Started(old(inFlight), old(workers), old(full), old(admissions), e.payload.value.stream, now)
      ensures reply != Admitted ==> inFlight == old(inFlight) && workers == old(workers)
      ensures reply != Admitted ==> full == old(full) && admissions == old(admissions)
    {
      clock := now;
      RequestExact(enabled, e);
      if !enabled || !e.streamNotFound {
        return Ignored;
      }
      if e.payload.None? {
        return DecodeError;
      }
      var p := e.payload.value;
      if (p.app != "live" && p.app != "") || p.schema != "whep" {
        return Ignored;
      }
      if SplitStreamId(p.stream).None? || !e.eligible {
        return Ignored;
      }
      CoolingExact(admissions, full, old(clock), p.stream, now);
      var ok := Admit(p.stream, now);
      return if ok then Admitted else Ignored;
    }

    /** A worker for the stream has started, and that is on record. */
    ghost predicate Started(inFlight0: set<string>, workers0: multiset<string>, full0: Times,
                            admissions0: seq<(string, int)>, stream: string, now: int)
      reads this
    {
      && inFlight == inFlight0 + {stream} && workers == workers0 + multiset{stream}
      && full == full0[stream := now] && admissions == admissions0 + [(stream, now)]
    }

    /** The section under the mutex. */
    method Admit(stream: string, now: int) returns (ok: bool)
      requires Valid() && now == clock
      modifies `inFlight, `recent, `workers, `full, `admissions
      ensures Valid()
      ensures ok <==> Admits(old(full), old(inFlight), stream, now)
      ensures ok ==> Started(old(inFlight), old(workers), old(full), old(admissions), stream, now)
      ensures !ok ==> inFlight == old(inFlight) && workers == old(workers)
      ensures !ok ==> full == old(full) && admissions == old(admissions)
    {
      PruningIsInvisible(recent, full, stream, now);
      if stream in inFlight {
        return false;
      }
      if stream in recent && now - recent[stream] < COOLDOWN {
        return false;
      }
      if |inFlight| >= MAX_CONCURRENT {
        return false;
      }
      Prune(now);
      PruningIsInvisible(recent, full, stream, now);
      Record(stream, now);
      return true;
    }

    /** The end of that section: a worker is about to start. */
    method Record(stream: string, now: int)
      requires Valid() && now == clock
      requires stream !in inFlight && |inFlight| < 4 && !Cooling(recent, stream, now)
      modifies `inFlight, `recent, `workers, `full, `admissions
      ensures Valid()
      ensures Started(old(inFlight), old(workers), old(full), old(admissions), stream, now)
      ensures recent == old(recent)[stream := now]
    {
      AdmitKeepsTables(recent, full, admissions, stream, now);
      WorkerAdded(inFlight, stream);
      inFlight, recent := inFlight + {stream}, recent[stream := now];
      workers, full := workers + multiset{stream}, full[stream := now];
      admissions := admissions + [(stream, now)];
    }

    /** Entries over two minutes old go once the table is large. */
    method Prune(now: int)
      requires PrunedFrom(recent, full, now)
      modifies `recent
      ensures PrunedFrom(recent, full, now)
      ensures old(|recent|) <= 512 ==> recent == old(recent)
      ensures old(|recent|) > 512 ==> forall s ::
        s in recent <==> s in old(recent) && now - old(recent)[s] <= 120_000_000_000
    {
      if |recent| > RECENT_LIMIT {
        var todo := recent.Keys;
        while todo != {}
          invariant PrunedFrom(recent, full, now)
          invariant todo <= recent.Keys <= old(recent).Keys
          invariant forall s | s in old(recent) && s !in todo :: s in recent <==> now - old(recent)[s] <= RECENT_AGE
          invariant forall s | s in recent :: recent[s] == old(recent)[s]
          decreases todo
        {
          var s :| s in todo;
          todo := todo - {s};
          if now - recent[s] > RECENT_AGE {
            recent := recent - {s};
          }
        }
      }
    }

    /** A worker's deferred clean-up. */
    method Done(stream: string)
      requires Valid()
      requires stream in workers
      modifies this
      ensures Valid() && workers == old(workers) - multiset{stream}
      ensures inFlight == old(inFlight) - {stream}
      ensures enabled == old(enabled) && full == old(full) && clock == old(clock) && admissions == old(admissions)
    {
      inFlight := inFlight - {stream};
      workers := workers - multiset{stream};
    }
  }

  /** What pruning has dropped is too old to matter, now and later. */
  ghost predicate PrunedFrom(recent: Times, full: Times, clock: int) {
    && (forall s | s in recent :: s in full && full[s] == recent[s])
    && (forall s | s in full && s !in recent :: clock - full[s] > RECENT_AGE)
  }

  /** The full table holds the time of each stream's latest admission. */
  ghost predicate LastAdmissions(admissions: seq<(string, int)>, full: Times, clock: int) {
    && (forall i | 0 <= i < |admissions| ::
      admissions[i].0 in full && admissions[i].1 <= full[admissions[i].0] <= clock)
    && (forall s | s in full :: (s, full[s]) in admissions)
  }

  /** Two admissions of one stream are a cooldown apart. */
  ghost predicate Spaced(admissions: seq<(string, int)>) {
    forall i, j | 0 <= i < j < |admissions| && admissions[i].0 == admissions[j].0 ::
      admissions[j].1 - admissions[i].1 >= 15_000_000_000
  }

  lemma AdmitKeepsTables(recent: Times, full: Times, admissions: seq<(string, int)>, stream: string, now: int)
    requires PrunedFrom(recent, full, now) && LastAdmissions(admissions, full, now) && Spaced(admissions)
    requires !Cooling(recent, stream, now)
    ensures PrunedFrom(recent[stream := now], full[stream := now], now)
    ensures LastAdmissions(admissions + [(stream, now)], full[stream := now], now)
    ensures Spaced(admissions + [(stream, now)])
  {
    PruningIsInvisible(recent, full, stream, now);
  }

  lemma WorkerAdded(inFlight: set<string>, stream: string)
    requires stream !in inFlight
    ensures multiset(inFlight + {stream}) == multiset(inFlight) + multiset{stream}
    ensures |inFlight + {stream}| == |inFlight| + 1
  {
  }

  /** The cooldown question has the same answer from either table. */
  lemma PruningIsInvisible(recent: Times, full: Times, stream: string, now: int)
    requires PrunedFrom(recent, full, now)
    ensures Cooling(recent, stream, now) <==> Cooling(full, stream, now)
  {
  }

  // ------------------------------------------------------------ whole runs

  datatype Event = Arrival(e: HookEvent, now: int) | Completion(stream: string) | Toggle(on: bool)

  /** The hook without pruning, as a state to replay events on. */
  datatype State = State(enabled: bool, inFlight: set<string>, full: Times)

  const START := State(false, {}, map[])

  ghost function Next(s: State, ev: Event): State {
    match ev
    case Toggle(on) => s.(enabled := on)
    case Completion(stream) => s.(inFlight := s.inFlight - {stream})
    case Arrival(e, now) =>
      if Accepts(s, e, now) then
        var stream := e.payload.value.stream;
        s.(inFlight := s.inFlight + {stream}, full := s.full[stream := now])
      else s
  }

  ghost predicate Accepts(s: State, e: HookEvent, now: int)
    ensures Accepts(s, e, now) ==> e.payload.Some?
  {
    var r := Request(s.enabled, e);
    r.Some? && Admits(s.full, s.inFlight, r.value, now)
  }

  /** Whether an event is admitted, in full. */
  lemma AcceptsExact(s: State, e: HookEvent, now: int)
    ensures Accepts(s, e, now) <==>
            && AsksForChannel(s.enabled, e)
            && e.payload.value.stream !in s.inFlight && |s.inFlight| < 4
            && (e.payload.value.stream in s.full ==> now - s.full[e.payload.value.stream] >= 15_000_000_000)
  {
    RequestExact(s.enabled, e);
  }

  ghost function Decisions(s: State, events: seq<Event>): seq<bool>
    decreases |events|
  {
    if events == [] then [] else Decision(s, events[0]) + Decisions(Next(s, events[0]), events[1..])
  }

  ghost function Decision(s: State, ev: Event): seq<bool> {
    if ev.Arrival? then [Accepts(s, ev.e, ev.now)] else []
  }

  ghost function After(s: State, events: seq<Event>): State
    decreases |events|
  {
    if events == [] then s else After(Next(s, events[0]), events[1..])
  }

  /** The streams admitted, with the time. */
  ghost function Admissions(s: State, events: seq<Event>): seq<(string, int)>
    decreases |events|
  {
    if events == [] then []
    else Admission(s, events[0]) + Admissions(Next(s, events[0]), events[1..])
  }

  ghost function Admission(s: State, ev: Event): seq<(string, int)> {
    if ev.Arrival? && Accepts(s, ev.e, ev.now) then [(ev.e.payload.value.stream, ev.now)] else []
  }

  /** At most four workers at any moment of any run. */
  lemma {:induction false} RunsStayCapped(s: State, events: seq<Event>)
    requires |s.inFlight| <= 4
    ensures |After(s, events).inFlight| <= 4
    decreases |events|
  {
    if events != [] {
      RunsStayCapped(Next(s, events[0]), events[1..]);
    }
  }

  /** One event on the hook is one step without pruning. */
  method Handle(hook: Hook, ev: Event) returns (decision: seq<bool>)
    requires hook.Valid() && (ev.Arrival? ==> hook.clock <= ev.now)
    modifies hook
    ensures hook.Valid() && hook.clock == if ev.Arrival? then ev.now else old(hook.clock)
    ensures hook.View() == Next(old(hook.View()), ev)
    ensures decision == Decision(old(hook.View()), ev)
    ensures hook.admissions == old(hook.admissions) + Admission(old(hook.View()), ev)
  {
    decision := [];
    match ev {
      case Arrival(e, now) =>
        var reply := hook.OnHookEvent(e, now);
        decision := [reply == Admitted];
      case Completion(stream) =>
        if stream in hook.inFlight {
          hook.Done(stream);
        }
      case Toggle(on) => hook.SetEnabled(on);
    }
  }

  /** Any interleaving of events, completions and toggles is decided as without
      pruning, and the admissions of one stream are a cooldown apart. */
  method Replay(start: int, events: seq<Event>) returns (decisions: seq<bool>, ghost admissions: seq<(string, int)>)
    requires forall i | 0 <= i < |events| && events[i].Arrival? :: start <= events[i].now
    requires forall i, j | 0 <= i < j < |events| && events[i].Arrival? && events[j].Arrival? ::
      events[i].now <= events[j].now
    ensures decisions == Decisions(START, events)
    ensures admissions == Admissions(START, events) && Spaced(admissions)
  {
    decisions := [];
    var hook := new Hook(start);
    for i := 0 to |events|
      invariant hook.Valid() && fresh(hook)
      invariant forall j | i <= j < |events| && events[j].Arrival? :: hook.clock <= events[j].now
      invariant decisions + Decisions(hook.View(), events[i..]) == Decisions(START, events)
      invariant hook.admissions + Admissions(hook.View(), events[i..]) == Admissions(START, events)
    {
      ghost var s, rest := hook.View(), events[i + 1..];
      assert events[i..][0] == events[i] && events[i..][1..] == rest;
      Regroup(decisions, Decision(s, events[i]), Decisions(Next(s, events[i]), rest));
      Regroup(hook.admissions, Admission(s, events[i]), Admissions(Next(s, events[i]), rest));
      var decision := Handle(hook, events[i]);
      decisions := decisions + decision;
    }
    admissions := hook.admissions;
  }
}
