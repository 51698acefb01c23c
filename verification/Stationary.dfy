/** Suppression of stationary objects (docker/ai-detector/stationary.py). The
    program keeps four tables per camera; here they are proved to be a bounded
    summary of one simple thing per track: the boxes seen since its last reset. */
module Stationary {
  import opened RegionGeometry
  import opened BoxOverlap
  import opened Options
  import opened Sequences

  const KNOWN_ACTIVE_IOU := 0.2
  const STATIONARY_CHECK_IOU := 0.6
  const ACTIVE_CHECK_IOU := 0.9
  const MAX_STATIONARY_HISTORY := 10
  const TRACK_EXPIRY_SECONDS := 60.0

  datatype Verdict = Active | BecameStationary | Stationary

  // --------------------------------------------------------- specification

  /** The boxes of a track since its last reset, the resetting one included. */
  type Run = r: seq<Box> | r != [] witness [Box(0, 0, 0, 0)]

  /** Unchanged updates needed. A threshold below one acts as one. */
  function Needed(threshold: int): nat { if threshold < 1 then 1 else threshold }

  function Recent(boxes: seq<Box>): (h: seq<Box>)
    ensures |h| == Min(|boxes|, MAX_STATIONARY_HISTORY)
  {
    if |boxes| > MAX_STATIONARY_HISTORY then boxes[|boxes| - MAX_STATIONARY_HISTORY..] else boxes
  }

  /** These are the last of the boxes, in order: all of them, or the last ten. */
  ghost predicate Latest(h: seq<Box>, boxes: seq<Box>) {
    |h| == (if |boxes| < 10 then |boxes| else 10) && h == boxes[|boxes| - |h|..]
  }

  lemma RecentIsLatest(boxes: seq<Box>)
    ensures Latest(Recent(boxes), boxes)
  {
  }

  lemma LatestIsRecent(h: seq<Box>, boxes: seq<Box>)
    requires Latest(h, boxes)
    ensures h == Recent(boxes)
  {
    RecentIsLatest(boxes);
  }

  /** The box stays with the average of the recent ones; a stationary track is
      judged more leniently. */
  predicate Stays(recent: seq<Box>, box: Box, isStationary: bool)
    requires recent != []
  {
    var iou := IntersectionOverUnion(ToReal(box), AverageBoxes(recent));
    iou >= KNOWN_ACTIVE_IOU && iou >= if isStationary then STATIONARY_CHECK_IOU else ACTIVE_CHECK_IOU
  }

  /** A run longer than the threshold is stationary. */
  predicate Unchanged(run: Run, box: Box, threshold: int) {
    Stays(Recent(run + [box]), box, |run| > Needed(threshold))
  }

  /** An update is unchanged when the box overlaps the average of the latest ten,
      itself among them, by nine tenths, or six for a track counted stationary. */
  lemma UnchangedExact(run: Run, box: Box, threshold: int, latest: seq<Box>)
    requires Latest(latest, run + [box])
    ensures Unchanged(run, box, threshold) <==>
            IntersectionOverUnion(ToReal(box), AverageBoxes(latest))
            >= if |run| - 1 >= 1 && |run| - 1 >= threshold then 0.6 else 0.9
  {
    LatestIsRecent(latest, run + [box]);
  }

  function Next(runs: map<int, Run>, id: int, box: Box, threshold: int): Run {
    if id in runs && Unchanged(runs[id], box, threshold) then runs[id] + [box] else [box]
  }

  /** The n-th update since a reset, counting the reset as the first. */
  function VerdictAt(n: nat, threshold: int): Verdict {
    if n <= Needed(threshold) then Active
    else if n == Needed(threshold) + 1 then BecameStationary
    else Stationary
  }

  datatype Tracks = Tracks(runs: map<int, Run>, lastSeen: map<int, real>)

  const START := Tracks(map[], map[])

  function Updated(t: Tracks, id: int, box: Box, now: real, threshold: int): Tracks {
    Tracks(t.runs[id := Next(t.runs, id, box, threshold)], t.lastSeen[id := now])
  }

  function Stale(t: Tracks, now: real): set<int> {
    set id | id in t.lastSeen && t.lastSeen[id] < now - TRACK_EXPIRY_SECONDS
  }

  function Pruned(t: Tracks, now: real): Tracks {
    Tracks(t.runs - Stale(t, now), t.lastSeen - Stale(t, now))
  }

  // --------------------------------------------- the tables as a summary

  /** One entry for every live track: the history is the latest ten boxes since
      the reset, the count is one less than their number, and the flag says that
      the count has reached the threshold. */
  ghost predicate Summary(runs: map<int, Run>, history: map<int, seq<Box>>, counts: map<int, int>, flags: map<int, bool>, threshold: int) {
    && history.Keys == counts.Keys == flags.Keys == runs.Keys
    && forall id | id in runs :: Entry(runs[id], history[id], counts[id], flags[id], threshold)
  }

  ghost predicate Entry(run: Run, history: seq<Box>, count: int, flag: bool, threshold: int) {
    history == Recent(run) && count == |run| - 1 && (flag <==> count >= Needed(threshold))
  }

  lemma SummaryUpdated(runs: map<int, Run>, history: map<int, seq<Box>>, counts: map<int, int>, flags: map<int, bool>,
                       threshold: int, id: int, run: Run, h: seq<Box>, count: int, flag: bool)
    requires Summary(runs, history, counts, flags, threshold) && Entry(run, h, count, flag, threshold)
    ensures Summary(runs[id := run], history[id := h], counts[id := count], flags[id := flag], threshold)
  {
  }

  lemma SummaryRemoved(runs: map<int, Run>, history: map<int, seq<Box>>, counts: map<int, int>, flags: map<int, bool>,
                       threshold: int, ids: set<int>)
    requires Summary(runs, history, counts, flags, threshold)
    ensures Summary(runs - ids, history - ids, counts - ids, flags - ids, threshold)
  {
  }

  // ------------------------------------------------------------ the program

  class StationarySuppressor {
    const thresholdFrames: int
    var history: map<int, seq<Box>>
    var motionlessCount: map<int, int>
    var stationary: map<int, bool>
    var lastSeen: map<int, real>
    ghost var tracks: Tracks

    ghost predicate Valid()
      reads this
    {
      && tracks.lastSeen == lastSeen && lastSeen.Keys == tracks.runs.Keys
      && Summary(tracks.runs, history, motionlessCount, stationary, thresholdFrames)
    }

    /** The history of a track is the latest boxes of its run, ten at most; the
        count is one less than the run, and the flag says whether it has reached
        the threshold, or one where the threshold is less. */
    lemma TablesExact(id: int)
      requires Valid() && id in tracks.runs
      ensures id in history && id in motionlessCount && id in stationary && id in lastSeen
      ensures Latest(history[id], tracks.runs[id])
      ensures motionlessCount[id] == |tracks.runs[id]| - 1
      ensures stationary[id] <==> motionlessCount[id] >= 1 && motionlessCount[id] >= thresholdFrames
    {
      assert Entry(tracks.runs[id], history[id], motionlessCount[id], stationary[id], thresholdFrames);
      RecentIsLatest(tracks.runs[id]);
    }

    constructor (thresholdFrames: int)
      ensures Valid() && tracks == START && this.thresholdFrames == thresholdFrames
    {
      this.thresholdFrames := thresholdFrames;
      history, motionlessCount, stationary, lastSeen := map[], map[], map[], map[];
      tracks := START;
    }

    method Update(id: int, box: Box, now: real) returns (verdict: Verdict)
      requires Valid()
      modifies this
      ensures Valid()
      ensures tracks == Updated(old(tracks), id, box, now, thresholdFrames)
      ensures lastSeen == old(lastSeen)[id := now]
      ensures var runs := old(tracks.runs);
        tracks.runs == runs[id := if id in runs && Unchanged(runs[id], box, thresholdFrames) then runs[id] + [box] else [box]]
      ensures verdict == VerdictAt(|tracks.runs[id]|, thresholdFrames)
    {
      ghost var next := Next(tracks.runs, id, box, thresholdFrames);
      SummaryUpdated(tracks.runs, history, motionlessCount, stationary, thresholdFrames, id, next,
                     Recent(next), |next| - 1, |next| - 1 >= Needed(thresholdFrames));
      verdict := Classify(id, box);
      lastSeen := lastSeen[id := now];
      tracks := Updated(tracks, id, box, now, thresholdFrames);
    }

    /** update() but for the time: what it does to the other three tables. */
    method Classify(id: int, box: Box) returns (verdict: Verdict)
      requires Summary(tracks.runs, history, motionlessCount, stationary, thresholdFrames)
      modifies `history, `motionlessCount, `stationary
      ensures var next := Next(tracks.runs, id, box, thresholdFrames);
        && history == old(history)[id := Recent(next)]
        && motionlessCount == old(motionlessCount)[id := |next| - 1]
        && stationary == old(stationary)[id := |next| - 1 >= Needed(thresholdFrames)]
        && verdict == VerdictAt(|next|, thresholdFrames)
    {
      if id !in history {
        verdict := MarkActive(id, box);
      } else {
        assert Entry(tracks.runs[id], history[id], motionlessCount[id], stationary[id], thresholdFrames);
        verdict := Judge(id, box, tracks.runs[id]);
      }
    }

    /** The rest of update(), for a track already known. */
    method Judge(id: int, box: Box, ghost run: Run) returns (verdict: Verdict)
      requires id in history && id in motionlessCount && id in stationary
      requires history[id] == Recent(run) && motionlessCount[id] == |run| - 1
      requires stationary[id] <==> motionlessCount[id] >= Needed(thresholdFrames)
      modifies `history, `motionlessCount, `stationary
      ensures var next := if Unchanged(run, box, thresholdFrames) then run + [box] else [box];
        && history == old(history)[id := Recent(next)]
        && motionlessCount == old(motionlessCount)[id := |next| - 1]
        && stationary == old(stationary)[id := |next| - 1 >= Needed(thresholdFrames)]
        && verdict == VerdictAt(|next|, thresholdFrames)
    {
      var recent := history[id] + [box];
      if |recent| > MAX_STATIONARY_HISTORY {
        recent := recent[|recent| - MAX_STATIONARY_HISTORY..];
      }
      history := history[id := recent];
      assert recent == Recent(run + [box]);
      var stays := StaysWith(recent, box, stationary[id]);
      if !stays {
        verdict := MarkActive(id, box);
      } else {
        verdict := CountUnchanged(id);
      }
    }

    /** The two comparisons with the average of the recent boxes. */
    method StaysWith(recent: seq<Box>, box: Box, isStationary: bool) returns (stays: bool)
      requires recent != []
      ensures stays <==> Stays(recent, box, isStationary)
    {
      var iou := IntersectionOverUnion(ToReal(box), AverageBoxes(recent));
      if iou < KNOWN_ACTIVE_IOU {
        return false;
      }
      if iou < if isStationary then STATIONARY_CHECK_IOU else ACTIVE_CHECK_IOU {
        return false;
      }
      return true;
    }

    /** The position is unchanged. */
    method CountUnchanged(id: int) returns (verdict: Verdict)
      requires id in motionlessCount && id in stationary && motionlessCount[id] >= 0
      requires stationary[id] <==> motionlessCount[id] >= Needed(thresholdFrames)
      modifies `motionlessCount, `stationary
      ensures motionlessCount == old(motionlessCount)[id := old(motionlessCount[id]) + 1]
      ensures stationary == old(stationary)[id := old(motionlessCount[id]) + 1 >= Needed(thresholdFrames)]
      ensures verdict == VerdictAt(old(motionlessCount[id]) + 2, thresholdFrames)
    {
      var isStationary := stationary[id];
      motionlessCount := motionlessCount[id := motionlessCount[id] + 1];
      if isStationary {
        return Stationary;
      }
      if motionlessCount[id] >= thresholdFrames {
        stationary := stationary[id := true];
        return BecameStationary;
      }
      return Active;
    }

    method MarkActive(id: int, box: Box) returns (verdict: Verdict)
      modifies `history, `motionlessCount, `stationary
      ensures history == old(history)[id := [box]]
      ensures motionlessCount == old(motionlessCount)[id := 0]
      ensures stationary == old(stationary)[id := false]
      ensures verdict == Active
    {
      history := history[id := [box]];
      motionlessCount := motionlessCount[id := 0];
      stationary := stationary[id := false];
      return Active;
    }

    method Prune(now: real)
      requires Valid()
      modifies this
      ensures Valid()
      ensures tracks == Pruned(old(tracks), now)
      ensures forall id :: id in lastSeen <==> id in old(lastSeen) && old(lastSeen)[id] >= now - 60.0
      ensures forall id | id in lastSeen :: lastSeen[id] == old(lastSeen)[id] && tracks.runs[id] == old(tracks.runs)[id]
    {
      var cutoff := now - TRACK_EXPIRY_SECONDS;
      var stale := set id | id in lastSeen && lastSeen[id] < cutoff;
      assert stale == Stale(tracks, now);
      SummaryRemoved(tracks.runs, history, motionlessCount, stationary, thresholdFrames, stale);
      tracks := Pruned(tracks, now);
      history, motionlessCount := history - stale, motionlessCount - stale;
      stationary, lastSeen := stationary - stale, lastSeen - stale;
    }
  }

  // -------------------------------------------------------------- whole runs

  datatype Op = Update(id: int, box: Box, now: real) | Prune(now: real)

  ghost function Step(t: Tracks, op: Op, threshold: int): Tracks {
    match op
    case Update(id, box, now) => Updated(t, id, box, now, threshold)
    case Prune(now) => Pruned(t, now)
  }

  function Length(t: Tracks, id: int): nat { if id in t.runs then |t.runs[id]| else 0 }

  /** What update() returned for one track over a run of the whole camera. */
  ghost function Verdicts(t: Tracks, ops: seq<Op>, threshold: int, id: int): seq<Verdict>
    decreases |ops|
  {
    if ops == [] then []
    else
      var t' := Step(t, ops[0], threshold);
      var rest := Verdicts(t', ops[1..], threshold, id);
      if ops[0].Update? && ops[0].id == id then [VerdictAt(Length(t', id), threshold)] + rest else rest
  }

  /** One episode of n updates: as many active verdicts as the threshold says,
      then became_stationary once, then stationary to the end. */
  function Episode(n: nat, threshold: int): seq<Verdict> {
    seq(n, i requires i >= 0 => VerdictAt(i + 1, threshold))
  }

  function Episodes(lengths: seq<nat>, threshold: int): seq<Verdict> {
    if lengths == [] then [] else Episode(lengths[0], threshold) + Episodes(lengths[1..], threshold)
  }

  lemma EpisodeGrows(n: nat, threshold: int, rest: seq<Verdict>)
    ensures Episode(n, threshold) + ([VerdictAt(n + 1, threshold)] + rest) == Episode(n + 1, threshold) + rest
  {
  }

  lemma StepLength(t: Tracks, op: Op, threshold: int, id: int)
    ensures var n, n' := Length(t, id), Length(Step(t, op, threshold), id);
      if op.Update? && op.id == id then n' == n + 1 || n' == 1 else n' == n || n' == 0
  {
  }

  /** A track starting over begins a new episode. */
  lemma EpisodeStarts(n: nat, threshold: int, rest: seq<Verdict>, lengths: seq<nat>)
    requires rest == Episodes(lengths, threshold)
    ensures Episode(n, threshold) + rest == Episodes([n] + lengths, threshold)
    ensures Episode(0, threshold) + rest == rest
  {
    assert ([n] + lengths)[1..] == lengths;
  }

  /** Continuing from a state in which the track is n updates into an episode. */
  lemma {:induction false} VerdictsContinue(t: Tracks, ops: seq<Op>, threshold: int, id: int) returns (lengths: seq<nat>)
    ensures Episode(Length(t, id), threshold) + Verdicts(t, ops, threshold, id) == Episodes(lengths, threshold)
    ensures forall i | 0 <= i < |lengths| :: lengths[i] >= 1
    ensures Length(t, id) > 0 ==> lengths != [] && lengths[0] >= Length(t, id)
    decreases |ops|
  {
    var n := Length(t, id);
    if ops == [] {
      return if n == 0 then [] else [n];
    }
    var t' := Step(t, ops[0], threshold);
    var n', rest := Length(t', id), Verdicts(t', ops[1..], threshold, id);
    lengths := VerdictsContinue(t', ops[1..], threshold, id);
    StepLength(t, ops[0], threshold, id);
    if ops[0].Update? && ops[0].id == id {
      EpisodeGrows(n' - 1, threshold, rest);
      if n' != n + 1 {
        EpisodeStarts(n, threshold, [VerdictAt(1, threshold)] + rest, lengths);
        lengths := [n] + lengths;
      }
    } else if n' != n {
      EpisodeStarts(n, threshold, rest, lengths);
      lengths := [n] + lengths;
    }
  }

  /** Every track's verdicts over any run of any camera are whole episodes: each
      reports became_stationary at most once, exactly when it outlasts the
      threshold, and stationary only after that. */
  lemma VerdictsAreEpisodes(ops: seq<Op>, threshold: int, id: int) returns (lengths: seq<nat>)
    ensures Verdicts(START, ops, threshold, id) == Episodes(lengths, threshold)
    ensures forall i | 0 <= i < |lengths| :: lengths[i] >= 1
  {
    lengths := VerdictsContinue(START, ops, threshold, id);
    assert Episode(0, threshold) == [];
  }

  ghost function After(t: Tracks, ops: seq<Op>, threshold: int): Tracks
    decreases |ops|
  {
    if ops == [] then t else After(Step(t, ops[0], threshold), ops[1..], threshold)
  }

  /** Every box of the run but the first stayed with the average before it. */
  ghost predicate Steady(run: Run, threshold: int) {
    forall k | 1 <= k < |run| :: Unchanged(run[..k], run[k], threshold)
  }

  ghost predicate AllSteady(t: Tracks, threshold: int) {
    forall id | id in t.runs :: Steady(t.runs[id], threshold)
  }

  lemma SteadyExtended(run: Run, box: Box, threshold: int)
    requires Steady(run, threshold) && Unchanged(run, box, threshold)
    ensures Steady(run + [box], threshold)
  {
    var longer: Run := run + [box];
    forall k | 1 <= k < |longer| ensures Unchanged(longer[..k], longer[k], threshold) {
      assert longer[..k] == if k < |run| then run[..k] else run;
    }
  }

  lemma {:induction false} RunsStaySteady(t: Tracks, ops: seq<Op>, threshold: int)
    requires AllSteady(t, threshold)
    ensures AllSteady(After(t, ops, threshold), threshold)
    decreases |ops|
  {
    if ops != [] {
      if ops[0].Update? && ops[0].id in t.runs && Unchanged(t.runs[ops[0].id], ops[0].box, threshold) {
        SteadyExtended(t.runs[ops[0].id], ops[0].box, threshold);
      }
      RunsStaySteady(Step(t, ops[0], threshold), ops[1..], threshold);
    }
  }

  // ------------------------------------------------- what a verdict rests on

  /** The boxes reported for a track. */
  function Given(ops: seq<Op>, id: int): seq<Box> {
    if ops == [] then [] else Fed(ops[0], id) + Given(ops[1..], id)
  }

  function Fed(op: Op, id: int): seq<Box> { if op.Update? && op.id == id then [op.box] else [] }

  predicate IsSuffix(a: seq<Box>, b: seq<Box>) { |a| <= |b| && b[|b| - |a|..] == a }

  ghost predicate KeptOf(t: Tracks, id: int, given: seq<Box>) { id in t.runs ==> IsSuffix(t.runs[id], given) }

  lemma KeptStep(t: Tracks, op: Op, threshold: int, id: int, before: seq<Box>)
    requires KeptOf(t, id, before)
    ensures KeptOf(Step(t, op, threshold), id, before + Fed(op, id))
  {
    if op.Update? && op.id == id {
      SuffixGrows(if id in t.runs then t.runs[id] else [], before, op.box);
      SuffixGrows([], before, op.box);
      assert [] + [op.box] == [op.box];
    } else {
      assert before + [] == before;
    }
  }

  lemma SuffixGrows(a: seq<Box>, b: seq<Box>, box: Box)
    requires IsSuffix(a, b)
    ensures IsSuffix(a + [box], b + [box])
  {
    assert (b + [box])[|b| - |a|..] == b[|b| - |a|..] + [box];
  }

  /** The run kept for a track is the latest of its boxes. */
  lemma {:induction false} RunIsGiven(t: Tracks, before: seq<Box>, ops: seq<Op>, threshold: int, id: int)
    requires KeptOf(t, id, before)
    ensures KeptOf(After(t, ops, threshold), id, before + Given(ops, id))
    decreases |ops|
  {
    if ops == [] {
      assert before + [] == before;
    } else {
      KeptStep(t, ops[0], threshold, id, before);
      RunIsGiven(Step(t, ops[0], threshold), before + Fed(ops[0], id), ops[1..], threshold, id);
      Regroup(before, Fed(ops[0], id), Given(ops[1..], id));
    }
  }

  /** What update() answers at one place of a run of the camera. */
  ghost function Answer(ops: seq<Op>, k: nat, threshold: int): Verdict
    requires k < |ops| && ops[k].Update?
  {
    VerdictAt(Length(After(START, ops[..k + 1], threshold), ops[k].id), threshold)
  }

  /** It is the track's verdict for that update, in the list of all of them. */
  lemma {:induction false} VerdictOfUpdate(t: Tracks, ops: seq<Op>, k: nat, threshold: int, id: int)
    requires k < |ops| && ops[k].Update? && ops[k].id == id
    ensures var n, vs := |Given(ops[..k], id)|, Verdicts(t, ops, threshold, id);
      n < |vs| && vs[n] == VerdictAt(Length(After(t, ops[..k + 1], threshold), id), threshold)
    decreases |ops|
  {
    var t' := Step(t, ops[0], threshold);
    FirstStep(t, ops, k + 1, threshold);
    if k == 0 {
      assert ops[1..][..0] == [];
    } else {
      VerdictOfUpdate(t', ops[1..], k - 1, threshold, id);
      FirstGiven(ops, k, id);
      assert Verdicts(t, ops, threshold, id) == Told(t', ops[0], threshold, id) + Verdicts(t', ops[1..], threshold, id);
    }
  }

  /** What update() tells of the track in one step. */
  ghost function Told(t': Tracks, op: Op, threshold: int, id: int): seq<Verdict> {
    if op.Update? && op.id == id then [VerdictAt(Length(t', id), threshold)] else []
  }

  lemma FirstStep(t: Tracks, ops: seq<Op>, n: nat, threshold: int)
    requires 1 <= n <= |ops|
    ensures After(t, ops[..n], threshold) == After(Step(t, ops[0], threshold), ops[1..][..n - 1], threshold)
  {
    assert ops[..n][1..] == ops[1..][..n - 1];
  }

  lemma FirstGiven(ops: seq<Op>, n: nat, id: int)
    requires 1 <= n <= |ops|
    ensures Given(ops[..n], id) == Fed(ops[0], id) + Given(ops[1..][..n - 1], id)
  {
    assert ops[..n][1..] == ops[1..][..n - 1];
  }

  lemma AnswerIsVerdict(ops: seq<Op>, k: nat, threshold: int)
    requires k < |ops| && ops[k].Update?
    ensures var n, vs := |Given(ops[..k], ops[k].id)|, Verdicts(START, ops, threshold, ops[k].id);
      n < |vs| && vs[n] == Answer(ops, k, threshold)
  {
    VerdictOfUpdate(START, ops, k, threshold, ops[k].id);
  }

  /** The last n of these boxes each stayed with the average, counting from the
      one before them. */
  ghost predicate LastUnchanged(given: seq<Box>, n: nat, threshold: int) {
    |given| > n && Steady(given[|given| - n - 1..], threshold)
  }

  lemma RunIsEvidence(run: Run, given: seq<Box>, threshold: int)
    requires IsSuffix(run, given) && Steady(run, threshold)
    ensures LastUnchanged(given, |run| - 1, threshold)
  {
  }

  /** A verdict counts real evidence: a track is called stationary only after at
      least the threshold of unchanged updates in a row, and became_stationary
      after exactly that many since its reset. */
  lemma VerdictNeedsEvidence(ops: seq<Op>, k: nat, threshold: int) returns (n: nat)
    requires k < |ops| && ops[k].Update?
    ensures LastUnchanged(Given(ops[..k + 1], ops[k].id), n, threshold)
    ensures n == Length(After(START, ops[..k + 1], threshold), ops[k].id) - 1
    ensures Answer(ops, k, threshold) == BecameStationary <==> n == if threshold < 1 then 1 else threshold
    ensures Answer(ops, k, threshold) == Stationary <==> n > if threshold < 1 then 1 else threshold
  {
    var id, t, given := ops[k].id, After(START, ops[..k + 1], threshold), Given(ops[..k + 1], ops[k].id);
    AfterUpdate(ops, k, threshold);
    RunIsGiven(START, [], ops[..k + 1], threshold, id);
    RunsStaySteady(START, ops[..k + 1], threshold);
    assert [] + given == given;
    RunIsEvidence(t.runs[id], given, threshold);
    n := |t.runs[id]| - 1;
  }

  lemma AfterUpdate(ops: seq<Op>, k: nat, threshold: int)
    requires k < |ops| && ops[k].Update?
    ensures ops[k].id in After(START, ops[..k + 1], threshold).runs
  {
    AfterSnoc(START, ops[..k], ops[k], threshold);
    assert ops[..k] + [ops[k]] == ops[..k + 1];
  }

  lemma {:induction false} AfterSnoc(t: Tracks, ops: seq<Op>, op: Op, threshold: int)
    ensures After(t, ops + [op], threshold) == Step(After(t, ops, threshold), op, threshold)
    decreases |ops|
  {
    if ops == [] {
      assert ops + [op] == [op];
    } else {
      assert (ops + [op])[1..] == ops[1..] + [op];
      AfterSnoc(Step(t, ops[0], threshold), ops[1..], op, threshold);
    }
  }

  /** One operation of a camera, and what update() answers. */
  method Apply(s: StationarySuppressor, op: Op) returns (answer: Option<Verdict>)
    requires s.Valid()
    modifies s
    ensures s.Valid() && s.tracks == Step(old(s.tracks), op, s.thresholdFrames)
    ensures answer == if op.Update? then Some(VerdictAt(Length(s.tracks, op.id), s.thresholdFrames)) else None
  {
    match op {
      case Update(id, box, now) =>
        var verdict := s.Update(id, box, now);
        answer := Some(verdict);
      case Prune(now) =>
        s.Prune(now);
        answer := None;
    }
  }

  /** Any run of a camera: every answer is the one its place in the run calls for,
      and at the end the history of each track holds the last boxes given for it,
      as many as it has kept since the last reset, ten at most. */
  method Replay(threshold: int, ops: seq<Op>)
    returns (answers: seq<Option<Verdict>>, history: map<int, seq<Box>>, counts: map<int, int>)
    ensures |answers| == |ops|
    ensures forall k | 0 <= k < |ops| :: answers[k] == if ops[k].Update? then Some(Answer(ops, k, threshold)) else None
    ensures history.Keys == counts.Keys == After(START, ops, threshold).runs.Keys
    ensures forall id | id in history :: HeldOf(history[id], counts[id], Given(ops, id))
  {
    var s := new StationarySuppressor(threshold);
    answers := [];
    for k := 0 to |ops|
      invariant s.Valid() && fresh(s) && s.thresholdFrames == threshold
      invariant s.tracks == After(START, ops[..k], threshold) && |answers| == k
      invariant forall i | 0 <= i < k :: answers[i] == if ops[i].Update? then Some(Answer(ops, i, threshold)) else None
    {
      AfterSnoc(START, ops[..k], ops[k], threshold);
      assert ops[..k] + [ops[k]] == ops[..k + 1];
      var answer := Apply(s, ops[k]);
      answers := answers + [answer];
    }
    assert ops[..|ops|] == ops;
    history, counts := s.history, s.motionlessCount;
    forall id | id in history ensures HeldOf(history[id], counts[id], Given(ops, id)) {
      s.TablesExact(id);
      RunIsGiven(START, [], ops, threshold, id);
      assert [] + Given(ops, id) == Given(ops, id);
      LatestOfSuffix(history[id], s.tracks.runs[id], Given(ops, id));
    }
  }

  /** The history is the last of the boxes given, count + 1 of them up to ten. */
  ghost predicate HeldOf(h: seq<Box>, count: int, given: seq<Box>) {
    0 <= count < |given| && |h| == (if count + 1 < 10 then count + 1 else 10) && h == given[|given| - |h|..]
  }

  lemma LatestOfSuffix(h: seq<Box>, run: Run, given: seq<Box>)
    requires Latest(h, run) && IsSuffix(run, given)
    ensures HeldOf(h, |run| - 1, given)
  {
  }

  // ------------------------------------------------------- an object at rest

  lemma CopiesUnchanged(run: Run, box: Box, threshold: int)
    requires forall i | 0 <= i < |run| :: run[i] == box
    ensures Unchanged(run, box, threshold) <==> PositiveArea(ToReal(box))
  {
    AverageOfCopies(Recent(run + [box]), box);
    SelfOverlap(ToReal(box));
  }

  /** All updates of the track carry this box, and no prune finds it expired. */
  ghost predicate Resting(t: Tracks, ops: seq<Op>, threshold: int, id: int, box: Box)
    decreases |ops|
  {
    ops == [] || (
      && (match ops[0]
          case Update(i, b, _) => i == id ==> b == box
          case Prune(now) => id !in Stale(t, now))
      && Resting(Step(t, ops[0], threshold), ops[1..], threshold, id, box))
  }

  /** The table entries that prune() relies on. */
  ghost predicate SameKeys(t: Tracks) { t.runs.Keys == t.lastSeen.Keys }

  /** One step of a resting track lengthens its run by one copy if the box has
      area; otherwise every update resets it. */
  lemma RestingStep(t: Tracks, op: Op, threshold: int, id: int, box: Box)
    requires SameKeys(t) && Copies(t, id, box)
    requires op.Update? && op.id == id ==> op.box == box
    requires op.Prune? ==> id !in Stale(t, op.now)
    ensures var t' := Step(t, op, threshold);
      && SameKeys(t') && Copies(t', id, box)
      && Length(t', id) == if op.Prune? || op.id != id then Length(t, id)
                           else if PositiveArea(ToReal(box)) then Length(t, id) + 1
                           else 1
  {
    if op.Update? && op.id == id && id in t.runs {
      CopiesUnchanged(t.runs[id], box, threshold);
    }
  }

  ghost predicate Copies(t: Tracks, id: int, box: Box) {
    id in t.runs ==> forall i | 0 <= i < |t.runs[id]| :: t.runs[id][i] == box
  }

  /** The verdicts of a resting track that is n updates into its episode. */
  predicate AtRest(vs: seq<Verdict>, n: nat, hasArea: bool, threshold: int) {
    var needed := if threshold < 1 then 1 else threshold;
    forall i | 0 <= i < |vs| :: vs[i] ==
      if !hasArea || n + i + 1 <= needed then Active
      else if n + i + 1 == needed + 1 then BecameStationary
      else Stationary
  }

  lemma AtRestCons(rest: seq<Verdict>, n: nat, hasArea: bool, threshold: int)
    requires AtRest(rest, if hasArea then n + 1 else 1, hasArea, threshold)
    ensures AtRest([if hasArea then VerdictAt(n + 1, threshold) else VerdictAt(1, threshold)] + rest, n, hasArea, threshold)
  {
  }

  /** A track that keeps repeating one box is active for exactly the threshold,
      became_stationary on the next update and stationary ever after; a box
      without area is never stationary. */
  lemma {:induction false} RestingVerdicts(t: Tracks, ops: seq<Op>, threshold: int, id: int, box: Box)
    requires SameKeys(t) && Copies(t, id, box)
    requires Resting(t, ops, threshold, id, box)
    ensures AtRest(Verdicts(t, ops, threshold, id), Length(t, id), PositiveArea(ToReal(box)), threshold)
    decreases |ops|
  {
    if ops != [] {
      RestingStep(t, ops[0], threshold, id, box);
      var t' := Step(t, ops[0], threshold);
      RestingVerdicts(t', ops[1..], threshold, id, box);
      if ops[0].Update? && ops[0].id == id {
        AtRestCons(Verdicts(t', ops[1..], threshold, id), Length(t, id), PositiveArea(ToReal(box)), threshold);
      }
    }
  }
}
