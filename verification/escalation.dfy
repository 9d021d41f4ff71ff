/**
 * The escalation engine (package escalation): a level from LOW to
 * CRITICAL that rises as soon as any trigger of a higher level fires,
 * straight to the highest such level, and falls one level at a time only
 * after three consecutive calm evaluations. Every change is recorded in a
 * bounded history and pushed to the data plane's config key 16, where
 * the threat-intelligence and GeoIP modules read it.
 *
 * Rates, ratios and z-scores are Go float64 values; they are modelled as
 * reals. The wall clock is a parameter, the BPF map update's success is
 * an input, and the callbacks are reported as notices instead of being
 * started.
 */
module Escalation {
  import opened Wrappers
  import opened Ints
  import opened Text
  import opened BpfTypes
  import ThreatIntel
  import opened BoundedLog

  const LOW: int := 0
  const MEDIUM: int := 1
  const HIGH: int := 2
  const CRITICAL: int := 3

  /** How many consecutive calm evaluations a step down needs. */
  const HYSTERESIS: int := 3

  /** How many history events are kept. */
  const MAX_HISTORY: nat := 1000

  // ---- Level names ----

  /** Level.String: the four names, and UNKNOWN(n) for any other value. */
  function LevelName(l: int): (s: string)
    ensures LOW <= l <= CRITICAL ==> '(' !in s
    ensures !(LOW <= l <= CRITICAL) ==> s == "UNKNOWN(" + Decimal(l) + ")" && s[7] == '('
  {
    if l == LOW then "LOW"
    else if l == MEDIUM then "MEDIUM"
    else if l == HIGH then "HIGH"
    else if l == CRITICAL then "CRITICAL"
    else "UNKNOWN(" + Decimal(l) + ")"
  }

  /** Different levels (of Go's 64-bit int) have different names. */
  lemma LevelNameInjective(a: int, b: int)
    requires INT64_MIN <= a <= INT64_MAX && INT64_MIN <= b <= INT64_MAX
    requires LevelName(a) == LevelName(b)
    ensures a == b
  {
    if !(LOW <= a <= CRITICAL) && !(LOW <= b <= CRITICAL) {
      var s := LevelName(a);
      assert s[8..|s| - 1] == Decimal(a);
      assert s[8..|s| - 1] == Decimal(b);
      DecimalInjective(a, b);
    }
  }

  // ---- Thresholds ----

  /** The indicators one evaluation is given. */
  datatype Metrics = Metrics(rxPps: real, dropPps: real, dropRatio: real, zScore: real, reputationBlocked: int)

  /** The four triggers, in the order the engine lists them. */
  datatype TriggerKind = DropRatio | ZScore | ReputationBlocked | DropPps

  const KINDS: seq<TriggerKind> := [DropRatio, ZScore, ReputationBlocked, DropPps]

  /** What it takes to rise to a level; a zero entry never fires. */
  datatype UpThresholds = UpThresholds(dropRatio: real, zScore: real, reputationBlocked: int, dropPps: real)

  function UpThreshold(target: int): (t: UpThresholds)
    requires MEDIUM <= target <= CRITICAL
  {
    if target == MEDIUM then UpThresholds(0.10, 2.0, 0, 0.0)
    else if target == HIGH then UpThresholds(0.30, 3.0, 100, 0.0)
    else UpThresholds(0.50, 5.0, 0, 500000.0)
  }

  /** What every evaluation must stay under, on the way down to a level. */
  datatype DownThresholds = DownThresholds(dropRatio: real, zScore: real)

  function DownThreshold(target: int): (t: DownThresholds)
    requires LOW <= target <= HIGH
  {
    if target == LOW then DownThresholds(0.05, 1.0)
    else if target == MEDIUM then DownThresholds(0.15, 1.5)
    else DownThresholds(0.25, 2.5)
  }

  /** Every threshold for leaving a level lies below the one for entering it. */
  lemma HysteresisGap(target: int)
    requires LOW <= target <= HIGH
    ensures DownThreshold(target).dropRatio < UpThreshold(target + 1).dropRatio
    ensures DownThreshold(target).zScore < UpThreshold(target + 1).zScore
  {
  }

  /** The threshold one trigger compares against, at a level. */
  function ThresholdOf(k: TriggerKind, target: int): (x: real)
    requires MEDIUM <= target <= CRITICAL
  {
    var t := UpThreshold(target);
    match k
    case DropRatio => t.dropRatio
    case ZScore => t.zScore
    case ReputationBlocked => t.reputationBlocked as real
    case DropPps => t.dropPps
  }

  /** A trigger fires for a level: its threshold there is nonzero and strictly exceeded. */
  predicate FiresAt(k: TriggerKind, target: int, m: Metrics)
    requires MEDIUM <= target <= CRITICAL
  {
    var t := UpThreshold(target);
    match k
    case DropRatio => m.dropRatio > t.dropRatio && t.dropRatio > 0.0
    case ZScore => m.zScore > t.zScore && t.zScore > 0.0
    case ReputationBlocked => t.reputationBlocked > 0 && m.reputationBlocked > t.reputationBlocked
    case DropPps => t.dropPps > 0.0 && m.dropPps > t.dropPps
  }

  /** Some trigger of the level fires. */
  predicate Triggered(target: int, m: Metrics)
    requires MEDIUM <= target <= CRITICAL
  {
    FiresAt(DropRatio, target, m) || FiresAt(ZScore, target, m)
    || FiresAt(ReputationBlocked, target, m) || FiresAt(DropPps, target, m)
  }

  /** The highest level from `from` up to CRITICAL that is triggered, if any. */
  function HighestTriggered(from: int, m: Metrics): (r: Option<int>)
    requires MEDIUM <= from <= CRITICAL + 1
    ensures r.Some? ==> (from <= r.value <= CRITICAL && Triggered(r.value, m)
                         && forall u :: r.value < u <= CRITICAL ==> !Triggered(u, m))
    ensures r.None? ==> forall u :: from <= u <= CRITICAL ==> !Triggered(u, m)
    decreases CRITICAL + 1 - from
  {
    if from > CRITICAL then None
    else
      var above := HighestTriggered(from + 1, m);
      if above.Some? then above
      else if Triggered(from, m) then Some(from)
      else None
  }

  /** The highest level from `from` up to CRITICAL at which one trigger fires, if any. */
  function HighestFiring(k: TriggerKind, from: int, m: Metrics): (r: Option<int>)
    requires MEDIUM <= from <= CRITICAL + 1
    ensures r.Some? ==> (from <= r.value <= CRITICAL && FiresAt(k, r.value, m)
                         && forall u :: r.value < u <= CRITICAL ==> !FiresAt(k, u, m))
    ensures r.None? ==> forall u :: from <= u <= CRITICAL ==> !FiresAt(k, u, m)
    decreases CRITICAL + 1 - from
  {
    if from > CRITICAL then None
    else
      var above := HighestFiring(k, from + 1, m);
      if above.Some? then above
      else if FiresAt(k, from, m) then Some(from)
      else None
  }

  // ---- Triggers and the upward scan ----

  /** A trigger's state after an evaluation: its indicator, the threshold it was compared with, and whether it fired. */
  datatype Trigger = Trigger(kind: TriggerKind, current: real, threshold: real, active: bool)

  /** The four triggers as each evaluation first builds them: current values, nothing active. */
  function InitialTriggers(m: Metrics): (ts: seq<Trigger>)
    ensures |ts| == 4 && forall i :: 0 <= i < 4 ==> ts[i].kind == KINDS[i] && !ts[i].active && ts[i].threshold == 0.0
  {
    [Trigger(DropRatio, m.dropRatio, 0.0, false), Trigger(ZScore, m.zScore, 0.0, false),
     Trigger(ReputationBlocked, m.reputationBlocked as real, 0.0, false), Trigger(DropPps, m.dropPps, 0.0, false)]
  }

  /** setTriggerActive: marks the trigger of that kind active with that threshold. */
  function SetTriggerActive(ts: seq<Trigger>, k: TriggerKind, threshold: real): (r: seq<Trigger>)
    ensures |r| == |ts|
    ensures forall i :: 0 <= i < |ts| ==>
      r[i] == if ts[i].kind == k then ts[i].(active := true, threshold := threshold) else ts[i]
  {
    seq(|ts|, i requires 0 <= i < |ts| => if ts[i].kind == k then ts[i].(active := true, threshold := threshold) else ts[i])
  }

  /** The level reached so far and the trigger list. */
  datatype Scan = Scan(level: int, triggers: seq<Trigger>)

  /** One pass of the upward loop: each firing trigger is marked, and a fired level becomes the candidate. */
  function ScanStep(target: int, m: Metrics, s: Scan): (r: Scan)
    requires MEDIUM <= target <= CRITICAL
    ensures r.level == if Triggered(target, m) then target else s.level
    ensures |r.triggers| == |s.triggers|
    ensures forall i :: 0 <= i < |s.triggers| ==>
      r.triggers[i] == if FiresAt(s.triggers[i].kind, target, m)
                       then s.triggers[i].(active := true, threshold := ThresholdOf(s.triggers[i].kind, target))
                       else s.triggers[i]
  {
    var ts0 := s.triggers;
    var ts1 := if FiresAt(DropRatio, target, m) then SetTriggerActive(ts0, DropRatio, ThresholdOf(DropRatio, target)) else ts0;
    var ts2 := if FiresAt(ZScore, target, m) then SetTriggerActive(ts1, ZScore, ThresholdOf(ZScore, target)) else ts1;
    var ts3 := if FiresAt(ReputationBlocked, target, m) then SetTriggerActive(ts2, ReputationBlocked, ThresholdOf(ReputationBlocked, target)) else ts2;
    var ts4 := if FiresAt(DropPps, target, m) then SetTriggerActive(ts3, DropPps, ThresholdOf(DropPps, target)) else ts3;
    Scan(if Triggered(target, m) then target else s.level, ts4)
  }

  /** What the scan leaves in one trigger: marked with its highest firing level's threshold, or untouched. */
  function Marked(t: Trigger, from: int, m: Metrics): (r: Trigger)
    requires MEDIUM <= from <= CRITICAL + 1
  {
    match HighestFiring(t.kind, from, m)
    case None => t
    case Some(h) => t.(active := true, threshold := ThresholdOf(t.kind, h))
  }

  /** Marking from the next level on, after this level's step, is marking from this level on. */
  lemma MarkedStep(ts: seq<Trigger>, ts': seq<Trigger>, target: int, m: Metrics)
    requires MEDIUM <= target <= CRITICAL
    requires |ts'| == |ts|
    requires forall i :: 0 <= i < |ts| ==>
      ts'[i] == if FiresAt(ts[i].kind, target, m)
                then ts[i].(active := true, threshold := ThresholdOf(ts[i].kind, target))
                else ts[i]
    ensures forall i :: 0 <= i < |ts| ==> Marked(ts'[i], target + 1, m) == Marked(ts[i], target, m)
  {
    forall i | 0 <= i < |ts|
      ensures Marked(ts'[i], target + 1, m) == Marked(ts[i], target, m)
    {
      var k := ts[i].kind;
      assert ts'[i].kind == k;
    }
  }

  /**
   * The upward loop of Evaluate, from `target` to CRITICAL: the candidate
   * becomes the highest triggered level, and each trigger ends up marked
   * with the threshold of the highest level at which it fired.
   */
  function ScanUp(target: int, m: Metrics, s: Scan): (r: Scan)
    requires MEDIUM <= target <= CRITICAL + 1
    ensures r.level == (match HighestTriggered(target, m) case Some(h) => h case None => s.level)
    ensures |r.triggers| == |s.triggers|
    ensures forall i :: 0 <= i < |s.triggers| ==> r.triggers[i] == Marked(s.triggers[i], target, m)
    decreases CRITICAL + 1 - target
  {
    if target > CRITICAL then s
    else
      var s' := ScanStep(target, m, s);
      MarkedStep(s.triggers, s'.triggers, target, m);
      ScanUp(target + 1, m, s')
  }

  // ---- The engine ----

  /** Why a history event happened. */
  datatype Reason =
    | Escalated(active: seq<Trigger>)
    | Deescalated(consecutive: int)
    | ManualOverride

  datatype HistoryEvent = HistoryEvent(timestamp: int, from: int, to: int, reason: Reason, triggers: seq<Trigger>)

  /** The engine's state; the two flags say whether the callbacks are registered. */
  datatype Engine = Engine(
    level: int,
    history: seq<HistoryEvent>,
    triggers: seq<Trigger>,
    streak: int,
    onCritical: bool,
    onDeescalate: bool)

  /** The callbacks an evaluation starts. */
  datatype Notice = CriticalReached | DeescalatedTo(level: int)

  /**
   * The engine's invariant: a level in LOW..CRITICAL, a calm streak below
   * three and zero at LOW, and at most 1000 history events.
   */
  predicate Valid(e: Engine)
  {
    && LOW <= e.level <= CRITICAL
    && 0 <= e.streak < HYSTERESIS
    && (e.level == LOW ==> e.streak == 0)
    && |e.history| <= MAX_HISTORY
  }

  /** NewEngine: LOW, nothing recorded, no callbacks. */
  function NewEngine(): (e: Engine)
    ensures Valid(e) && e.level == LOW && e.history == []
  {
    Engine(LOW, [], [], 0, false, false)
  }

  /** appendHistory: the event goes last and only the newest 1000 are kept. */
  function AppendHistory(h: seq<HistoryEvent>, ev: HistoryEvent): (r: seq<HistoryEvent>)
    ensures 1 <= |r| <= MAX_HISTORY && r[|r| - 1] == ev
    ensures |h| < MAX_HISTORY ==> r == h + [ev]
    ensures r[..|r| - 1] == h[|h| + 1 - |r|..]
  {
    AppendBelowBoundIfShort(h, ev, MAX_HISTORY);
    AppendNewest(h, ev, MAX_HISTORY)
  }

  /** pushLevel: config key 16 takes the level, unless the map update fails. */
  function PushLevel(cfg: Config, level: int, ok: bool): (r: Config)
    requires LOW <= level <= CRITICAL
    ensures ok ==> GetConfig(r, CFG_ESCALATION_LEVEL) == level
    ensures forall k :: k != CFG_ESCALATION_LEVEL ==> GetConfig(r, k) == GetConfig(cfg, k)
    ensures !ok ==> r == cfg
  {
    if ok then cfg[CFG_ESCALATION_LEVEL := level as u64] else cfg
  }

  /** The next evaluation's candidate is calm enough for a step down to `target`. */
  predicate Calm(target: int, m: Metrics)
    requires LOW <= target <= HIGH
  {
    m.dropRatio < DownThreshold(target).dropRatio && m.zScore < DownThreshold(target).zScore
  }

  datatype EvalResult = EvalResult(engine: Engine, cfg: Config, notices: seq<Notice>)

  /** The triggers that fired, in list order: what the escalation reason names. */
  function ActiveTriggers(ts: seq<Trigger>): (r: seq<Trigger>)
    ensures forall t :: t in r <==> t in ts && t.active
  {
    if |ts| == 0 then []
    else (if ts[0].active then [ts[0]] else []) + ActiveTriggers(ts[1..])
  }

  /** The level and streak one evaluation leads to. */
  datatype Step = Step(level: int, streak: int)

  /**
   * The rule Evaluate follows, stated over the highest triggered level
   * instead of the upward loop. If some trigger of a higher level fires,
   * the level jumps to the highest such level and the streak restarts.
   * Otherwise, above LOW, a calm evaluation extends the streak and any
   * other resets it, and the third calm evaluation in a row drops exactly
   * one level.
   */
  function NextStep(e: Engine, m: Metrics): (r: Step)
    requires Valid(e)
    ensures LOW <= r.level <= CRITICAL && 0 <= r.streak < HYSTERESIS && (r.level == LOW ==> r.streak == 0)
    ensures r.level > e.level <==> HighestTriggered(e.level + 1, m).Some?
    ensures r.level > e.level ==> (r.streak == 0 && Triggered(r.level, m)
                                   && forall u :: r.level < u <= CRITICAL ==> !Triggered(u, m))
    ensures r.level < e.level ==> r.level == e.level - 1 && e.streak == HYSTERESIS - 1 && Calm(e.level - 1, m)
    ensures HighestTriggered(e.level + 1, m).None? && e.level > LOW && !Calm(e.level - 1, m) ==>
      r.level == e.level && r.streak == 0
    ensures HighestTriggered(e.level + 1, m).None? && e.level > LOW && Calm(e.level - 1, m) ==>
      (if e.streak + 1 < HYSTERESIS then r == Step(e.level, e.streak + 1) else r == Step(e.level - 1, 0))
    ensures HighestTriggered(e.level + 1, m).None? && e.level == LOW ==> r == Step(LOW, 0)
  {
    match HighestTriggered(e.level + 1, m)
    case Some(h) => Step(h, 0)
    case None =>
      if e.level == LOW then Step(LOW, 0)
      else if !Calm(e.level - 1, m) then Step(e.level, 0)
      else if e.streak + 1 < HYSTERESIS then Step(e.level, e.streak + 1)
      else Step(e.level - 1, 0)
  }

  /**
   * The engine after one evaluation: the upward loop, then the decision.
   * The level and streak are those NextStep gives, and a change of level
   * appends one event from the old level to the new.
   */
  function Advance(e: Engine, m: Metrics, now: int): (e': Engine)
    requires Valid(e)
    ensures Valid(e')
    ensures Step(e'.level, e'.streak) == NextStep(e, m)
    ensures e'.level == e.level ==> e'.history == e.history
    ensures e'.level != e.level ==>
      |e'.history| > 0
      && e'.history == AppendHistory(e.history, e'.history[|e'.history| - 1])
      && e'.history[|e'.history| - 1].from == e.level
      && e'.history[|e'.history| - 1].to == e'.level
    ensures e'.onCritical == e.onCritical && e'.onDeescalate == e.onDeescalate
  {
    var scan := ScanUp(e.level + 1, m, Scan(e.level, InitialTriggers(m)));
    var st := Decide(e, scan.level, m);
    var reason := if st.level > e.level then Escalated(ActiveTriggers(scan.triggers)) else Deescalated(HYSTERESIS);
    var ev := HistoryEvent(now, e.level, st.level, reason, scan.triggers);
    e.(level := st.level, streak := st.streak, triggers := scan.triggers,
       history := if st.level != e.level then AppendHistory(e.history, ev) else e.history)
  }

  /**
   * Evaluate: the history, the pushed config key and the callbacks change
   * exactly when the level does: one event from the old level to the
   * new, one push of the new level, and CRITICAL or de-escalation
   * callbacks when those are registered.
   */
  function Evaluate(e: Engine, m: Metrics, now: int, cfg: Config, pushOk: bool): (r: EvalResult)
    requires Valid(e)
    ensures Valid(r.engine)
    ensures Step(r.engine.level, r.engine.streak) == NextStep(e, m)
    ensures r.engine.level == e.level ==> r.engine.history == e.history && r.cfg == cfg && r.notices == []
    ensures r.engine.level != e.level ==>
      |r.engine.history| > 0
      && r.engine.history == AppendHistory(e.history, r.engine.history[|r.engine.history| - 1])
      && r.engine.history[|r.engine.history| - 1].from == e.level
      && r.engine.history[|r.engine.history| - 1].to == r.engine.level
      && r.cfg == PushLevel(cfg, r.engine.level, pushOk)
    ensures r.notices == if r.engine.level == CRITICAL && e.level < CRITICAL && e.onCritical then [CriticalReached]
                         else if r.engine.level < e.level && e.onDeescalate then [DeescalatedTo(r.engine.level)]
                         else []
    ensures r.engine.onCritical == e.onCritical && r.engine.onDeescalate == e.onDeescalate
  {
    var e' := Advance(e, m, now);
    EvalResult(e', if e'.level != e.level then PushLevel(cfg, e'.level, pushOk) else cfg, Notices(e, e'.level))
  }

  /**
   * The decision after the upward loop: the loop's candidate if it is
   * above the current level; otherwise the streak rule.
   */
  function Decide(e: Engine, candidate: int, m: Metrics): (r: Step)
    requires Valid(e) && e.level <= candidate <= CRITICAL
    requires candidate == (match HighestTriggered(e.level + 1, m) case Some(h) => h case None => e.level)
    ensures r == NextStep(e, m)
  {
    if candidate > e.level then Step(candidate, 0)
    else if e.level > LOW then
      var streak := if Calm(e.level - 1, m) then e.streak + 1 else 0;
      if streak >= HYSTERESIS then Step(e.level - 1, 0) else Step(e.level, streak)
    else Step(e.level, e.streak)
  }

  /** The callbacks a change of level starts, when they are registered. */
  function Notices(e: Engine, level: int): (r: seq<Notice>)
  {
    if level > e.level then (if level == CRITICAL && e.onCritical then [CriticalReached] else [])
    else if level < e.level && e.onDeescalate then [DeescalatedTo(level)]
    else []
  }

  /** Without an escalation, no trigger is left active. */
  lemma QuietEvaluationHasNoActiveTrigger(e: Engine, m: Metrics, now: int, cfg: Config, pushOk: bool)
    requires Valid(e)
    requires HighestTriggered(e.level + 1, m).None?
    ensures forall t :: t in Evaluate(e, m, now, cfg, pushOk).engine.triggers ==> !t.active
  {
    var ts := InitialTriggers(m);
    forall i | 0 <= i < 4
      ensures HighestFiring(ts[i].kind, e.level + 1, m).None?
    {
      var h := HighestFiring(ts[i].kind, e.level + 1, m);
      if h.Some? {
        assert Triggered(h.value, m);
      }
    }
  }

  /** A level can be skipped: one evaluation with a drop ratio above 0.5 takes LOW straight to CRITICAL. */
  lemma LowJumpsToCritical(e: Engine, m: Metrics, now: int, cfg: Config, pushOk: bool)
    requires Valid(e) && e.level == LOW && m.dropRatio > 0.5
    ensures Evaluate(e, m, now, cfg, pushOk).engine.level == CRITICAL
  {
    assert Triggered(CRITICAL, m);
  }

  /**
   * Hysteresis: at a level above LOW, with a fresh streak, three calm
   * evaluations that trigger nothing higher keep the level twice and then
   * drop it by exactly one.
   */
  lemma ThreeCalmEvaluationsStepDown(e: Engine, m1: Metrics, m2: Metrics, m3: Metrics, now: int, cfg: Config, pushOk: bool)
    requires Valid(e) && e.level > LOW && e.streak == 0
    requires HighestTriggered(e.level + 1, m1).None? && Calm(e.level - 1, m1)
    requires HighestTriggered(e.level + 1, m2).None? && Calm(e.level - 1, m2)
    requires HighestTriggered(e.level + 1, m3).None? && Calm(e.level - 1, m3)
    ensures var r1 := Evaluate(e, m1, now, cfg, pushOk);
      var r2 := Evaluate(r1.engine, m2, now, r1.cfg, pushOk);
      var r3 := Evaluate(r2.engine, m3, now, r2.cfg, pushOk);
      r1.engine.level == e.level && r2.engine.level == e.level && r3.engine.level == e.level - 1
  {
  }

  /** A step down needs the streak: with fewer than two calm evaluations behind it, the level cannot fall. */
  lemma NoStepDownWithoutStreak(e: Engine, m: Metrics, now: int, cfg: Config, pushOk: bool)
    requires Valid(e) && e.streak < HYSTERESIS - 1
    ensures Evaluate(e, m, now, cfg, pushOk).engine.level >= e.level
  {
  }

  /**
   * An escalation to CRITICAL that reaches the data plane lowers the
   * confidence threat-intelligence entries need to be dropped to 30.
   */
  lemma CriticalLowersThreatThresholds(e: Engine, m: Metrics, now: int, cfg: Config)
    requires Valid(e) && e.level < CRITICAL && Triggered(CRITICAL, m)
    ensures var r := Evaluate(e, m, now, cfg, true);
      r.engine.level == CRITICAL
      && ThreatIntel.ThresholdsAt(GetConfig(r.cfg, CFG_ESCALATION_LEVEL)) == ThreatIntel.Thresholds(30, 10)
  {
  }

  datatype SetLevelResult = SetLevelResult(engine: Engine, cfg: Config, status: Status)

  /**
   * SetLevel: a level outside LOW..CRITICAL is refused and nothing
   * changes. Otherwise the level is set, the streak restarts, one
   * "manual override" event is recorded, and the level is pushed; a
   * failed push is reported after the change has been made.
   */
  function SetLevel(e: Engine, level: int, now: int, cfg: Config, pushOk: bool): (r: SetLevelResult)
    requires Valid(e)
    ensures !(LOW <= level <= CRITICAL) ==> r.engine == e && r.cfg == cfg && r.status.Failure?
    ensures LOW <= level <= CRITICAL ==>
      && r.engine.level == level && r.engine.streak == 0
      && r.engine.history == AppendHistory(e.history, HistoryEvent(now, e.level, level, ManualOverride, []))
      && r.engine.triggers == e.triggers
      && r.cfg == PushLevel(cfg, level, pushOk)
      && (r.status.Success? <==> pushOk)
    ensures Valid(r.engine)
  {
    if !(LOW <= level <= CRITICAL) then SetLevelResult(e, cfg, Failure("invalid level: must be 0-3"))
    else
      var e' := e.(level := level, streak := 0,
                   history := AppendHistory(e.history, HistoryEvent(now, e.level, level, ManualOverride, [])));
      SetLevelResult(e', PushLevel(cfg, level, pushOk),
                     if pushOk then Success else Failure("pushing manual level override"))
  }

  /** Start: the current level is pushed; a failed push is an error. */
  function Start(e: Engine, cfg: Config, pushOk: bool): (r: Result<Config>)
    requires Valid(e)
    ensures r.Ok? <==> pushOk
    ensures r.Ok? ==> GetConfig(r.value, CFG_ESCALATION_LEVEL) == e.level
                      && forall k :: k != CFG_ESCALATION_LEVEL ==> GetConfig(r.value, k) == GetConfig(cfg, k)
  {
    if pushOk then Ok(PushLevel(cfg, e.level, true)) else Err("pushing initial escalation level")
  }

  /** OnCritical: registers the callback an escalation to CRITICAL starts. */
  function OnCritical(e: Engine): (r: Engine)
    ensures r.onCritical && r == e.(onCritical := true)
  {
    e.(onCritical := true)
  }

  /** OnDeescalate: registers the callback every step down starts. */
  function OnDeescalate(e: Engine): (r: Engine)
    ensures r.onDeescalate && r == e.(onDeescalate := true)
  {
    e.(onDeescalate := true)
  }

  /**
   * Once the CRITICAL callback is registered, an evaluation from below
   * CRITICAL whose metrics trigger CRITICAL starts it exactly once.
   */
  lemma CriticalCallbackFires(e: Engine, m: Metrics, now: int, cfg: Config, pushOk: bool)
    requires Valid(e) && e.level < CRITICAL && Triggered(CRITICAL, m)
    ensures Evaluate(OnCritical(e), m, now, cfg, pushOk).notices == [CriticalReached]
  {
    var h := HighestTriggered(e.level + 1, m);
    assert h.Some? && h.value == CRITICAL;
  }
}
