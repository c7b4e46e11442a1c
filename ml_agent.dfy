/** The reinforcement-learning controller's own arithmetic and bookkeeping:
    the cyclic next-phase index, the clamped-interpolation green time, the
    observation buffer size, the interval-logging threshold and the episode
    counter. The ML-Agents library calls and the engine clock are parameters
    or left out; the rows handed to the CSV loggers are kept as sequences. */
module MlAgent {
  import opened Wrappers
  import opened IntersectionData

  /** The serialised tuning record `ML_DATA` (its observation buffer and
      reward live in the agent). */
  datatype MlData = MlData(
    offset: int, numOfLegs: int, vehiclesPerLeg: int, observationsPerVehicle: int,
    minimumGreenLightOffset: real, maximumGreenLightOffset: real)

  datatype Phase = Phase(greenLightTime: real)

  /** The length `Initialize` gives the observation buffer. */
  function ObservationSize(d: MlData): (r: int)
    ensures d.numOfLegs == 0 || d.vehiclesPerLeg == 0 || d.observationsPerVehicle == 0 ==> r == d.offset
    ensures d.numOfLegs >= 0 && d.vehiclesPerLeg >= 0 && d.observationsPerVehicle >= 0 ==> r >= d.offset
  {
    NonNegativeProduct(d.numOfLegs, d.vehiclesPerLeg, d.observationsPerVehicle);
    d.offset + d.numOfLegs * d.vehiclesPerLeg * d.observationsPerVehicle
  }

  lemma NonNegativeProduct(a: int, b: int, c: int)
    ensures a >= 0 && b >= 0 && c >= 0 ==> a * b * c >= 0
    ensures a == 0 || b == 0 || c == 0 ==> a * b * c == 0
  {
    if a >= 0 && b >= 0 && c >= 0 {
      assert a * b >= 0;
    }
  }

  /** C#'s `%` on `int`: the remainder takes the sign of the dividend. */
  function TruncatedRemainder(a: int, n: int): (r: int)
    requires n > 0
    ensures a >= 0 ==> 0 <= r < n && r == a % n
    ensures a < 0 ==> -n < r <= 0 && r == -((-a) % n)
  {
    if a >= 0 then a % n else -((-a) % n)
  }

  /** `(CurrentPhaseIndex + 1) % phases.Length`; None stands for the division
      by zero an empty phase array raises. */
  function NextPhaseIndex(current: int, phaseCount: nat): (r: Option<int>)
    ensures r.None? <==> phaseCount == 0
    ensures r.Some? && current >= -1 ==> 0 <= r.value < phaseCount
    ensures r.Some? && -1 <= current < phaseCount - 1 ==> r.value == current + 1
    ensures r.Some? && current == phaseCount - 1 ==> r.value == 0
    ensures r.Some? && current < -1 ==> -(phaseCount as int) < r.value <= 0
  {
    if phaseCount == 0 then None
    else
      WrapAround(current + 1, phaseCount);
      Some(TruncatedRemainder(current + 1, phaseCount))
  }

  lemma WrapAround(a: int, n: int)
    requires n > 0
    ensures 0 <= a < n ==> a % n == a
    ensures a == n ==> a % n == 0
  {
    if 0 <= a < n {
      RemainderUnique(a, n, 0, a);
    } else if a == n {
      RemainderUnique(a, n, 1, 0);
    }
  }

  /** The phase index after `steps` successive calls of `NextPhaseIndex`. */
  ghost function AdvancePhase(current: int, phaseCount: nat, steps: nat): (r: int)
    requires 0 <= current < phaseCount
    ensures 0 <= r < phaseCount
    decreases steps
  {
    if steps == 0 then current
    else AdvancePhase(NextPhaseIndex(current, phaseCount).value, phaseCount, steps - 1)
  }

  /** Stepping through the phases is addition modulo the number of phases. */
  lemma {:induction false} AdvancePhaseIsModularShift(current: int, phaseCount: nat, steps: nat)
    requires 0 <= current < phaseCount
    ensures AdvancePhase(current, phaseCount, steps) == (current + steps) % phaseCount
    decreases steps
  {
    if steps > 0 {
      var next := NextPhaseIndex(current, phaseCount).value;
      AdvancePhaseIsModularShift(next, phaseCount, steps - 1);
      if current + 1 == phaseCount {
        assert next == 0;
        ModuloShift(steps - 1, phaseCount);
      }
    }
  }

  lemma ModuloShift(m: nat, n: nat)
    requires n > 0
    ensures (n + m) % n == m % n
  {
    var q, r := m / n, m % n;
    assert n + m == (q + 1) * n + r;
    RemainderUnique(n + m, n, q + 1, r);
  }

  lemma RemainderUnique(x: int, n: int, q: int, r: int)
    requires n > 0 && 0 <= r < n && x == q * n + r
    ensures x % n == r
  {
    var q', r' := x / n, x % n;
    assert (q - q') * n == r' - r;
    if q > q' {
      AtLeastOneMultiple(q - q', n);
    } else if q < q' {
      AtLeastOneMultiple(q' - q, n);
    }
  }

  lemma AtLeastOneMultiple(d: int, n: int)
    requires d >= 1 && n > 0
    ensures d * n >= n
  {
  }

  /** How many calls of `NextPhaseIndex` lead from phase `from` to phase `to`. */
  function StepsBetween(from: nat, to: nat, phaseCount: nat): (k: nat)
    requires from < phaseCount && to < phaseCount
    ensures k < phaseCount
    ensures from + k == to || from + k == to + phaseCount
  {
    if to >= from then to - from else to + phaseCount - from
  }

  lemma {:induction false} ReachesPhase(current: nat, phaseCount: nat, p: nat)
    requires current < phaseCount && p < phaseCount
    ensures AdvancePhase(current, phaseCount, StepsBetween(current, p, phaseCount)) == p
  {
    var k := StepsBetween(current, p, phaseCount);
    AdvancePhaseIsModularShift(current, phaseCount, k);
    if p < current {
      RemainderUnique(current + k, phaseCount, 1, p);
    } else {
      RemainderUnique(current + k, phaseCount, 0, p);
    }
  }

  /** Every phase is reached within one cycle, and after as many steps as
      there are phases the controller is back at the phase it started from. */
  lemma {:induction false} PhaseCycle(current: nat, phaseCount: nat)
    requires current < phaseCount
    ensures AdvancePhase(current, phaseCount, phaseCount) == current
    ensures forall p :: 0 <= p < phaseCount ==> AdvancePhase(current, phaseCount, StepsBetween(current, p, phaseCount)) == p
  {
    AdvancePhaseIsModularShift(current, phaseCount, phaseCount);
    RemainderUnique(current + phaseCount, phaseCount, 1, current);
    forall p | 0 <= p < phaseCount
      ensures AdvancePhase(current, phaseCount, StepsBetween(current, p, phaseCount)) == p
    {
      ReachesPhase(current, phaseCount, p);
    }
  }

  /** `Mathf.Clamp01`. */
  function Clamp01(t: real): (r: real)
    ensures 0.0 <= r <= 1.0
    ensures 0.0 <= t <= 1.0 ==> r == t
  {
    if t < 0.0 then 0.0 else if t > 1.0 then 1.0 else t
  }

  /** The share `c` of a span `d`. */
  function Portion(d: real, c: real): (r: real)
    requires 0.0 <= c <= 1.0
    ensures d >= 0.0 ==> 0.0 <= r <= d
    ensures d <= 0.0 ==> d <= r <= 0.0
    ensures c == 0.0 ==> r == 0.0
    ensures c == 1.0 ==> r == d
  {
    if d >= 0.0 then
      assert d * c <= d * 1.0;
      d * c
    else
      assert (-d) * c <= (-d) * 1.0;
      d * c
  }

  lemma PortionMonotone(d: real, c1: real, c2: real)
    requires d >= 0.0 && 0.0 <= c1 <= c2 <= 1.0
    ensures Portion(d, c1) <= Portion(d, c2)
  {
    assert d * (c2 - c1) >= 0.0;
  }

  /** `Mathf.Lerp`: the parameter is clamped, so the result never leaves the
      segment between the two ends and reaches each end at the extremes. */
  function Lerp(a: real, b: real, t: real): (r: real)
    ensures t <= 0.0 ==> r == a
    ensures t >= 1.0 ==> r == b
    ensures a <= b ==> a <= r <= b
    ensures b <= a ==> b <= r <= a
  {
    a + Portion(b - a, Clamp01(t))
  }

  lemma {:induction false} LerpMonotone(a: real, b: real, t1: real, t2: real)
    requires a <= b && t1 <= t2
    ensures Lerp(a, b, t1) <= Lerp(a, b, t2)
  {
    PortionMonotone(b - a, Clamp01(t1), Clamp01(t2));
  }

  /** The green time for an agent action in [-1, 1]: the action is mapped to
      [0, 1], interpolated between the phase's green time less the minimum
      offset and plus the maximum offset, and rounded down. */
  function GreenTime(greenLightTime: real, d: MlData, action: real): (r: int)
    ensures action <= -1.0 ==> r == (greenLightTime - d.minimumGreenLightOffset).Floor
    ensures action >= 1.0 ==> r == (greenLightTime + d.maximumGreenLightOffset).Floor
    ensures d.minimumGreenLightOffset + d.maximumGreenLightOffset >= 0.0 ==>
      (greenLightTime - d.minimumGreenLightOffset).Floor <= r <= (greenLightTime + d.maximumGreenLightOffset).Floor
  {
    var low := greenLightTime - d.minimumGreenLightOffset;
    var high := greenLightTime + d.maximumGreenLightOffset;
    var x := Lerp(low, high, (action + 1.0) / 2.0);
    FloorMonotone(low, x);
    FloorMonotone(x, high);
    x.Floor
  }

  lemma FloorMonotone(x: real, y: real)
    ensures x <= y ==> x.Floor <= y.Floor
  {
  }

  /** A larger action never shortens the green time, provided the two
      offsets do not cross. */
  lemma {:induction false} GreenTimeMonotone(greenLightTime: real, d: MlData, action1: real, action2: real)
    requires d.minimumGreenLightOffset + d.maximumGreenLightOffset >= 0.0
    requires action1 <= action2
    ensures GreenTime(greenLightTime, d, action1) <= GreenTime(greenLightTime, d, action2)
  {
    var low := greenLightTime - d.minimumGreenLightOffset;
    var high := greenLightTime + d.maximumGreenLightOffset;
    LerpMonotone(low, high, (action1 + 1.0) / 2.0, (action2 + 1.0) / 2.0);
    FloorMonotone(Lerp(low, high, (action1 + 1.0) / 2.0), Lerp(low, high, (action2 + 1.0) / 2.0));
  }

  /** The green time of the phase after `currentPhaseIndex`; None stands for
      the exception an empty phase array (division by zero) or a negative
      next index raises. */
  function ChangeToNextPhaseWithTimeInterpolate(action: real, currentPhaseIndex: int, phases: seq<Phase>, d: MlData): (r: Option<int>)
    ensures r.None? <==> |phases| == 0 || TruncatedRemainder(currentPhaseIndex + 1, |phases|) < 0
    ensures |phases| > 0 && currentPhaseIndex >= -1 ==>
      r == Some(GreenTime(phases[(currentPhaseIndex + 1) % |phases|].greenLightTime, d, action))
    ensures r.Some? ==> exists i :: 0 <= i < |phases| && r.value == GreenTime(phases[i].greenLightTime, d, action)
  {
    match NextPhaseIndex(currentPhaseIndex, |phases|)
    case None => None
    case Some(index) =>
      if index < 0 then None
      else Some(GreenTime(phases[index].greenLightTime, d, action))
  }

  datatype EpisodeRow = EpisodeRow(
    episode: int, totalVehicles: int, vehiclesWaiting: int, episodeDuration: real,
    currentReward: real, currentPhase: int, greenLightTime: real)

  datatype IntervalRow = IntervalRow(
    simulationTime: real, episode: int, step: int, totalVehicles: int, queueLength: int,
    currentReward: real, currentPhase: int, greenLightTime: real)

  /** What `GenerateAction` returns: no phase index (-1) and a green time. */
  datatype SignalAction = SignalAction(phaseIndex: int, greenLightTime: real)

  /** The exceptions `GenerateAction` can raise: the episode logger was never
      created, or the next-phase lookup fails. */
  datatype Fault = NullLogger | NextPhaseLookup

  datatype ActionResult = Acted(action: SignalAction) | Raised(fault: Fault)

  class TrafficSignalMlAgent {
    var mlData: MlData
    /** `Ml_data.rewards`, written by the traffic-light setup. */
    var rewards: real
    var observations: array<real>
    /** Whether `Initialize` got as far as creating the two CSV loggers. */
    var loggersCreated: bool
    var episodeCounter: int
    var episodeStartTime: real
    var loggingInterval: real
    var lastLogTime: real
    var simulationStartTime: real
    var action: real
    var greenLightTime: real
    var phases: seq<Phase>
    var episodeRows: seq<EpisodeRow>
    var intervalRows: seq<IntervalRow>

    /** Episode rows carry strictly increasing episode numbers, all below the
        current counter; no row is from a later episode than the current one;
        rows exist only once the loggers do. */
    ghost predicate Valid()
      reads this
    {
      episodeCounter >= 0 && RowsBelow(episodeCounter) && LoggedOnlyWithLoggers()
    }

    /** Episode rows carry strictly increasing episode numbers below `limit`;
        interval rows carry episode numbers up to `limit`. */
    ghost predicate RowsBelow(limit: int)
      reads this
    {
      && (forall i, j :: 0 <= i < j < |episodeRows| ==> episodeRows[i].episode < episodeRows[j].episode)
      && (forall i :: 0 <= i < |episodeRows| ==> 0 <= episodeRows[i].episode < limit)
      && (forall i :: 0 <= i < |intervalRows| ==> intervalRows[i].episode <= limit)
    }

    ghost predicate LoggedOnlyWithLoggers()
      reads this
    {
      !loggersCreated ==> episodeRows == [] && intervalRows == []
    }

    /** The field initialisers and the inspector-set values. */
    constructor (mlData: MlData, loggingInterval: real)
      ensures Valid()
      ensures this.mlData == mlData && this.loggingInterval == loggingInterval
      ensures !loggersCreated
      ensures episodeCounter == 0 && lastLogTime == 0.0 && action == 0.0 && greenLightTime == 0.0
      ensures episodeRows == [] && intervalRows == [] && phases == []
    {
      this.mlData := mlData;
      this.loggingInterval := loggingInterval;
      rewards := 0.0;
      observations := new real[0];
      loggersCreated := false;
      episodeCounter := 0;
      episodeStartTime := 0.0;
      lastLogTime := 0.0;
      simulationStartTime := 0.0;
      action := 0.0;
      greenLightTime := 0.0;
      phases := [];
      episodeRows := [];
      intervalRows := [];
    }

    /** `Initialize`: takes the phases, allocates the observation buffer
        (a negative size raises, reported as `ok == false`, after the phases
        were taken and before the loggers exist), creates empty logs and
        starts both clocks. */
    method Initialize(now: real, setupPhases: seq<Phase>) returns (ok: bool)
      requires Valid()
      modifies this
      ensures Valid()
      ensures phases == setupPhases
      ensures ok <==> ObservationSize(mlData) >= 0
      ensures ok ==> fresh(observations) && observations.Length == ObservationSize(mlData)
      ensures ok ==> loggersCreated && episodeRows == [] && intervalRows == []
      ensures ok ==> episodeStartTime == now && simulationStartTime == now && lastLogTime == 0.0
      ensures !ok ==>
        && loggersCreated == old(loggersCreated) && observations == old(observations)
        && episodeRows == old(episodeRows) && intervalRows == old(intervalRows) && lastLogTime == old(lastLogTime)
        && episodeStartTime == old(episodeStartTime) && simulationStartTime == old(simulationStartTime)
      ensures episodeCounter == old(episodeCounter) && mlData == old(mlData) && loggingInterval == old(loggingInterval)
      ensures action == old(action) && greenLightTime == old(greenLightTime) && rewards == old(rewards)
    {
      phases := setupPhases;
      var size := ObservationSize(mlData);
      if size < 0 {
        return false;
      }
      observations := new real[size];
      loggersCreated := true;
      episodeRows := [];
      intervalRows := [];
      episodeStartTime := now;
      simulationStartTime := now;
      lastLogTime := 0.0;
      ok := true;
    }

    method OnEpisodeBegin(now: real)
      requires episodeCounter >= 0 && RowsBelow(episodeCounter + 1) && LoggedOnlyWithLoggers()
      modifies this`episodeCounter, this`episodeStartTime
      ensures Valid()
      ensures episodeCounter == old(episodeCounter) + 1
      ensures episodeStartTime == now
    {
      episodeCounter := episodeCounter + 1;
      episodeStartTime := now;
    }

    /** The per-frame interval logging: when the interval has elapsed, a row
        is written if the intersection data exists, and the last log time
        moves on either way. Writing a row before the loggers exist raises a
        null reference, reported as `ok == false` with nothing changed. */
    method LogIntervalData(now: real, intersectionData: IntersectionDataCalculator?, stepCount: int, currentPhase: int)
      returns (ok: bool)
      requires Valid()
      modifies this`intervalRows, this`lastLogTime
      ensures Valid()
      ensures
        var current := now - simulationStartTime;
        var due := current >= old(lastLogTime) + loggingInterval;
        && (ok <==> !(due && intersectionData != null && !loggersCreated))
        && lastLogTime == (if due && ok then current else old(lastLogTime))
        && intervalRows == old(intervalRows) +
             (if due && intersectionData != null && ok then
                [IntervalRow(current, episodeCounter, stepCount, intersectionData.TotalNumberOfVehicles,
                   intersectionData.TotalNumberOfVehiclesWaitingInIntersection, rewards, currentPhase, greenLightTime)]
              else [])
    {
      var currentSimulationTime := now - simulationStartTime;
      if currentSimulationTime >= lastLogTime + loggingInterval {
        if intersectionData != null {
          if !loggersCreated {
            return false;
          }
          intervalRows := intervalRows + [IntervalRow(currentSimulationTime, episodeCounter, stepCount,
            intersectionData.TotalNumberOfVehicles, intersectionData.TotalNumberOfVehiclesWaitingInIntersection,
            rewards, currentPhase, greenLightTime)];
        }
        lastLogTime := currentSimulationTime;
      }
      ok := true;
    }

    method SetLoggingInterval(newInterval: real)
      requires Valid()
      modifies this`loggingInterval
      ensures Valid()
      ensures loggingInterval == newInterval
    {
      loggingInterval := newInterval;
    }

    /** The episode row `GenerateAction` writes for the finished episode. */
    method LogEpisodeRow(now: real, intersectionData: IntersectionDataCalculator, currentPhase: int)
      requires Valid() && loggersCreated
      modifies this`episodeRows
      ensures episodeCounter >= 0 && RowsBelow(episodeCounter + 1) && LoggedOnlyWithLoggers()
      ensures episodeRows == old(episodeRows) +
        [EpisodeRow(episodeCounter, intersectionData.TotalNumberOfVehicles,
           intersectionData.TotalNumberOfVehiclesWaitingInIntersection, now - episodeStartTime,
           rewards, currentPhase, greenLightTime)]
    {
      episodeRows := episodeRows + [EpisodeRow(episodeCounter, intersectionData.TotalNumberOfVehicles,
        intersectionData.TotalNumberOfVehiclesWaitingInIntersection, now - episodeStartTime,
        rewards, currentPhase, greenLightTime)];
    }

    /** `GenerateAction`: logs the finished episode if the intersection data
        exists, ends the episode (which begins the next one), and returns
        phase index -1 with the new green time, which it also keeps. Logging
        before the loggers exist raises before anything changes; a failing
        next-phase lookup raises after the episode has ended. */
    method GenerateAction(now: real, intersectionData: IntersectionDataCalculator?, currentPhase: int) returns (r: ActionResult)
      requires Valid()
      modifies this`episodeRows, this`episodeCounter, this`episodeStartTime, this`greenLightTime
      ensures Valid()
      ensures intersectionData != null && !old(loggersCreated) ==>
        && r == Raised(NullLogger)
        && episodeRows == old(episodeRows) && episodeCounter == old(episodeCounter)
        && episodeStartTime == old(episodeStartTime) && greenLightTime == old(greenLightTime)
      ensures !(intersectionData != null && !old(loggersCreated)) ==>
        && episodeRows == old(episodeRows) +
             (if intersectionData != null then
                [EpisodeRow(old(episodeCounter), intersectionData.TotalNumberOfVehicles,
                   intersectionData.TotalNumberOfVehiclesWaitingInIntersection, now - old(episodeStartTime),
                   rewards, currentPhase, old(greenLightTime))]
              else [])
        && episodeCounter == old(episodeCounter) + 1 && episodeStartTime == now
        && var g := ChangeToNextPhaseWithTimeInterpolate(action, currentPhase, phases, mlData);
           && (g.None? ==> r == Raised(NextPhaseLookup) && greenLightTime == old(greenLightTime))
           && (g.Some? ==> r == Acted(SignalAction(-1, g.value as real)) && greenLightTime == g.value as real)
      ensures action == old(action) && phases == old(phases) && mlData == old(mlData) && rewards == old(rewards)
      ensures intervalRows == old(intervalRows) && lastLogTime == old(lastLogTime)
      ensures loggingInterval == old(loggingInterval) && observations == old(observations)
      ensures simulationStartTime == old(simulationStartTime) && loggersCreated == old(loggersCreated)
    {
      if intersectionData != null && !loggersCreated {
        return Raised(NullLogger);
      }
      FinishEpisode(now, intersectionData, currentPhase);
      r := ApplyNextPhase(currentPhase);
    }

    /** The episode-ending part of `GenerateAction`: the finished episode's
        row when intersection data exists, then the next episode. */
    method FinishEpisode(now: real, intersectionData: IntersectionDataCalculator?, currentPhase: int)
      requires Valid() && (intersectionData != null ==> loggersCreated)
      modifies this`episodeRows, this`episodeCounter, this`episodeStartTime
      ensures Valid()
      ensures episodeRows == old(episodeRows) +
        (if intersectionData != null then
           [EpisodeRow(old(episodeCounter), intersectionData.TotalNumberOfVehicles,
              intersectionData.TotalNumberOfVehiclesWaitingInIntersection, now - old(episodeStartTime),
              rewards, currentPhase, greenLightTime)]
         else [])
      ensures episodeCounter == old(episodeCounter) + 1 && episodeStartTime == now
    {
      if intersectionData != null {
        LogEpisodeRow(now, intersectionData, currentPhase);
      }
      OnEpisodeBegin(now);
    }

    /** The tail of `GenerateAction`: the next phase's interpolated green
        time, kept and returned with phase index -1. */
    method ApplyNextPhase(currentPhase: int) returns (r: ActionResult)
      modifies this`greenLightTime
      ensures var g := ChangeToNextPhaseWithTimeInterpolate(action, currentPhase, phases, mlData);
        && (g.None? ==> r == Raised(NextPhaseLookup) && greenLightTime == old(greenLightTime))
        && (g.Some? ==> r == Acted(SignalAction(-1, g.value as real)) && greenLightTime == g.value as real)
    {
      var g := ChangeToNextPhaseWithTimeInterpolate(action, currentPhase, phases, mlData);
      if g.None? {
        return Raised(NextPhaseLookup);
      }
      greenLightTime := g.value as real;
      r := Acted(SignalAction(-1, greenLightTime));
    }

    /** Keeps the first continuous action for the next `GenerateAction`. */
    method OnActionReceived(continuousAction: real)
      modifies this`action
      ensures action == continuousAction
    {
      action := continuousAction;
    }
  }
}
