/** The fixed-timing controller's bookkeeping: its throughput formula, the
    once-per-second logging loop with its interval and episode schedules, and
    the episode counter. The rows handed to the CSV loggers are kept as
    sequences; `now` stands for the engine clock `Time.time`. */
module StaticSignal {
  import opened IntersectionData

  /** The logging loop writes an episode row every this many steps. */
  const StepsPerEpisode: int := 30

  /** Vehicles per second since the episode started; 0 before any time has
      passed. */
  function Throughput(totalVehicles: int, elapsed: real): (r: real)
    ensures elapsed <= 0.0 ==> r == 0.0
    ensures elapsed > 0.0 ==> r * elapsed == totalVehicles as real
    ensures totalVehicles >= 0 ==> r >= 0.0
  {
    if elapsed > 0.0 then totalVehicles as real / elapsed else 0.0
  }

  datatype EpisodeRow = EpisodeRow(
    episode: int, totalVehicles: int, vehiclesWaiting: int, episodeDuration: real,
    throughput: real, currentPhase: int, phaseGreenTime: real)

  datatype IntervalRow = IntervalRow(
    simulationTime: real, episode: int, totalVehicles: int, queueLength: int,
    throughput: real, currentPhase: int, phaseGreenTime: real)

  /** Each step of the loop advances the step counter by one, and a step ends
      an episode exactly when its number is a multiple of 30, so after `n`
      steps `n / 30` episodes have been written. */
  lemma EpisodeStepCount(n: nat)
    ensures (n + 1) / StepsPerEpisode == n / StepsPerEpisode + (if (n + 1) % StepsPerEpisode == 0 then 1 else 0)
  {
  }

  /** The interval-logging schedule over successive clock readings `times`:
      the number of readings at which an interval row is due and the last
      logged simulation time, starting from the last-log time `last` with a
      simulation started at `start`. */
  function IntervalSchedule(times: seq<real>, start: real, last: real, interval: real): (r: (nat, real))
    ensures r.0 <= |times|
    ensures r.0 == 0 ==> r.1 == last
    ensures r.0 > 0 ==> exists k :: 0 <= k < |times| && r.1 == times[k] - start
  {
    if times == [] then (0, last)
    else
      var prev := IntervalSchedule(times[..|times| - 1], start, last, interval);
      var current := times[|times| - 1] - start;
      if current >= prev.1 + interval then (prev.0 + 1, current) else prev
  }

  class StaticSignalController {
    var enableLogging: bool
    var loggingInterval: real
    /** Whether the episode and interval loggers exist (they are null otherwise). */
    var loggersCreated: bool
    var episodeCounter: int
    var episodeStartTime: real
    var simulationStartTime: real
    var lastIntervalLogTime: real
    /** Whether the `LogMetrics` coroutine runs, and its local step counter. */
    var loggingRunning: bool
    var stepCounter: int
    var episodeRows: seq<EpisodeRow>
    var intervalRows: seq<IntervalRow>
    ghost var started: bool

    /** Rows exist only while logging runs; the k-th episode row carries
        episode number k (counting from 1); one episode row per 30 steps. */
    ghost predicate Valid()
      reads this
    {
      && stepCounter >= 0
      && episodeCounter == |episodeRows| + (if started then 1 else 0)
      && (forall k :: 0 <= k < |episodeRows| ==> episodeRows[k].episode == k + 1)
      && (loggingRunning ==> started && loggersCreated)
      && (!loggingRunning ==> stepCounter == 0 && episodeRows == [] && intervalRows == [])
      && |episodeRows| == stepCounter / StepsPerEpisode
    }

    /** The field initialisers. */
    constructor (enableLogging: bool, loggingInterval: real)
      ensures Valid() && !started && !loggersCreated && !loggingRunning
      ensures this.enableLogging == enableLogging && this.loggingInterval == loggingInterval
      ensures episodeCounter == 0 && lastIntervalLogTime == 0.0
      ensures episodeRows == [] && intervalRows == []
    {
      this.enableLogging := enableLogging;
      this.loggingInterval := loggingInterval;
      loggersCreated := false;
      episodeCounter := 0;
      episodeStartTime := 0.0;
      simulationStartTime := 0.0;
      lastIntervalLogTime := 0.0;
      loggingRunning := false;
      stepCounter := 0;
      episodeRows := [];
      intervalRows := [];
      started := false;
    }

    /** `Start`: the loggers and the logging loop exist only when logging is
        enabled; the first episode is number 1. */
    method Start(now: real)
      requires Valid() && !started && !loggersCreated
      modifies this
      ensures Valid() && started
      ensures loggersCreated == enableLogging && loggingRunning == enableLogging
      ensures episodeCounter == 1 && episodeStartTime == now && simulationStartTime == now
      ensures lastIntervalLogTime == 0.0 && stepCounter == 0
      ensures episodeRows == [] && intervalRows == []
      ensures enableLogging == old(enableLogging) && loggingInterval == old(loggingInterval)
    {
      if enableLogging {
        loggersCreated := true;
      }
      simulationStartTime := now;
      StartEpisode(now);
    }

    method StartEpisode(now: real)
      requires Valid() && !started && loggersCreated == enableLogging
      modifies this
      ensures Valid() && started
      ensures episodeCounter == old(episodeCounter) + 1
      ensures episodeStartTime == now && lastIntervalLogTime == 0.0
      ensures loggingRunning == enableLogging && stepCounter == 0
      ensures episodeRows == old(episodeRows) && intervalRows == old(intervalRows)
      ensures enableLogging == old(enableLogging) && loggingInterval == old(loggingInterval)
      ensures loggersCreated == old(loggersCreated) && simulationStartTime == old(simulationStartTime)
    {
      episodeCounter := episodeCounter + 1;
      episodeStartTime := now;
      lastIntervalLogTime := 0.0;
      started := true;
      if enableLogging {
        loggingRunning := true;
        stepCounter := 0;
      }
    }

    /** The current episode's vehicles per second of episode time. */
    function CalculateThroughput(now: real, calculator: IntersectionDataCalculator): (r: real)
      reads this, calculator
      ensures now - episodeStartTime > 0.0 ==> r * (now - episodeStartTime) == calculator.TotalNumberOfVehicles as real
      ensures now - episodeStartTime <= 0.0 ==> r == 0.0
    {
      Throughput(calculator.TotalNumberOfVehicles, now - episodeStartTime)
    }

    /** One iteration of the `LogMetrics` loop, one second after the previous
        one: an interval row when the interval has elapsed since the last one,
        and an episode row on every 30th step. */
    method LogMetricsStep(now: real, calculator: IntersectionDataCalculator, currentPhase: int, phaseGreenTime: real)
      requires Valid() && loggingRunning
      modifies this
      ensures Valid() && loggingRunning
      ensures stepCounter == old(stepCounter) + 1
      ensures
        var current := now - old(simulationStartTime);
        var due := current >= old(lastIntervalLogTime) + old(loggingInterval);
        && intervalRows == old(intervalRows) +
             (if due then [IntervalRow(current, old(episodeCounter), calculator.TotalNumberOfVehicles,
                             calculator.TotalNumberOfVehiclesWaitingInIntersection,
                             Throughput(calculator.TotalNumberOfVehicles, now - old(episodeStartTime)),
                             currentPhase, phaseGreenTime)]
              else [])
        && lastIntervalLogTime == (if due then current else old(lastIntervalLogTime))
      ensures
        var due := stepCounter % StepsPerEpisode == 0;
        && episodeRows == old(episodeRows) +
             (if due then [EpisodeRow(old(episodeCounter), calculator.TotalNumberOfVehicles,
                             calculator.TotalNumberOfVehiclesWaitingInIntersection, now - old(episodeStartTime),
                             Throughput(calculator.TotalNumberOfVehicles, now - old(episodeStartTime)),
                             currentPhase, phaseGreenTime)]
              else [])
        && episodeCounter == old(episodeCounter) + (if due then 1 else 0)
        && episodeStartTime == (if due then now else old(episodeStartTime))
      ensures loggingInterval == old(loggingInterval) && simulationStartTime == old(simulationStartTime)
      ensures enableLogging == old(enableLogging) && loggersCreated == old(loggersCreated)
    {
      EpisodeStepCount(stepCounter);
      stepCounter := stepCounter + 1;
      var currentSimulationTime := now - simulationStartTime;
      if currentSimulationTime >= lastIntervalLogTime + loggingInterval {
        LogIntervalData(currentSimulationTime, now, calculator, currentPhase, phaseGreenTime);
        lastIntervalLogTime := currentSimulationTime;
      }
      if stepCounter % StepsPerEpisode == 0 {
        LogEpisodeData(now, calculator, currentPhase, phaseGreenTime);
      }
    }

    /** Runs the logging loop for the given successive clock readings. The
        phase, its green time and the registry are the same at every step:
        this models the schedule of the rows, not readings that change while
        the loop runs. */
    method RunLogMetrics(times: seq<real>, calculator: IntersectionDataCalculator, currentPhase: int, phaseGreenTime: real)
      requires Valid() && loggingRunning
      modifies this
      ensures Valid() && loggingRunning
      ensures stepCounter == old(stepCounter) + |times|
      ensures |episodeRows| == old(|episodeRows|) + (stepCounter / StepsPerEpisode - old(stepCounter) / StepsPerEpisode)
      ensures episodeRows[..old(|episodeRows|)] == old(episodeRows)
      ensures var sched := IntervalSchedule(times, old(simulationStartTime), old(lastIntervalLogTime), old(loggingInterval));
        && |intervalRows| == old(|intervalRows|) + sched.0
        && intervalRows[..old(|intervalRows|)] == old(intervalRows)
        && lastIntervalLogTime == sched.1
      ensures loggingInterval == old(loggingInterval)
    {
      var k := 0;
      while k < |times|
        invariant 0 <= k <= |times|
        invariant Valid() && loggingRunning
        invariant stepCounter == old(stepCounter) + k
        invariant |episodeRows| >= old(|episodeRows|) && episodeRows[..old(|episodeRows|)] == old(episodeRows)
        invariant var sched := IntervalSchedule(times[..k], old(simulationStartTime), old(lastIntervalLogTime), old(loggingInterval));
          && |intervalRows| == old(|intervalRows|) + sched.0
          && intervalRows[..old(|intervalRows|)] == old(intervalRows)
          && lastIntervalLogTime == sched.1
        invariant loggingInterval == old(loggingInterval) && simulationStartTime == old(simulationStartTime)
      {
        LogMetricsStep(times[k], calculator, currentPhase, phaseGreenTime);
        assert times[..k + 1][..k] == times[..k];
        k := k + 1;
      }
      assert times[..|times|] == times;
    }

    method LogIntervalData(currentSimulationTime: real, now: real, calculator: IntersectionDataCalculator,
                           currentPhase: int, phaseGreenTime: real)
      modifies this`intervalRows
      ensures intervalRows == old(intervalRows) +
        if loggersCreated then
          [IntervalRow(currentSimulationTime, episodeCounter, calculator.TotalNumberOfVehicles,
             calculator.TotalNumberOfVehiclesWaitingInIntersection,
             CalculateThroughput(now, calculator), currentPhase, phaseGreenTime)]
        else []
    {
      if loggersCreated {
        var throughput := CalculateThroughput(now, calculator);
        intervalRows := intervalRows + [IntervalRow(currentSimulationTime, episodeCounter,
          calculator.TotalNumberOfVehicles, calculator.TotalNumberOfVehiclesWaitingInIntersection,
          throughput, currentPhase, phaseGreenTime)];
      }
    }

    /** Writes the current episode's row, then starts the next episode. */
    method LogEpisodeData(now: real, calculator: IntersectionDataCalculator, currentPhase: int, phaseGreenTime: real)
      modifies this`episodeRows, this`episodeCounter, this`episodeStartTime
      ensures episodeRows == old(episodeRows) +
        if loggersCreated then
          [EpisodeRow(old(episodeCounter), calculator.TotalNumberOfVehicles,
             calculator.TotalNumberOfVehiclesWaitingInIntersection, now - old(episodeStartTime),
             Throughput(calculator.TotalNumberOfVehicles, now - old(episodeStartTime)),
             currentPhase, phaseGreenTime)]
        else []
      ensures episodeCounter == old(episodeCounter) + 1
      ensures episodeStartTime == now
    {
      if loggersCreated {
        var throughput := CalculateThroughput(now, calculator);
        episodeRows := episodeRows + [EpisodeRow(episodeCounter, calculator.TotalNumberOfVehicles,
          calculator.TotalNumberOfVehiclesWaitingInIntersection, now - episodeStartTime,
          throughput, currentPhase, phaseGreenTime)];
      }
      episodeCounter := episodeCounter + 1;
      episodeStartTime := now;
    }

    method SetLoggingInterval(newInterval: real)
      requires Valid()
      modifies this`loggingInterval
      ensures Valid()
      ensures loggingInterval == newInterval
    {
      loggingInterval := newInterval;
    }
  }
}
