/**
 * pi/bme-logger.js: reads the BME280 temperature/pressure sensor every 10 seconds and appends
 * each reading, as JSON followed by a comma, to one log file whose name comes from the shared
 * sequence-number rule. The sensor driver, its unit conversions and the timestamp are foreign
 * code; here a read is given as its outcome (the JSON text of the reading, or the error text),
 * and `setTimeout` is an effect that arms one timer.
 */
module BmeLogger {
  import opened Wrappers
  import opened JsSort
  import opened SequenceNaming
  import opened Effects

  const BmeLogsFolder: string := "./home/pi/balloons/bme280logs"
  /** `BME_LOG_INTERVAL`: the delay before the next read, in milliseconds. */
  const LogInterval: nat := 10000

  // ---------------------------------------------------------------------------
  // The log file name

  /** The bare name `bme280-N.txt` for sequence number N. */
  function LogName(n: int): string
  {
    SequenceName("bme280", n, ".txt")
  }

  /** `getBME280LogFilename()`: the bare name `bme280-${N}.txt` with N the next sequence number. */
  function Bme280LogFilename(files: seq<string>): string
  {
    LogName(NextSequence(files))
  }

  /** `${BME_LOGS_FOLDER}/${bme280Filename}`: where every reading is appended. */
  function LogPath(filename: string): string
  {
    BmeLogsFolder + "/" + filename
  }

  /** The bare name of the log for number N is read back as N by the chooser. */
  lemma LogNameReadsBack(n: nat)
    ensures SequenceNumber(LogName(n)) == Some(n)
  {
    SequenceNumberRoundTrip("bme280", n, ".txt");
  }

  /**
   * The name carries a number N >= 0 that is 0 exactly when no listed name yields a number, and
   * otherwise one more than the listed number with the greatest decimal text; it reads back as N.
   */
  lemma Bme280LogFilenameSpec(files: seq<string>)
    ensures var n := NextSequence(files);
      && Bme280LogFilename(files) == LogName(n)
      && n >= 0
      && SequenceNumber(LogName(n)) == Some(n)
      && (n == 0 <==> Parsed(files) == [])
      && (n > 0 ==> n - 1 in Parsed(files) && forall x :: x in Parsed(files) ==> KeyLe(x, n - 1))
  {
    NextSequenceSpec(files);
    LogNameReadsBack(NextSequence(files));
  }

  /**
   * With bme280-9.txt and bme280-10.txt in the folder a new run picks bme280-10.txt again, so its
   * readings are appended to the end of an earlier run's log.
   */
  lemma NineAndTenReuseLog(files: seq<string>)
    requires files == [LogName(9), LogName(10)]
    ensures Bme280LogFilename(files) == LogName(10) && Bme280LogFilename(files) in files
  {
    NineAndTenGiveTen("bme280", ".txt");
  }

  // ---------------------------------------------------------------------------
  // Reading the sensor

  /** How `bme280.init()` settles. */
  datatype InitOutcome = InitOk | InitFailed(message: string)

  /** How `bme280.readSensorData()` settles: the reading as `JSON.stringify(data, null, 2)`, or the error. */
  datatype ReadOutcome = Reading(json: string) | ReadError(message: string)

  /**
   * One call of `readSensorData` once its promise settles: a reading is appended to the log with a
   * trailing comma, an error is printed; either way the next read is scheduled.
   */
  function ReadEffects(path: string, outcome: ReadOutcome): seq<Effect>
  {
    match outcome
    case Reading(json) => [AppendFile(path, json + ","), SetTimer(LogInterval)]
    case ReadError(message) => [ConsoleLog("BME280 read error: " + message), SetTimer(LogInterval)]
  }

  /** The effects of successive reads with the given outcomes. */
  function Readings(path: string, outcomes: seq<ReadOutcome>): seq<Effect>
  {
    if outcomes == [] then []
    else Readings(path, outcomes[..|outcomes| - 1]) + ReadEffects(path, outcomes[|outcomes| - 1])
  }

  /** What the log should hold after those reads: each successful reading's JSON and a comma, in order. */
  function Logged(outcomes: seq<ReadOutcome>): string
  {
    if outcomes == [] then []
    else
      var last := outcomes[|outcomes| - 1];
      Logged(outcomes[..|outcomes| - 1]) + (if last.Reading? then last.json + "," else [])
  }

  /** The timers a run of effects arms. */
  function TimersArmed(effects: seq<Effect>): nat
  {
    if effects == [] then 0 else (if effects[0].SetTimer? then 1 else 0) + TimersArmed(effects[1..])
  }

  /**
   * The log is initialised once, at start-up (`const bme280Filename = getBME280LogFilename()`), and
   * each read re-arms its own timer. `pendingTimers` counts the reads scheduled but not yet run.
   */
  class SensorLogger {
    const filename: string
    var effects: seq<Effect>
    var pendingTimers: nat

    /** Start-up: the log name is chosen from the listing of the logs folder. */
    constructor (files: seq<string>)
      ensures filename == Bme280LogFilename(files)
      ensures effects == [] && pendingTimers == 0
    {
      filename := Bme280LogFilename(files);
      effects := [];
      pendingTimers := 0;
    }

    /** `readSensorData()` with the read settling as `outcome`. */
    method ReadSensorData(outcome: ReadOutcome)
      modifies this
      ensures effects == old(effects) + ReadEffects(LogPath(filename), outcome)
      ensures pendingTimers == old(pendingTimers) + 1
    {
      match outcome {
        case Reading(json) =>
          effects := effects + [AppendFile(LogPath(filename), json + ",")];
        case ReadError(message) =>
          effects := effects + [ConsoleLog("BME280 read error: " + message)];
      }
      effects := effects + [SetTimer(LogInterval)];
      pendingTimers := pendingTimers + 1;
    }

    /**
     * `bme280.init()`: on success print and make the first read; on failure print the error (with
     * the template's trailing space) and never read.
     */
    method Init(init: InitOutcome, first: ReadOutcome)
      modifies this
      ensures init.InitOk? ==>
        && effects == old(effects) + [ConsoleLog("BME280 initialization succeeded")]
                      + ReadEffects(LogPath(filename), first)
        && pendingTimers == old(pendingTimers) + 1
      ensures init.InitFailed? ==>
        && effects == old(effects) + [ConsoleError("BME280 initialization failed: " + init.message + " ")]
        && pendingTimers == old(pendingTimers)
    {
      match init {
        case InitOk =>
          effects := effects + [ConsoleLog("BME280 initialization succeeded")];
          ReadSensorData(first);
        case InitFailed(message) =>
          effects := effects + [ConsoleError("BME280 initialization failed: " + message + " ")];
      }
    }

    /** A scheduled timer fires and runs `readSensorData`. */
    method TimerFires(outcome: ReadOutcome)
      requires pendingTimers > 0
      modifies this
      ensures effects == old(effects) + ReadEffects(LogPath(filename), outcome)
      ensures pendingTimers == old(pendingTimers)
    {
      pendingTimers := pendingTimers - 1;
      ReadSensorData(outcome);
    }

    /** The timer fires once per outcome, in order: the logging loop after a successful start-up. */
    method RunReadings(outcomes: seq<ReadOutcome>)
      requires pendingTimers > 0
      modifies this
      ensures effects == old(effects) + Readings(LogPath(filename), outcomes)
      ensures pendingTimers == old(pendingTimers)
    {
      var i := 0;
      while i < |outcomes|
        invariant i <= |outcomes|
        invariant effects == old(effects) + Readings(LogPath(filename), outcomes[..i])
        invariant pendingTimers == old(pendingTimers)
      {
        TimerFires(outcomes[i]);
        assert outcomes[..i + 1][..i] == outcomes[..i];
        i := i + 1;
      }
      assert outcomes[..i] == outcomes;
    }
  }

  // ---------------------------------------------------------------------------
  // What the loop promises

  /**
   * Read by read, the loop does what that read's outcome calls for and then re-arms itself: the
   * effects of a run of reads are those of its parts, one after the other, so each read adds its
   * own `ReadEffects` whatever came before it.
   */
  lemma {:induction false} ReadingsConcat(path: string, a: seq<ReadOutcome>, b: seq<ReadOutcome>)
    ensures Readings(path, a + b) == Readings(path, a) + Readings(path, b)
  {
    if b == [] {
      assert a + b == a;
    } else {
      assert (a + b)[..|a + b| - 1] == a + b[..|b| - 1];
      ReadingsConcat(path, a, b[..|b| - 1]);
    }
  }

  /** Every read arms exactly one timer, whatever its outcome: an error does not stop the loop. */
  lemma {:induction false} ReadingsRearm(path: string, outcomes: seq<ReadOutcome>)
    ensures TimersArmed(Readings(path, outcomes)) == |outcomes|
  {
    if outcomes != [] {
      var init := outcomes[..|outcomes| - 1];
      var last := outcomes[|outcomes| - 1];
      ReadingsRearm(path, init);
      ReadEffectsCounts(path, path, last);
      TimersConcat(Readings(path, init), ReadEffects(path, last));
    }
  }

  /**
   * All readings go to the one log chosen at start-up, and it receives exactly the successful
   * readings, each followed by a comma, in order; no other file is written.
   */
  lemma {:induction false} ReadingsLogged(path: string, q: string, outcomes: seq<ReadOutcome>)
    ensures AppendedTo(q, Readings(path, outcomes)) == if q == path then Logged(outcomes) else []
  {
    if outcomes != [] {
      var init := outcomes[..|outcomes| - 1];
      var last := outcomes[|outcomes| - 1];
      ReadingsLogged(path, q, init);
      AppendedConcat(q, Readings(path, init), ReadEffects(path, last));
      ReadEffectsCounts(path, q, last);
    }
  }

  /** A read that fails leaves the log as it was; the next successful one is appended as usual. */
  lemma ErrorThenReading(outcomes: seq<ReadOutcome>, message: string, json: string)
    ensures Logged(outcomes + [ReadError(message)]) == Logged(outcomes)
    ensures Logged(outcomes + [ReadError(message), Reading(json)]) == Logged(outcomes) + json + ","
  {
    assert (outcomes + [ReadError(message)])[..|outcomes|] == outcomes;
    assert (outcomes + [ReadError(message), Reading(json)])[..|outcomes| + 1] == outcomes + [ReadError(message)];
  }

  /** The log of a run in two parts is the log of the first part followed by that of the second. */
  lemma {:induction false} LoggedConcat(a: seq<ReadOutcome>, b: seq<ReadOutcome>)
    ensures Logged(a + b) == Logged(a) + Logged(b)
  {
    if b == [] {
      assert a + b == a;
    } else {
      var init := b[..|b| - 1];
      assert (a + b)[..|a + b| - 1] == a + init;
      LoggedConcat(a, init);
    }
  }

  /** One read appends its reading, if any, to `path` only, and arms one timer. */
  lemma ReadEffectsCounts(path: string, q: string, outcome: ReadOutcome)
    ensures AppendedTo(q, ReadEffects(path, outcome))
      == if q == path && outcome.Reading? then outcome.json + "," else []
    ensures TimersArmed(ReadEffects(path, outcome)) == 1
  {
    var e := ReadEffects(path, outcome);
    assert e == [e[0]] + [SetTimer(LogInterval)];
    assert [SetTimer(LogInterval)][1..] == [];
    assert AppendedTo(q, [SetTimer(LogInterval)]) == [];
    assert TimersArmed([SetTimer(LogInterval)]) == 1;
    assert e[1..] == [SetTimer(LogInterval)];
  }

  lemma {:induction false} TimersConcat(a: seq<Effect>, b: seq<Effect>)
    ensures TimersArmed(a + b) == TimersArmed(a) + TimersArmed(b)
  {
    if a == [] {
      assert a + b == b;
    } else {
      assert (a + b)[1..] == a[1..] + b;
      TimersConcat(a[1..], b);
    }
  }
}
