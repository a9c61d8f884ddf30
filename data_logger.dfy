/**
 * pi/data-logger.js: the Arduino serial logger whose log file is named by the shared
 * sequence-number rule inside /home/pi/arduinologs, with a `.log` extension.
 */
module DataLogger {
  import opened Wrappers
  import opened JsString
  import opened JsSort
  import opened SequenceNaming

  const ArduinoLogsFolder: string := "/home/pi/arduinologs"

  /** The bare name `arduino-N.log` that the listing of the folder shows for sequence number N. */
  function LogName(n: int): string
  {
    SequenceName("arduino", n, ".log")
  }

  /** `getArduinoLogFilename()`: `${ARDUINO_LOGS_FOLDER}/arduino-${N}.log` with N the next sequence number. */
  function ArduinoLogFilename(files: seq<string>): string
  {
    ArduinoLogsFolder + "/" + LogName(NextSequence(files))
  }

  /**
   * The path names a number N >= 0 that is 0 exactly when no listed name yields a number, and
   * otherwise one more than the listed number with the greatest decimal text; the bare name reads
   * back as N.
   */
  lemma ArduinoLogFilenameSpec(files: seq<string>)
    ensures var n := NextSequence(files);
      && ArduinoLogFilename(files) == ArduinoLogsFolder + "/" + LogName(n)
      && n >= 0
      && SequenceNumber(LogName(n)) == Some(n)
      && (n == 0 <==> Parsed(files) == [])
      && (n > 0 ==> n - 1 in Parsed(files) && forall x :: x in Parsed(files) ==> KeyLe(x, n - 1))
  {
    NextSequenceSpec(files);
    LogNameReadsBack(NextSequence(files));
  }

  /** The bare name of the log for number N is read back as N by the chooser. */
  lemma LogNameReadsBack(n: nat)
    ensures SequenceNumber(LogName(n)) == Some(n)
  {
    SequenceNumberRoundTrip("arduino", n, ".log");
  }

  /** String order again: from arduino-2.log and arduino-10.log the chooser picks 3, not 11. */
  lemma TwoAndTenGiveThree()
    ensures ArduinoLogFilename([LogName(2), LogName(10)]) == ArduinoLogsFolder + "/" + LogName(3)
  {
    assert NatToString(1) == "1";
    assert IntToString(2) == "2" && IntToString(10) == "10";
    assert StringLess(IntToString(10), IntToString(2));
    TwoNamesLexGreater("arduino", ".log", 10, 2);
    ListingOrderIrrelevant([LogName(10), LogName(2)], [LogName(2), LogName(10)]);
  }
}
