/**
 * pi/usb-data-logger.js: every line read from the Arduino's USB serial port is printed and
 * appended to one log file, and lines carrying the stage-change phrase are passed on to a stage
 * handler whose switch does nothing. Its file-name chooser is the shared one with two slips: it
 * reads `sequences[sequences.length]`, one past the end, and never adds 1.
 */
module UsbDataLogger {
  import opened Wrappers
  import opened JsString
  import opened SequenceNaming
  import opened StageMarker
  import opened Effects

  /** The two kinds of value an array read can give here: a Number, or `undefined` out of range. */
  datatype JsValue = Number(n: int) | Undefined

  /** `s[i]` on a JavaScript array. */
  function ElementAt(s: seq<int>, i: int): JsValue
  {
    if 0 <= i < |s| then Number(s[i]) else Undefined
  }

  /** How a template literal `${v}` writes the value. */
  function TemplateText(v: JsValue): string
  {
    match v
    case Number(n) => IntToString(n)
    case Undefined => "undefined"
  }

  /** `getArduinoLogFilename()`: `arduino-${sequences.length > 0 ? sequences[sequences.length] : 0}`. */
  function ArduinoLogFilename(files: seq<string>): string
  {
    var sequences := SortedSequences(files);
    "arduino-" + TemplateText(if |sequences| > 0 then ElementAt(sequences, |sequences|) else Number(0))
  }

  /**
   * The chooser can give only two names: "arduino-0" when no listed name yields a number, and
   * "arduino-undefined" otherwise, since index `sequences.length` is always out of range.
   */
  lemma ArduinoLogFilenameValues(files: seq<string>)
    ensures Parsed(files) == [] ==> ArduinoLogFilename(files) == "arduino-" + "0"
    ensures Parsed(files) != [] ==> ArduinoLogFilename(files) == "arduino-" + "undefined"
  {
    var sequences := SortedSequences(files);
    SortedLength(files);
    if |sequences| > 0 {
      assert ElementAt(sequences, |sequences|) == Undefined;
    } else {
      assert IntToString(0) == "0";
    }
  }

  /**
   * A name "arduino-N", the shape of the template with a number in it, has no '.', so
   * `indexOf('.')` is -1, the slice drops the last digit, and the name reads back as N / 10 (NaN
   * for one digit). The script itself only ever writes "arduino-0" or "arduino-undefined", and
   * writes them into the working directory, not into the folder it lists.
   */
  lemma OwnNameLosesLastDigit(n: nat)
    ensures SequenceNumber("arduino-" + IntToString(n)) == if n < 10 then None else Some(n / 10)
  {
    var digits := IntToString(n);
    var f := "arduino-" + digits;
    NatTextPlain(n);
    assert f == "arduino" + ['-'] + digits;
    LastIndexOfSplit("arduino", '-', digits);
    assert '.' !in f;
    NoDotDropsLastChar(f);
    if n < 10 {
      assert SequenceText(f) == [];
    } else {
      assert f[8..|f| - 1] == digits[..|digits| - 1] == IntToString(n / 10);
      ParseIntToString(n / 10);
    }
  }

  // ---------------------------------------------------------------------------
  // The line handler

  /** Which `case` of the stage switch a token selects. */
  datatype SwitchArm = CaseOne | CaseTwo | NoCase

  function SwitchArmOf(stage: string): SwitchArm
  {
    if stage == "1" then CaseOne else if stage == "2" then CaseTwo else NoCase
  }

  /** `flightStageChanged(stage)`: cases '1' and '2' only `break`, and there is no default. */
  function FlightStageChanged(stage: string): (effects: seq<Effect>)
    ensures effects == []
  {
    match SwitchArmOf(stage)
    case CaseOne => []
    case CaseTwo => []
    case NoCase => []
  }

  /** `parser.on('data', ...)` for one line: print it, append it to the log, then test for the phrase. */
  function OnData(filename: string, line: string): seq<Effect>
  {
    [ConsoleLog(line), AppendFile(filename, line)]
    + (if IsStageEvent(line)
       then [StageCall(StageToken(line))] + FlightStageChanged(StageToken(line))
       else [])
  }

  /**
   * Each line is appended to the log before the phrase is looked for; the handler is then called
   * exactly when the phrase occurs, with the line's second character, and does nothing more.
   */
  lemma OnDataShape(filename: string, line: string)
    ensures var effects := OnData(filename, line);
      && |effects| >= 2 && effects[1] == AppendFile(filename, line)
      && (IsStageEvent(line) ==> effects[2..] == [StageCall([line[1]])])
      && (!IsStageEvent(line) ==> |effects| == 2)
  {
    if IsStageEvent(line) {
      StageTokenIsSecondChar(line);
    }
  }

  /** The handler run over a stream of lines, one after the other. */
  function Session(filename: string, lines: seq<string>): seq<Effect>
  {
    if lines == [] then [] else OnData(filename, lines[0]) + Session(filename, lines[1..])
  }

  /** All the lines, in order, with nothing between them. */
  function Concat(lines: seq<string>): string
  {
    if lines == [] then [] else lines[0] + Concat(lines[1..])
  }

  /** One line puts exactly that line into the log, and its token (if any) into the handler's calls. */
  lemma OnDataLogsLine(filename: string, line: string)
    ensures AppendedTo(filename, OnData(filename, line)) == line
    ensures StageCalls(OnData(filename, line)) == if IsStageEvent(line) then [StageToken(line)] else []
  {
    var logged := [ConsoleLog(line), AppendFile(filename, line)];
    var extra := if IsStageEvent(line) then [StageCall(StageToken(line))] else [];
    assert OnData(filename, line) == logged + extra;
    AppendedConcat(filename, logged, extra);
    StageCallsConcat(logged, extra);
  }

  /**
   * Over a whole session the log file receives every line, stage event or not, in order, and the
   * stage handler is called once per line holding the phrase, with that line's token.
   */
  lemma {:induction false} SessionLogsEveryLine(filename: string, lines: seq<string>)
    ensures AppendedTo(filename, Session(filename, lines)) == Concat(lines)
    ensures StageCalls(Session(filename, lines)) == StageTokens(lines)
  {
    if lines != [] {
      var head := OnData(filename, lines[0]);
      var tail := Session(filename, lines[1..]);
      SessionLogsEveryLine(filename, lines[1..]);
      AppendedConcat(filename, head, tail);
      StageCallsConcat(head, tail);
      OnDataLogsLine(filename, lines[0]);
    }
  }
}
