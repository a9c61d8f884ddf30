/**
 * pi/serialread.js: every line read from the Pi's serial port is printed, and a line holding the
 * stage-change phrase is passed to a stage handler that only prints what it was given.
 */
module SerialRead {
  import opened StageMarker
  import opened Effects

  /** `flightStageChanged(stage)`: `console.log('flightStageChanged', stage)`, which joins its arguments with a space. */
  function FlightStageChanged(stage: string): (effects: seq<Effect>)
    ensures forall e :: e in effects ==> e.ConsoleLog?
    ensures exists e :: e in effects && e.text == "flightStageChanged " + stage
    ensures |effects| == 1
  {
    [ConsoleLog("flightStageChanged " + stage)]
  }

  /** `parser.on('data', ...)` for one line: print it, then call the handler when the phrase occurs. */
  function OnData(line: string): seq<Effect>
  {
    [ConsoleLog(line)]
    + (if IsStageEvent(line)
       then [StageCall(StageToken(line))] + FlightStageChanged(StageToken(line))
       else [])
  }

  /**
   * A line is printed first; the handler is called only for a line holding the phrase, with the
   * line's second character, and then prints "flightStageChanged" and that character.
   */
  lemma OnDataShape(line: string)
    ensures var effects := OnData(line);
      && effects[0] == ConsoleLog(line)
      && (IsStageEvent(line) ==>
            effects[1..] == [StageCall([line[1]]), ConsoleLog("flightStageChanged " + [line[1]])])
      && (!IsStageEvent(line) ==> |effects| == 1)
  {
    if IsStageEvent(line) {
      StageTokenIsSecondChar(line);
    }
  }

  /** The handler run over a stream of lines, one after the other. */
  function Session(lines: seq<string>): seq<Effect>
  {
    if lines == [] then [] else OnData(lines[0]) + Session(lines[1..])
  }

  /** The script does nothing but print: no effect of a session is a file write. */
  lemma {:induction false} SessionOnlyPrints(lines: seq<string>)
    ensures forall e :: e in Session(lines) ==> !e.AppendFile?
  {
    if lines != [] {
      SessionOnlyPrints(lines[1..]);
    }
  }

  /** Over a session the handler is called once per line holding the phrase, in order, with that line's token. */
  lemma {:induction false} SessionStageCalls(lines: seq<string>)
    ensures StageCalls(Session(lines)) == StageTokens(lines)
  {
    if lines != [] {
      var head := OnData(lines[0]);
      var tail := Session(lines[1..]);
      SessionStageCalls(lines[1..]);
      StageCallsConcat(head, tail);
      if IsStageEvent(lines[0]) {
        var token := StageToken(lines[0]);
        assert head == [ConsoleLog(lines[0]), StageCall(token)] + [ConsoleLog("flightStageChanged " + token)];
        StageCallsConcat([ConsoleLog(lines[0]), StageCall(token)], [ConsoleLog("flightStageChanged " + token)]);
      }
    }
  }
}
