/**
 * How a serial line is recognised as a flight-stage notification, and which text is handed to the
 * `flightStageChanged` handler. Both serial scripts use the same test (`indexOf` of the control
 * phrase) and the same slice, whose bounds come from `flightStageChanged.length`: the number of
 * declared parameters of the handler, 1, not the length of the control phrase.
 */
module StageMarker {
  import opened JsString
  import opened Effects

  const ControlPhrase: string := "flight-stage-change:"

  /** `flightStageChanged.length`: the handler `flightStageChanged(stage)` declares one parameter. */
  const HandlerLength: nat := 1

  /** `data.indexOf(controlPhrase) > -1`: the control phrase occurs anywhere in the line. */
  function IsStageEvent(line: string): (b: bool)
    ensures b <==> Contains(line, ControlPhrase)
  {
    IndexOfSpec(line, ControlPhrase);
    IndexOf(line, ControlPhrase) > -1
  }

  /** `data.slice(flightStageChanged.length, flightStageChanged.length + 1)`. */
  function StageToken(line: string): string
  {
    Slice(line, HandlerLength, HandlerLength + 1)
  }

  /** The phrase is recognised at any position, not only at the start of the line. */
  lemma StageEventAnywhere(before: string, after: string)
    ensures IsStageEvent(before + ControlPhrase + after)
  {
    var line := before + ControlPhrase + after;
    assert line[|before|..|before| + |ControlPhrase|] == ControlPhrase;
    assert OccursAt(line, ControlPhrase, |before|);
  }

  /**
   * For a stage event the token is exactly one character, the line's second one: the line holds
   * the 20-character phrase, so it is long enough.
   */
  lemma StageTokenIsSecondChar(line: string)
    requires IsStageEvent(line)
    ensures |line| >= |ControlPhrase| && |StageToken(line)| == 1
    ensures StageToken(line) == [line[1]]
  {
    var k :| OccursAt(line, ControlPhrase, k);
  }

  /** The digit after the phrase is never what is passed on: a line that starts with the phrase yields "l". */
  lemma TokenIgnoresDigit(rest: string)
    ensures StageToken(ControlPhrase + rest) == "l"
  {
    StageEventAnywhere([], rest);
    assert [] + ControlPhrase + rest == ControlPhrase + rest;
    StageTokenIsSecondChar(ControlPhrase + rest);
  }

  // ---------------------------------------------------------------------------
  // Streams of lines

  /** The tokens of the lines that are stage events, in line order. */
  function StageTokens(lines: seq<string>): seq<string>
  {
    if lines == [] then []
    else (if IsStageEvent(lines[0]) then [StageToken(lines[0])] else []) + StageTokens(lines[1..])
  }

  /** The arguments of the stage-handler calls in a run of effects, in order. */
  function StageCalls(effects: seq<Effect>): seq<string>
  {
    if effects == [] then []
    else (if effects[0].StageCall? then [effects[0].stage] else []) + StageCalls(effects[1..])
  }

  lemma {:induction false} StageCallsConcat(a: seq<Effect>, b: seq<Effect>)
    ensures StageCalls(a + b) == StageCalls(a) + StageCalls(b)
  {
    if a == [] {
      assert a + b == b;
    } else {
      assert (a + b)[1..] == a[1..] + b;
      StageCallsConcat(a[1..], b);
    }
  }

  /** Lines that are not stage events contribute no token, wherever they stand. */
  lemma {:induction false} StageTokensCount(lines: seq<string>)
    ensures |StageTokens(lines)| <= |lines|
    ensures (forall i :: 0 <= i < |lines| ==> !IsStageEvent(lines[i])) ==> StageTokens(lines) == []
  {
    if lines != [] {
      StageTokensCount(lines[1..]);
      if forall i :: 0 <= i < |lines| ==> !IsStageEvent(lines[i]) {
        assert !IsStageEvent(lines[0]);
        assert forall i :: 0 <= i < |lines[1..]| ==> !IsStageEvent(lines[1..][i]) by {
          forall i | 0 <= i < |lines[1..]|
            ensures !IsStageEvent(lines[1..][i])
          {
            assert lines[1..][i] == lines[i + 1];
          }
        }
      }
    }
  }
}
