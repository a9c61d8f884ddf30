/**
 * What the scripts' callbacks do that can be seen from outside, in the order they do it, and the
 * text a run of them leaves in a file.
 */
module Effects {
  datatype Effect =
    | ConsoleLog(text: string)               // `console.log(text)`
    | ConsoleError(text: string)             // `console.error(text)`
    | AppendFile(path: string, text: string) // `fs.appendFileSync(path, text)`
    | StageCall(stage: string)               // `flightStageChanged(stage)`
    | SetTimer(ms: nat)                      // `setTimeout(callback, ms)`

  /** What a run of effects appends to `path`: `appendFileSync` adds the text with no separator. */
  function AppendedTo(path: string, effects: seq<Effect>): string
  {
    if effects == [] then []
    else
      (if effects[0].AppendFile? && effects[0].path == path then effects[0].text else [])
      + AppendedTo(path, effects[1..])
  }

  /** The text appended by two runs of effects is that of the first followed by that of the second. */
  lemma {:induction false} AppendedConcat(path: string, a: seq<Effect>, b: seq<Effect>)
    ensures AppendedTo(path, a + b) == AppendedTo(path, a) + AppendedTo(path, b)
  {
    if a == [] {
      assert a + b == b;
    } else {
      assert (a + b)[1..] == a[1..] + b;
      AppendedConcat(path, a[1..], b);
    }
  }
}
