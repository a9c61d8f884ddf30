# Balloon payload scripts, modelled in Dafny

The payload of the balloon runs small Node.js scripts on a Raspberry Pi:

- `pi/camera.js` loops forever. Each pass takes 30 photos, one every 6 seconds, then records one 30-second video.
- `pi/bme-logger.js` appends a BME280 sensor reading to a log file every 10 seconds.
- `pi/usb-data-logger.js` and `pi/serialread.js` read lines from a serial port. They print the lines, the first also appends them to a log, and both hand lines carrying `flight-stage-change:` to a stage handler.
- `pi/data-logger.js` names an Arduino log file.

Each script names its log or video file with the same "next sequence number" rule; `pi/camera.js` names its photos by the clock and writes its own log to a fixed path. It lists the folder, takes the text between each name's last `-` and its first `.`, and parses it with `parseInt(text, 10)`. It drops the NaNs, sorts with the default `sort()` and adds one to the last element, or uses 0 when nothing was read. The copy in `pi/usb-data-logger.js` differs: it reads `sequences[sequences.length]`, one past the end, and adds nothing. So it names its log `arduino-0` or `arduino-undefined`, in the working directory rather than in the folder it lists.

The model has these modules:

- `JsString` gives the JavaScript semantics the rule depends on: `indexOf`, `lastIndexOf`, `slice` with negative indices, `parseInt` with radix 10, and the decimal text of an integer Number. It also gives string `<`.
- `JsSort` is the default comparator, which orders numbers by their decimal text.
- `SequenceNaming` is the rule itself.
- `Camera`, `BmeLogger`, `UsbDataLogger`, `DataLogger` and `SerialRead` each model one script.
- `StageMarker` is the stage-phrase test and token that both serial scripts share.

What is proved about the rule:

- The chosen number is 0 exactly when no listed name yields a number. Otherwise it is one more than the listed number whose decimal text is greatest in string order.
- A name built by the camera, BME280 or data-logger script reads back as its own number. A name `arduino-N` of the USB logger's shape has no extension, so it reads back as N / 10, or NaN for one digit.
- The order of the listing does not matter.
- Because `"10" < "9"`, a folder holding `video-9.h264` and `video-10.h264` yields `video-10.h264` again.

The camera loop is a class whose methods append to a trace of actions and extend the listing of the videos folder. `RunLoop` is proved against trace and listing functions. The lemmas about those functions show:

- Each pass takes 30 photos, starts one video and waits 210 s.
- A photo is never taken while a video records, and starts and stops alternate.
- Once the chosen name is already in the folder, every later pass overwrites that same file.
- `loopCount += loopCount` keeps the counter at 0.

The BME logger is a class whose log name is fixed at start-up. Its reads re-arm their own timer. The lemmas show:

- Every reading goes to that one file, in order, followed by a comma.
- An error only prints.
- Each read, whatever its outcome, arms exactly one timer.

The serial scripts are functions from a line to its effects. Over a stream of lines, every line is logged, and the stage handler receives one token per phrase line. That token is the line's second character: the slice bounds come from `flightStageChanged.length`, which is 1.

## Model

| member | source | states |
|---|---|---|
| JsString.IndexOfSpec | pi/camera.js:104 | `indexOf` returns the first position where the pattern occurs, and -1 exactly when it occurs nowhere |
| JsString.IndexOfFromSpec | pi/camera.js:104 | searching from a position finds the first occurrence at or after it, or -1 when there is none |
| JsString.LastIndexOfSpec | pi/camera.js:103 | `lastIndexOf` returns the last position where the pattern occurs, and -1 exactly when it occurs nowhere |
| JsString.LastIndexOfFromSpec | pi/camera.js:103 | searching backwards from a position finds the last occurrence at or before it, or -1 |
| JsString.LastIndexOfSplit | pi/camera.js:103 | in `a + c + b` with no `c` in `b`, the last `c` is at index \|a\| |
| JsString.IndexOfSplit | pi/camera.js:104 | in `a + c + b` with no `c` in `a`, the first `c` is at index \|a\| |
| JsString.RelativeIndex | pi/camera.js:105 | a slice bound within the string is kept; a negative bound counts from the end; a bound past the end gives the length, and one before the start of the string gives 0 |
| JsString.Slice | pi/camera.js:105 | `slice` never yields more characters than the string has |
| JsString.SliceSpec | pi/camera.js:105 | bounds within the string select exactly those characters; a negative start or end counts from the end; an end past the string stands for its end; an end at or before the start gives the empty string |
| JsString.NatToStringSpec | pi/camera.js:109 | the decimal text of N is all digits, denotes N and has no leading zero unless N is 0 |
| JsString.NatTextPlain | pi/camera.js:109 | the text of a non-negative number has no `-`, `.` or `/` |
| JsString.TrimStartSpec | pi/camera.js:106 | `parseInt` skips exactly the leading white space: every skipped character is white space, and the rest starts with none |
| JsString.DigitPrefixSpec | pi/camera.js:106 | `parseInt` reads the longest run of decimal digits, stopping at the first non-digit |
| JsString.AllDigitsPrefix | pi/camera.js:106 | a string of digits is read in full |
| JsString.ParseIntToString | pi/camera.js:106 | `parseInt` of the decimal text of any integer gives that integer back |
| JsString.IntToStringInjective | pi/camera.js:108 | different integers have different decimal texts |
| JsString.ParseIntNoMinus | pi/camera.js:106 | text without `-` parses to a non-negative number or NaN |
| JsString.ParseIntNoDigits | pi/camera.js:106-107 | text with no digit parses to NaN, which is filtered out |
| JsString.StringLessIrreflexive | pi/camera.js:108 | string `<` is irreflexive |
| JsString.StringLessTransitive | pi/camera.js:108 | string `<` is transitive |
| JsString.StringLessTotal | pi/camera.js:108 | any two different strings are ordered one way and only one way |
| JsString.StringLeTransitive | pi/camera.js:108 | string `<=` is transitive |
| JsString.StringLeAntisymmetric | pi/camera.js:108 | string `<=` both ways means equal |
| JsSort.InsertSpec | pi/camera.js:108 | inserting into a sorted array keeps it sorted by decimal text and adds exactly the new element |
| JsSort.DefaultSortSpec | pi/camera.js:108 | `sort()` gives an arrangement of the same numbers, ordered by decimal text |
| JsSort.SortedPermutationUnique | pi/camera.js:108 | two sorted arrangements of the same numbers are equal, so the sorted result is determined by its elements |
| JsSort.LastIsGreatest | pi/camera.js:108-109 | the last element of a sorted array has the greatest decimal text |
| SequenceNaming.SortedLength | pi/camera.js:108-109 | sorting keeps every parsed number, so `sequences.length` counts the names that yield one |
| SequenceNaming.ParsedMembers | pi/camera.js:102-108 | a number is in the filtered list exactly when some listed name yields it |
| SequenceNaming.SequenceTextHasNoMinus | pi/camera.js:103-105 | the text after the last `-` holds no `-` |
| SequenceNaming.SequenceNumberNonNegative | pi/camera.js:103-107 | every number read from a name is non-negative |
| SequenceNaming.NoDotDropsLastChar | pi/camera.js:104-105 | a name with no `.` gives `end` = -1, so the slice drops its last character |
| SequenceNaming.DotBeforeLastDash | pi/camera.js:103-107 | a first `.` before the last `-` gives empty text and hence no number |
| SequenceNaming.SequenceNumberRoundTrip | pi/camera.js:102-109 | a name `stem-N.ext` built by a script is read back as N |
| SequenceNaming.ParsedNonNegative | pi/camera.js:102-108 | every number in the filtered list is non-negative |
| SequenceNaming.NextSequenceSpec | pi/camera.js:108-109 | the next number is 0 exactly when no name yields a number, and otherwise one more than the number with the greatest decimal text |
| SequenceNaming.SortedLastIsGreatest | pi/camera.js:108-109 | the last sorted element is a listed number with the greatest text |
| SequenceNaming.NextSequenceDeterminedByValues | pi/camera.js:102-109 | the next number depends only on the set of numbers read |
| SequenceNaming.ListingOrderIrrelevant | pi/camera.js:101-109 | the order and repetition of the directory listing do not change the next number |
| SequenceNaming.UnparsableNameIgnored | pi/camera.js:107-108 | a name that yields NaN changes nothing, whether appended or inserted at any position of the listing |
| SequenceNaming.NineAndTenGiveTen | pi/camera.js:108-109 | a listing holding the names for 9 and 10 yields 10, a number already taken |
| SequenceNaming.NineAndTenTexts | pi/camera.js:108 | "10" sorts before "9" |
| SequenceNaming.TwoNamesLexGreater | pi/camera.js:108-109 | of two names, the one whose number has the greater text decides, whatever the numeric order |
| Camera.VideoNameReadsBack | pi/camera.js:109 | the bare name `video-N.h264` reads back as N |
| Camera.VideoFilenameSpec | pi/camera.js:99-110 | `getVideoFilename()` is `/home/pi/videos/video-N.h264`, with N the next sequence number as characterised above |
| Camera.NineAndTenGiveTakenName | pi/camera.js:99-110 | with video-9 and video-10 present, the chosen file is video-10.h264, which already exists |
| Camera.AfterCreateVideo | pi/camera.js:67 | opening a write stream on the chosen path adds its name to the listing unless it is already there |
| Camera.AfterPassAddsName | pi/camera.js:43-48 | a pass changes the videos folder only by the chosen name |
| Camera.PhotoBurstSnoc | pi/camera.js:52-56 | one more turn of the photo loop appends a photo and a 6000 ms wait |
| Camera.CaptureLoop.constructor | pi/camera.js:31-32 | the loop starts with `continueLoop` true and `loopCount` 0, naming videos with `getVideoFilename()` |
| Camera.CaptureLoop.TakePhoto | pi/camera.js:87-97 | `takePhoto()` adds a photo to the trace and leaves the videos folder alone |
| Camera.CaptureLoop.Sleep | pi/camera.js:46 | awaiting a timeout adds a wait of that duration |
| Camera.CaptureLoop.StartVideo | pi/camera.js:63-74 | `startVideo(path)` creates the file and starts capture |
| Camera.CaptureLoop.StopVideo | pi/camera.js:76-84 | `stopVideo()` stops capture |
| Camera.CaptureLoop.TakePhotos | pi/camera.js:50-57 | `TakePhotos()` appends 30 (photo, 6000 ms) pairs |
| Camera.CaptureLoop.RecordVideo | pi/camera.js:43-48 | `RecordVideo()` starts a video at the path chosen from the current listing, waits 30000 ms, stops, and the folder gains that file |
| Camera.CaptureLoop.LoopBody | pi/camera.js:35-40 | one turn: photos, a video, then `loopCount += loopCount` |
| Camera.CaptureLoop.RunLoop | pi/camera.js:33-41 | after n passes the trace is n passes, each into the path chosen from the folder the earlier passes left; the folder and counter are as n passes make them; no pass runs when `continueLoop` is false |
| Camera.LoopStep | pi/camera.js:35-40 | one more turn extends the trace and the listing by exactly one pass |
| Camera.LoopCountStaysZero | pi/camera.js:32-39 | `loopCount` doubled any number of times is 0 exactly when it started at 0, so it never counts passes |
| Camera.PhotoBurstShape | pi/camera.js:52-56 | turn i of the photo loop is a photo at position 2i and a 6000 ms wait after it |
| Camera.PassShape | pi/camera.js:35-57 | a pass is 63 actions: 30 photo/wait pairs, then the video start, a 30000 ms wait and the stop |
| Camera.TallyConcat | pi/camera.js:33-41 | photos, video starts and wait time add up over concatenated traces |
| Camera.PhotoBurstTally | pi/camera.js:50-57 | the photo loop takes 30 photos, starts no video and waits 30 x 6000 ms |
| Camera.PassTally | pi/camera.js:35-57 | a pass takes 30 photos, starts one video and waits 210000 ms |
| Camera.PassesTally | pi/camera.js:33-41 | n passes take 30n photos, start n videos and wait 210000n ms |
| Camera.VideoPathsLength | pi/camera.js:33-48 | n passes record n videos |
| Camera.ReplayConcat | pi/camera.js:33-84 | replaying two traces in sequence replays the second from where the first ends |
| Camera.PhotoBurstIdle | pi/camera.js:50-57 | photos are taken while no video records |
| Camera.PassIdle | pi/camera.js:35-48 | a pass that starts with no video recording takes no photo while recording, never starts a second video or stops when none runs, and ends with no video recording |
| Camera.PassesWellBracketed | pi/camera.js:33-41 | over any number of passes no photo is taken while recording, and no video is started twice or stopped when none runs |
| Camera.TakenNameRepeats | pi/camera.js:99-110 | once the chosen name is already in the folder, the folder stays the same and every later pass records into that file |
| Camera.FixedListingRepeats | pi/camera.js:33-48 | for any naming rule, a listing that one pass leaves unchanged stays unchanged over any number of passes, and every pass records into the same path |
| Camera.TakenNameKept | pi/camera.js:63-67 | a pass whose chosen name is listed leaves the listing unchanged |
| Camera.NineAndTenOverwrite | pi/camera.js:99-110 | with video-9 and video-10 present, every pass overwrites video-10.h264 |
| BmeLogger.LogNameReadsBack | pi/bme-logger.js:68 | `bme280-N.txt` reads back as N |
| BmeLogger.Bme280LogFilenameSpec | pi/bme-logger.js:59-69 | `getBME280LogFilename()` is `bme280-N.txt`, with N the next sequence number |
| BmeLogger.NineAndTenReuseLog | pi/bme-logger.js:59-69 | with bme280-9 and bme280-10 present, a new run appends to bme280-10.txt |
| BmeLogger.SensorLogger.constructor | pi/bme-logger.js:17 | the log name is chosen once, at start-up |
| BmeLogger.SensorLogger.ReadSensorData | pi/bme-logger.js:27-47 | a reading is appended as JSON plus a comma, an error prints `BME280 read error: …`, and either way a 10000 ms timer is armed |
| BmeLogger.SensorLogger.Init | pi/bme-logger.js:51-56 | on success it prints and makes the first read; on failure it prints the error with its trailing space and never reads |
| BmeLogger.SensorLogger.TimerFires | pi/bme-logger.js:41-45 | a timer that fires runs `readSensorData`, which arms the next one, so the number of pending timers is unchanged |
| BmeLogger.SensorLogger.RunReadings | pi/bme-logger.js:27-47 | successive reads give the effects of each read in order, and the pending timer count is kept |
| BmeLogger.ReadingsConcat | pi/bme-logger.js:27-47 | each read adds its own effects whatever came before |
| BmeLogger.ReadingsRearm | pi/bme-logger.js:41-45 | every read arms exactly one timer, so an error never stops the loop |
| BmeLogger.ReadingsLogged | pi/bme-logger.js:39 | the chosen log receives exactly the successful readings, each followed by a comma, in order; no other file is written |
| BmeLogger.ErrorThenReading | pi/bme-logger.js:39-44 | a failed read leaves the log as it was, and the next reading is appended as usual |
| BmeLogger.LoggedConcat | pi/bme-logger.js:39 | the log of two runs of reads is the first's log followed by the second's |
| BmeLogger.ReadEffectsCounts | pi/bme-logger.js:39-45 | one read appends only its reading, only to the log, and arms one timer |
| StageMarker.IsStageEvent | pi/usb-data-logger.js:28-29 | a line is a stage event exactly when it contains `flight-stage-change:` anywhere |
| StageMarker.StageEventAnywhere | pi/serialread.js:12-13 | the phrase is recognised at any position in the line |
| StageMarker.StageTokenIsSecondChar | pi/usb-data-logger.js:30 | the token passed on is one character, the line's second |
| StageMarker.TokenIgnoresDigit | pi/serialread.js:14 | a line starting with the phrase passes on `l`, not the stage digit |
| StageMarker.StageCallsConcat | pi/serialread.js:8-16 | handler calls add up over concatenated effect runs |
| StageMarker.StageTokensCount | pi/serialread.js:13 | there are at most as many tokens as lines, and none when no line holds the phrase |
| SerialRead.FlightStageChanged | pi/serialread.js:18-20 | the handler prints exactly one line, `flightStageChanged` and the token, and does nothing else |
| SerialRead.OnDataShape | pi/serialread.js:8-16 | a line is printed first; for a phrase line the handler gets the second character and prints it |
| SerialRead.SessionOnlyPrints | pi/serialread.js:8-20 | the script never writes a file |
| SerialRead.SessionStageCalls | pi/serialread.js:8-16 | over a stream, the handler is called once per phrase line, in order, with that line's token |
| UsbDataLogger.ArduinoLogFilenameValues | pi/usb-data-logger.js:44-54 | the chooser gives `arduino-0` for no parsed name and `arduino-undefined` otherwise |
| UsbDataLogger.OwnNameLosesLastDigit | pi/usb-data-logger.js:47-51 | a name `arduino-N` has no `.`, so it reads back as N / 10 (NaN for one digit) |
| UsbDataLogger.FlightStageChanged | pi/usb-data-logger.js:34-42 | the stage switch has no effect for any token |
| UsbDataLogger.OnDataShape | pi/usb-data-logger.js:22-32 | each line is appended before the phrase test; the handler is called exactly for phrase lines |
| Effects.AppendedConcat | pi/usb-data-logger.js:24 | the text appended to a file by two runs of effects is the first run's text followed by the second's |
| UsbDataLogger.OnDataLogsLine | pi/usb-data-logger.js:22-32 | one line appends exactly that line and yields its token when it holds the phrase |
| UsbDataLogger.SessionLogsEveryLine | pi/usb-data-logger.js:22-32 | the log file receives every line in order with nothing between them, and the handler gets one token per phrase line |
| DataLogger.ArduinoLogFilenameSpec | pi/data-logger.js:24-34 | the path is `/home/pi/arduinologs/arduino-N.log`, with N the next sequence number |
| DataLogger.LogNameReadsBack | pi/data-logger.js:33 | `arduino-N.log` reads back as N |
| DataLogger.TwoAndTenGiveThree | pi/data-logger.js:32-33 | with arduino-2.log and arduino-10.log present, the next log is arduino-3.log, not arduino-11.log |

## Left out

- File system calls: `existsSync`/`mkdirSync`, `readdirSync`, `writeFileSync`, `appendFileSync` and `createWriteStream`. The directory listing is a parameter or a field, and writes are effects or listing updates.
- The camera, BME280 and serial-port drivers are foreign code. Camera calls are trace actions, sensor reads are given as outcomes, and serial data is given as lines.
- The BME280 unit conversions, the `toJSON()` timestamp and `JSON.stringify(data, null, 2)` use floating point and foreign code. A reading is given as its JSON text.
- `takePhoto` writes `${PHOTOS_FOLDER}/${Date.now()}.jpg`, which depends on the clock. The photo's file name is not modelled.
- Real time and asynchrony are not modelled: `setTimeout`, promises and `await`. A wait is a trace entry carrying its duration, and a timer is a pending count.
- `log.info` and `log.error` in camera.js only write a log and change nothing, so they are left out. The `catch` blocks that only log are left out too: a failed driver call is not modelled.
- Camera.CaptureLoop.RunLoop: runs at most the given number of passes, because the script's `while (continueLoop)` never ends and nothing clears the flag.
- Camera.CaptureLoop.constructor: the naming rule is a constant of the loop set to `getVideoFilename()` at construction. The lemmas about name reuse are stated for that rule.
- pi/data-logger.js creates its logger at line 8, before `ARDUINO_LOGS_FOLDER` is initialised at line 17. Its `info.log` handler calls a method that `console.info` does not have. Only its name chooser is modelled.
- The readline parser's framing of serial data into lines is not modelled. Handlers receive whole lines.
- `parseInt` is exact on all integers. The script's Numbers lose precision above 2^53, and no file name reaches that.
- Strings are sequences of code points. JavaScript's strings are sequences of UTF-16 code units, and a character outside the Basic Multilingual Plane takes two of them. For such characters, the model differs from the scripts in string order, in `indexOf`/`lastIndexOf` positions, in `slice`, and in the stage token. For example, a line starting with an emoji gives the scripts half a surrogate pair as its token, but gives the model the next character. The name chooser's result is the same either way: its cut points `-` and `.` and the digits are all in the Basic Multilingual Plane.
- `VIDEO_INTERVAL` and `INTERVALOMETER_COUNT` are declared in pi/camera.js but never used. The photo loop's bound is the literal 30.
- The scripts have no flight-stage state machine and no scheduler. A stage line only reaches the handlers above, and each script runs on its own.
