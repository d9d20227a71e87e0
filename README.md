# video-vpx-replay: replay-and-publish state machine

`video-vpx-replay` replays the envelopes of a `.rec` recording. Each
`opendlv.proxy.ImageReading` envelope goes to an image handler. The
handler picks one video stream through a sender filter, lets only h264
frames through, creates a shared memory region the first time such a frame
arrives, and publishes each frame into that region with the calls `lock`,
`setTimeStamp`, `unlock` and `notifyAll`. Every other envelope is forwarded
unchanged to a live OD4 session. The loop paces the replay: it sleeps for
the player's recommended delay minus the time the handler took.

This project models that logic. The live code contains no decoder and no
colour conversion: those lines are commented out, so publishing writes no
pixels. The model does not invent them.

Modules:

- `Types` (types.dfy): envelopes, the fields of an ImageReading, replay
  entries, `uint32` and the cast to it.
- `Pacing` (pacing.dfy): the two clamps of the loop, decoding time and
  sleeping time.
- `Publish` (publish.dfy):
  - the calls made on the region, as an event trace;
  - the region size computed in 32-bit arithmetic;
  - the lock protocol, as a reference predicate over traces.
- `Pipeline` (pipeline.dfy):
  - the state machine as a value (`State`, `HandleImage`, `Step`, `Steps`);
  - the class `Replayer`, which holds that state in fields. Its methods
    `OnNewImage`, `Publish` and `Run` are proved against those functions.
- `Properties` (properties.dfy): reference projections of a run. They say
  which envelopes are routed, forwarded or published, and which sleeps are
  issued. The lemmas tie whole runs of the state machine to them.
- `CommandLine` (commandline.dfy): the parsed command line as the entries
  of a `std::map`, the recording-path search loop, and the finding below.
- `Launcher` (launcher.dfy): `main`, including its exit code.

Inputs that come from outside are parameters:

- One `Entry` per loop turn carries:
  - what `od4.isRunning()` answers;
  - the `(found, envelope)` pair the player returns;
  - `player.delay()`;
  - the two clock readings around the handler, in microseconds.
- `hasMoreData()` is true while entries remain.
- An envelope carries the ImageReading fields that `extractMessage` would
  decode from it.
- The integer that `std::stoi` makes of the `--id` value is an input.
- The set of paths that can be opened is an input.

The ImageReading message identifier is 1055, its number in the OpenDLV
standard message set.

Three behaviours of the code are easy to miss. The model follows the code
in each:

- The sender filter applies only to image envelopes. Envelopes of other
  types are forwarded whatever their sender.
- Only an image envelope can fix the filter when `--id` is absent. An
  envelope of another type seen first does not fix it.
- There is no codec session and no format switching. The only format
  gate is the comparison with `h264`.

## Model

| member | source | states |
|---|---|---|
| `Types.ToUint32` | src/video-vpx-replay.cpp:34 | the cast of the parsed `--id` to `uint32_t` is congruent to it modulo 2^32, and is the identity on values already in range |
| `Pacing.DecodingTime` | src/video-vpx-replay.cpp:136-137 | the decoding time is `max(0, after - before)`: never negative, never below the clock delta, and equal to the delta or to 0 |
| `Pacing.SleepingTime` | src/video-vpx-replay.cpp:143-144 | the sleeping time is `max(0, delay - decodingTime)`: never negative, and decoding plus sleeping covers the whole delay |
| `Pacing.SleepWithinDelay` | src/video-vpx-replay.cpp:143-146 | with a non-negative decoding time the sleep never exceeds `max(0, delay)`; within budget, decoding plus sleeping is exactly the delay; over budget the loop does not sleep |
| `Pacing.SleepIssuedIff` | src/video-vpx-replay.cpp:144-146 | a sleep is issued (positive sleeping time) exactly when decoding took less than the delay |
| `Publish.RegionSizeIsFootprint` | src/video-vpx-replay.cpp:70-75 | the region size `WIDTH*HEIGHT*4` computed in `uint32_t` is the 4-bytes-per-pixel footprint modulo 2^32, and is exact whenever the footprint fits in 32 bits |
| `Publish.RegionSizeWrapsForHugeFrames` | src/video-vpx-replay.cpp:74-75 | a 65536 x 16384 frame wraps to a region of 0 bytes |
| `Publish.PublishBlockFacts` | src/video-vpx-replay.cpp:103-114 | one publish tags the region with its own time stamp only, creates nothing, obeys the lock protocol and ends with the lock released |
| `Publish.TaggedStampsOfPublishTrace` | src/video-vpx-replay.cpp:104 | reading the `setTimeStamp` values back from a sequence of publishes gives the published time stamps, in order |
| `Publish.NoCreationInPublishTrace` | src/video-vpx-replay.cpp:103-114 | publishing never creates a region |
| `Publish.PublishTraceObeysLock` | src/video-vpx-replay.cpp:103-114 | publishes never interleave: any sequence of them obeys the lock protocol (the time stamp is set only under the lock, waiters are signalled only after unlock) and leaves the lock released |
| `Pipeline.Initial` | src/video-vpx-replay.cpp:33-34 | the filter starts fixed exactly when `--id` is given, at its value; no region, no calls, nothing forwarded, no sleeps |
| `Pipeline.HandleImage` | src/video-vpx-replay.cpp:60-118 | the handler fixes the filter to the first sender if unset and never changes it afterwards; it forwards and sleeps nothing; an existing region is never resized; a non-matching sender or a non-h264 format changes nothing but the filter; a matching frame appends [create] + lock, setTimeStamp(its sampleTimeStamp), unlock, notifyAll, with the create only when no region exists yet and then sized from this frame |
| `Pipeline.SleepOf` | src/video-vpx-replay.cpp:130-144 | the sleep of a turn lies between 0 and `max(0, delay)`; for a forwarded envelope it is `max(0, delay)` (decoding time 0); for an image decoded within budget, decoding plus sleep is the delay |
| `Pipeline.Step` | src/video-vpx-replay.cpp:126-147 | an entry not found changes nothing; a forwarded envelope is appended unchanged to the forward trace and touches neither filter nor region, whatever its sender; an image forwards nothing; a sleep is recorded exactly when the turn's sleeping time is positive |
| `Pipeline.StopIndexIsFirstHalt` | src/video-vpx-replay.cpp:125 | the loop's number of turns is uniquely the first index at which data ran out or the session stopped running |
| `Pipeline.Replayer.constructor` | src/video-vpx-replay.cpp:31-34 | a new pipeline object holds the initial state for the configured filter and the region name |
| `Pipeline.Replayer.Publish` | src/video-vpx-replay.cpp:103-114 | appends exactly lock, setTimeStamp(ts), unlock, notifyAll to the region's calls and changes nothing else |
| `Pipeline.Replayer.OnNewImage` | src/video-vpx-replay.cpp:60-118 | the imperative handler changes the object's state exactly as `HandleImage` does |
| `Pipeline.Replayer.Run` | src/video-vpx-replay.cpp:125-149 | the loop makes one turn per entry while data remains and the session runs, stops at the first entry that says otherwise, and leaves the object in the state `Steps` gives for the entries it processed |
| `Properties.ForwardedInReplayOrder` | src/video-vpx-replay.cpp:131-141 | the forward trace of any run is the found non-image envelopes, unchanged and in replay order |
| `Properties.SleepsInReplayOrder` | src/video-vpx-replay.cpp:143-147 | the sleeps of any run are the positive clamped sleeping times of its found entries, in order |
| `Properties.IssuedSleepsPositive` | src/video-vpx-replay.cpp:144-146 | every issued sleep is positive, and there is at most one per entry |
| `Properties.IdFixedOnceSet` | src/video-vpx-replay.cpp:61-65 | once the filter is fixed, no run changes it |
| `Properties.NoImageNoChange` | src/video-vpx-replay.cpp:131-141 | a run without image envelopes touches neither the filter nor the region nor its calls |
| `Properties.AdoptsFirstImageSender` | src/video-vpx-replay.cpp:61-66 | without `--id`, a run behaves exactly as if the sender stamp of its first image envelope had been configured |
| `Properties.RegionNeverResized` | src/video-vpx-replay.cpp:73-75 | once the region exists, no later frame recreates or resizes it |
| `Properties.PublishesSelected` | src/video-vpx-replay.cpp:66-114 | with the filter fixed, a run creates the region at most once, sized from the first frame passing filter and format gate, and appends one publish per such frame with that frame's time stamp, in replay order |
| `Properties.ReplayFromStart` | src/video-vpx-replay.cpp:60-149 | a whole replay from the initial state ends in the reference outcome: filter = `--id`, else the first image's sender; region exists iff some image passes filter and h264 gate, sized from the first; calls = [create] + one publish per such frame; forwards and sleeps as the projections say |
| `Properties.RegionTraceWellFormed` | src/video-vpx-replay.cpp:73-114 | over a whole replay the region calls obey the lock protocol and end unlocked, the region is created exactly once if any frame is published (never otherwise), and the stamps written are those of the published frames, in order |
| `CommandLine.Lookup` | src/video-vpx-replay.cpp:20-21 | a key is found exactly when some entry has it, and the value found is that entry's |
| `CommandLine.SelectRecordingFile` | src/video-vpx-replay.cpp:36-42 | the search loop returns the key of the first entry with an empty value that is not the program name, or the empty string if there is none |
| `CommandLine.RecordingPathIsPositional` | src/video-vpx-replay.cpp:36-42 | when exactly one entry names the recording, as with a single positional argument, the recording path is that entry, wherever it sorts |
| `CommandLine.InsertionIndex` | src/video-vpx-replay.cpp:33 | the position at which the map places a new key is the first entry whose key sorts after it: no earlier entry sorts after the key |
| `CommandLine.InsertAtKeepsOrder` | src/video-vpx-replay.cpp:33 | a key absent from an ordered map, placed at that position, sorts after every earlier entry and before every later one, and the map stays ordered by key |
| `CommandLine.InsertSorted` | src/video-vpx-replay.cpp:33 | inserting into the map adds exactly the new entry: the entries before its key-order position are kept in place, the new entry sits at that position, the later ones move up by one; into an ordered map lacking the key the result is ordered by key |
| `CommandLine.LookupOtherAfterInsert` | src/video-vpx-replay.cpp:33 | inserting one key leaves the entry found for every other key unchanged |
| `CommandLine.IndexInserting` | src/video-vpx-replay.cpp:33 | `operator[]` leaves the key present and reads the stored value, or the empty string for a missing key; a missing key is inserted with the empty value at its key-order position; every other key keeps its entry; key order is kept |
| `CommandLine.InsertedKeyShadows` | src/video-vpx-replay.cpp:33-42 | a key inserted with the empty value is taken for the recording whenever every argument naming a recording sorts after it |
| `CommandLine.MissingIdShadowsLaterRecordings` | src/video-vpx-replay.cpp:33-42 | without `--id`, the program as written selects `id` for the recording whenever every positional argument sorts after `id` |
| `CommandLine.InsertedIdShadowsRecording` | src/video-vpx-replay.cpp:33-42 | for `./video-vpx-replay --cid=111 --name=data recording.rec`, the intended path is `recording.rec` but the program as written selects `id` |
| `Launcher.ConfiguredId` | src/video-vpx-replay.cpp:33-34 | the filter is configured exactly when the `--id` value is non-empty, at the parsed value cast to `uint32_t` |
| `Launcher.Replay` | src/video-vpx-replay.cpp:53-149 | creating the pipeline object and running the loop ends in the reference outcome of the entries up to the loop's stop |
| `Launcher.Launch` | src/video-vpx-replay.cpp:16-160 | `main` with the recording search corrected to run over the map as parsed: exit code 0 exactly when `cid` and `name` are present and the recording path is non-empty and opens, 1 otherwise; the replay runs exactly then, and its outcome is the reference outcome of the entries up to the loop's stop |
| `Launcher.LaunchAsWritten` | src/video-vpx-replay.cpp:16-160 | `main` as written, with the search running over the map after `operator[]("id")`: exit code 0 exactly when `cid` and `name` are present and the path found in that map is non-empty and opens, 1 otherwise; the replay's outcome is the same reference outcome |
| `Launcher.MissingIdNeedsFileCalledId` | src/video-vpx-replay.cpp:33-46 | without `--id`, when every positional argument sorts after `id`, the program as written replays exactly when `cid` and `name` are given and a file called `id` opens |
| `Launcher.ExampleExitCodes` | src/video-vpx-replay.cpp:33-46 | `./video-vpx-replay --cid=111 --name=data recording.rec` with `recording.rec` openable: the corrected program replays, the program as written exits with 1 |

## Findings

| source | as written | input that shows it | evidently intended | confidence | as-written member | corrected member |
|---|---|---|---|---|---|---|
| src/video-vpx-replay.cpp:33-42 | `commandlineArguments["id"]` uses `std::map::operator[]`, which inserts `("id", "")` when `--id` is absent. The search at lines 37-42 then treats `id` as a positional argument. | `./video-vpx-replay --cid=111 --name=data recording.rec`: `id` sorts before `recording.rec`, so `id` is selected, the open fails, and the exit code is 1 | the recording path is the positional argument; read `--id` without inserting (`count`/`find`) | high: standard `std::map` semantics; not executed | `CommandLine.InsertedIdShadowsRecording` and `CommandLine.MissingIdShadowsLaterRecordings` (over `CommandLine.RecordingPathAsWritten`); `Launcher.LaunchAsWritten` with `Launcher.ExampleExitCodes` | `CommandLine.SelectRecordingFile` with `CommandLine.RecordingPathIsPositional`; `Launcher.Launch` uses it |

## Left out

- Reading and parsing the `.rec` file, and the player's prefetch thread: foreign library code and concurrency. The player is the entry sequence.
- OD4 session networking: `send` appends to the forward trace, and `isRunning` is an entry field.
- The internals of `cluon::SharedMemory`, its inter-process locking, and what other processes see. Only the calls are modelled. Atomicity under concurrent readers is a concurrency property.
- Failure to create the shared memory region: the model assumes creation succeeds.
- The X11 preview (`--verbose`), and all usage and diagnostic printing.
- Protobuf decoding by `extractMessage`, and `std::stoi` parsing of `--id` and `--cid`, including the exceptions `std::stoi` throws on malformed text: foreign calls. Their results are inputs.
- How `cluon::getCommandlineArguments` turns `argv` into the map: library code. The model takes the parsed map as its entries in key order.
- `Less` orders characters by code point. `std::string` compares bytes as unsigned char; the two agree on ASCII text.
- The decoder and the pixel conversion, which are commented out in the source.
- Sleeping and reading the clock: the clock readings and the delay are integer inputs in microseconds. The model does not bound `after - before` to `int64_t`. It does not model the cast of the sleep to an `int32_t` microsecond count at line 146, which a sleep of more than 2^31 - 1 microseconds would wrap.
- The region's name does not appear in the event trace. It is fixed for the object's lifetime.
- Launcher.Launch: models `main` with the corrected recording search, over the map before `id` is inserted. Without `--id` it can exit 0 where the program as written exits 1. `Launcher.LaunchAsWritten` models the program as written, and `Launcher.ExampleExitCodes` shows an input on which the two differ.
