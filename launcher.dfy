/** The program's entry: argument checks, the choice of the recording, the
    replay, and the exit code. */
module Launcher {
  import opened Types
  import opened CommandLine
  import opened Pipeline
  import opened Properties

  /** The sender filter `--id` configures: none when its value is empty,
      otherwise the parsed integer cast to `uint32_t`. */
  function ConfiguredId(args: seq<Argument>, idValue: int): (r: Option<uint32>)
    ensures r.Some? <==> Value(args, "id") != ""
    ensures r.Some? ==> (r.value - idValue) % U32_MODULUS == 0
  {
    if Value(args, "id") != "" then Some(ToUint32(idValue)) else None
  }

  /** Whether the program gets as far as the replay when it searches the
      given map: `--cid` and `--name` are given and the recording path is
      non-empty and opens. */
  predicate Replays(program: string, args: seq<Argument>, openable: set<string>) {
    Lookup(args, "cid").Some? && Lookup(args, "name").Some? &&
    RecordingPath(args, program) != "" && RecordingPath(args, program) in openable
  }

  /** The same, for the program as written: the search runs over the map
      after reading `--id` has inserted `id` into it. */
  predicate ReplaysAsWritten(program: string, args: seq<Argument>, openable: set<string>) {
    Lookup(args, "cid").Some? && Lookup(args, "name").Some? &&
    RecordingPathAsWritten(args, program) != "" && RecordingPathAsWritten(args, program) in openable
  }

  /** The replay proper: the pipeline object for the region `name` runs the
      loop over the entries. */
  method Replay(name: string, configuredId: Option<uint32>, entries: seq<Entry>) returns (outcome: State)
    ensures outcome == ExpectedReplay(configuredId, entries[..StopIndex(entries)])
  {
    var replayer := new Replayer(name, configuredId);
    var processed := replayer.Run(entries);
    StopIndexIsFirstHalt(entries, processed);
    ReplayFromStart(configuredId, entries[..processed]);
    outcome := replayer.Snapshot();
  }

  /** The whole program with the recording search corrected to run over the
      map as parsed.  `idValue` is what parsing the `--id` value as an
      integer yields, `openable` the paths that can be opened for reading,
      and `entries` what the player and the session answer turn by turn.
      The exit code is 0 exactly when the replay ran; the replay's outcome
      is then that of the entries up to the loop's stop. */
  method Launch(program: string, args: seq<Argument>, idValue: int, openable: set<string>, entries: seq<Entry>)
    returns (retCode: int, outcome: Option<State>)
    ensures retCode == 0 || retCode == 1
    ensures retCode == 0 <==> Replays(program, args, openable)
    ensures outcome.Some? <==> retCode == 0
    ensures outcome.Some? ==>
      outcome.value == ExpectedReplay(ConfiguredId(args, idValue), entries[..StopIndex(entries)])
  {
    retCode := 1;
    outcome := None;
    if Lookup(args, "cid").None? || Lookup(args, "name").None? {
      return;
    }
    var name := Value(args, "name");
    var configuredId := ConfiguredId(args, idValue);
    var recFile := SelectRecordingFile(args, program);
    if recFile != "" && recFile in openable {
      var result := Replay(name, configuredId, entries);
      outcome := Some(result);
      retCode := 0;
    }
  }

  /** The whole program as written: reading `--id` with `operator[]`
      inserts `id` into the map before the recording search runs over it. */
  method LaunchAsWritten(program: string, args: seq<Argument>, idValue: int, openable: set<string>, entries: seq<Entry>)
    returns (retCode: int, outcome: Option<State>)
    ensures retCode == 0 || retCode == 1
    ensures retCode == 0 <==> ReplaysAsWritten(program, args, openable)
    ensures outcome.Some? <==> retCode == 0
    ensures outcome.Some? ==>
      outcome.value == ExpectedReplay(ConfiguredId(args, idValue), entries[..StopIndex(entries)])
  {
    retCode := 1;
    outcome := None;
    if Lookup(args, "cid").None? || Lookup(args, "name").None? {
      return;
    }
    var name := Value(args, "name");
    var indexed := IndexInserting(args, "id");
    var configuredId := ConfiguredId(indexed, idValue);
    var recFile := SelectRecordingFile(indexed, program);
    if recFile != "" && recFile in openable {
      var result := Replay(name, configuredId, entries);
      outcome := Some(result);
      retCode := 0;
    }
  }

  /** Without `--id`, when every argument naming a recording sorts after
      `id`, the program as written replays only if a file called `id` opens,
      whatever recording was named. */
  lemma {:induction false} MissingIdNeedsFileCalledId(program: string, args: seq<Argument>, openable: set<string>)
    requires Lookup(args, "id").None? && program != "id"
    requires forall k :: 0 <= k < |args| && NamesRecording(args[k], program) ==> Less("id", args[k].key)
    ensures ReplaysAsWritten(program, args, openable) <==>
      Lookup(args, "cid").Some? && Lookup(args, "name").Some? && "id" in openable
  {
    MissingIdShadowsLaterRecordings(args, program);
  }

  lemma ExampleOptionsGiven()
    ensures Lookup(EXAMPLE_ARGS, "cid").Some? && Lookup(EXAMPLE_ARGS, "name").Some?
  {
    assert EXAMPLE_ARGS[1].key == "cid" && EXAMPLE_ARGS[2].key == "name";
  }

  /** With `--cid` and `--name` given, each variant replays exactly when the
      path it selects is non-empty and opens. */
  lemma ReplaysByPath(program: string, args: seq<Argument>, openable: set<string>)
    requires Lookup(args, "cid").Some? && Lookup(args, "name").Some?
    ensures Replays(program, args, openable) <==> RecordingPath(args, program) in openable - {""}
    ensures ReplaysAsWritten(program, args, openable) <==> RecordingPathAsWritten(args, program) in openable - {""}
  {
  }

  /** `./video-vpx-replay --cid=111 --name=data recording.rec` with
      `recording.rec` present: the corrected program replays it, the
      program as written exits with 1. */
  lemma ExampleExitCodes()
    ensures Replays(EXAMPLE_PROGRAM, EXAMPLE_ARGS, {"recording.rec"})
    ensures !ReplaysAsWritten(EXAMPLE_PROGRAM, EXAMPLE_ARGS, {"recording.rec"})
  {
    InsertedIdShadowsRecording();
    ExampleOptionsGiven();
    ReplaysByPath(EXAMPLE_PROGRAM, EXAMPLE_ARGS, {"recording.rec"});
  }
}
