/** The command line as the program sees it after parsing: a map from keys
    to values, held here as its entries in the map's iteration order
    (ascending by key).  Options `--key=value` carry their value; the
    program name and positional arguments carry the empty value. */
module CommandLine {
  import opened Types

  datatype Argument = Argument(key: string, value: string)

  /** `std::string` ordering: lexicographic by character, a proper prefix
      first. */
  predicate Less(a: string, b: string)
    decreases |a|
  {
    |b| > 0 && (|a| == 0 || a[0] < b[0] || (a[0] == b[0] && Less(a[1..], b[1..])))
  }

  /** `Less` is a strict total order, as a map's key comparison must be. */
  lemma {:induction false} LessIrreflexive(a: string)
    ensures !Less(a, a)
    decreases |a|
  {
    if |a| > 0 {
      LessIrreflexive(a[1..]);
    }
  }

  lemma {:induction false} LessAsymmetric(a: string, b: string)
    requires Less(a, b)
    ensures !Less(b, a)
    decreases |a|
  {
    if |a| > 0 && a[0] == b[0] {
      LessAsymmetric(a[1..], b[1..]);
    }
  }

  lemma {:induction false} LessTransitive(a: string, b: string, c: string)
    requires Less(a, b) && Less(b, c)
    ensures Less(a, c)
    decreases |a|
  {
    if |a| > 0 && a[0] == b[0] && b[0] == c[0] {
      LessTransitive(a[1..], b[1..], c[1..]);
    }
  }

  lemma {:induction false} LessTotal(a: string, b: string)
    requires a != b
    ensures Less(a, b) || Less(b, a)
    decreases |a|
  {
    if |a| > 0 && |b| > 0 && a[0] == b[0] {
      assert a == [a[0]] + a[1..] && b == [b[0]] + b[1..];
      LessTotal(a[1..], b[1..]);
    }
  }

  /** The entries of a `std::map` are ordered strictly by key. */
  predicate SortedByKey(args: seq<Argument>) {
    forall i, j :: 0 <= i < j < |args| ==> Less(args[i].key, args[j].key)
  }

  /** The value stored under `key`, if the map has that key (`count`). */
  function Lookup(args: seq<Argument>, key: string): (r: Option<string>)
    ensures r.None? <==> forall i :: 0 <= i < |args| ==> args[i].key != key
    ensures r.Some? ==> exists i :: 0 <= i < |args| && args[i] == Argument(key, r.value)
    decreases |args|
  {
    if args == [] then None
    else if args[0].key == key then Some(args[0].value)
    else
      var r := Lookup(args[1..], key);
      assert forall i :: 0 < i < |args| ==> args[i] == args[1..][i - 1];
      r
  }

  /** The value `operator[]` reads: the stored one, or the empty string. */
  function Value(args: seq<Argument>, key: string): string {
    match Lookup(args, key)
    case Some(v) => v
    case None => ""
  }

  /** Whether an entry names the recording: an empty value, and not the
      program name itself. */
  predicate NamesRecording(a: Argument, program: string) {
    a.value == "" && a.key != program
  }

  /** The key of the first entry, in iteration order, that names the recording. */
  function FirstRecordingKey(args: seq<Argument>, program: string): Option<string>
    decreases |args|
  {
    if args == [] then None
    else if NamesRecording(args[0], program) then Some(args[0].key)
    else FirstRecordingKey(args[1..], program)
  }

  /** The recording path: the first such key, or the empty string if none. */
  function RecordingPath(args: seq<Argument>, program: string): string {
    match FirstRecordingKey(args, program)
    case Some(k) => k
    case None => ""
  }

  /** `FirstRecordingKey` finds the entry at `i` when it is the first that
      names the recording. */
  lemma {:induction false} FirstRecordingKeyAt(args: seq<Argument>, program: string, i: nat)
    requires i < |args| && NamesRecording(args[i], program)
    requires forall k :: 0 <= k < i ==> !NamesRecording(args[k], program)
    ensures FirstRecordingKey(args, program) == Some(args[i].key)
    decreases i
  {
    if i > 0 {
      assert !NamesRecording(args[0], program);
      assert forall k :: 0 <= k < i - 1 ==> args[1..][k] == args[k + 1];
      FirstRecordingKeyAt(args[1..], program, i - 1);
    }
  }

  /** `FirstRecordingKey` finds nothing when no entry names the recording. */
  lemma {:induction false} FirstRecordingKeyNone(args: seq<Argument>, program: string)
    requires forall k :: 0 <= k < |args| ==> !NamesRecording(args[k], program)
    ensures FirstRecordingKey(args, program).None?
    decreases |args|
  {
    if args != [] {
      assert forall k :: 0 <= k < |args| - 1 ==> args[1..][k] == args[k + 1];
      FirstRecordingKeyNone(args[1..], program);
    }
  }

  /** When exactly one entry names the recording, as with one positional
      argument, the recording path is that entry's key, wherever it sorts. */
  lemma RecordingPathIsPositional(args: seq<Argument>, program: string, i: nat)
    requires i < |args| && NamesRecording(args[i], program)
    requires forall k :: 0 <= k < |args| && k != i ==> !NamesRecording(args[k], program)
    ensures RecordingPath(args, program) == args[i].key
  {
    FirstRecordingKeyAt(args, program, i);
  }

  /** The search loop over the map's entries, with its `break`. */
  method SelectRecordingFile(args: seq<Argument>, program: string) returns (recFile: string)
    ensures recFile == RecordingPath(args, program)
    ensures recFile != "" ==> exists i :: 0 <= i < |args| && NamesRecording(args[i], program) && args[i].key == recFile
  {
    recFile := "";
    for i := 0 to |args|
      invariant forall k :: 0 <= k < i ==> !NamesRecording(args[k], program)
      invariant recFile == ""
    {
      if args[i].value == "" && args[i].key != program {
        recFile := args[i].key;
        FirstRecordingKeyAt(args, program, i);
        return;
      }
    }
    FirstRecordingKeyNone(args, program);
  }

  // The program reads `--id` with `operator[]`, which inserts the key with
  // an empty value when it is missing, and only then searches the map for
  // the recording.  The functions below model that order of events.

  /** The position at which `std::map` places a new entry with `key`: the
      first entry whose key sorts after it. */
  function InsertionIndex(args: seq<Argument>, key: string): (i: nat)
    ensures i <= |args|
    ensures forall k :: 0 <= k < i ==> !Less(key, args[k].key)
    ensures i < |args| ==> Less(key, args[i].key)
    decreases |args|
  {
    if args == [] || Less(key, args[0].key) then 0
    else
      var j := InsertionIndex(args[1..], key);
      assert forall k :: 0 < k < |args| ==> args[k] == args[1..][k - 1];
      1 + j
  }

  /** An entry placed at its key-order position in a map that lacks its key
      sorts after everything before it and before everything after it, and
      the map stays ordered. */
  lemma InsertAtKeepsOrder(args: seq<Argument>, i: nat, a: Argument)
    requires SortedByKey(args) && i <= |args|
    requires forall k :: 0 <= k < |args| ==> args[k].key != a.key
    requires forall k :: 0 <= k < i ==> !Less(a.key, args[k].key)
    requires i < |args| ==> Less(a.key, args[i].key)
    ensures forall k :: 0 <= k < i ==> Less(args[k].key, a.key)
    ensures forall k :: i <= k < |args| ==> Less(a.key, args[k].key)
    ensures SortedByKey(args[..i] + [a] + args[i..])
  {
    forall k | 0 <= k < i ensures Less(args[k].key, a.key) {
      LessTotal(args[k].key, a.key);
    }
    forall k | i < k < |args| ensures Less(a.key, args[k].key) {
      LessTransitive(a.key, args[i].key, args[k].key);
    }
    var r := args[..i] + [a] + args[i..];
    assert forall k :: 0 <= k < i ==> r[k] == args[k];
    assert r[i] == a;
    assert forall k :: i < k < |r| ==> r[k] == args[k - 1];
    forall p, q | 0 <= p < q < |r| ensures Less(r[p].key, r[q].key) {
      if p < i && i < q {
        LessTransitive(r[p].key, a.key, r[q].key);
      }
    }
  }

  /** The entries of `args` with `a` placed at `i`. */
  lemma InsertAtShape(args: seq<Argument>, i: nat, a: Argument)
    requires i <= |args|
    ensures |args[..i] + [a] + args[i..]| == |args| + 1
    ensures multiset(args[..i] + [a] + args[i..]) == multiset(args) + multiset{a}
    ensures forall k :: 0 <= k < i ==> (args[..i] + [a] + args[i..])[k] == args[k]
    ensures (args[..i] + [a] + args[i..])[i] == a
    ensures forall k :: i < k <= |args| ==> (args[..i] + [a] + args[i..])[k] == args[k - 1]
  {
    assert args == args[..i] + args[i..];
  }

  /** Inserts `a` at its key-order position.  The result holds the old
      entries and `a`; into a map that lacks the key it is again a map
      ordered by key, which fixes it uniquely. */
  function InsertSorted(args: seq<Argument>, a: Argument): (r: seq<Argument>)
    ensures |r| == |args| + 1
    ensures multiset(r) == multiset(args) + multiset{a}
    ensures forall k :: 0 <= k < InsertionIndex(args, a.key) ==> r[k] == args[k]
    ensures r[InsertionIndex(args, a.key)] == a
    ensures forall k :: InsertionIndex(args, a.key) < k < |r| ==> r[k] == args[k - 1]
    ensures SortedByKey(args) && Lookup(args, a.key).None? ==> SortedByKey(r)
  {
    var i := InsertionIndex(args, a.key);
    InsertAtShape(args, i, a);
    if SortedByKey(args) && Lookup(args, a.key).None? then
      InsertAtKeepsOrder(args, i, a);
      args[..i] + [a] + args[i..]
    else args[..i] + [a] + args[i..]
  }

  /** A lookup in a concatenation finds the first part's entry if it has one. */
  lemma {:induction false} LookupAppend(x: seq<Argument>, y: seq<Argument>, key: string)
    ensures Lookup(x + y, key) == if Lookup(x, key).Some? then Lookup(x, key) else Lookup(y, key)
    decreases |x|
  {
    if x == [] {
      assert x + y == y;
    } else {
      assert (x + y)[0] == x[0] && (x + y)[1..] == x[1..] + y;
      LookupAppend(x[1..], y, key);
    }
  }

  /** Inserting an absent key makes `Lookup` find the inserted entry. */
  lemma LookupAfterInsert(args: seq<Argument>, a: Argument)
    requires Lookup(args, a.key).None?
    ensures Lookup(InsertSorted(args, a), a.key) == Some(a.value)
  {
    var i := InsertionIndex(args, a.key);
    LookupAppend(args[..i] + [a], args[i..], a.key);
    LookupAppend(args[..i], [a], a.key);
    assert Lookup(args[..i], a.key).None? by {
      assert forall k :: 0 <= k < i ==> args[..i][k] == args[k];
    }
  }

  /** Inserting leaves every other key's entry as it was. */
  lemma LookupOtherAfterInsert(args: seq<Argument>, a: Argument, key: string)
    requires key != a.key
    ensures Lookup(InsertSorted(args, a), key) == Lookup(args, key)
  {
    var i := InsertionIndex(args, a.key);
    LookupAppend(args[..i] + [a], args[i..], key);
    LookupAppend(args[..i], [a], key);
    LookupAppend(args[..i], args[i..], key);
    assert args[..i] + args[i..] == args;
  }

  /** The map after `operator[](key)`: unchanged if the key is present,
      otherwise with `(key, "")` inserted at its key-order position. */
  function IndexInserting(args: seq<Argument>, key: string): (r: seq<Argument>)
    ensures Lookup(r, key).Some?
    ensures Value(r, key) == Value(args, key)
    ensures |r| == |args| + (if Lookup(args, key).Some? then 0 else 1)
    ensures forall k :: k != key ==> Lookup(r, k) == Lookup(args, k)
    ensures Lookup(args, key).None? ==>
      r[InsertionIndex(args, key)] == Argument(key, "")
    ensures SortedByKey(args) ==> SortedByKey(r)
  {
    if Lookup(args, key).Some? then args
    else
      var r := InsertSorted(args, Argument(key, ""));
      LookupAfterInsert(args, Argument(key, ""));
      assert forall k :: k != key ==> Lookup(r, k) == Lookup(args, k) by {
        forall k | k != key ensures Lookup(r, k) == Lookup(args, k) {
          LookupOtherAfterInsert(args, Argument(key, ""), k);
        }
      }
      r
  }

  /** The recording path as the program computes it: after the lookup of
      `id` has inserted that key. */
  function RecordingPathAsWritten(args: seq<Argument>, program: string): string {
    RecordingPath(IndexInserting(args, "id"), program)
  }

  /** An empty-valued key inserted into a map that lacks it is taken for the
      recording when every argument that names a recording sorts after it. */
  lemma InsertedKeyShadows(args: seq<Argument>, program: string, key: string)
    requires Lookup(args, key).None? && program != key
    requires forall k :: 0 <= k < |args| && NamesRecording(args[k], program) ==> Less(key, args[k].key)
    ensures RecordingPath(IndexInserting(args, key), program) == key
  {
    var i := InsertionIndex(args, key);
    var r := InsertSorted(args, Argument(key, ""));
    assert r == IndexInserting(args, key);
    assert forall k :: 0 <= k < i ==> !NamesRecording(r[k], program);
    FirstRecordingKeyAt(r, program, i);
  }

  /** Without `--id`, the program takes the inserted key `id` for the
      recording whenever every argument that names a recording sorts after
      `id`, as any path beginning with a character after `i` does. */
  lemma MissingIdShadowsLaterRecordings(args: seq<Argument>, program: string)
    requires Lookup(args, "id").None? && program != "id"
    requires forall k :: 0 <= k < |args| && NamesRecording(args[k], program) ==> Less("id", args[k].key)
    ensures RecordingPathAsWritten(args, program) == "id"
  {
    InsertedKeyShadows(args, program, "id");
  }

  /** With `--id` given, the lookup inserts nothing and the program finds the
      intended recording. */
  lemma GivenIdChangesNothing(args: seq<Argument>, program: string)
    requires Lookup(args, "id").Some?
    ensures RecordingPathAsWritten(args, program) == RecordingPath(args, program)
  {
  }

  lemma LessByFirst(a: string, b: string)
    requires |a| > 0 && |b| > 0 && a[0] < b[0]
    ensures Less(a, b) && !Less(b, a)
  {
  }

  /** The program name of the example below. */
  const EXAMPLE_PROGRAM: string := "./video-vpx-replay"

  /** `./video-vpx-replay --cid=111 --name=data recording.rec`, parsed. */
  const EXAMPLE_ARGS: seq<Argument> :=
    [Argument(EXAMPLE_PROGRAM, ""), Argument("cid", "111"), Argument("name", "data"), Argument("recording.rec", "")]

  lemma ExampleArgsSorted()
    ensures SortedByKey(EXAMPLE_ARGS)
  {
    var a := EXAMPLE_ARGS;
    LessByFirst(a[0].key, a[1].key);
    LessByFirst(a[0].key, a[2].key);
    LessByFirst(a[0].key, a[3].key);
    LessByFirst(a[1].key, a[2].key);
    LessByFirst(a[1].key, a[3].key);
    LessByFirst(a[2].key, a[3].key);
  }

  lemma ExampleIdMissing()
    ensures Lookup(EXAMPLE_ARGS, "id").None?
  {
  }

  lemma ExampleInsertionIndex()
    ensures InsertionIndex(EXAMPLE_ARGS, "id") == 2
  {
    var a := EXAMPLE_ARGS;
    LessByFirst(a[0].key, "id");
    LessByFirst(a[1].key, "id");
    LessByFirst("id", a[2].key);
  }

  lemma ExampleInsertSorted()
    ensures InsertSorted(EXAMPLE_ARGS, Argument("id", "")) ==
      [EXAMPLE_ARGS[0], EXAMPLE_ARGS[1], Argument("id", ""), EXAMPLE_ARGS[2], EXAMPLE_ARGS[3]]
  {
    ExampleInsertionIndex();
  }

  /** Looking up the missing `--id` inserts `id` between `cid` and `name`. */
  lemma ExampleInsertion()
    ensures IndexInserting(EXAMPLE_ARGS, "id") ==
      [EXAMPLE_ARGS[0], EXAMPLE_ARGS[1], Argument("id", ""), EXAMPLE_ARGS[2], EXAMPLE_ARGS[3]]
  {
    ExampleIdMissing();
    ExampleInsertSorted();
  }

  lemma ExampleIntendedPath()
    ensures RecordingPath(EXAMPLE_ARGS, EXAMPLE_PROGRAM) == "recording.rec"
  {
    FirstRecordingKeyAt(EXAMPLE_ARGS, EXAMPLE_PROGRAM, 3);
  }

  lemma ExampleInsertedPath()
    ensures RecordingPath([EXAMPLE_ARGS[0], EXAMPLE_ARGS[1], Argument("id", ""), EXAMPLE_ARGS[2], EXAMPLE_ARGS[3]], EXAMPLE_PROGRAM) == "id"
  {
    var a := EXAMPLE_ARGS;
    var inserted := [a[0], a[1], Argument("id", ""), a[2], a[3]];
    assert "id" != EXAMPLE_PROGRAM;
    FirstRecordingKeyAt(inserted, EXAMPLE_PROGRAM, 2);
  }

  lemma ExampleWrittenPath()
    ensures RecordingPathAsWritten(EXAMPLE_ARGS, EXAMPLE_PROGRAM) == "id"
  {
    ExampleInsertion();
    ExampleInsertedPath();
  }

  /** Started as `./video-vpx-replay --cid=111 --name=data recording.rec`,
      without `--id`, the program takes the inserted key `id`, not
      `recording.rec`, for the recording, and then fails to open it. */
  lemma InsertedIdShadowsRecording()
    ensures SortedByKey(EXAMPLE_ARGS) && Lookup(EXAMPLE_ARGS, "id").None?
    ensures RecordingPath(EXAMPLE_ARGS, EXAMPLE_PROGRAM) == "recording.rec"
    ensures RecordingPathAsWritten(EXAMPLE_ARGS, EXAMPLE_PROGRAM) == "id"
  {
    ExampleArgsSorted();
    ExampleIdMissing();
    ExampleIntendedPath();
    ExampleWrittenPath();
  }
}
