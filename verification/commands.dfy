/** The command dispatcher of `main`: load the task file, run one command on
    the in-memory list, and decide whether the list is saved. */
module Commands {
  import opened Tasks
  import opened Codec
  import opened Ids

  /** The longest task name `new` accepts, in UTF-8 bytes. */
  const MaxNameBytes: nat := 80

  /** How one run of the program ends.
      - `Invalid`: the task file did not decode; no command ran, nothing saved.
      - `Exit`: a validation failure ended the process with `exit(-1)`; nothing saved.
      - `Crash`: the process panicked; nothing saved.
      - `Save(tasks)`: the command finished and `tasks` was written back. */
  datatype Outcome = Invalid | Exit | Crash | Save(tasks: seq<Task>)

  /** Append one incomplete task per name, ids counting up from `index`;
      the first name over the limit ends the run. */
  function AddTasks(tasks: seq<Task>, names: seq<string>, index: int): (r: Outcome)
    ensures r.Save? || r.Exit?
    ensures r.Save? <==> forall k :: 0 <= k < |names| ==> ByteLen(names[k]) <= MaxNameBytes
    ensures r.Save? ==> |r.tasks| == |tasks| + |names| && r.tasks[..|tasks|] == tasks
    ensures r.Save? ==> forall k :: 0 <= k < |names| ==> r.tasks[|tasks| + k] == Task(false, names[k], index + k)
    decreases |names|
  {
    if names == [] then Save(tasks)
    else if ByteLen(names[0]) > MaxNameBytes then Exit
    else
      var r := AddTasks(tasks + [Task(false, names[0], index)], names[1..], index + 1);
      assert forall k :: 1 <= k < |names| ==> names[k] == names[1..][k - 1];
      if r.Save? then
        assert r.tasks[..|tasks|] == (tasks + [Task(false, names[0], index)])[..|tasks|];
        r
      else r
  }

  /** `new <name>...`: at least one name is required, and every name must fit
      in 80 bytes; the new tasks follow the old ones in argument order. */
  function New(tasks: seq<Task>, arguments: seq<string>): (r: Outcome)
    ensures r.Save? || r.Exit?
    ensures r.Save? <==> |arguments| > 2 && forall k :: 2 <= k < |arguments| ==> ByteLen(arguments[k]) <= MaxNameBytes
    ensures r.Save? ==> |r.tasks| == |tasks| + |arguments| - 2 && r.tasks[..|tasks|] == tasks
    ensures r.Save? ==> forall k :: 2 <= k < |arguments| ==> r.tasks[|tasks| + k - 2] == Task(false, arguments[k], |tasks| + k - 2)
  {
    if |arguments| > 2 then
      var names := arguments[2..];
      assert forall k :: 2 <= k < |arguments| ==> arguments[k] == names[k - 2];
      AddTasks(tasks, names, |tasks|)
    else Exit
  }

  /** Set `complete` at each id in turn; an id outside the list panics, as
      Rust's indexing does. */
  function MarkComplete(tasks: seq<Task>, ids: seq<int>): (r: Result<seq<Task>>)
    ensures !r.Err?
    ensures r.Panic? <==> exists m :: 0 <= m < |ids| && !(0 <= ids[m] < |tasks|)
    ensures r.Ok? ==> |r.value| == |tasks|
    ensures r.Ok? ==> forall i :: 0 <= i < |tasks| ==> r.value[i] == (if i in ids then tasks[i].(complete := true) else tasks[i])
    decreases |ids|
  {
    if ids == [] then Ok(tasks)
    else if !(0 <= ids[0] < |tasks|) then Panic
    else
      var r := MarkComplete(tasks[ids[0] := tasks[ids[0]].(complete := true)], ids[1..]);
      assert forall m :: 1 <= m < |ids| ==> ids[m] == ids[1..][m - 1];
      assert forall i :: i in ids <==> i == ids[0] || i in ids[1..];
      r
  }

  /** Some argument after the command parses to `i`. */
  predicate Named(arguments: seq<string>, i: int)
  {
    exists k :: 2 <= k < |arguments| && ParseI32(arguments[k]) == Ok(i)
  }

  /** Every argument after the command is the id of a task of a list of length `n`. */
  predicate ValidIds(arguments: seq<string>, n: nat)
  {
    forall k :: 2 <= k < |arguments| ==> ParseI32(arguments[k]).Ok? && 0 <= ParseI32(arguments[k]).value < n
  }

  /** `complete <id>...`: on valid ids, exactly the named tasks become
      complete. An id that is not an integer or exceeds the last index exits;
      a negative id, or any use on an empty list, panics. No ids at all only
      warns, and the list is saved as it was. */
  function Complete(tasks: seq<Task>, arguments: seq<string>): (r: Outcome)
    ensures !r.Invalid?
    ensures r.Save? <==> |tasks| > 0 && ValidIds(arguments, |tasks|)
    ensures r.Exit? <==> |tasks| > 0 && exists k :: 2 <= k < |arguments| && !AcceptedId(arguments[k], |tasks| - 1)
    ensures r.Save? ==> |r.tasks| == |tasks|
    ensures r.Save? ==> forall i :: 0 <= i < |tasks| ==> r.tasks[i] == tasks[i].(complete := tasks[i].complete || Named(arguments, i))
  {
    if |tasks| == 0 then Crash
    else
      match ParseTaskIds(arguments, |tasks| - 1)
      case Ok(ids) =>
        var marked := MarkComplete(tasks, ids);
        IdsAreNamed(arguments, |tasks| - 1, ids);
        if marked.Ok? then Save(marked.value)
        else
          var m :| 0 <= m < |ids| && !(0 <= ids[m] < |tasks|);
          assert ParseI32(arguments[m + 2]) == Ok(ids[m]);
          Crash
      case _ => Exit
  }

  /** The ids `parse_task_ids` returns are exactly the values the arguments name. */
  lemma IdsAreNamed(arguments: seq<string>, max: int, ids: seq<int>)
    requires ParseTaskIds(arguments, max) == Ok(ids)
    ensures forall m :: 0 <= m < |ids| ==> ParseI32(arguments[m + 2]) == Ok(ids[m])
    ensures forall i :: i in ids <==> Named(arguments, i)
  {
    forall i
      ensures i in ids <==> Named(arguments, i)
    {
      if i in ids {
        var m :| 0 <= m < |ids| && ids[m] == i;
        assert ParseI32(arguments[m + 2]) == Ok(i);
      }
      if Named(arguments, i) {
        var k :| 2 <= k < |arguments| && ParseI32(arguments[k]) == Ok(i);
        assert ids[k - 2] == i;
      }
    }
  }

  /** Running the same `complete` on its own result changes nothing further. */
  lemma CompleteIdempotent(tasks: seq<Task>, arguments: seq<string>)
    requires Complete(tasks, arguments).Save?
    ensures Complete(Complete(tasks, arguments).tasks, arguments) == Complete(tasks, arguments)
  {
    var once := Complete(tasks, arguments).tasks;
    var twice := Complete(once, arguments);
    assert twice.Save?;
    assert twice.tasks == once;
  }

  /** `del <id>`: exactly one argument is required and it must be an
      integer; a valid position is removed and the rest keep their order
      (and their stored ids); any other integer panics. */
  function Delete(tasks: seq<Task>, arguments: seq<string>): (r: Outcome)
    ensures !r.Invalid?
    ensures r.Exit? <==> |arguments| != 3 || ParseI32(arguments[2]).Err?
    ensures r.Save? <==> |arguments| == 3 && ParseI32(arguments[2]).Ok? && 0 <= ParseI32(arguments[2]).value < |tasks|
    ensures r.Save? ==> |r.tasks| == |tasks| - 1
    ensures r.Save? ==> var id := ParseI32(arguments[2]).value;
      && (forall i :: 0 <= i < id ==> r.tasks[i] == tasks[i])
      && (forall i :: id <= i < |r.tasks| ==> r.tasks[i] == tasks[i + 1])
  {
    if |arguments| != 3 then Exit
    else
      match ParseI32(arguments[2])
      case Ok(id) =>
        if 0 <= id < |tasks| then Save(tasks[..id] + tasks[id + 1..]) else Crash
      case _ => Exit
  }

  /** What `del` removes is exactly the one task at the given position. */
  lemma DeleteRemovesOne(tasks: seq<Task>, arguments: seq<string>)
    requires Delete(tasks, arguments).Save?
    ensures multiset(Delete(tasks, arguments).tasks) + multiset{tasks[ParseI32(arguments[2]).value]} == multiset(tasks)
  {
    var id := ParseI32(arguments[2]).value;
    var r := Delete(tasks, arguments).tasks;
    assert r == tasks[..id] + tasks[id + 1..];
    assert tasks == tasks[..id] + [tasks[id]] + tasks[id + 1..];
  }

  const CommandNew := "new"
  const CommandComplete := "complete"
  const CommandDelete := "del"

  /** Commands that change the list; any other command word (`help`, `view`
      or an unknown one) leaves it as loaded. */
  predicate Mutating(command: string)
  {
    command == CommandNew || command == CommandComplete || command == CommandDelete
  }

  /** The `match` on the command word; the caller has checked that there is one. */
  function Dispatch(tasks: seq<Task>, arguments: seq<string>): (r: Outcome)
    requires |arguments| >= 2
    ensures !r.Invalid?
    ensures !Mutating(arguments[1]) ==> r == Save(tasks)
    ensures arguments[1] == CommandNew ==> r == New(tasks, arguments)
    ensures arguments[1] == CommandComplete ==> r == Complete(tasks, arguments)
    ensures arguments[1] == CommandDelete ==> r == Delete(tasks, arguments)
  {
    var command := arguments[1];
    if command == CommandNew then New(tasks, arguments)
    else if command == CommandComplete then Complete(tasks, arguments)
    else if command == CommandDelete then Delete(tasks, arguments)
    else Save(tasks)
  }

  /** The task list `main` loads from the file text: `read_task_file` over
      the lines `BufRead::lines` yields. */
  function Load(text: string): (r: Result<seq<Task>>)
    ensures r.Ok? <==> AllWellFormed(SplitLines(text))
    ensures r.Panic? <==> EmptyBeforeMalformed(SplitLines(text))
    ensures r.Ok? ==> |r.value| == |SplitLines(text)| && DenseIds(r.value)
    ensures r.Ok? ==> forall i, j :: 0 <= i < |r.value| && 0 <= j < |r.value[i].name| ==> r.value[i].name[j] != '\n'
  {
    ReadTaskFile(SplitLines(text))
  }

  /** One run of the program on the task file's text and the full argument
      vector (`arguments[0]` is the program name, `arguments[1]` the command). */
  function Run(text: string, arguments: seq<string>): (r: Outcome)
    ensures r.Invalid? <==> Load(text).Err?
    ensures Load(text).Panic? ==> r.Crash?
    ensures Load(text).Ok? && |arguments| < 2 ==> r.Exit?
    ensures r.Save? ==> Load(text).Ok? && |arguments| >= 2
    ensures Load(text).Ok? && |arguments| >= 2 ==> r == Dispatch(Load(text).value, arguments)
  {
    match Load(text)
    case Err => Invalid
    case Panic => Crash
    case Ok(tasks) => if |arguments| < 2 then Exit else Dispatch(tasks, arguments)
  }

  /** A command that is not `new`, `complete` or `del` saves the loaded list unchanged. */
  lemma RunOtherCommandSavesLoaded(text: string, arguments: seq<string>)
    requires Load(text).Ok? && |arguments| >= 2 && !Mutating(arguments[1])
    ensures Run(text, arguments) == Save(Load(text).value)
  {
  }

  /** `new` on a list whose ids are positions numbers the new tasks on from there. */
  lemma NewKeepsIdsDense(tasks: seq<Task>, arguments: seq<string>)
    requires DenseIds(tasks) && New(tasks, arguments).Save?
    ensures DenseIds(New(tasks, arguments).tasks)
  {
    var saved := New(tasks, arguments).tasks;
    forall i | 0 <= i < |saved|
      ensures saved[i].id == i
    {
      if i < |tasks| {
        assert saved[i] == saved[..|tasks|][i];
      } else {
        var k := i - |tasks| + 2;
        assert 2 <= k < |arguments|;
        assert saved[|tasks| + k - 2] == Task(false, arguments[k], |tasks| + k - 2);
      }
    }
  }

  /** Except after `del`, every saved task's id is its position in the saved list. */
  lemma RunKeepsIdsDense(text: string, arguments: seq<string>)
    requires Run(text, arguments).Save? && arguments[1] != CommandDelete
    ensures DenseIds(Run(text, arguments).tasks)
  {
    var loaded := Load(text).value;
    assert Run(text, arguments) == Dispatch(loaded, arguments);
    if arguments[1] == CommandNew {
      NewKeepsIdsDense(loaded, arguments);
    }
  }

  /** After `del` the tasks behind the removed one keep their old, now stale
      ids; saving and loading again renumbers them to 0..N-1. */
  lemma RunDeleteThenReload(text: string, arguments: seq<string>)
    requires Run(text, arguments).Save? && arguments[1] == CommandDelete
    requires forall i :: 0 <= i < |Run(text, arguments).tasks| ==> Storable(Run(text, arguments).tasks[i].name)
    ensures var saved := Run(text, arguments).tasks; var id := ParseI32(arguments[2]).value;
      forall i :: id <= i < |saved| ==> saved[i].id == i + 1
    ensures Load(WriteTaskFile(Run(text, arguments).tasks)) == Ok(Renumber(Run(text, arguments).tasks))
  {
    RoundTrip(Run(text, arguments).tasks);
  }

  /** Repeating a successful `complete` on the file it saved saves the same list again. */
  lemma RunCompleteIdempotent(text: string, arguments: seq<string>)
    requires Run(text, arguments).Save? && arguments[1] == CommandComplete
    requires forall i :: 0 <= i < |Run(text, arguments).tasks| ==> Storable(Run(text, arguments).tasks[i].name)
    ensures Run(WriteTaskFile(Run(text, arguments).tasks), arguments) == Run(text, arguments)
  {
    var loaded := Load(text).value;
    var saved := Run(text, arguments).tasks;
    RoundTrip(saved);
    RunKeepsIdsDense(text, arguments);
    RenumberDense(saved);
    CompleteIdempotent(loaded, arguments);
  }
}
