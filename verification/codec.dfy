/** The task-file codec: one line per task, a status character (`'X'` for a
    complete task, `' '` for an incomplete one) followed by the name verbatim.
    Ids are not stored; they are the line positions on load. */
module Codec {
  import opened Tasks

  /** The status character written for a completion flag. */
  function StatusChar(complete: bool): char
  {
    if complete then 'X' else ' '
  }

  /** The line a task is saved as (`Task::export`). */
  function Export(t: Task): (line: string)
    ensures |line| == |t.name| + 1
    ensures line[0] == 'X' <==> t.complete
    ensures line[0] == ' ' <==> !t.complete
    ensures line[1..] == t.name
  {
    [StatusChar(t.complete)] + t.name
  }

  /** Two tasks are saved as the same line exactly when they agree on
      completion and name: the id never reaches the file. */
  lemma ExportInjective(a: Task, b: Task)
    ensures Export(a) == Export(b) <==> a.complete == b.complete && a.name == b.name
  {
    if Export(a) == Export(b) {
      assert Export(a)[1..] == Export(b)[1..];
    }
  }

  /** A line `read_task` accepts: a status character then anything. */
  predicate WellFormed(line: string)
  {
    |line| > 0 && (line[0] == ' ' || line[0] == 'X')
  }

  /** Parse one line into the task with the given id (`read_task`). The empty
      line is outside its domain: the source unwraps the first character. */
  function ReadTask(line: string, id: int): (r: Result<Task>)
    requires |line| > 0
    ensures !r.Panic?
    ensures r.Ok? <==> WellFormed(line)
    ensures r.Ok? ==> r.value.id == id && Export(r.value) == line
  {
    if line[0] == ' ' then Ok(Task(false, line[1..], id))
    else if line[0] == 'X' then Ok(Task(true, line[1..], id))
    else Err
  }

  /** Reading back a saved line recovers the task's completion and name,
      with the id the caller supplies. */
  lemma ReadExport(t: Task, id: int)
    ensures ReadTask(Export(t), id) == Ok(t.(id := id))
  {
    var line := Export(t);
    assert line[1..] == t.name;
  }

  /** Every line is one `read_task` accepts. */
  predicate AllWellFormed(lines: seq<string>)
  {
    forall i :: 0 <= i < |lines| ==> WellFormed(lines[i])
  }

  /** Reading the lines in order reaches an empty line before any line with
      a bad status character: the `unwrap` in `read_task` panics there. */
  predicate EmptyBeforeMalformed(lines: seq<string>)
  {
    exists i :: 0 <= i < |lines| && lines[i] == [] && AllWellFormed(lines[..i])
  }

  /** Both predicates look past a well-formed first line to the rest. */
  lemma SkipWellFormed(lines: seq<string>)
    requires |lines| > 0 && WellFormed(lines[0])
    ensures AllWellFormed(lines) <==> AllWellFormed(lines[1..])
    ensures EmptyBeforeMalformed(lines) <==> EmptyBeforeMalformed(lines[1..])
  {
    var rest := lines[1..];
    if EmptyBeforeMalformed(lines) {
      var i :| 0 <= i < |lines| && lines[i] == [] && AllWellFormed(lines[..i]);
      assert i > 0;
      assert rest[..i - 1] == lines[1..i];
      assert rest[i - 1] == [] && AllWellFormed(rest[..i - 1]);
    }
    if EmptyBeforeMalformed(rest) {
      var i :| 0 <= i < |rest| && rest[i] == [] && AllWellFormed(rest[..i]);
      assert lines[..i + 1] == [lines[0]] + rest[..i];
      assert lines[i + 1] == [] && AllWellFormed(lines[..i + 1]);
    }
  }

  /** Decode `lines`, giving the first one the id `first` and each next one
      the following id; the loop of `read_task_file`. */
  function DecodeFrom(lines: seq<string>, first: int): (r: Result<seq<Task>>)
    ensures r.Ok? <==> AllWellFormed(lines)
    ensures r.Panic? <==> EmptyBeforeMalformed(lines)
    ensures r.Ok? ==> |r.value| == |lines|
    ensures r.Ok? ==> forall i :: 0 <= i < |lines| ==> r.value[i].id == first + i && Export(r.value[i]) == lines[i]
    decreases |lines|
  {
    if lines == [] then Ok([])
    else if lines[0] == [] then
      assert AllWellFormed(lines[..0]);
      Panic
    else
      var head := ReadTask(lines[0], first);
      if head.Ok? then
        var rest := DecodeFrom(lines[1..], first + 1);
        SkipWellFormed(lines);
        if rest.Ok? then
          assert forall i :: 1 <= i < |lines| ==> lines[i] == lines[1..][i - 1];
          Ok([head.value] + rest.value)
        else if rest.Panic? then Panic
        else Err
      else
        assert !AllWellFormed(lines[..1]);
        Err
  }

  /** Decode a whole task file (`read_task_file`): task k gets id k, and one
      bad line fails the whole file with no partial list. */
  function ReadTaskFile(lines: seq<string>): (r: Result<seq<Task>>)
    ensures r.Ok? <==> AllWellFormed(lines)
    ensures r.Panic? <==> EmptyBeforeMalformed(lines)
    ensures r.Ok? ==> |r.value| == |lines| && DenseIds(r.value)
    ensures r.Ok? ==> forall i :: 0 <= i < |lines| ==> r.value[i] == ReadTask(lines[i], i).value
  {
    var r := DecodeFrom(lines, 0);
    if r.Ok? then
      assert forall i :: 0 <= i < |lines| ==> r.value[i] == ReadTask(lines[i], i).value by {
        forall i | 0 <= i < |lines|
          ensures r.value[i] == ReadTask(lines[i], i).value
        {
          ExportInjective(r.value[i], ReadTask(lines[i], i).value);
        }
      }
      r
    else r
  }

  /** The text `write_task_file` saves: every task's line followed by a newline. */
  function WriteTaskFile(tasks: seq<Task>): (text: string)
    ensures text == [] <==> tasks == []
    ensures tasks != [] ==> text[|text| - 1] == '\n'
    decreases |tasks|
  {
    if tasks == [] then [] else Export(tasks[0]) + "\n" + WriteTaskFile(tasks[1..])
  }

  /** The saved text depends on completion flags and names only, never on ids. */
  lemma {:induction false} WriteIgnoresIds(a: seq<Task>, b: seq<Task>)
    requires |a| == |b|
    requires forall i :: 0 <= i < |a| ==> a[i].complete == b[i].complete && a[i].name == b[i].name
    ensures WriteTaskFile(a) == WriteTaskFile(b)
    decreases |a|
  {
    if a != [] {
      ExportInjective(a[0], b[0]);
      WriteIgnoresIds(a[1..], b[1..]);
    }
  }

  /** Position of the first `'\n'` in `s`, or `|s|` when there is none. */
  function NewlineIndex(s: string): (i: nat)
    ensures i <= |s|
    ensures forall j :: 0 <= j < i ==> s[j] != '\n'
    ensures i < |s| ==> s[i] == '\n'
    decreases |s|
  {
    if s == [] || s[0] == '\n' then 0 else 1 + NewlineIndex(s[1..])
  }

  /** A line terminated by `'\n'` loses one trailing `'\r'` as well. */
  function DropCarriageReturn(line: string): string
  {
    if |line| > 0 && line[|line| - 1] == '\r' then line[..|line| - 1] else line
  }

  /** The lines `BufRead::lines` yields for a file's text: the text is cut
      after each `'\n'`; the newline, and a `'\r'` just before it, are
      dropped; a last piece without a newline is a line if it is not empty. */
  function SplitLines(text: string): (lines: seq<string>)
    ensures forall k, j :: 0 <= k < |lines| && 0 <= j < |lines[k]| ==> lines[k][j] != '\n'
    decreases |text|
  {
    if text == [] then []
    else
      var i := NewlineIndex(text);
      if i == |text| then [text]
      else [DropCarriageReturn(text[..i])] + SplitLines(text[i + 1..])
  }

  /** A name that survives a save and a load unchanged: no newline in it and
      no carriage return at its end. */
  predicate Storable(name: string)
  {
    && (forall j :: 0 <= j < |name| ==> name[j] != '\n')
    && (|name| == 0 || name[|name| - 1] != '\r')
  }

  /** Splitting a text that starts with a storable line and its newline. */
  lemma SplitLinesCons(line: string, rest: string)
    requires |line| > 0 && Storable(line)
    ensures SplitLines(line + "\n" + rest) == [line] + SplitLines(rest)
  {
    var text := line + "\n" + rest;
    assert text[|line|] == '\n';
    assert forall j :: 0 <= j < |line| ==> text[j] == line[j];
    assert NewlineIndex(text) == |line| by {
      NewlineIndexAt(text, |line|);
    }
    assert text[..|line|] == line;
    assert text[|line| + 1..] == rest;
  }

  /** The first newline is at `n` when `s[n]` is one and none comes before. */
  lemma {:induction false} NewlineIndexAt(s: string, n: nat)
    requires n < |s| && s[n] == '\n'
    requires forall j :: 0 <= j < n ==> s[j] != '\n'
    ensures NewlineIndex(s) == n
    decreases n
  {
    if n > 0 {
      NewlineIndexAt(s[1..], n - 1);
    }
  }

  /** The line of a task with a storable name is itself storable. */
  lemma ExportStorable(t: Task)
    requires Storable(t.name)
    ensures |Export(t)| > 0 && Storable(Export(t))
  {
    var line := Export(t);
    assert line[1..] == t.name;
    assert forall j :: 1 <= j < |line| ==> line[j] == t.name[j - 1];
  }

  /** The saved text splits back into exactly the exported lines. */
  lemma {:induction false} SplitWrite(tasks: seq<Task>)
    requires forall i :: 0 <= i < |tasks| ==> Storable(tasks[i].name)
    ensures |SplitLines(WriteTaskFile(tasks))| == |tasks|
    ensures forall i :: 0 <= i < |tasks| ==> SplitLines(WriteTaskFile(tasks))[i] == Export(tasks[i])
    decreases |tasks|
  {
    if tasks != [] {
      ExportStorable(tasks[0]);
      SplitLinesCons(Export(tasks[0]), WriteTaskFile(tasks[1..]));
      SplitWrite(tasks[1..]);
      assert forall i :: 1 <= i < |tasks| ==> tasks[i] == tasks[1..][i - 1];
    }
  }

  /** The exported lines of a list decode to that list, renumbered. */
  lemma ReadExported(tasks: seq<Task>, lines: seq<string>)
    requires |lines| == |tasks|
    requires forall i :: 0 <= i < |lines| ==> lines[i] == Export(tasks[i])
    ensures ReadTaskFile(lines) == Ok(Renumber(tasks))
  {
    assert AllWellFormed(lines);
    var r := ReadTaskFile(lines);
    var want := Renumber(tasks);
    forall i | 0 <= i < |tasks|
      ensures r.value[i] == want[i]
    {
      ReadExport(tasks[i], i);
    }
    assert r.value == want;
  }

  /** Round trip: saving a list whose names are storable and reading it
      back yields the same completion flags and names, with ids 0..N-1. */
  lemma RoundTrip(tasks: seq<Task>)
    requires forall i :: 0 <= i < |tasks| ==> Storable(tasks[i].name)
    ensures ReadTaskFile(SplitLines(WriteTaskFile(tasks))) == Ok(Renumber(tasks))
  {
    SplitWrite(tasks);
    ReadExported(tasks, SplitLines(WriteTaskFile(tasks)));
  }
}
