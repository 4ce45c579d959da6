/** The entities shared by every part of the task tracker: a task, the
    result of a fallible step, and the UTF-8 length of a name. */
module Tasks {

  /** One entry of the task list. `id` is the position the task had when it
      was loaded or created; it is never written to the task file, and it is
      not updated when an earlier task is deleted. */
  datatype Task = Task(complete: bool, name: string, id: int)

  /** The result of a fallible step. `Err` is the program's own error value
      (it carries no data); `Panic` is a Rust panic, which aborts the process
      before anything is saved. */
  datatype Result<T> = Ok(value: T) | Err | Panic

  /** Every task's id is its position in the list. */
  predicate DenseIds(tasks: seq<Task>)
  {
    forall i :: 0 <= i < |tasks| ==> tasks[i].id == i
  }

  /** The list as it reads back after a save: same tasks, ids replaced by positions. */
  function Renumber(tasks: seq<Task>): (r: seq<Task>)
    ensures |r| == |tasks| && DenseIds(r)
    ensures forall i :: 0 <= i < |r| ==> r[i].complete == tasks[i].complete && r[i].name == tasks[i].name
  {
    seq(|tasks|, i requires 0 <= i < |tasks| => tasks[i].(id := i))
  }

  /** Renumbering changes nothing on a list whose ids are already its positions. */
  lemma RenumberDense(tasks: seq<Task>)
    requires DenseIds(tasks)
    ensures Renumber(tasks) == tasks
  {
  }

  /** Number of bytes in the UTF-8 encoding of one Unicode scalar value. */
  function Utf8Width(c: char): (w: nat)
    ensures 1 <= w <= 4
  {
    if c as int < 0x80 then 1
    else if c as int < 0x800 then 2
    else if c as int < 0x1_0000 then 3
    else 4
  }

  /** Length in bytes of the UTF-8 encoding of `s`, which is what Rust's
      `String::len` reports: at least one byte and at most four per character. */
  function ByteLen(s: string): (n: nat)
    ensures |s| <= n <= 4 * |s|
    decreases |s|
  {
    if s == [] then 0 else ByteLen(s[..|s| - 1]) + Utf8Width(s[|s| - 1])
  }

  /** For ASCII text, bytes and characters coincide. */
  lemma {:induction false} ByteLenAscii(s: string)
    requires forall j :: 0 <= j < |s| ==> s[j] as int < 0x80
    ensures ByteLen(s) == |s|
    decreases |s|
  {
    if s != [] {
      ByteLenAscii(s[..|s| - 1]);
    }
  }
}
