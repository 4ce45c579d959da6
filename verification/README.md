# RustTasks in Dafny

RustTasks is a small command-line task tracker. Each run loads the task file `tasks.txt`, performs one command, and writes the list back. A task is stored as one line: a status character (`'X'` for complete, `' '` for incomplete) followed by its name. A task's id is never stored; on load, the task on line k gets id k. The commands are `help`, `view`, `new <name>...`, `complete <id>...` and `del <id>`. Any other word is reported as not a valid command, and the list is saved anyway.

This project models that logic as pure functions over immutable data and proves properties of it:

- `tasks.dfy` (module `Tasks`) holds the `Task` record, the `Result` type and a name's UTF-8 byte length. `Result` is `Ok`, `Err` (the program's own error value) or `Panic` (a Rust panic).
- `codec.dfy` (module `Codec`) holds `Task::export`, `read_task`, `read_task_file` and the text built by `write_task_file`. It also models how `BufRead::lines` splits the file's text.
- `ids.dfy` (module `Ids`) holds Rust's `str::parse::<i32>` and `parse_task_ids`.
- `commands.dfy` (module `Commands`) holds the `new`, `complete` and `del` commands, the dispatch on the command word, and `Run`. `Run` models one whole run. It maps the file's text and the full argument vector to an `Outcome`:
  - `Invalid`: the file did not decode, so no command ran and nothing was saved.
  - `Exit`: `exit(-1)`, nothing saved.
  - `Crash`: a panic, nothing saved.
  - `Save(tasks)`: the list written back.
- `scenarios.dfy` (module `Scenarios`) holds concrete runs, each proved from the file's text to the outcome.

Ids are modelled as the program keeps them. A load sets each id to the line position. `new` continues from the list's length. `complete` leaves ids alone. `del` leaves the later tasks with their old ids, which are then stale. The saved file never holds ids, so the next load numbers the tasks 0..N-1 again (`Commands.RunDeleteThenReload`).

Behaviours of `src/main.rs` worth noting:

- An empty line in the task file is not a decoding error. `read_task` unwraps the first character and panics. The model returns `Panic` when an empty line comes before any line with a bad status character.
- The 80 limit in `new` counts UTF-8 bytes (`String::len`), not characters.
- An empty task name is accepted: a line holding just the status character decodes to a task named `""`, and `new ""` creates one.
- `complete` on an empty list panics when it computes `tasks.len() - 1`. It does so even when no id was given.
- The round trip holds only for storable names: no `'\n'` anywhere and no `'\r'` at the end. `new` does not enforce this. Each newline in a name ends a line in the saved file, so a name with k newlines is saved as k + 1 lines. What the next load makes of them depends on what follows each newline. Text starting with `' '` or `'X'` reads back as further tasks (`Scenarios.NewlineInNameSplitsTask`). Any other character makes the file invalid, unless an empty line comes first (`Scenarios.NewlineInNameBreaksFile`). A newline at the end of the name, or two in a row, leaves an empty line, and the load panics unless an invalid line comes first (`Scenarios.NewlineAtNameEndPanics`).

## Model

| member | source | states |
|---|---|---|
| `Codec.Export` | src/main.rs:22-31 | The saved line starts with `'X'` exactly when the task is complete and with `' '` exactly when it is not. The name follows verbatim, so the line is one character longer than the name. |
| `Codec.ExportInjective` | src/main.rs:22-31 | Two tasks give the same line exactly when they agree on completion and name. The id never influences the line. |
| `Codec.ReadTask` | src/main.rs:34-51 | On a non-empty line, the result is a task exactly when the first character is `' '` or `'X'`. The task has the given id, and exporting it gives back the very line read. Otherwise the result is an error, never a panic. |
| `Codec.ReadExport` | src/main.rs:22-51 | Reading an exported line gives back the task's completion and name, with the id the caller supplies. |
| `Codec.DecodeFrom` | src/main.rs:58-67 | The loop succeeds exactly when every line is well formed, and then gives one task per line, ids counting up from the first id. It panics exactly when an empty line comes before any malformed line. |
| `Codec.ReadTaskFile` | src/main.rs:53-69 | Decoding a file succeeds exactly when every line is well formed. Task k is then `read_task` of line k with id k, so the ids are 0..N-1. One bad line fails the whole file with no partial list. It panics exactly when an empty line is reached first. |
| `Codec.WriteTaskFile` | src/main.rs:71-77 | The saved text is empty exactly when the list is. A non-empty text ends with a newline: the last task is terminated too. |
| `Codec.WriteIgnoresIds` | src/main.rs:71-77 | Two lists that agree on completion and name at every position save to the same text, whatever their ids. |
| `Codec.SplitLines` | src/main.rs:56-60 | No line that `BufRead::lines` yields contains a `'\n'`. |
| `Codec.SplitWrite` | src/main.rs:71-77 | If every name is storable, the saved text splits back into exactly one exported line per task, in order. |
| `Codec.ReadExported` | src/main.rs:53-69 | A file whose lines are the exported lines of a list decodes to that list with ids 0..N-1. |
| `Codec.RoundTrip` | src/main.rs:53-79 | If every name is storable, saving and then loading gives the same completion flags and names in the same order, with ids 0..N-1. |
| `Ids.ParseI32` | src/main.rs:87 | A parsed value fits in 32 bits and is negative only after a `'-'`. The empty string, and any text not starting with a sign or a digit, is rejected. |
| `Ids.ParseShow` | src/main.rs:87 | Every 32-bit integer parses back from its decimal text. |
| `Ids.Operands` | src/main.rs:85 | The arguments after the command are argument 2 onward, in order, and there are none when fewer than two arguments exist. |
| `Ids.ParseEach` | src/main.rs:86-95 | The loop succeeds exactly when every argument is an integer no larger than the bound. It then yields each argument's value, in order. |
| `Ids.ParseTaskIds` | src/main.rs:81-97 | Success happens exactly when every argument from index 2 on parses and is at most `max`. The result then holds those values in argument order, each at most `max`. Negative values are not rejected. |
| `Commands.AddTasks` | src/main.rs:137-145 | The loop saves exactly when every name fits in 80 bytes. It keeps the old tasks as a prefix and appends one incomplete task per name, in order, with ids counting up from the start index. |
| `Commands.New` | src/main.rs:134-156 | `new` saves exactly when at least one name is given and every name fits in 80 bytes. The old tasks stay unchanged in front. Name k becomes an incomplete task with id old length + k. Otherwise the run exits and never crashes. |
| `Commands.MarkComplete` | src/main.rs:169-171 | Marking panics exactly when some id is outside the list. Otherwise the length is kept, and a task becomes complete exactly when its index is among the ids. Every other task is unchanged. |
| `Commands.Complete` | src/main.rs:160-184 | `complete` saves exactly when the list is non-empty and every argument is the id of a task. Only the completion flags change, at exactly the named tasks. It exits exactly when the list is non-empty and some argument is not an integer or exceeds the last index. Otherwise it panics: a negative id, or an empty list. With no ids at all, the list is saved unchanged. |
| `Commands.IdsAreNamed` | src/main.rs:81-97 | The ids `parse_task_ids` returns are exactly the values the arguments name, in argument order. |
| `Commands.CompleteIdempotent` | src/main.rs:160-184 | Running the same `complete` on its own result saves the same list again. |
| `Commands.Delete` | src/main.rs:185-202 | `del` exits exactly when the argument count is wrong or the id is not an integer. It saves exactly when the id is a position in the list. Then it removes that position: earlier tasks stay in place and later ones move down by one, stored ids unchanged. Any other integer panics. |
| `Commands.DeleteRemovesOne` | src/main.rs:194 | What `del` saves, plus the removed task, is exactly the loaded list as a multiset. |
| `Commands.Dispatch` | src/main.rs:115-206 | `help`, `view` and any unknown word save the list unchanged. `new`, `complete` and `del` behave as their own functions. Dispatch never reports an invalid file. |
| `Commands.Load` | src/main.rs:53-69 | Loading the file's text succeeds exactly when every line `BufRead::lines` yields is well formed, and panics exactly when an empty line comes first. A loaded list has one task per line, ids 0..N-1, and no name holding a newline. |
| `Commands.Run` | src/main.rs:99-209 | A run reports an invalid file exactly when decoding fails. A panic while loading is a crash. A valid file with no command word exits. After a successful load with a command word, the outcome is the command's outcome on the loaded list, and no other run saves. |
| `Commands.RunOtherCommandSavesLoaded` | src/main.rs:115-207 | With a valid file, any command other than `new`, `complete` or `del` saves the loaded list unchanged. |
| `Commands.NewKeepsIdsDense` | src/main.rs:137-144 | On a list whose ids are its positions, `new` gives each added task the next position as its id, so the saved ids are still the positions. |
| `Commands.RunKeepsIdsDense` | src/main.rs:137-144 | After any saved command except `del`, every task's id is still its position. |
| `Commands.RunDeleteThenReload` | src/main.rs:194 | After `del`, the tasks behind the removed one keep stale ids, each one more than the new position. Saving and loading renumbers the list to 0..N-1. |
| `Commands.RunCompleteIdempotent` | src/main.rs:160-184 | Running the same successful `complete` again on the file it saved saves the same list, provided the names are storable. |
| `Tasks.ByteLen` | src/main.rs:139 | The length `new` checks is the UTF-8 byte count: at least the number of characters and at most four times it. |
| `Tasks.ByteLenAscii` | src/main.rs:139 | For ASCII names, the byte limit of `new` is a character limit. |
| `Scenarios.NewOnEmptyFile` | src/main.rs:134-156 | `new a b` on an empty file saves `a` and `b`, incomplete, with ids 0 and 1. |
| `Scenarios.BadStatusIsInvalid` | src/main.rs:39-43 | A file whose second line starts with `Y` is invalid for every command. |
| `Scenarios.EmptyLinePanics` | src/main.rs:37 | A file with an empty line after a valid one panics before any command runs. |
| `Scenarios.CompleteFirstAndLast` | src/main.rs:160-184 | `complete 0 2` on three incomplete tasks saves tasks 0 and 2 complete and task 1 untouched. |
| `Scenarios.CompleteFirstAndLastText` | src/main.rs:71-77 | That list is written with `X` on its first and last lines. |
| `Scenarios.CompletePastLastExits` | src/main.rs:92-94 | `complete 5` on three tasks exits without saving. |
| `Scenarios.NegativeIdPanics` | src/main.rs:170 | `complete -1` passes the id check and then panics at the index. |
| `Scenarios.CompleteOnEmptyListPanics` | src/main.rs:166 | `complete` with no ids on an empty list panics. |
| `Scenarios.DeleteMiddle` | src/main.rs:194 | `del 1` on three tasks saves the outer two. The last still carries its old id 2. |
| `Scenarios.DeleteMiddleReload` | src/main.rs:53-69 | Loaded again, those two tasks are numbered 0 and 1. |
| `Scenarios.NewlineInNameAccepted` | src/main.rs:138-143 | `new` accepts a name containing a newline. |
| `Scenarios.NewlineInNameBreaksFile` | src/main.rs:71-77 | A task named `"a\nb"` is saved as two lines, and the next load finds the file invalid. |
| `Scenarios.NewlineInNameSplitsTask` | src/main.rs:71-77 | A task named `"a\nXb"` is saved so that the next load reads two tasks: incomplete `a` and complete `b`. |
| `Scenarios.NewlineAtNameEndPanics` | src/main.rs:37 | A task named `"a\n"` is saved with an empty line after it, and the next run panics while loading. |

## Left out

- File I/O is not modelled. This covers opening `tasks.txt`, the `expect` when it is missing, and the `unwrap` on `fs::write`. The file's text is an input to `Run`, and the list in `Save` is what gets written.
- Line reading is modelled on text that is already Unicode. `lines().flatten()` also drops lines that fail to read or are not valid UTF-8; that is not modelled.
- Output is not modelled: the `help` table, the `view` listing (`Task::as_string`) and all printed messages. It is presentation only, so `help` and `view` appear as commands that save the list unchanged.
- Exit codes are not modelled. `exit(-1)` is the `Exit` outcome, a panic is `Crash`, and neither saves.
- `args()` panics on an argument that is not valid Unicode; that is not modelled. Arguments are strings.
- 32-bit overflow of ids is not modelled. This covers `id += 1` in `read_task_file`, `tasks.len() as i32` and `index += 1` in `new`, and the cast of `tasks.len() - 1` to `i32`. Ids are unbounded integers, so lists of more than 2^31 - 1 tasks are outside the model.
- Commands.Complete: an empty list is modelled as a panic, which is what an overflow-checked build does. A build without overflow checks wraps `0 - 1` to -1 instead; such a run exits, panics or saves the empty list, depending on the ids.
- Commands.AddTasks: tasks pushed before a name that is too long are not kept. The source discards them by exiting, so the outcome is the same.
- Ids.ParseI32: its contract states the range, the sign and rejection of a bad first character. It does not state the full grammar. The grammar is the body, and `Ids.ParseShow` ties it to decimal text.
- Codec.WriteTaskFile: its contract states emptiness and the final newline only. Its contents are stated by `Codec.SplitWrite` and `Codec.RoundTrip`.
- Codec.SplitLines: its contract states only that no line holds a newline. How it cuts storable text is stated by `Codec.SplitWrite`.
