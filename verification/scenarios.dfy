/** Concrete runs of the program, each over the whole run: file text and
    arguments in, outcome out. */
module Scenarios {
  import opened Tasks
  import opened Codec
  import opened Ids
  import opened Commands

  /** Three incomplete tasks, numbered as a load numbers them. */
  const Three := [Task(false, "a", 0), Task(false, "b", 1), Task(false, "c", 2)]

  /** The file the program saves for `Three`. */
  lemma ThreeText()
    ensures WriteTaskFile(Three) == " a\n b\n c\n"
  {
    assert WriteTaskFile(Three[2..]) == " c\n";
    assert WriteTaskFile(Three[1..]) == " b\n" + " c\n";
  }

  /** That file loads back as `Three`. */
  lemma ThreeLoad()
    ensures Load(WriteTaskFile(Three)) == Ok(Three)
  {
    assert Storable(Three[0].name) && Storable(Three[1].name) && Storable(Three[2].name);
    RoundTrip(Three);
    RenumberDense(Three);
  }

  /** `new a b` on an empty file appends two incomplete tasks with ids 0 and 1. */
  lemma NewOnEmptyFile()
    ensures Run("", ["t", "new", "a", "b"]) == Save([Task(false, "a", 0), Task(false, "b", 1)])
  {
    var arguments := ["t", "new", "a", "b"];
    assert Load("") == Ok([]);
    var r := New([], arguments);
    assert r.tasks[0 + 2 - 2] == Task(false, arguments[2], 0 + 2 - 2);
    assert r.tasks[0 + 3 - 2] == Task(false, arguments[3], 0 + 3 - 2);
  }

  /** Two storable lines, each followed by a newline, split back into those lines. */
  lemma TwoLines(a: string, b: string)
    requires |a| > 0 && Storable(a) && |b| > 0 && Storable(b)
    ensures SplitLines(a + "\n" + (b + "\n")) == [a, b]
  {
    SplitLinesCons(b, "");
    assert b + "\n" == b + "\n" + "";
    SplitLinesCons(a, b + "\n");
  }

  /** The lines of a file whose second line starts with `Y`. */
  lemma BadStatusLines()
    ensures SplitLines(" a\nYb\n") == [" a", "Yb"]
  {
    TwoLines(" a", "Yb");
    assert " a" + "\n" + ("Yb" + "\n") == " a\nYb\n";
  }

  /** A line whose status character is neither `' '` nor `'X'` makes the file
      invalid, whatever command was asked for. */
  lemma BadStatusIsInvalid(arguments: seq<string>)
    ensures Run(" a\nYb\n", arguments) == Invalid
  {
    BadStatusLines();
    var lines := [" a", "Yb"];
    assert !WellFormed(lines[1]);
    assert !EmptyBeforeMalformed(lines) by {
      assert !AllWellFormed(lines[..2]);
    }
  }

  /** An empty line reached before any malformed one panics in `read_task`. */
  lemma EmptyLinePanics(arguments: seq<string>)
    ensures Run(" a\n\n", arguments) == Crash
  {
    var a := " a";
    assert SplitLines("\n") == [""];
    SplitLinesCons(a, "\n");
    assert a + "\n" + "\n" == " a\n\n";
    var lines := [a, ""];
    assert AllWellFormed(lines[..1]);
    assert EmptyBeforeMalformed(lines);
  }

  /** `complete 0 2` names the ids 0 and 2, both within three tasks. */
  lemma FirstAndLastIds()
    ensures ParseTaskIds(["t", "complete", "0", "2"], 2) == Ok([0, 2])
  {
    var arguments := ["t", "complete", "0", "2"];
    ParseShow(0);
    ParseShow(2);
    assert ParseI32(arguments[2]) == Ok(0) && ParseI32(arguments[3]) == Ok(2);
    var r := ParseTaskIds(arguments, 2);
    assert r.Ok?;
    assert |r.value| == 2 && r.value[0] == 0 && r.value[1] == 2;
    assert r.value == [0, 2];
  }

  /** Marking ids 0 and 2 of three tasks. */
  lemma MarkFirstAndLast()
    ensures MarkComplete(Three, [0, 2]) == Ok([Task(true, "a", 0), Task(false, "b", 1), Task(true, "c", 2)])
  {
    var r := MarkComplete(Three, [0, 2]);
    assert r.Ok?;
    assert r.value[0] == Three[0].(complete := true);
    assert r.value[1] == Three[1];
    assert r.value[2] == Three[2].(complete := true);
    assert r.value == [Task(true, "a", 0), Task(false, "b", 1), Task(true, "c", 2)];
  }

  /** `complete 0 2` on three tasks marks the first and the last. */
  lemma CompleteFirstAndLastList()
    ensures Complete(Three, ["t", "complete", "0", "2"])
         == Save([Task(true, "a", 0), Task(false, "b", 1), Task(true, "c", 2)])
  {
    FirstAndLastIds();
    MarkFirstAndLast();
  }

  /** The same, run from the saved file of `Three`. */
  lemma CompleteFirstAndLast()
    ensures Run(WriteTaskFile(Three), ["t", "complete", "0", "2"])
         == Save([Task(true, "a", 0), Task(false, "b", 1), Task(true, "c", 2)])
  {
    ThreeLoad();
    CompleteFirstAndLastList();
  }

  /** The list `complete 0 2` saves is written with `X` on its first and last lines. */
  lemma CompleteFirstAndLastText()
    ensures WriteTaskFile([Task(true, "a", 0), Task(false, "b", 1), Task(true, "c", 2)])
         == "Xa\n b\nXc\n"
  {
    var ts := [Task(true, "a", 0), Task(false, "b", 1), Task(true, "c", 2)];
    assert WriteTaskFile(ts[2..]) == "Xc\n";
    assert WriteTaskFile(ts[1..]) == " b\n" + "Xc\n";
  }

  /** `complete 5` on three tasks is past the last id: the run exits and
      nothing is saved. */
  lemma CompletePastLastExits()
    ensures Run(WriteTaskFile(Three), ["t", "complete", "5"]) == Exit
  {
    var arguments := ["t", "complete", "5"];
    ThreeLoad();
    ParseShow(5);
    assert ParseI32(arguments[2]) == Ok(5);
    assert !AcceptedId(arguments[2], 2);
  }

  /** A negative id passes `parse_task_ids` and then panics at the index. */
  lemma NegativeIdPanics()
    ensures Run(WriteTaskFile(Three), ["t", "complete", "-1"]) == Crash
  {
    var arguments := ["t", "complete", "-1"];
    ThreeLoad();
    ParseShow(-1);
    assert ParseI32(arguments[2]) == Ok(-1);
    assert !ValidIds(arguments, 3);
  }

  /** `complete` on an empty list panics computing the last index, even with no ids. */
  lemma CompleteOnEmptyListPanics()
    ensures Run("", ["t", "complete"]) == Crash
  {
    assert Load("") == Ok([]);
  }

  /** `del 1` on three tasks keeps the outer two, the last still carrying
      its old id 2. */
  lemma DeleteMiddle()
    ensures Run(WriteTaskFile(Three), ["t", "del", "1"]) == Save([Task(false, "a", 0), Task(false, "c", 2)])
  {
    var arguments := ["t", "del", "1"];
    ThreeLoad();
    ParseShow(1);
    assert ParseI32(arguments[2]) == Ok(1);
  }

  /** Saved and loaded again, the two tasks left by `del 1` are numbered 0 and 1. */
  lemma DeleteMiddleReload()
    ensures Load(WriteTaskFile([Task(false, "a", 0), Task(false, "c", 2)]))
         == Ok([Task(false, "a", 0), Task(false, "c", 1)])
  {
    var saved := [Task(false, "a", 0), Task(false, "c", 2)];
    assert Storable(saved[0].name) && Storable(saved[1].name);
    RoundTrip(saved);
    assert Renumber(saved) == [Task(false, "a", 0), Task(false, "c", 1)];
  }

  /** `new` accepts a name containing a newline. */
  lemma NewlineInNameAccepted()
    ensures Run("", ["t", "new", "a\nb"]) == Save([Task(false, "a\nb", 0)])
  {
    var arguments := ["t", "new", "a\nb"];
    assert Load("") == Ok([]);
    var r := New([], arguments);
    assert r.tasks[0 + 2 - 2] == Task(false, arguments[2], 0 + 2 - 2);
  }

  /** The text saved for a task whose name contains a newline, cut at the newlines. */
  lemma NewlineInNameText()
    ensures WriteTaskFile([Task(false, "a\nb", 0)]) == " a" + "\n" + ("b" + "\n")
  {
  }

  /** Such a name is saved as two lines. Here the second does not start with
      a status character, so the next run finds the file invalid. */
  lemma NewlineInNameBreaksFile()
    ensures Load(WriteTaskFile([Task(false, "a\nb", 0)])).Err?
  {
    NewlineInNameText();
    TwoLines(" a", "b");
    var lines := [" a", "b"];
    assert !WellFormed(lines[1]);
    assert !EmptyBeforeMalformed(lines) by {
      assert !AllWellFormed(lines[..2]);
    }
  }

  /** The text saved for a task named `"a\nXb"`, cut at the newlines. */
  lemma NewlineBeforeStatusText()
    ensures WriteTaskFile([Task(false, "a\nXb", 0)]) == " a" + "\n" + ("Xb" + "\n")
  {
  }

  /** When the text after the newline starts with `X`, the saved name comes
      back as two tasks, the second one complete. */
  lemma NewlineInNameSplitsTask()
    ensures Load(WriteTaskFile([Task(false, "a\nXb", 0)])) == Ok([Task(false, "a", 0), Task(true, "b", 1)])
  {
    NewlineBeforeStatusText();
    TwoLines(" a", "Xb");
    var want := [Task(false, "a", 0), Task(true, "b", 1)];
    ReadExported(want, [" a", "Xb"]);
    RenumberDense(want);
  }

  /** When the name ends in a newline, the saved text holds an empty line and
      the next run panics while loading. */
  lemma NewlineAtNameEndPanics(arguments: seq<string>)
    ensures Run(WriteTaskFile([Task(false, "a\n", 0)]), arguments) == Crash
  {
    assert WriteTaskFile([Task(false, "a\n", 0)]) == " a\n\n";
    EmptyLinePanics(arguments);
  }
}
