/** The argument vector and the dispatch of runChild (main.c:167-212), and
    the argv[0] handling of spawnChild (main.c:130, 159). What the operating
    system then does (system, chdir, fork, execve, waitpid) is left to the
    caller: runChild's decision is returned as an Action. */
module Dispatcher {
  import opened CString
  import opened Tokenizer
  import opened Newline
  import opened Launcher

  /** What runChild does with a line. */
  datatype Action =
    | NoOp                                         // nothing entered
    | Clear                                        // system("clear")
    | ChangeDir(target: Option<string>)            // cd(childArgv[1])
    | Exit                                         // free(buffer); exit(0)
    | Spawn(program: string, argv: seq<string>)    // execve(program, argv, environ), then waitpid

  /** Slots of childArgv (main.c:172). */
  const ArgvCapacity: nat := 256

  /** The argument vector runChild builds: the tokens splitString keeps, each
      without its final newline. */
  function Argv(line: string): (argv: seq<string>)
    ensures |argv| == Min(|Fields(line)|, MaxTokens)
    ensures forall i :: 0 <= i < |argv| ==> argv[i] == StripNewline(Fields(line)[i])
  {
    var fields := Fields(line);
    seq(Min(|fields|, MaxTokens), i requires 0 <= i < Min(|fields|, MaxTokens) => StripNewline(fields[i]))
  }

  /** The if/else chain of runChild on an argument vector, with an empty
      vector treated as no command. Like `*childArgv[0]`, the no-command test
      looks only at the first character of argv[0]. */
  function Classify(argv: seq<string>): (r: Action)
    ensures r == NoOp <==> argv == [] || argv[0] == "" || argv[0][0] == LineFeed
    ensures r == Clear <==> argv != [] && argv[0] == "clear"
    ensures r.ChangeDir? <==> argv != [] && argv[0] == "cd"
    ensures r.ChangeDir? ==> (r.target.Some? <==> |argv| > 1)
    ensures r.ChangeDir? && |argv| > 1 ==> r.target == Some(StripNewline(argv[1]))
    ensures r == Exit <==> argv != [] && argv[0] == "exit"
    ensures r.Spawn? ==> |r.argv| == |argv| && r.argv[1..] == argv[1..] && r.program == ProgramPath(r.argv[0])
    ensures r.Spawn? ==> r.argv[0] == StripNewline(argv[0])
  {
    if argv == [] then NoOp
    else if argv[0] == "" || argv[0][0] == LineFeed then NoOp
    else if argv[0] == "clear" then Clear
    else if argv[0] == "cd" then ChangeDir(if |argv| > 1 then Some(StripNewline(argv[1])) else None)
    else if argv[0] == "exit" then Exit
    else
      var name := StripNewline(argv[0]);
      Spawn(ProgramPath(name), [name] + argv[1..])
  }

  /** What runChild does with the line it is given: nothing for a line
      without fields, and a spawned child gets the kept fields after the
      first, each without its final newline. */
  function Dispatch(line: string): (r: Action)
    ensures Fields(line) == [] ==> r == NoOp
    ensures r.Spawn? ==> |r.argv| == Min(|Fields(line)|, MaxTokens)
    ensures r.Spawn? ==> forall i :: 1 <= i < |r.argv| ==> r.argv[i] == StripNewline(Fields(line)[i])
  {
    Classify(Argv(line))
  }

  /** The strings in a run of non-null slots. */
  function Present(slots: seq<Option<string>>): (r: seq<string>)
    requires forall i :: 0 <= i < |slots| ==> slots[i].Some?
    ensures |r| == |slots| && forall i :: 0 <= i < |r| ==> slots[i] == Some(r[i])
  {
    seq(|slots|, i requires 0 <= i < |slots| => slots[i].value)
  }

  lemma {:induction false} StripKeepsCharacters(s: string, c: char)
    requires c in StripNewline(s)
    ensures c in s
  {
    var r := StripNewline(s);
    var k :| 0 <= k < |r| && r[k] == c;
    assert s[k] == c;
  }

  /** The tokens of a C string are C strings, and so are they without their newline. */
  lemma {:induction false} ArgvHasNoNul(line: string)
    requires NoNul(line)
    ensures forall i :: 0 <= i < |Argv(line)| ==> NoNul(Argv(line)[i])
  {
    forall i, c | 0 <= i < |Argv(line)| && c in Argv(line)[i]
      ensures c != Nul
    {
      StripKeepsCharacters(Fields(line)[i], c);
      FieldCharacters(line, i, c);
    }
  }

  /** The copy loop of runChild: childArgv receives the tokens up to the
      sentinel, each without its final newline, and keeps NULL after them. */
  method CopyArgv(splitStr: array<Option<string>>, count: nat) returns (childArgv: array<Option<string>>)
    requires count < splitStr.Length && count < ArgvCapacity
    requires forall i :: 0 <= i < count ==> splitStr[i].Some?
    requires splitStr[count] == None
    ensures fresh(childArgv) && childArgv.Length == ArgvCapacity
    ensures forall i :: 0 <= i < count ==> childArgv[i] == Some(StripNewline(splitStr[i].value))
    ensures forall i :: count <= i < ArgvCapacity ==> childArgv[i] == None
  {
    childArgv := new Option<string>[ArgvCapacity](_ => None);
    var j := 0;
    while splitStr[j].Some?
      invariant j <= count
      invariant forall i :: 0 <= i < j ==> childArgv[i] == Some(StripNewline(splitStr[i].value))
      invariant forall i :: j <= i < ArgvCapacity ==> childArgv[i] == None
      decreases count - j
    {
      childArgv[j] := Some(StripNewline(splitStr[j].value));
      j := j + 1;
    }
  }

  /** The if/else chain of runChild on childArgv, whose first count slots hold
      the arguments and the rest NULL. For an external command spawnChild
      strips its file argument again, in place, so argv[0] changes with it. */
  method DispatchArgv(childArgv: array<Option<string>>, count: nat) returns (action: Action)
    requires childArgv.Length == ArgvCapacity && count < ArgvCapacity
    requires forall i :: 0 <= i < count ==> childArgv[i].Some? && NoNul(childArgv[i].value)
    requires forall i :: count <= i < ArgvCapacity ==> childArgv[i] == None
    modifies childArgv
    ensures action == Classify(Present(old(childArgv[..count])))
    ensures forall i :: 1 <= i < ArgvCapacity ==> childArgv[i] == old(childArgv[i])
    ensures action.Spawn? ==> childArgv[0] == Some(action.argv[0])
    ensures !action.Spawn? ==> childArgv[0] == old(childArgv[0])
  {
    ghost var argv := Present(childArgv[..count]);
    if childArgv[0].None? {
      action := NoOp;
    } else if childArgv[0].value == "" || childArgv[0].value[0] == LineFeed {
      action := NoOp;
    } else if childArgv[0].value == "clear" {
      action := Clear;
    } else if childArgv[0].value == "cd" {
      var target := childArgv[1];
      if target.Some? {
        target := Some(StripNewline(target.value));
      }
      action := ChangeDir(target);
    } else if childArgv[0].value == "exit" {
      action := Exit;
    } else {
      var file := childArgv[0].value;
      var name := StripNewline(file);
      assert NoNul(name) by {
        forall c | c in name ensures c != Nul {
          StripKeepsCharacters(file, c);
        }
      }
      childArgv[0] := Some(name);
      var program := BuildProgramPath(name);
      var args := Present(childArgv[..count]);
      assert args == [name] + argv[1..];
      action := Spawn(Contents(program[..]), args);
    }
  }

  /** runChild(buffer), up to the calls into the operating system: it splits
      the line, copies each token into childArgv without its final newline,
      and classifies the command. */
  method RunChild(buffer: string) returns (action: Action)
    requires NoNul(buffer)
    ensures action == Dispatch(buffer)
  {
    var splitStr, count := SplitString(buffer);
    var childArgv := CopyArgv(splitStr, count);
    ArgvHasNoNul(buffer);
    assert Present(childArgv[..count]) == Argv(buffer);
    action := DispatchArgv(childArgv, count);
  }

  // ---------------------------------------------------------------------
  // What a line typed at the prompt does.

  /** The words with a newline after the last, as getline delivers a line. */
  function WithNewline(ws: seq<string>): (r: seq<string>)
    requires ws != []
    ensures |r| == |ws| && r[|ws| - 1] == ws[|ws| - 1] + [LineFeed]
    ensures forall i :: 0 <= i < |ws| - 1 ==> r[i] == ws[i]
  {
    ws[..|ws| - 1] + [ws[|ws| - 1] + [LineFeed]]
  }

  /** Words without a newline are left as they are by the stripping. */
  lemma {:induction false} StripLeavesWord(w: string)
    requires w != [] && LineFeed !in w
    ensures StripNewline(w) == w
  {
    assert w[|w| - 1] in w;
  }

  /** A line of words, laid out with any spaces in front and between, none
      before its newline, gives exactly those words as the argument vector. */
  lemma {:induction false} ArgvOfTypedLine(ws: seq<string>, gaps: seq<nat>)
    requires 0 < |ws| <= MaxTokens && AllWords(ws)
    requires forall i :: 0 <= i < |ws| ==> LineFeed !in ws[i]
    requires Separated(ws, gaps) && gaps[|ws|] == 0
    ensures Argv(Layout(WithNewline(ws), gaps)) == ws
  {
    var lines := WithNewline(ws);
    assert AllWords(lines) by {
      assert IsWord(ws[|ws| - 1]);
      assert Delimiter !in [LineFeed];
    }
    FieldsOfLayout(lines, gaps);
    var argv := Argv(Layout(lines, gaps));
    forall i | 0 <= i < |ws|
      ensures argv[i] == ws[i]
    {
      if i == |ws| - 1 {
        assert lines[i] == ws[i] + [LineFeed];
      } else {
        StripLeavesWord(ws[i]);
      }
    }
  }

  /** A line of words, laid out with any spaces in front and between, none
      before its newline, gives the child exactly those words as its argument
      vector, and is dispatched on its first word. */
  lemma {:induction false} DispatchTypedLine(ws: seq<string>, gaps: seq<nat>)
    requires 0 < |ws| <= MaxTokens && AllWords(ws)
    requires forall i :: 0 <= i < |ws| ==> LineFeed !in ws[i]
    requires Separated(ws, gaps) && gaps[|ws|] == 0
    ensures Argv(Layout(WithNewline(ws), gaps)) == ws
    ensures Dispatch(Layout(WithNewline(ws), gaps)) ==
      if ws[0] == "clear" then Clear
      else if ws[0] == "cd" then ChangeDir(if |ws| > 1 then Some(ws[1]) else None)
      else if ws[0] == "exit" then Exit
      else Spawn(ProgramPath(ws[0]), ws)
  {
    ArgvOfTypedLine(ws, gaps);
    assert IsWord(ws[0]);
    StripLeavesWord(ws[0]);
    if |ws| > 1 {
      assert IsWord(ws[1]);
      StripLeavesWord(ws[1]);
    }
    assert [ws[0]] + ws[1..] == ws;
  }

  /** A line of nothing but spaces, with or without its newline, does nothing. */
  lemma {:induction false} BlankLineIsNoOp(k: nat)
    ensures Dispatch(Spaces(k) + [LineFeed]) == NoOp
    ensures Dispatch(Spaces(k)) == NoOp
  {
    FieldsOfSpaces(k, [LineFeed]);
    FieldsOfWord([LineFeed], []);
    assert [LineFeed] + [] == [LineFeed];
    FieldsOfSpaces(k, []);
    assert Spaces(k) + [] == Spaces(k);
  }

  /** A line whose first field starts with a newline does nothing, whatever
      follows the newline: runChild looks only at the first character. */
  lemma {:induction false} LeadingNewlineIsNoOp(w: string, rest: string)
    requires IsWord(w) && w[0] == LineFeed
    requires rest == [] || rest[0] == Delimiter
    ensures Dispatch(w + rest) == NoOp
  {
    FieldsOfWord(w, rest);
    assert Fields(w + rest)[0] == w;
    if |w| > 1 {
      assert StripNewline(w)[0] == LineFeed;
    }
  }

  /** A space before the newline leaves the newline as a field of its own,
      so the child gets an extra, empty argument. */
  lemma {:induction false} SpaceBeforeNewline()
    ensures Argv("ls \n") == ["ls", ""]
    ensures Dispatch("ls \n") == Spawn(ProgramPath("ls"), ["ls", ""])
  {
    var ws := ["ls", "\n"];
    var gaps: seq<nat> := [0, 1, 0];
    assert Layout(ws[1..], gaps[1..]) == Spaces(1) + "\n" + Layout([], [0]);
    assert Layout(ws, gaps) == "ls \n";
    FieldsOfLayout(ws, gaps);
  }

  /** A line with more fields than the cap passes only the first MaxTokens on. */
  lemma {:induction false} DispatchDropsExtraFields(line: string)
    requires |Fields(line)| > MaxTokens
    requires Dispatch(line).Spawn?
    ensures |Dispatch(line).argv| == MaxTokens
    ensures Dispatch(line).argv[0] == StripNewline(Argv(line)[0])
    ensures Dispatch(line).argv[1..] == Argv(line)[1..MaxTokens]
  {
  }

  // ---------------------------------------------------------------------
  // The dispatch as written.

  /** `*childArgv[0]` as written: with no token, childArgv[0] is NULL. */
  function AsWrittenCommandName(argv: seq<string>): (r: Checked<string>)
    ensures r.NullDeref? <==> argv == []
    ensures r.Ok? ==> r.value == argv[0]
  {
    if argv == [] then NullDeref else Ok(argv[0])
  }

  /** A last line of spaces without a newline has no token: as written,
      runChild dereferences a null pointer where the model does nothing. */
  lemma {:induction false} AsWrittenBlankLineCrashes(k: nat)
    ensures AsWrittenCommandName(Argv(Spaces(k))) == NullDeref
    ensures Dispatch(Spaces(k)) == NoOp
  {
    FieldsOfSpaces(k, []);
    assert Spaces(k) + [] == Spaces(k);
  }

  /** The cd branch as written: `removeTrailingNewline(childArgv[1])` on a
      second field that stripping has already emptied reads index -1 of that
      string. The byte there lies inside getline's line buffer (the
      terminator strtok wrote, or a space) and is never a newline, so at
      this call site the read writes nothing. */
  function AsWrittenCdTarget(argv: seq<string>): (r: Checked<Option<string>>)
    ensures r.OutOfBounds? <==> |argv| > 1 && argv[1] == []
    ensures r.Ok? ==> r.value == if |argv| > 1 then Some(StripNewline(argv[1])) else None
  {
    if |argv| <= 1 then Ok(None)
    else match AsWrittenRemoveTrailingNewline(argv[1])
      case Ok(t) => Ok(Some(t))
      case OutOfBounds(i, n) => OutOfBounds(i, n)
      case NullDeref => NullDeref
  }

  /** "cd \n" (cd, a space, Enter) is such a line: its second field is the
      lone newline, so the second strip reads outside the empty string. */
  lemma {:induction false} AsWrittenCdTrailingSpace()
    ensures Argv("cd \n") == ["cd", ""]
    ensures AsWrittenCdTarget(Argv("cd \n")) == OutOfBounds(-1, 0)
    ensures Dispatch("cd \n") == ChangeDir(Some(""))
  {
    var ws := ["cd", "\n"];
    var gaps: seq<nat> := [0, 1, 0];
    assert Layout(ws[1..], gaps[1..]) == Spaces(1) + "\n" + Layout([], [0]);
    assert Layout(ws, gaps) == "cd \n";
    FieldsOfLayout(ws, gaps);
  }
}
