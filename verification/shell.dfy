/** The prompt loop of processLine (main.c:261-329) without its terminal
    I/O: each input line goes to runChild in turn, until a line dispatches
    to exit (main.c:203-208) or the input ends (main.c:301-305); both stop
    the shell with status 0. */
module Shell {
  import opened CString
  import opened Dispatcher

  datatype Stop = ExitCommand | EndOfInput

  /** The actions up to and including the first exit. */
  function UpToExit(actions: seq<Action>): (r: seq<Action>)
    ensures |r| <= |actions|
    decreases |actions|
  {
    if actions == [] then []
    else if actions[0] == Exit then [Exit]
    else [actions[0]] + UpToExit(actions[1..])
  }

  /** What runChild would do with each line on its own. */
  function Actions(lines: seq<string>): (r: seq<Action>)
    ensures |r| == |lines| && forall i :: 0 <= i < |lines| ==> r[i] == Dispatch(lines[i])
  {
    seq(|lines|, i requires 0 <= i < |lines| => Dispatch(lines[i]))
  }

  /** The actions the shell takes for its input lines. */
  function Session(lines: seq<string>): (r: seq<Action>)
    ensures |r| <= |lines|
  {
    UpToExit(Actions(lines))
  }

  /** Cut at the first exit: a prefix of the actions, exit only at its end,
      shorter only when it ends with exit, and holding exit exactly when the
      actions do. */
  lemma {:induction false} UpToExitShape(actions: seq<Action>)
    ensures UpToExit(actions) <= actions
    ensures forall i :: 0 <= i < |UpToExit(actions)| - 1 ==> UpToExit(actions)[i] != Exit
    ensures |UpToExit(actions)| < |actions| ==>
              UpToExit(actions) != [] && UpToExit(actions)[|UpToExit(actions)| - 1] == Exit
    ensures Exit in UpToExit(actions) <==> Exit in actions
    decreases |actions|
  {
    if actions != [] && actions[0] != Exit {
      UpToExitShape(actions[1..]);
      assert actions == [actions[0]] + actions[1..];
    }
  }

  /** One step of the cut, taken at position i. */
  lemma {:induction false} UpToExitStep(actions: seq<Action>, i: nat)
    requires i < |actions|
    ensures UpToExit(actions[i..]) ==
              if actions[i] == Exit then [Exit] else [actions[i]] + UpToExit(actions[i + 1..])
  {
    assert actions[i..][0] == actions[i];
    assert actions[i..][1..] == actions[i + 1..];
  }

  /** A session is the lines' actions in order, it contains exit only as its
      last action, and it stops before the input ends only at an exit. */
  lemma {:induction false} SessionStopsAtExit(lines: seq<string>)
    ensures |Session(lines)| <= |lines|
    ensures forall i :: 0 <= i < |Session(lines)| ==> Session(lines)[i] == Dispatch(lines[i])
    ensures forall i :: 0 <= i < |Session(lines)| - 1 ==> Session(lines)[i] != Exit
    ensures |Session(lines)| < |lines| ==> Session(lines) != [] && Session(lines)[|Session(lines)| - 1] == Exit
    ensures Exit in Session(lines) <==> exists i :: 0 <= i < |lines| && Dispatch(lines[i]) == Exit
  {
    var acts := Actions(lines);
    UpToExitShape(acts);
    if exists i :: 0 <= i < |lines| && Dispatch(lines[i]) == Exit {
      var i :| 0 <= i < |lines| && Dispatch(lines[i]) == Exit;
      assert acts[i] == Exit;
    }
  }

  /** The loop of processLine over the lines getline returns, each one a C
      string: the actions runChild takes, why the loop stopped, and the exit
      status, which is 0 either way. */
  method ProcessLines(lines: seq<string>) returns (trace: seq<Action>, stop: Stop, status: int)
    requires forall i :: 0 <= i < |lines| ==> NoNul(lines[i])
    ensures trace == Session(lines)
    ensures stop == ExitCommand <==> Exit in trace
    ensures status == 0
  {
    ghost var acts := Actions(lines);
    trace := [];
    var i := 0;
    while i < |lines|
      invariant i <= |lines|
      invariant trace + UpToExit(acts[i..]) == UpToExit(acts)
      invariant Exit !in trace
    {
      var action := RunChild(lines[i]);
      UpToExitStep(acts, i);
      if action == Exit {
        trace := trace + [action];
        return trace, ExitCommand, 0;
      }
      trace := trace + [action];
      i := i + 1;
    }
    return trace, EndOfInput, 0;
  }
}
