/**
  One iteration of `Shell::run`, seen from the parent process: the line is
  classified, a built-in is carried out on the job table, and any other line
  is launched, appending a job when it runs in the background.

  Two variants of the class exist. The later one (shell.cpp) parses the
  command before forking: it pops a trailing `&` token and strips
  redirections. The earlier one (src/shell.cpp) forks first and hands the
  child the whole command split on spaces.

  The operating system is a pair of parameters: what `fork` gave the parent,
  and what a non-blocking `waitpid` would say about each process id.
*/
module Shell {
  import opened Outcomes
  import opened CommandLine
  import opened JobTable
  import Redirection
  import Tokenizer

  /** The state after one line. */
  datatype Step =
    | Stopped                                            // `exit`
    | Continued(table: seq<Job>, notices: seq<Notice>)   // back to the prompt
    | Undefined(error: Redirection.StripError)           // the erase ran past the end

  /** One line of the later shell (shell.cpp), as the code is written. */
  function RootStep(table: seq<Job>, line: string, fork: ForkOutcome, wait: int -> WaitOutcome): Step
  {
    match Classify(line)
    case Exit => Stopped
    case ListJobs => Continued(Kept(table, wait), Reaped(table, wait))
    case Launch(command, background) =>
      match Redirection.PrepareAsWritten(command, background)
      case Err(e) => Undefined(e)
      case Ok(call) => Continued(RecordLaunch(table, fork, command, call.background), [])
  }

  /** One line of the earlier shell (src/shell.cpp). */
  function SrcStep(table: seq<Job>, line: string, fork: ForkOutcome, wait: int -> WaitOutcome): Step
  {
    match Classify(line)
    case Exit => Stopped
    case ListJobs => Continued(Kept(table, wait), Reaped(table, wait))
    case Launch(command, background) => Continued(RecordLaunch(table, fork, command, background), [])
  }

  /** How a line can change the table: only `exit` stops; only `myjobs`
      removes entries, keeping the running ones in order; any other line adds
      at most one entry, at the end, named by the line less its final `&`. */
  lemma StepEffect(table: seq<Job>, line: string, fork: ForkOutcome, wait: int -> WaitOutcome)
    ensures SrcStep(table, line, fork, wait).Stopped? <==> line == ExitLine
    ensures RootStep(table, line, fork, wait).Stopped? <==> line == ExitLine
    ensures line == JobsLine ==>
      SrcStep(table, line, fork, wait) == Continued(Kept(table, wait), Reaped(table, wait))
      && RootStep(table, line, fork, wait) == SrcStep(table, line, fork, wait)
      && SubsequenceOf(Kept(table, wait), table)
    ensures line != JobsLine && line != ExitLine ==>
      var s := SrcStep(table, line, fork, wait);
      && s.Continued? && s.notices == []
      && |table| <= |s.table| <= |table| + 1
      && s.table[..|table|] == table
      && (|s.table| > |table| <==> fork.Forked? && |line| > 0 && line[|line| - 1] == '&')
      && (|s.table| > |table| ==> s.table[|table|] == Job(fork.pid, line[..|line| - 1]))
    ensures line != JobsLine && line != ExitLine ==>
      var r := RootStep(table, line, fork, wait);
      var command := Classify(line).command;
      var tokens := Tokenizer.Split(command, Redirection.ArgumentDelimiter);
      r.Continued? ==>
        && r.notices == []
        && |table| <= |r.table| <= |table| + 1
        && r.table[..|table|] == table
        && (|r.table| > |table| <==>
              && fork.Forked?
              && ((|line| > 0 && line[|line| - 1] == '&')
                  || (|tokens| > 0 && tokens[|tokens| - 1] == Redirection.BackgroundToken)))
        && (|r.table| > |table| ==> r.table[|table|] == Job(fork.pid, command))
  {
    if line == JobsLine {
      KeptInOrder(table, wait);
    }
  }

  /** The two variants change the job table alike on every line whose last
      token is not a lone `&` and whose redirections, if any, are not in stale
      order. What the child executes may still differ: the later variant
      strips the redirections from its arguments. */
  lemma VariantsAgree(table: seq<Job>, line: string, fork: ForkOutcome, wait: int -> WaitOutcome)
    requires Classify(line).Launch? ==>
      var tokens := Tokenizer.Split(Classify(line).command, Redirection.ArgumentDelimiter);
      && (|tokens| == 0 || tokens[|tokens| - 1] != Redirection.BackgroundToken)
      && !Redirection.StaleOrder(Redirection.ScanRedirections(tokens))
    ensures RootStep(table, line, fork, wait) == SrcStep(table, line, fork, wait)
  {
    if Classify(line).Launch? {
      var a := Classify(line);
      Redirection.PrepareAgrees(a.command, a.background);
    }
  }

  /** `sleep 5 &` starts one background job whose recorded text is the line
      without its `&` (the space before it stays), and a `myjobs` while it
      runs lists exactly that job. */
  lemma SleepInBackground(pid: Pid, wait: int -> WaitOutcome)
    requires wait(pid) == StillRunning
    ensures RootStep([], "sleep 5 &", Forked(pid), wait) == Continued([Job(pid, "sleep 5 ")], [])
    ensures SrcStep([], "sleep 5 &", Forked(pid), wait) == Continued([Job(pid, "sleep 5 ")], [])
    ensures RootStep([Job(pid, "sleep 5 ")], "myjobs", ForkFailed, wait)
      == Continued([Job(pid, "sleep 5 ")], [])
  {
    BackgroundLineExample();
    Tokenizer.SplitSleepExample();
    var tokens: seq<string> := ["sleep", "5"];
    var scan := Redirection.ScanRedirections(tokens);
    assert scan == Redirection.Scan(None, None) by {
      assert !Redirection.Recorded(tokens, Redirection.InputOperator, 0);
      assert !Redirection.Recorded(tokens, Redirection.OutputOperator, 0);
    }
    var t := [Job(pid, "sleep 5 ")];
    assert Kept(t, wait) == t by { assert t[..0] == []; }
    assert Reaped(t, wait) == [] by { assert t[..0] == []; }
  }

  /** A trailing `&` token after a space: the later shell pops it and runs
      the command in the background, recording the whole line. */
  lemma SpacedAmpersandRoot(pid: Pid, wait: int -> WaitOutcome)
    ensures RootStep([], "sleep 5 & ", Forked(pid), wait) == Continued([Job(pid, "sleep 5 & ")], [])
  {
    BackgroundLineExample();
    Redirection.PopExample("sleep 5 & ");
  }

  /** The earlier shell keeps the `&` token and runs the command in the
      foreground, so the table stays empty. */
  lemma SpacedAmpersandSrc(pid: Pid, wait: int -> WaitOutcome)
    ensures SrcStep([], "sleep 5 & ", Forked(pid), wait) == Continued([], [])
  {
    BackgroundLineExample();
  }

  /** The stale-index erase (see Findings in README) at the level of a whole
      line: `cat < in > out` reaches the out-of-range erase before any fork. */
  lemma StaleEraseLine(table: seq<Job>, fork: ForkOutcome, wait: int -> WaitOutcome)
    ensures RootStep(table, "cat < in > out", fork, wait)
      == Undefined(Redirection.StaleErase(3, 3))
    ensures Redirection.PrepareCorrected("cat < in > out", false)
      == Redirection.Invocation(["cat"], false, Some("in"), Some("out"))
  {
    var line := "cat < in > out";
    assert Classify(line) == Launch(line, false) by {
      assert line[|line| - 1] == 't';
    }
    Tokenizer.SplitRedirectionExample();
    Redirection.StaleEraseExample();
  }
}
