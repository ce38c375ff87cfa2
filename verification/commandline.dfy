/**
  How one iteration of `Shell::run` treats the line it read: the two
  built-ins are recognised by exact comparison, and any other line loses one
  trailing `&` character, which asks for background execution. The two
  variants of the shell share this logic word for word.
*/
module CommandLine {

  /** What the loop does with a line. */
  datatype LineAction =
    | Exit                                        // leave the loop
    | ListJobs                                    // poll the job table, then list it
    | Launch(command: string, background: bool)   // hand the text to executeCommand

  const ExitLine: string := "exit"
  const JobsLine: string := "myjobs"

  /** The decision `run` takes for `line`. */
  function Classify(line: string): (a: LineAction)
    ensures a.Exit? <==> line == ExitLine
    ensures a.ListJobs? <==> line == JobsLine
    ensures a.Launch? ==> (a.background <==> |line| > 0 && line[|line| - 1] == '&')
    ensures a.Launch? && a.background ==> line == a.command + "&"
    ensures a.Launch? && !a.background ==> line == a.command
  {
    if line == ExitLine then Exit
    else if line == JobsLine then ListJobs
    else if |line| > 0 && line[|line| - 1] == '&' then Launch(line[..|line| - 1], true)
    else Launch(line, false)
  }

  /** The line that leads to action `a`: the inverse of `Classify`. */
  function Render(a: LineAction): string
  {
    match a
    case Exit => ExitLine
    case ListJobs => JobsLine
    case Launch(c, b) => if b then c + "&" else c
  }

  /** An action some line produces: a foreground command neither ends in `&`
      nor spells a built-in. A background one may be any text, since the
      built-ins do not end in `&`. */
  predicate Reachable(a: LineAction)
  {
    a.Launch? && !a.background ==>
      a.command != ExitLine && a.command != JobsLine
      && (|a.command| == 0 || a.command[|a.command| - 1] != '&')
  }

  /** No character of the line is lost: rendering the action gives the line. */
  lemma RenderClassify(line: string)
    ensures Render(Classify(line)) == line
    ensures Reachable(Classify(line))
  {
    if Classify(line).Launch? && Classify(line).background {
      assert line == line[..|line| - 1] + "&";
    }
  }

  /** Exactly the reachable actions come from a line, and from only that one. */
  lemma ClassifyRender(a: LineAction)
    requires Reachable(a)
    ensures Classify(Render(a)) == a
  {
    match a
    case Exit =>
    case ListJobs =>
    case Launch(c, b) =>
      if b {
        var line := c + "&";
        assert line[|line| - 1] == '&';
        assert line[..|line| - 1] == c;
        assert line != ExitLine by { assert ExitLine[|ExitLine| - 1] != '&'; }
        assert line != JobsLine by { assert JobsLine[|JobsLine| - 1] != '&'; }
      }
  }

  /** A built-in written with a trailing `&` is not a built-in: it is
      launched, in the background, as a program of that name. */
  lemma BuiltinWithAmpersand()
    ensures Classify("exit&") == Launch("exit", true)
    ensures Classify("myjobs&") == Launch("myjobs", true)
  {
    assert "exit&"[..4] == "exit";
    assert "myjobs&"[..6] == "myjobs";
  }

  /** Only the last character is inspected: `sleep 5 &` keeps its space. */
  lemma BackgroundLineExample()
    ensures Classify("sleep 5 &") == Launch("sleep 5 ", true)
    ensures Classify("sleep 5 & ") == Launch("sleep 5 & ", false)
  {
    assert "sleep 5 &"[..8] == "sleep 5 ";
  }
}
