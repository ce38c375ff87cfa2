/**
  The native argument vector handed to `execvp`: one C string per argument
  followed by a single null pointer. A null pointer is `None` here.
*/
module Argv {
  import opened Outcomes
  import Tokenizer

  /** `cArgs`: each argument as a C string, then the null terminator. */
  function NativeArgv(args: seq<string>): (argv: seq<Option<string>>)
    ensures |argv| == |args| + 1
    ensures forall k :: 0 <= k < |args| ==> argv[k] == Some(args[k])
    ensures argv[|args|] == None
  {
    if |args| == 0 then [None] else [Some(args[0])] + NativeArgv(args[1..])
  }

  /** How `execvp` reads a vector: the strings before the first null. */
  function ReadArgv(argv: seq<Option<string>>): seq<string>
  {
    if |argv| == 0 || argv[0].None? then [] else [argv[0].value] + ReadArgv(argv[1..])
  }

  /** The program sees exactly the arguments the vector was built from. */
  lemma {:induction false} ArgvRoundTrip(args: seq<string>)
    ensures ReadArgv(NativeArgv(args)) == args
    decreases |args|
  {
    if |args| > 0 {
      var argv := NativeArgv(args);
      assert argv[1..] == NativeArgv(args[1..]) by {
        assert forall k :: 0 <= k < |args| - 1 ==> argv[1..][k] == Some(args[1..][k]);
      }
      ArgvRoundTrip(args[1..]);
    }
  }

  /** The call the child makes: `execvp(cArgs[0], cArgs.data())`. */
  datatype ExecCall = ExecCall(file: string, argv: seq<Option<string>>)

  /** The child's exec call. `cArgs[0]` is null for an empty argument list,
      which `execvp` does not allow; that case is excluded. */
  function ChildExec(args: seq<string>): (e: ExecCall)
    requires |args| > 0
    ensures |e.argv| == |args| + 1 && e.argv[|args|] == None
    ensures e.argv[0] == Some(e.file) && e.file == args[0]
    ensures ReadArgv(e.argv) == args
  {
    ArgvRoundTrip(args);
    ExecCall(args[0], NativeArgv(args))
  }

  /** The earlier shell (src/shell.cpp) builds the child's vector from the
      whole command split on spaces: no token is dropped, so the program's
      arguments join back to the command (less one trailing space). */
  function SplitArgv(command: string): (argv: seq<Option<string>>)
    ensures |argv| == |Tokenizer.Split(command, ' ')| + 1
    ensures forall k :: 0 <= k < |argv| - 1 ==> argv[k] == Some(Tokenizer.Split(command, ' ')[k])
    ensures argv[|argv| - 1] == None
    ensures Tokenizer.Join(ReadArgv(argv), ' ') == Tokenizer.DropTrailing(command, ' ')
  {
    var args := Tokenizer.Split(command, ' ');
    ArgvRoundTrip(args);
    Tokenizer.SplitJoin(command, ' ');
    NativeArgv(args)
  }
}
