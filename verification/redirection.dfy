/**
  Argument post-processing of the later `Shell::executeCommand` (shell.cpp):
  a trailing `&` token is popped, the tokens are scanned for the last `<` and
  the last `>` that have an operand after them, and each recorded
  operator/operand pair is erased from the argument list.

  The code erases the input pair first and then erases at the output index
  it recorded before that erase. When the `>` pair does not lie wholly before
  the `<` pair, that index is stale: the erase either runs past the end of
  the vector (undefined behaviour, modelled as `Err(StaleErase(..))`) or
  removes the wrong tokens. `StripAsWritten` models that code as it stands;
  `StripCorrected` removes the recorded pairs by their original positions.
*/
module Redirection {
  import opened Outcomes
  import Tokenizer
  import opened Sequences

  const InputOperator: string := "<"
  const OutputOperator: string := ">"
  const BackgroundToken: string := "&"
  const ArgumentDelimiter: char := ' '

  /** `open` flags and mode of the child's redirections, kept only as data:
      read-only for input; write-only, create, truncate and mode 0644 (octal)
      for output. */
  const InputOpenFlags: set<string> := {"O_RDONLY"}
  const OutputOpenFlags: set<string> := {"O_WRONLY", "O_CREAT", "O_TRUNC"}
  const OutputFileMode: nat := 0x1A4

  /* ---------- the trailing `&` token ---------- */

  /** Pops one trailing `"&"` token; popping one sets the background flag. */
  function PopBackgroundToken(args: seq<string>, background: bool): (r: (seq<string>, bool))
    ensures |r.0| <= |args| <= |r.0| + 1
    ensures r.0 == args[..|r.0|]
    ensures |r.0| < |args| <==> |args| > 0 && args[|args| - 1] == BackgroundToken
    ensures r.1 <==> background || |r.0| < |args|
  {
    if |args| > 0 && args[|args| - 1] == BackgroundToken then (args[..|args| - 1], true)
    else (args, background)
  }

  /** Popping loses nothing but the one token: putting it back restores the
      list, and only a single `"&"` is ever removed. */
  lemma PopRestores(args: seq<string>, background: bool)
    ensures var (rest, _) := PopBackgroundToken(args, background);
      args == rest + (if |rest| < |args| then [BackgroundToken] else [])
    ensures var (rest, _) := PopBackgroundToken(args, background);
      |args| >= 2 && args[|args| - 2] == BackgroundToken && args[|args| - 1] == BackgroundToken
      ==> rest[|rest| - 1] == BackgroundToken
  {
  }

  /* ---------- the redirection scan ---------- */

  /** A redirection the scan recorded: where its operator stands and the
      token after it, which names the file. */
  datatype Target = Target(index: nat, file: string)

  /** The scan's outcome: the recorded input and output redirections. */
  datatype Scan = Scan(input: Option<Target>, output: Option<Target>)

  /** Position `i` holds `op` and another token follows it. */
  predicate Recorded(args: seq<string>, op: string, i: int)
  {
    0 <= i && i + 1 < |args| && args[i] == op
  }

  /** `t` is the last recordable `op` among positions below `n`. */
  predicate LastBefore(args: seq<string>, op: string, t: Option<Target>, n: int)
  {
    match t
    case None => forall i :: 0 <= i < n ==> !Recorded(args, op, i)
    case Some(x) =>
      && x.index < n
      && Recorded(args, op, x.index)
      && x.file == args[x.index + 1]
      && forall i :: x.index < i < n ==> !Recorded(args, op, i)
  }

  /** The for-loop of the scan from position `i` on, with `acc` holding
      what the positions before `i` recorded. */
  function ScanFrom(args: seq<string>, i: nat, acc: Scan): (r: Scan)
    requires i <= |args|
    requires LastBefore(args, InputOperator, acc.input, i)
    requires LastBefore(args, OutputOperator, acc.output, i)
    ensures LastBefore(args, InputOperator, r.input, |args|)
    ensures LastBefore(args, OutputOperator, r.output, |args|)
    decreases |args| - i
  {
    if i == |args| then acc
    else if args[i] == InputOperator then
      ScanFrom(args, i + 1,
        if i + 1 < |args| then acc.(input := Some(Target(i, args[i + 1]))) else acc)
    else if args[i] == OutputOperator then
      ScanFrom(args, i + 1,
        if i + 1 < |args| then acc.(output := Some(Target(i, args[i + 1]))) else acc)
    else ScanFrom(args, i + 1, acc)
  }

  /** The scan over the whole list: the last `<` and the last `>` that have
      an operand after them, with that operand as file name. */
  function ScanRedirections(args: seq<string>): (r: Scan)
    ensures LastBefore(args, InputOperator, r.input, |args|)
    ensures LastBefore(args, OutputOperator, r.output, |args|)
  {
    ScanFrom(args, 0, Scan(None, None))
  }

  /** The two recorded positions differ, and each operand is a token. */
  lemma ScanShape(args: seq<string>)
    ensures var s := ScanRedirections(args);
      s.input.Some? && s.output.Some? ==> s.input.value.index != s.output.value.index
    ensures var s := ScanRedirections(args);
      s.input.Some? ==> s.input.value.index + 1 < |args| && s.input.value.file == args[s.input.value.index + 1]
    ensures var s := ScanRedirections(args);
      s.output.Some? ==> s.output.value.index + 1 < |args| && s.output.value.file == args[s.output.value.index + 1]
  {
  }

  /* ---------- erasing, as written ---------- */

  /** Why a strip went wrong. */
  datatype StripError = StaleErase(index: nat, size: nat)

  /** `args.erase(begin() + i, begin() + i + 2)`, defined only while the
      range stays inside the vector. */
  function Erase(args: seq<string>, i: nat): (r: Result<seq<string>, StripError>)
    ensures r.Ok? <==> i + 2 <= |args|
    ensures r.Ok? ==> |r.value| == |args| - 2
    ensures r.Ok? ==> forall k :: 0 <= k < |r.value| ==>
      r.value[k] == (if k < i then args[k] else args[k + 2])
  {
    if i + 2 <= |args| then Ok(args[..i] + args[i + 2..]) else Err(StaleErase(i, |args|))
  }

  /** The two erases of shell.cpp: the input pair first, then the output
      pair at the index recorded before the first erase. */
  function StripAsWritten(args: seq<string>, scan: Scan): Result<seq<string>, StripError>
  {
    var afterInput :=
      match scan.input
      case None => Ok(args)
      case Some(t) => Erase(args, t.index);
    match afterInput
    case Err(e) => Err(e)
    case Ok(rest) =>
      match scan.output
      case None => Ok(rest)
      case Some(t) => Erase(rest, t.index)
  }

  /* ---------- erasing, corrected ---------- */

  /** Positions of the recorded operators and their operands. */
  function Dropped(scan: Scan): set<int>
  {
    (match scan.input case None => {} case Some(t) => {t.index, t.index + 1})
    + (match scan.output case None => {} case Some(t) => {t.index, t.index + 1})
  }

  /** The elements of `args` whose positions (counted from `base`) are not
      in `drop`, in their original order. */
  function Keep(args: seq<string>, drop: set<int>, base: int): seq<string>
    decreases |args|
  {
    if |args| == 0 then []
    else (if base in drop then [] else [args[0]]) + Keep(args[1..], drop, base + 1)
  }

  /** The argument list with every recorded pair removed by its original
      position. */
  function StripCorrected(args: seq<string>, scan: Scan): seq<string>
  {
    Keep(args, Dropped(scan), 0)
  }

  /** Kept positions at the front survive as they are. */
  lemma {:induction false} KeepTake(s: seq<string>, drop: set<int>, base: int, n: nat)
    requires n <= |s|
    requires forall k :: base <= k < base + n ==> k !in drop
    ensures Keep(s, drop, base) == s[..n] + Keep(s[n..], drop, base + n)
    decreases n
  {
    if n == 0 {
      Slices(s, 0, 0);
    } else {
      var later := Keep(s[n..], drop, base + n);
      assert Keep(s[1..], drop, base + 1) == s[1..n] + later by {
        KeepTake(s[1..], drop, base + 1, n - 1);
        Slices(s, 1, n);
      }
      assert Keep(s, drop, base) == [s[0]] + Keep(s[1..], drop, base + 1) by {
        assert base !in drop;
      }
      ConsSlice(s, n);
      Associates([s[0]], s[1..n], later);
    }
  }

  /** Dropped positions at the front disappear. */
  lemma {:induction false} KeepSkip(s: seq<string>, drop: set<int>, base: int, n: nat)
    requires n <= |s|
    requires forall k :: base <= k < base + n ==> k in drop
    ensures Keep(s, drop, base) == Keep(s[n..], drop, base + n)
    decreases n
  {
    if n == 0 {
      Slices(s, 0, 0);
    } else {
      KeepSkip(s[1..], drop, base + 1, n - 1);
      Slices(s, 1, n);
    }
  }

  /** A list none of whose positions is dropped survives whole. */
  lemma {:induction false} KeepNone(a: seq<string>, drop: set<int>, base: int)
    requires forall k :: base <= k < base + |a| ==> k !in drop
    ensures Keep(a, drop, base) == a
    decreases |a|
  {
    if |a| > 0 {
      KeepNone(a[1..], drop, base + 1);
      assert [a[0]] + a[1..] == a;
    }
  }

  /** A dropped pair after `n` kept positions: the kept ones survive, the
      pair disappears. */
  lemma KeepPairAt(s: seq<string>, drop: set<int>, base: int, n: nat)
    requires n + 2 <= |s|
    requires forall k :: base <= k < base + n ==> k !in drop
    requires base + n in drop && base + n + 1 in drop
    ensures Keep(s, drop, base) == s[..n] + Keep(s[n + 2..], drop, base + n + 2)
  {
    KeepTake(s, drop, base, n);
    KeepSkip(s[n..], drop, base + n, 2);
    Slices(s, n, n + 2);
  }

  /** With one pair dropped, the rest of the list survives in order. */
  lemma KeepOnePair(args: seq<string>, drop: set<int>, a: nat)
    requires a + 2 <= |args|
    requires forall k :: 0 <= k < |args| ==> (k in drop <==> k == a || k == a + 1)
    ensures Keep(args, drop, 0) == args[..a] + args[a + 2..]
  {
    KeepPairAt(args, drop, 0, a);
    KeepNone(args[a + 2..], drop, a + 2);
  }

  /** With two disjoint pairs dropped, the three stretches around them
      survive in order. */
  lemma KeepTwoPairs(args: seq<string>, drop: set<int>, a: nat, b: nat)
    requires a + 2 <= b && b + 2 <= |args|
    requires forall k :: 0 <= k < |args| ==>
      (k in drop <==> k == a || k == a + 1 || k == b || k == b + 1)
    ensures Keep(args, drop, 0) == args[..a] + args[a + 2..b] + args[b + 2..]
  {
    KeepPairAt(args, drop, 0, a);
    var middle := args[a + 2..];
    KeepPairAt(middle, drop, a + 2, b - a - 2);
    Slices(args, a + 2, b);
    Slices(args, a + 2, b + 2);
    KeepNone(args[b + 2..], drop, b + 2);
    Associates(args[..a], args[a + 2..b], args[b + 2..]);
  }

  /** With two overlapping pairs (three positions) dropped. */
  lemma KeepRun(args: seq<string>, drop: set<int>, a: nat)
    requires a + 3 <= |args|
    requires forall k :: 0 <= k < |args| ==> (k in drop <==> a <= k <= a + 2)
    ensures Keep(args, drop, 0) == args[..a] + args[a + 3..]
  {
    KeepTake(args, drop, 0, a);
    KeepSkip(args[a..], drop, a, 3);
    Slices(args, a, a + 3);
    KeepNone(args[a + 3..], drop, a + 3);
  }

  /** What the corrected strip leaves, case by case: nothing removed without
      redirections; one operator/operand pair removed with one; both pairs
      removed with two, whatever their order; and the three tokens
      `> < file` (or `< > file`) when the pairs share a token. */
  lemma {:induction false} CorrectedContents(args: seq<string>)
    ensures var s := ScanRedirections(args);
      var r := StripCorrected(args, s);
      && (s.input.None? && s.output.None? ==> r == args)
      && (s.input.Some? && s.output.None? ==>
            r == args[..s.input.value.index] + args[s.input.value.index + 2..])
      && (s.input.None? && s.output.Some? ==>
            r == args[..s.output.value.index] + args[s.output.value.index + 2..])
      && (s.input.Some? && s.output.Some? ==>
            var lo := Min(s.input.value.index, s.output.value.index);
            var hi := Max(s.input.value.index, s.output.value.index);
            && (lo + 2 <= hi ==> r == args[..lo] + args[lo + 2..hi] + args[hi + 2..])
            && (lo + 1 == hi ==> r == args[..lo] + args[lo + 3..]))
  {
    var s := ScanRedirections(args);
    var drop := Dropped(s);
    match (s.input, s.output)
    case (None, None) =>
      KeepNone(args, drop, 0);
    case (Some(t), None) =>
      KeepOnePair(args, drop, t.index);
    case (None, Some(t)) =>
      KeepOnePair(args, drop, t.index);
    case (Some(ti), Some(to)) =>
      var lo := Min(ti.index, to.index);
      var hi := Max(ti.index, to.index);
      if lo + 2 <= hi {
        KeepTwoPairs(args, drop, lo, hi);
      } else {
        assert lo + 1 == hi;
        KeepRun(args, drop, lo);
      }
  }

  function Min(a: int, b: int): int { if a <= b then a else b }
  function Max(a: int, b: int): int { if a <= b then b else a }

  /* ---------- where the two agree ---------- */

  /** The pairs are ordered so that the code's second erase uses a stale
      index: both are recorded and the `>` pair does not end before `<`. */
  predicate StaleOrder(scan: Scan)
  {
    scan.input.Some? && scan.output.Some? && scan.output.value.index + 2 > scan.input.value.index
  }

  /** The code's erases produce the intended list exactly when the pairs are
      not in stale order; in stale order they either run past the end or
      remove the wrong tokens. */
  lemma {:induction false} AsWrittenAgreesIff(args: seq<string>)
    ensures var s := ScanRedirections(args);
      StripAsWritten(args, s) == Ok(StripCorrected(args, s)) <==> !StaleOrder(s)
  {
    var s := ScanRedirections(args);
    CorrectedContents(args);
    var r := StripCorrected(args, s);
    match (s.input, s.output)
    case (None, None) =>
    case (Some(t), None) =>
    case (None, Some(t)) =>
    case (Some(ti), Some(to)) =>
      var i, o := ti.index, to.index;
      if o + 2 <= i {
        OutputPairFirst(args, i, o);
      } else if o + 1 == i {
        // `> < file`: the intended list is three shorter, the code's four
        assert |r| == |args| - 3;
      } else if i + 1 == o {
        // `< > file`: likewise
        assert |r| == |args| - 3;
      } else {
        assert !Recorded(args, OutputOperator, o + 2);
        InputPairFirst(args, i, o);
      }
  }

  /** Erasing the later pair first and then the earlier one removes both. */
  lemma OutputPairFirst(args: seq<string>, i: nat, o: nat)
    requires o + 2 <= i && i + 2 <= |args|
    ensures var afterInput := args[..i] + args[i + 2..];
      Erase(afterInput, o) == Ok(args[..o] + args[o + 2..i] + args[i + 2..])
  {
    var afterInput := args[..i] + args[i + 2..];
    var w := afterInput[..o] + afterInput[o + 2..];
    assert w == args[..o] + args[o + 2..i] + args[i + 2..];
  }

  /** Erasing the earlier pair first shifts the later one two places left,
      so an erase at its old position misses it: it either runs past the
      end or removes the two tokens after it, which cannot be another
      recorded `>` pair. */
  lemma InputPairFirst(args: seq<string>, i: nat, o: nat)
    requires i + 2 <= o && o + 2 <= |args| && args[o] == OutputOperator
    requires !Recorded(args, OutputOperator, o + 2)
    ensures var afterInput := args[..i] + args[i + 2..];
      Erase(afterInput, o) != Ok(args[..i] + args[i + 2..o] + args[o + 2..])
  {
    var afterInput := args[..i] + args[i + 2..];
    var r := args[..i] + args[i + 2..o] + args[o + 2..];
    if o + 2 <= |afterInput| {
      var w := afterInput[..o] + afterInput[o + 2..];
      assert w[o - 2] == OutputOperator;
      assert r[o - 2] == args[o + 2];
    }
  }

  /** The stale-index erase (see Findings in README): `cat < in > out` makes the code erase past the end
      of the three-element vector left by the first erase, while the
      corrected strip leaves `cat` alone. */
  lemma StaleEraseExample()
    ensures var args := ["cat", "<", "in", ">", "out"];
      var s := ScanRedirections(args);
      && s == Scan(Some(Target(1, "in")), Some(Target(3, "out")))
      && StripAsWritten(args, s) == Err(StaleErase(3, 3))
      && StripCorrected(args, s) == ["cat"]
  {
    var args := ["cat", "<", "in", ">", "out"];
    var s := ScanRedirections(args);
    assert s.input.value.index == 1 by {
      assert Recorded(args, InputOperator, 1);
    }
    assert s.output.value.index == 3 by {
      assert Recorded(args, OutputOperator, 3);
    }
    CorrectedContents(args);
    assert args[..1] + args[1 + 2..3] + args[3 + 2..] == ["cat"];
  }

  /** With an extra word after the output file the code does not fail: it
      silently erases `x y` instead of `> out`. */
  lemma WrongEraseExample()
    ensures var args := ["cat", "<", "in", ">", "out", "x", "y"];
      var s := ScanRedirections(args);
      && StripAsWritten(args, s) == Ok(["cat", ">", "out"])
      && StripCorrected(args, s) == ["cat", "x", "y"]
  {
    var args := ["cat", "<", "in", ">", "out", "x", "y"];
    var s := ScanRedirections(args);
    assert s.input.value.index == 1 by {
      assert Recorded(args, InputOperator, 1);
    }
    assert s.output.value.index == 3 by {
      assert Recorded(args, OutputOperator, 3);
    }
    CorrectedContents(args);
    assert args[..1] + args[1 + 2..3] + args[3 + 2..] == ["cat", "x", "y"];
    assert (args[..1] + args[3..])[..3] + (args[..1] + args[3..])[5..] == ["cat", ">", "out"];
  }

  /** Output first, as in `sort > out < in`: the code gets it right. */
  lemma OutputFirstExample()
    ensures var args := ["sort", ">", "out", "<", "in"];
      var s := ScanRedirections(args);
      StripAsWritten(args, s) == Ok(["sort"])
  {
    var args := ["sort", ">", "out", "<", "in"];
    var s := ScanRedirections(args);
    assert s.input.value.index == 3 by {
      assert Recorded(args, InputOperator, 3);
    }
    assert s.output.value.index == 1 by {
      assert Recorded(args, OutputOperator, 1);
    }
    AsWrittenAgreesIff(args);
    CorrectedContents(args);
    assert args[..1] + args[1 + 2..3] + args[3 + 2..] == ["sort"];
  }

  /* ---------- the whole parse ---------- */

  /** What the parent has decided before it forks: the child's arguments,
      the background flag and the redirection files. */
  datatype Invocation = Invocation(
    args: seq<string>,
    background: bool,
    inputFile: Option<string>,
    outputFile: Option<string>)

  function FileOf(t: Option<Target>): Option<string>
  {
    match t
    case None => None
    case Some(x) => Some(x.file)
  }

  /** The parsing half of `executeCommand`, as written. */
  function PrepareAsWritten(command: string, background: bool): Result<Invocation, StripError>
  {
    var (args, bg) := PopBackgroundToken(Tokenizer.Split(command, ArgumentDelimiter), background);
    var scan := ScanRedirections(args);
    match StripAsWritten(args, scan)
    case Err(e) => Err(e)
    case Ok(rest) => Ok(Invocation(rest, bg, FileOf(scan.input), FileOf(scan.output)))
  }

  /** The same parse with the corrected strip. */
  function PrepareCorrected(command: string, background: bool): Invocation
  {
    var (args, bg) := PopBackgroundToken(Tokenizer.Split(command, ArgumentDelimiter), background);
    var scan := ScanRedirections(args);
    Invocation(StripCorrected(args, scan), bg, FileOf(scan.input), FileOf(scan.output))
  }

  /** Both parses agree on everything but the argument list, and on that
      too unless the pairs are in stale order. */
  lemma PrepareAgrees(command: string, background: bool)
    ensures var args := PopBackgroundToken(Tokenizer.Split(command, ArgumentDelimiter), background).0;
      PrepareAsWritten(command, background) == Ok(PrepareCorrected(command, background))
      <==> !StaleOrder(ScanRedirections(args))
    ensures PrepareAsWritten(command, background).Ok? ==>
      var a, c := PrepareAsWritten(command, background).value, PrepareCorrected(command, background);
      a.background == c.background && a.inputFile == c.inputFile && a.outputFile == c.outputFile
  {
    var args := PopBackgroundToken(Tokenizer.Split(command, ArgumentDelimiter), background).0;
    AsWrittenAgreesIff(args);
  }

  /** A spaced-off trailing `&` is popped and turns on background mode. */
  lemma PopExample(command: string)
    requires command == "sleep 5 & "
    ensures PrepareAsWritten(command, false) == Ok(Invocation(["sleep", "5"], true, None, None))
  {
    var tokens: seq<string> := ["sleep", "5", "&"];
    var args: seq<string> := ["sleep", "5"];
    assert Tokenizer.Split(command, ArgumentDelimiter) == tokens by {
      Tokenizer.SplitSpacedAmpersandExample();
    }
    assert PopBackgroundToken(tokens, false) == (args, true) by {
      assert tokens[..2] == args;
    }
    assert ScanRedirections(args) == Scan(None, None) by {
      assert !Recorded(args, InputOperator, 0);
      assert !Recorded(args, OutputOperator, 0);
    }
  }
}
