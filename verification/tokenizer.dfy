/**
  The shell's tokenizer, `Shell::splitString`: a string is cut on one
  delimiter character the way repeated `std::getline(stream, token, delim)`
  calls cut it. Every delimiter-terminated segment is a token (empty ones
  included); the segment after the last delimiter is a token only when it is
  non-empty, because `getline` fails when it extracts nothing at end of input.
*/
module Tokenizer {
  import opened Sequences

  /** `c` put in front of the first token; a lone token `[c]` if there is none. */
  function Prepend(c: char, tokens: seq<string>): (r: seq<string>)
    ensures |r| == if |tokens| == 0 then 1 else |tokens|
    ensures r[0] == [c] + (if |tokens| == 0 then "" else tokens[0])
    ensures r[1..] == if |tokens| == 0 then [] else tokens[1..]
  {
    if |tokens| == 0 then [[c]] else [[c] + tokens[0]] + tokens[1..]
  }

  /** The tokens `splitString(s, d)` returns, defined one character at a
      time: a leading delimiter closes an empty first token, and any other
      leading character starts the first token of the rest. That this is what
      the getline loop computes is `SplitUnfold` and `SplitString`. */
  function Split(s: string, d: char): (tokens: seq<string>)
    ensures |s| == 0 <==> |tokens| == 0
    decreases |s|
  {
    if |s| == 0 then []
    else if s[0] == d then [""] + Split(s[1..], d)
    else Prepend(s[0], Split(s[1..], d))
  }

  /** Concatenation of `tokens` with one `d` between neighbours. */
  function Join(tokens: seq<string>, d: char): string
  {
    if |tokens| == 0 then ""
    else if |tokens| == 1 then tokens[0]
    else tokens[0] + [d] + Join(tokens[1..], d)
  }

  /** `s` with one trailing `d` removed, if it ends in one. */
  function DropTrailing(s: string, d: char): string
  {
    if |s| > 0 && s[|s| - 1] == d then s[..|s| - 1] else s
  }

  /** Number of occurrences of `d` in `s`. */
  function Occurrences(s: string, d: char): nat
  {
    if |s| == 0 then 0
    else (if s[0] == d then 1 else 0) + Occurrences(s[1..], d)
  }

  /** No token holds the delimiter. */
  lemma {:induction false} SplitTokensClean(s: string, d: char)
    ensures forall t :: t in Split(s, d) ==> d !in t
    decreases |s|
  {
    if |s| > 0 {
      var r := Split(s[1..], d);
      SplitTokensClean(s[1..], d);
      if s[0] != d {
        var p := Prepend(s[0], r);
        forall t | t in p ensures d !in t {
          var k :| 0 <= k < |p| && p[k] == t;
          if k == 0 {
            if |r| > 0 {
              assert r[0] in r;
            }
          } else {
            assert t == r[k];
          }
        }
      }
    }
  }

  /** A delimiter-free head followed by the delimiter is the first token. */
  lemma {:induction false} SplitCons(head: string, rest: string, d: char)
    requires d !in head
    ensures Split(head + [d] + rest, d) == [head] + Split(rest, d)
    decreases |head|
  {
    var s := head + [d] + rest;
    if |head| == 0 {
      assert s[1..] == rest;
    } else {
      var tail := head[1..];
      assert d !in tail by {
        forall k | 0 <= k < |tail| ensures tail[k] != d {
          assert tail[k] == head[k + 1];
        }
      }
      assert s[0] == head[0] && s[1..] == tail + [d] + rest;
      SplitCons(tail, rest, d);
      assert [head[0]] + tail == head;
    }
  }

  /** The first token is everything before the first delimiter. */
  lemma {:induction false} SplitUnfold(s: string, d: char, i: nat)
    requires i < |s| && s[i] == d
    requires forall k :: 0 <= k < i ==> s[k] != d
    ensures Split(s, d) == [s[..i]] + Split(s[i + 1..], d)
  {
    assert d !in s[..i] by {
      forall k | 0 <= k < i ensures s[..i][k] != d {
        assert s[..i][k] == s[k];
      }
    }
    assert s == s[..i] + [d] + s[i + 1..];
    SplitCons(s[..i], s[i + 1..], d);
  }

  /** A non-empty string without the delimiter is a single token. */
  lemma {:induction false} SplitWhole(s: string, d: char)
    requires |s| > 0 && d !in s
    ensures Split(s, d) == [s]
    decreases |s|
  {
    var rest := s[1..];
    assert s[0] in s;
    if |rest| > 0 {
      assert d !in rest by {
        forall k | 0 <= k < |rest| ensures rest[k] != d {
          assert rest[k] == s[k + 1];
        }
      }
      SplitWhole(rest, d);
      assert [s[0]] + rest == s;
    } else {
      assert [s[0]] == s;
    }
  }

  /** Putting a character in front of the tokens puts it in front of their join. */
  lemma {:induction false} JoinPrepend(c: char, tokens: seq<string>, d: char)
    requires |tokens| > 0
    ensures Join(Prepend(c, tokens), d) == [c] + Join(tokens, d)
  {
    var p := Prepend(c, tokens);
    if |tokens| > 1 {
      assert p[1..] == tokens[1..];
    }
  }

  /** Dropping a trailing delimiter commutes with a leading character. */
  lemma {:induction false} DropTrailingCons(c: char, s: string, d: char)
    requires |s| > 0
    ensures DropTrailing([c] + s, d) == [c] + DropTrailing(s, d)
  {
    var t := [c] + s;
    assert t[|t| - 1] == s[|s| - 1];
    if s[|s| - 1] == d {
      assert t[..|t| - 1] == [c] + s[..|s| - 1];
    }
  }

  /** Joining the tokens gives back the input, less one trailing delimiter. */
  lemma {:induction false} SplitJoin(s: string, d: char)
    ensures Join(Split(s, d), d) == DropTrailing(s, d)
    decreases |s|
  {
    if |s| > 0 {
      SplitJoin(s[1..], d);
      ConsSlice(s, |s|);
      assert s[..|s|] == s;
      SplitJoinCons(s[0], s[1..], d);
    }
  }

  /** The inductive step of `SplitJoin`: from `rest` to `[c] + rest`. */
  lemma {:induction false} SplitJoinCons(c: char, rest: string, d: char)
    requires Join(Split(rest, d), d) == DropTrailing(rest, d)
    ensures Join(Split([c] + rest, d), d) == DropTrailing([c] + rest, d)
  {
    var s := [c] + rest;
    assert s[0] == c && s[1..] == rest;
    var r := Split(rest, d);
    if |rest| == 0 {
      assert s == [c];
    } else {
      DropTrailingCons(c, rest, d);
      if c == d {
        assert ([""] + r)[1..] == r;
      } else {
        JoinPrepend(c, r, d);
      }
    }
  }

  /** Splitting a join gives back the tokens, as long as none of them holds
      the delimiter and the last one is not empty (getline drops an empty
      final segment). */
  lemma {:induction false} JoinSplit(tokens: seq<string>, d: char)
    requires forall t :: t in tokens ==> d !in t
    requires |tokens| > 0 ==> |tokens[|tokens| - 1]| > 0
    ensures Split(Join(tokens, d), d) == tokens
    decreases |tokens|
  {
    if |tokens| == 1 {
      assert tokens[0] in tokens;
      SplitWhole(tokens[0], d);
    } else if |tokens| > 1 {
      var head, tail := tokens[0], tokens[1..];
      assert head in tokens;
      assert forall t :: t in tail ==> t in tokens;
      assert tail[|tail| - 1] == tokens[|tokens| - 1];
      JoinSplit(tail, d);
      SplitCons(head, Join(tail, d), d);
    }
  }

  /** Token count: one per delimiter, plus one for a non-empty final segment. */
  lemma {:induction false} SplitCount(s: string, d: char)
    ensures |Split(s, d)| == Occurrences(s, d) + (if |s| > 0 && s[|s| - 1] != d then 1 else 0)
    decreases |s|
  {
    if |s| > 0 {
      var rest := s[1..];
      SplitCount(rest, d);
      if |rest| > 0 {
        assert s[|s| - 1] == rest[|rest| - 1];
      }
    }
  }

  /** A leading delimiter yields a leading empty token. */
  lemma {:induction false} LeadingDelimiter(s: string, d: char)
    ensures Split([d] + s, d) == [""] + Split(s, d)
  {
    assert ([d] + s)[1..] == s;
  }

  /** Two delimiters in a row yield an empty token between them. */
  lemma {:induction false} DoubledDelimiter(p: string, s: string, d: char)
    requires d !in p
    ensures Split(p + [d, d] + s, d) == [p, ""] + Split(s, d)
  {
    assert p + [d, d] + s == p + [d] + ([d] + s);
    SplitCons(p, [d] + s, d);
    LeadingDelimiter(s, d);
  }

  /** A delimiter at the very end adds a token only when the segment it
      closes is empty (the input was empty or already ended in `d`). */
  lemma {:induction false} TrailingDelimiter(s: string, d: char)
    ensures Split(s + [d], d) == Split(s, d) + Closing(s, d)
    decreases |s|
  {
    if |s| == 0 {
      assert s + [d] == [d] && [d][1..] == [];
    } else {
      TrailingDelimiter(s[1..], d);
      assert [s[0]] + s[1..] == s;
      TrailingCons(s[0], s[1..], d);
    }
  }

  /** The token a final delimiter adds: an empty one exactly when the
      segment it closes is empty. */
  function Closing(s: string, d: char): seq<string>
  {
    if |s| == 0 || s[|s| - 1] == d then [""] else []
  }

  /** The inductive step of `TrailingDelimiter`: from `rest` to `[c] + rest`. */
  lemma {:induction false} TrailingCons(c: char, rest: string, d: char)
    requires Split(rest + [d], d) == Split(rest, d) + Closing(rest, d)
    ensures Split([c] + rest + [d], d) == Split([c] + rest, d) + Closing([c] + rest, d)
  {
    var s, t := [c] + rest, [c] + rest + [d];
    assert s[0] == c && s[1..] == rest;
    assert t[0] == c && t[1..] == rest + [d];
    assert |rest| > 0 ==> s[|s| - 1] == rest[|rest| - 1];
    if c == d {
      assert Split(t, d) == [""] + Split(rest + [d], d);
      assert Split(s, d) == [""] + Split(rest, d);
      Associates([""], Split(rest, d), Closing(rest, d));
    } else if |rest| == 0 {
      assert Split(rest + [d], d) == [""];
    } else {
      assert Split(t, d) == Prepend(c, Split(rest + [d], d));
      assert Split(s, d) == Prepend(c, Split(rest, d));
      PrependAppend(c, Split(rest, d), Closing(rest, d));
    }
  }

  /** Prepending to the first token does not disturb tokens appended later. */
  lemma PrependAppend(c: char, a: seq<string>, b: seq<string>)
    requires |a| > 0
    ensures Prepend(c, a + b) == Prepend(c, a) + b
  {
    assert (a + b)[0] == a[0];
    assert (a + b)[1..] == a[1..] + b;
  }

  /** One `getline` extraction: the token runs from `start` up to the
      delimiter at `stop` (or the end of input), which is consumed. */
  lemma {:induction false} SplitStep(input: string, start: nat, stop: nat, d: char)
    requires start < |input| && start <= stop <= |input|
    requires stop < |input| ==> input[stop] == d
    requires forall k :: start <= k < stop ==> input[k] != d
    ensures Split(input[start..], d)
      == [input[start..stop]] + Split(input[if stop < |input| then stop + 1 else stop..], d)
  {
    if stop < |input| {
      StepAtDelimiter(input, start, stop, d);
    } else {
      StepAtEnd(input, start, d);
      assert input[start..stop] == input[start..];
      assert input[stop..] == [];
    }
  }

  /** `SplitStep` when the extraction stops at a delimiter. */
  lemma {:induction false} StepAtDelimiter(input: string, start: nat, stop: nat, d: char)
    requires start <= stop < |input| && input[stop] == d
    requires forall k :: start <= k < stop ==> input[k] != d
    ensures Split(input[start..], d) == [input[start..stop]] + Split(input[stop + 1..], d)
  {
    var token, rest := input[start..stop], input[stop + 1..];
    assert d !in token by {
      forall k | 0 <= k < |token| ensures token[k] != d {
        assert token[k] == input[start + k];
      }
    }
    Around(input, start, stop);
    SplitCons(token, rest, d);
  }

  /** `SplitStep` when the extraction reaches the end of input. */
  lemma {:induction false} StepAtEnd(input: string, start: nat, d: char)
    requires start < |input|
    requires forall k :: start <= k < |input| ==> input[k] != d
    ensures Split(input[start..], d) == [input[start..]]
  {
    var rest := input[start..];
    assert d !in rest by {
      forall k | 0 <= k < |rest| ensures rest[k] != d {
        assert rest[k] == input[start + k];
      }
    }
    SplitWhole(rest, d);
  }

  /** One `std::getline` call: reads characters from `pos` up to the next
      delimiter or the end of input; the delimiter itself is not stored. */
  method GetLine(input: string, pos: nat, delimiter: char) returns (token: string, stop: nat)
    requires pos <= |input|
    ensures pos <= stop <= |input|
    ensures token == input[pos..stop]
    ensures stop < |input| ==> input[stop] == delimiter
    ensures forall k :: pos <= k < stop ==> input[k] != delimiter
  {
    token := "";
    stop := pos;
    while stop < |input| && input[stop] != delimiter
      invariant pos <= stop <= |input|
      invariant token == input[pos..stop]
      invariant forall k :: pos <= k < stop ==> input[k] != delimiter
      decreases |input| - stop
    {
      token := token + [input[stop]];
      stop := stop + 1;
    }
  }

  /** The getline loop of `splitString`: one token per successful extraction. */
  method SplitString(input: string, delimiter: char) returns (tokens: seq<string>)
    ensures tokens == Split(input, delimiter)
  {
    tokens := [];
    var pos: nat := 0;
    Slices(input, 0, 0);
    while pos < |input|
      invariant pos <= |input|
      invariant tokens + Split(input[pos..], delimiter) == Split(input, delimiter)
      decreases |input| - pos
    {
      var token, stop := GetLine(input, pos, delimiter);
      SplitStep(input, pos, stop, delimiter);
      var next := if stop < |input| then stop + 1 else stop;
      Associates(tokens, [token], Split(input[next..], delimiter));
      tokens := tokens + [token];
      pos := next;
    }
  }

  /** `"a  b "` and the empty string. */
  lemma {:induction false} SplitExamples()
    ensures Split("a  b ", ' ') == ["a", "", "b"]
    ensures Split("", ' ') == []
  {
    SplitUnfold("a  b ", ' ', 1);
    assert "a  b "[2..] == "  b "[1..];
    SplitUnfold(" b ", ' ', 0);
    SplitUnfold("b ", ' ', 1);
    assert "a  b "[..1] == "a";
    assert "a  b "[2..] == " b ";
    assert " b "[1..] == "b ";
    assert "b "[..1] == "b";
    assert "b "[2..] == "";
  }

  /** `sleep 5 ` splits into two words; the trailing space adds nothing. */
  lemma {:induction false} SplitSleepExample()
    ensures Split("sleep 5 ", ' ') == ["sleep", "5"]
  {
    assert Join(["sleep", "5"], ' ') == "sleep 5";
    JoinSplit(["sleep", "5"], ' ');
    TrailingDelimiter("sleep 5", ' ');
    assert "sleep 5" + [' '] == "sleep 5 ";
  }

  /** A spaced-off `&` is a token of its own. */
  lemma {:induction false} SplitSpacedAmpersandExample()
    ensures Split("sleep 5 & ", ' ') == ["sleep", "5", "&"]
  {
    assert Join(["sleep", "5", "&"], ' ') == "sleep 5 &";
    JoinSplit(["sleep", "5", "&"], ' ');
    TrailingDelimiter("sleep 5 &", ' ');
    assert "sleep 5 &" + [' '] == "sleep 5 & ";
  }

  /** Redirection operators are ordinary tokens to the tokenizer. */
  lemma {:induction false} SplitRedirectionExample()
    ensures Split("cat < in > out", ' ') == ["cat", "<", "in", ">", "out"]
  {
    var tokens := ["cat", "<", "in", ">", "out"];
    assert Join(tokens, ' ') == "cat < in > out" by {
      assert Join(tokens[3..], ' ') == "> out";
      assert Join(tokens[1..], ' ') == "< in > out";
    }
    JoinSplit(tokens, ' ');
  }
}
