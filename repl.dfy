/** shell_repl (shell.c:172-200): each round reads a line, tokenizes it in
    place, asks whether the tokenized line is a background command and hands
    the tokens to shell_execute, until shell_execute returns 1. */
module Repl {
  import opened LibC
  import opened ShellH
  import opened Reader
  import opened Tokenizer
  import opened Background

  /** What one round hands to shell_execute: the argument strings execvp
      would receive and the background flag. */
  datatype Request = Request(arguments: seq<seq<char>>, background: Option<int>)

  /** shell_execute (shell.c:142-170) as far as the REPL can observe it: the
      process it starts and waits for is not modelled, and whatever happens
      there the function returns 0. The background flag is never read, and
      the result is never the 1 that would end the REPL. */
  function Execute(request: Request): (r: int)
    ensures r != 1
  {
    0
  }

  /** Where the line of round k starts in the stream: each round consumes
      its line and the terminator after it. */
  function LineStart(input: seq<GetcharResult>, k: nat): nat {
    if k == 0 then 0
    else
      var start := LineStart(input, k - 1);
      start + |LineFrom(input, start)| + 1
  }

  /** The C string the buffer holds once a line has been read: the line up
      to its first NUL character, when the stream contained one. */
  function LineString(line: seq<char>): (str: seq<char>)
    ensures str <= line
  {
    CStr(line + [NUL])
  }

  /** The argument strings execvp reads: each pointer of the token array,
      read as a C string in the storage. */
  function ArgumentStrings(storage: seq<char>, tokens: seq<Ptr>): (args: seq<seq<char>>)
    ensures |args| == |tokens|
  {
    seq(|tokens|, k requires 0 <= k < |tokens| =>
      match tokens[k]
      case Null => []
      case At(offset) => if offset <= |storage| then CStr(storage[offset..]) else [])
  }

  /** The request of a round whose buffer holds the C string `str`: its
      token strings, and the background judgement on what strlen sees of
      the line after tokenizing. */
  function RoundRequest(str: seq<char>): Request {
    Request(Words(str), EndsInBackgroundToken(TokenizedPrefix(str)))
  }

  /** The request of round k of the stream. */
  function ExpectedRequest(input: seq<GetcharResult>, k: nat): Request {
    RoundRequest(LineString(LineFrom(input, LineStart(input, k))))
  }

  /** The requests of the first n rounds, in order. */
  function ExpectedRequests(input: seq<GetcharResult>, n: nat): (r: seq<Request>)
    ensures |r| == n
  {
    if n == 0 then [] else ExpectedRequests(input, n - 1) + [ExpectedRequest(input, n - 1)]
  }

  /** A buffer holding a line followed by NUL holds the C string
      LineString(line). */
  lemma BufferHoldsLineString(storage: seq<char>, line: seq<char>)
    requires |line| < |storage| && storage[..|line|] == line && storage[|line|] == NUL
    ensures IsCString(storage) && CStr(storage) == LineString(line)
  {
    var n := StrLen(line + [NUL]);
    assert forall i :: 0 <= i <= |line| ==> storage[i] == (line + [NUL])[i];
    StrLenIsFirstNul(storage, n);
  }

  /** The pointers TokenizeInput stores, read in the tokenized storage, and
      the background judgement made on that storage, form the round's
      request. */
  lemma TokenizedStorageGivesRequest(orig: seq<char>, tokens: seq<Ptr>)
    requires IsCString(orig)
    requires |tokens| == |Spans(CStr(orig))|
    requires forall k :: 0 <= k < |tokens| ==> tokens[k] == At(Spans(CStr(orig))[k].start)
    ensures IsCString(Cut(orig))
    ensures Request(ArgumentStrings(Cut(orig), tokens), IsBackground(Cut(orig))) == RoundRequest(CStr(orig))
  {
    var line := CStr(orig);
    var args := ArgumentStrings(Cut(orig), tokens);
    forall k | 0 <= k < |tokens|
      ensures args[k] == Words(line)[k]
    {
      TokenPointerReadsAsWord(orig, k);
    }
    assert args == Words(line);
    CutReadsAsTokenizedPrefix(orig);
    IsBackgroundReadsCString(Cut(orig));
  }

  /** A round whose stream position holds a newline or EOF still reaches
      shell_execute, with no arguments and an undefined background flag:
      the loop does not skip empty lines. */
  lemma EmptyLineIsExecuted(input: seq<GetcharResult>, start: nat)
    requires EndsLine(Getchar(input, start))
    ensures RoundRequest(LineString(LineFrom(input, start))) == Request([], None)
  {
    EmptyLineIffTerminator(input, start);
    StrLenIsFirstNul([NUL], 0);
    assert LineString([]) == [];
  }

  /** A '&' standing after a delimiter at the end of the line is not
      stripped: it reaches execvp as the last argument. */
  lemma TrailingMarkerIsPassedAsArgument(str: seq<char>)
    requires |str| >= 2 && str[|str| - 1] == BackgroundToken && IsDelimiter(str[|str| - 2])
    ensures RoundRequest(str).arguments != []
    ensures RoundRequest(str).arguments[|RoundRequest(str).arguments| - 1] == [BackgroundToken]
  {
    var last := |str| - 1;
    LastTokenAfterDelimiter(str);
    WordsAreTokens(str, |Spans(str)| - 1);
    assert str[last..|str|] == [BackgroundToken];
  }

  /** One round of the REPL on the line that starts at stream position
      `start`: read it, tokenize it, judge the tokenized line, and build the
      request for shell_execute; `next` is where the following round reads. */
  method ShellRound(input: seq<GetcharResult>, start: nat) returns (request: Request, next: nat)
    ensures request == RoundRequest(LineString(LineFrom(input, start)))
    ensures next == start + |LineFrom(input, start)| + 1
  {
    var buffer, length, after := ReadInput(input, start);
    BufferHoldsLineString(buffer[..], LineFrom(input, start));
    ghost var orig := buffer[..];
    var executeArgs, count := TokenizeInput(buffer);
    TokenizedStorageGivesRequest(orig, executeArgs[..count]);
    var backgroundExecute := IsBackground(buffer[..]);
    request := Request(ArgumentStrings(buffer[..], executeArgs[..count]), backgroundExecute);
    next := after;
  }

  /** Runs `rounds` rounds of the REPL on the stream `input` and returns the
      requests handed to shell_execute. shell_execute always returns 0, so
      should_exit never becomes 1 and the loop only stops because the model
      bounds it: every round is run. */
  method ShellRepl(input: seq<GetcharResult>, rounds: nat) returns (requests: seq<Request>, shouldExit: int)
    ensures requests == ExpectedRequests(input, rounds) && shouldExit == 0
  {
    shouldExit := 0;
    requests := [];
    var round: nat := 0;
    var next: nat := 0;
    while shouldExit != 1 && round < rounds
      invariant round <= rounds && shouldExit == 0
      invariant next == LineStart(input, round)
      invariant requests == ExpectedRequests(input, round)
    {
      var request, after := ShellRound(input, next);
      shouldExit := Execute(request);
      requests := requests + [request];
      round := round + 1;
      next := after;
    }
  }
}
