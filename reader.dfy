/** shell_read_input (shell.c:57-97): one line of the input stream, read a
    character at a time into a buffer that doubles whenever it fills. The
    stream is a sequence of getchar results; `start` is how much of it earlier
    reads consumed. */
module Reader {
  import opened LibC
  import opened ShellH

  /** The result of the getchar call made at stream position i; once the
      stream is exhausted every read yields EOF. */
  function Getchar(input: seq<GetcharResult>, i: nat): GetcharResult {
    if i < |input| then input[i] else EOF
  }

  /** The reader stops at end of stream and at a newline. */
  predicate EndsLine(c: int) {
    c == EOF || c == '\n' as int
  }

  /** The line read from position `start`: the characters before the first
      newline or EOF, the terminator itself excluded. */
  function LineFrom(input: seq<GetcharResult>, start: nat): (line: seq<char>)
    ensures forall i :: start <= i < start + |line| ==>
      !EndsLine(Getchar(input, i)) && line[i - start] == Getchar(input, i) as char
    ensures EndsLine(Getchar(input, start + |line|))
    decreases |input| - start
  {
    var c := Getchar(input, start);
    if EndsLine(c) then [] else [c as char] + LineFrom(input, start + 1)
  }

  /** Any sequence made of the stream's characters from `start` up to a
      terminator is that line: the reader neither stops early nor reads past
      the terminator. */
  lemma {:induction false} LineFromUnique(input: seq<GetcharResult>, start: nat, line: seq<char>)
    requires forall i :: start <= i < start + |line| ==>
      !EndsLine(Getchar(input, i)) && line[i - start] == Getchar(input, i) as char
    requires EndsLine(Getchar(input, start + |line|))
    ensures line == LineFrom(input, start)
    decreases |line|
  {
    if line == [] {
    } else {
      assert !EndsLine(Getchar(input, start)) && line[0] == Getchar(input, start) as char;
      LineFromUnique(input, start + 1, line[1..]);
    }
  }

  /** A stream that is at a newline or at EOF yields the empty line, and
      only such a stream does. */
  lemma EmptyLineIffTerminator(input: seq<GetcharResult>, start: nat)
    ensures LineFrom(input, start) == [] <==> EndsLine(Getchar(input, start))
  {
  }

  /** Reads one line. The buffer starts at SHELL_INPUT_BUFFER_SIZE characters
      and doubles whenever the write position reaches its capacity; the line is
      NUL-terminated at `bufferPos`, and `next` is the stream position after
      the consumed terminator. */
  method ReadInput(input: seq<GetcharResult>, start: nat)
    returns (buffer: array<char>, bufferPos: nat, next: nat)
    ensures fresh(buffer)
    ensures ValidCapacity(buffer.Length) && bufferPos < buffer.Length
    ensures buffer[..bufferPos] == LineFrom(input, start)
    ensures buffer[bufferPos] == NUL
    ensures next == start + bufferPos + 1
  {
    ghost var line := LineFrom(input, start);
    var currentBufferSize := InputBufferSize;
    // calloc: the buffer starts zeroed
    buffer := new char[currentBufferSize](_ => NUL);
    InitialCapacity();
    bufferPos := 0;
    while true
      invariant fresh(buffer)
      invariant buffer.Length == currentBufferSize && ValidCapacity(currentBufferSize)
      invariant bufferPos < currentBufferSize
      invariant bufferPos <= |line|
      invariant buffer[..bufferPos] == line[..bufferPos]
      decreases |input| - (start + bufferPos)
    {
      var character := Getchar(input, start + bufferPos);
      if character == EOF || character == '\n' as int {
        buffer[bufferPos] := NUL;
        break;
      } else {
        assert bufferPos < |line|;
        assert line[bufferPos] == character as char;
        buffer[bufferPos] := character as char;
      }
      assert buffer[..bufferPos + 1] == line[..bufferPos + 1];
      bufferPos := bufferPos + 1;
      if bufferPos >= currentBufferSize {
        GrowthKeepsCapacity(currentBufferSize);
        currentBufferSize := currentBufferSize * InputBufferGrowth;
        ghost var before := buffer[..];
        buffer := Realloc(buffer, currentBufferSize, NUL);
        assert buffer[..bufferPos] == before;
      }
    }
    next := start + bufferPos + 1;
  }
}
