/** Compile-time configuration of the shell (shell.h): how the line and token
    buffers are sized, which characters separate tokens, and the character
    that asks for background execution. */
module ShellH {

  /** SHELL_INPUT_BUFFER_SIZE: the capacity both growable buffers start with. */
  const InputBufferSize: nat := 1024

  /** SHELL_INPUT_BUFFER_GROWTH: the factor a full buffer's capacity is multiplied by. */
  const InputBufferGrowth: nat := 2

  /** SHELL_EXECUTE_BACKGROUND_TOKEN */
  const BackgroundToken: char := '&'

  /** Membership in SHELL_INPUT_TOKEN_CHARS: space, tab, carriage return,
      newline and bell. */
  predicate IsDelimiter(c: char) {
    c == ' ' || c == '\t' || c == '\r' || c == '\n' || c == '\U{0007}'
  }

  /** The growth factor applied k times. */
  function Growth(k: nat): (g: nat)
    ensures g >= 1
  {
    if k == 0 then 1 else InputBufferGrowth * Growth(k - 1)
  }

  /** A capacity the growth policy can reach: the initial size, grown k times. */
  ghost predicate ValidCapacity(c: nat) {
    exists k: nat :: c == InputBufferSize * Growth(k)
  }

  lemma InitialCapacity()
    ensures ValidCapacity(InputBufferSize)
  {
    assert InputBufferSize == InputBufferSize * Growth(0);
  }

  /** Growing a reachable capacity gives a reachable, strictly larger one. */
  lemma GrowthKeepsCapacity(c: nat)
    requires ValidCapacity(c)
    ensures ValidCapacity(c * InputBufferGrowth)
    ensures c * InputBufferGrowth > c
  {
    var k: nat :| c == InputBufferSize * Growth(k);
    assert c * InputBufferGrowth == InputBufferSize * Growth(k + 1);
  }
}
