# A model of the text handling of a minimal C shell

The shell reads a command line a character at a time into a growable buffer
(`shell_read_input`). It splits that line in place with `strtok` on the
delimiters of `SHELL_INPUT_TOKEN_CHARS` into a growable, NULL-terminated array
of token pointers (`shell_tokenize_input`). It asks whether the line ends in
`&` (`shell_is_background`). Finally it hands the tokens to `shell_execute`,
round after round, in `shell_repl`.

The project models these pieces in Dafny, one module per concern:

- `shell_h.dfy` (`ShellH`): the constants of `shell.h`, the delimiter set, and the
  capacities the doubling policy can reach (1024·2^k).
- `libc.dfy` (`LibC`): the C library as the shell uses it.
  - `getchar` results (a character or EOF).
  - NUL-terminated strings (`StrLen`, `CStr`).
  - Pointers into the line (`Ptr`).
  - `realloc`.
- `reader.dfy` (`Reader`): `shell_read_input` as an imperative loop over an
  array. The input stream is a sequence of `getchar` results.
- `tokenizer.dfy` (`Tokenizer`):
  - A reference definition of the tokens of a line, left to right (`Spans`, `Words`).
  - An independent characterisation of them as the maximal runs of non-delimiters, with proofs that the two agree.
  - The in-place effect of `strtok` on the storage (`Cut`).
  - `strtok` itself, following the glibc algorithm (`strspn`, then `strcspn`, then overwrite one delimiter), as a method on the array.
  - `shell_tokenize_input` as a loop over a growable pointer array.
- `background.dfy` (`Background`):
  - `shell_is_background`.
  - What it answers when the REPL calls it after tokenizing.
- `repl.dfy` (`Repl`): one round of `shell_repl` and a bounded number of rounds, with the
  requests they hand to `shell_execute`.

The model follows the code, which departs from common shell conventions:

- `&` is never stripped. It reaches `execvp` as an argument when it stands alone
  (`Repl.TrailingMarkerIsPassedAsArgument`).
- Background detection runs after tokenizing. Because of this, `"sleep 5 &"` is
  reported as foreground (`Background.TrailingAmpersandIsLostAfterTokenizing`).
- `exit` and `quit` are not intercepted. `shell_execute` always returns 0, so the loop never ends
  (`Repl.ShellRepl`).
- Empty lines are not skipped (`Repl.EmptyLineIsExecuted`).

## Model

| member | source | states |
|---|---|---|
| ShellH.GrowthKeepsCapacity | shell.h:16-17 | doubling a capacity of the form 1024·2^k gives one of the same form, strictly larger |
| ShellH.InitialCapacity | shell.h:16 | the initial capacity 1024 is of the form 1024·2^k |
| LibC.StrLenIsFirstNul | shell.c:36 | strlen stops at the first NUL: a NUL with none before it at index n gives length n |
| LibC.Realloc | shell.c:90 | the reallocated block is fresh, has the requested size and keeps every element of the old block |
| Reader.LineFromUnique | shell.c:69-82 | the characters before the first newline or EOF, with the terminator excluded, form the only line the reader can return |
| Reader.EmptyLineIffTerminator | shell.c:74-77 | the line is empty exactly when the stream is at a newline or at EOF |
| Reader.ReadInput | shell.c:57-97 | returns exactly the line of the stream, NUL-terminated at `bufferPos` in a fresh buffer of capacity 1024·2^k larger than `bufferPos`, and consumes the terminator; the loop keeps the write position below the capacity and keeps the characters already read across every doubling |
| Tokenizer.SkipDelimitersUnique | shell.c:114 | the strspn step of strtok is characterised by its contract: the first non-delimiter at or after i, or the end of the line |
| Tokenizer.TokenEndUnique | shell.c:114 | the strcspn step of strtok is characterised by its contract: the first delimiter at or after i, or the end of the line |
| Tokenizer.SpansFromResumePoint | shell.c:133 | restarting strtok where token k-1 left off yields exactly the tokens from the k-th on |
| Tokenizer.SpansFromAreTokens | shell.c:114-134 | every span strtok returns is a maximal, non-empty run of non-delimiters |
| Tokenizer.SpansFromAreOrdered | shell.c:114-134 | the tokens come strictly left to right, without overlap |
| Tokenizer.SpansFromCover | shell.c:114-134 | every non-delimiter of the line lies inside some token |
| Tokenizer.TokenizationIsUnique | shell.c:114-134 | any list of maximal runs that is ordered and covers the line is the one strtok produces |
| Tokenizer.SpansAreTheTokenization | shell.c:114-134 | a list of spans is the tokenization of the line if and only if it is the list strtok produces |
| Tokenizer.WordsAreTokens | shell.c:114-134 | every token string is non-empty, free of delimiters, and is the line's text at its span |
| Tokenizer.NoTokensIffAllDelimiters | shell.c:114-134 | a line has no tokens if and only if it consists of delimiters only |
| Tokenizer.LastTokenAfterDelimiter | shell.c:133 | a line ending in one non-delimiter after a delimiter has that character as its last token |
| Tokenizer.OrderedStartsAfter | shell.c:114-134 | in an ordered span list, a span that starts before span j ends is not after j |
| Tokenizer.CutPointsAreTokenEnds | shell.c:114 | strtok writes NUL at a position if and only if the position is inside the line and ends a token |
| Tokenizer.CutChangesOnlyTokenEnds | shell.c:114 | after tokenizing, a position of the storage differs from the original exactly when it ends a token inside the C string, and it then holds NUL; leading delimiters, other delimiters and token characters are untouched |
| Tokenizer.CutKeepsToken | shell.c:114 | tokenizing leaves every token character in place and non-NUL |
| Tokenizer.CutEndsToken | shell.c:114 | after tokenizing, a NUL follows every token |
| Tokenizer.TokenPointerReadsAsWord | shell.c:120 | the k-th stored pointer, read as a C string in the tokenized storage, is exactly the k-th token string |
| Tokenizer.StrTokFinds | shell.c:133 | from the point where strtok resumes, skipping delimiters reaches the start of token k (or the end of the line once no token is left), and the token runs to its end |
| Tokenizer.StrTokResumes | shell.c:114 | strtok always saves a position it can resume from |
| Tokenizer.StrTokReturnsToken | shell.c:133 | the strtok call that resumes after token k-1 returns token k and saves the position after it, or returns NULL once the tokens are exhausted |
| Tokenizer.StorageHoldsLine | shell.c:133 | before each strtok call the storage still holds the rest of the C string and its NUL |
| Tokenizer.StrTokCuts | shell.c:133 | one strtok call writes nothing while it skips delimiters and scans the token, then NUL over the delimiter that ends the token, if there is one |
| Tokenizer.SpanDelimiters | shell.c:114 | the strspn scan on the array returns the first non-delimiter at or after i |
| Tokenizer.SpanToken | shell.c:114 | the strcspn scan on the array returns the first delimiter or NUL at or after i |
| Tokenizer.StrTok | shell.c:114 | one strtok call returns the next token and its resume position, as in the reference definition, and leaves the storage cut up to that position |
| Tokenizer.MakeRoom | shell.c:123-130 | the pointer array grows to twice its size when full; the pointers stored so far are kept, and the next write position is below the new capacity of the form 1024·2^k |
| Tokenizer.TokenizeInput | shell.c:102-140 | stores one pointer per token, left to right, at the token's start, followed by NULL at index count; count equals the number of tokens; the capacity stays of the form 1024·2^k and above count; the storage becomes the line with a NUL after each token |
| Tokenizer.AsWrittenTokenSlots | shell.c:104-127 | as written, the number of whole pointers that fit in the block: calloc's SHELL_INPUT_BUFFER_SIZE · SHELL_INPUT_BUFFER_SIZE bytes before any growth, and current_buffer_size bytes after each realloc |
| Tokenizer.AsWrittenTokenArrayOverflows | shell.c:127 | as written, with pointers of at least two bytes, the block realloc returns after a growth step does not reach the index of the next pointer stored |
| Tokenizer.AsWrittenFirstGrowthDropsPointers | shell.c:104-127 | as written, with 8-byte pointers, calloc's block holds 131072 pointers and the first realloc shrinks it to 256, fewer than the 1024 already stored |
| Background.IsBackground | shell.c:34-44 | undefined (None) exactly when strlen is 0, where the source reads string[-1]; 1 exactly when the character before the NUL is '&'; 0 exactly when it is another character |
| Background.IsBackgroundReadsCString | shell.c:34-44 | shell_is_background answers 1 exactly when the C string is non-empty and ends in '&', and 0 exactly when it is non-empty and does not; it is undefined (None) exactly on the empty string, where the source reads string[-1] |
| Background.NoCutInFirstToken | shell.c:183 | strtok writes no NUL before the end of the first token |
| Background.CutReadsAsTokenizedPrefix | shell.c:183-187 | after tokenizing, strlen sees the line up to the end of its first token when a delimiter follows it, and the whole line otherwise |
| Background.BackgroundAfterTokenize | shell.c:183-187 | in the REPL's order, the answer depends only on the last character of the first token when a delimiter follows that token, and is otherwise the answer on the untouched line |
| Background.TrailingAmpersandIsLostAfterTokenizing | shell.c:183-187 | a line of two or more tokens whose first token does not end in '&' but whose last character is '&' is background as read, and foreground after tokenizing |
| Background.AmpersandAfterDelimiterIsLost | shell.c:183-187 | "a &" is background as read, and foreground after tokenizing |
| Background.AmpersandInsideLastTokenIsSeen | shell.c:183-187 | "ls&" is still background after tokenizing |
| Repl.BufferHoldsLineString | shell.c:182 | the buffer the reader returns holds as C string the line up to its first NUL character |
| Repl.TokenizedStorageGivesRequest | shell.c:183-191 | the pointers the tokenizer stores, read in the tokenized storage, are the token strings of the line; the background flag is the judgement on what strlen sees after tokenizing |
| Repl.EmptyLineIsExecuted | shell.c:178-191 | an empty line still reaches shell_execute, with no arguments and an undefined background flag |
| Repl.TrailingMarkerIsPassedAsArgument | shell.c:183-191 | a '&' after a delimiter at the end of the line is passed to shell_execute as the last argument |
| Repl.Execute | shell.c:142-170 | shell_execute's result is never 1, the value that would end the REPL: every path returns 0 |
| Repl.ShellRound | shell.c:180-196 | one round reads the next line, and hands shell_execute that line's token strings together with the background judgement made after tokenizing; the next round starts after the consumed terminator |
| Repl.ShellRepl | shell.c:172-200 | every round the model bounds is run, in order, with the request of the corresponding line of the stream; should_exit stays 0 because shell_execute always returns 0 |

## Left out

- The process control in `shell_execute` (`fork`, `execvp`, `waitpid`, `perror`, shell.c:144-167) is not modelled.
  - `Repl.Execute` keeps only its constant result, 0.
  - The request records what would be passed to `execvp`.
  - The `background` argument is never read by the source either.
  - The model assumes that nothing but the shell reads the input stream. In the source, a child whose `execvp` fails (shell.c:154-158) returns 0 into its own copy of `shell_repl` and reads stdin too. For an empty line `arguments[0]` is NULL; passing NULL to `execvp` is undefined, and common C libraries dereference it, so the child usually crashes and only the parent reads on. A foreground program also inherits stdin and may read from it.
- Console output is not modelled: the prompt, `puts`, and the `log_info` calls. `getchar` reads from a given stream instead of the terminal.
- `shell_not_null` (shell.c:20-29) is not modelled. Allocation is taken to succeed, and the `exit(1)` path is absent.
- `free` is not modelled (shell.c:195-196).
- `calloc(n, n)` over-allocates the line buffer to 1024·1024 bytes (shell.c:60-63). The model allocates the 1024 slots the loop relies on.
- The zero fill of `calloc` in the token array is not modelled. The NULL after the last token is written explicitly (shell.c:137), and nothing reads the other slots.
- `Repl.ShellRepl`: the source loop never ends, because `should_exit` never becomes 1. The model runs a given number of rounds.
- `main.c` only calls `shell_repl` and is not part of this model.
- `strtok` keeps its save pointer in hidden static state. The model passes it explicitly, as `from` and `next`.
- Pointer values are offsets into the line.
- `Tokenizer.TokenizeInput` sizes the pointer array in slots, as `current_buffer_size` intends. The byte-sized `realloc` of shell.c:127 is modelled separately, under Findings.
- Bytes above 127 are modelled as characters. The source's `(char)` cast of `getchar`'s result is not modelled as a signed byte.

## Findings

| source | as written | input that shows it | evidently intended | confidence | as-written member | corrected member |
|---|---|---|---|---|---|---|
| shell.c:127 | `realloc(token_buffer, current_buffer_size)` asks for `current_buffer_size` bytes for an array of `char *` | a line of 1024 tokens: storing the 1024th pointer triggers the growth step, whose `realloc` shrinks the 1 MiB block to 2048 bytes (256 pointers of 8 bytes); pointers 256..1023, already stored, are cut off, and the NULL of shell.c:137 is written at index 1024, outside the block, so execvp would receive a corrupted argument vector | `realloc(token_buffer, current_buffer_size * sizeof(char *))`, so the block holds `current_buffer_size` pointers | high (not executed) | Tokenizer.AsWrittenTokenArrayOverflows | Tokenizer.MakeRoom |
