/** The pieces of the C library the shell relies on, stated as values: the
    range of getchar, NUL-terminated strings, pointers into a line and the
    copying done by realloc. */
module LibC {

  /** The value getchar returns at end of stream. */
  const EOF: int := -1

  /** What getchar can return: an unsigned char, or EOF. */
  type GetcharResult = c: int | c == EOF || 0 <= c < 256

  const NUL: char := '\0'

  /** A C string must hold a terminating NUL somewhere in its storage. */
  predicate IsCString(s: seq<char>) {
    NUL in s
  }

  /** strlen: the index of the first NUL (the length of s when it has none). */
  function StrLen(s: seq<char>): (n: nat)
    ensures n <= |s|
    ensures forall i :: 0 <= i < n ==> s[i] != NUL
    ensures n < |s| ==> s[n] == NUL
  {
    if |s| == 0 || s[0] == NUL then 0 else 1 + StrLen(s[1..])
  }

  /** strlen finds the first NUL: a NUL preceded by none is where it stops. */
  lemma StrLenIsFirstNul(s: seq<char>, n: nat)
    requires n < |s| && s[n] == NUL
    requires forall i :: 0 <= i < n ==> s[i] != NUL
    ensures StrLen(s) == n
  {
  }

  /** The characters a C string denotes: everything before its first NUL. */
  function CStr(s: seq<char>): (r: seq<char>)
    ensures NUL !in r
    ensures r <= s
    ensures IsCString(s) ==> |r| < |s| && s[|r|] == NUL
  {
    s[..StrLen(s)]
  }

  /** A `char *` into the line being tokenized: NULL, or an offset into it. */
  datatype Ptr = Null | At(offset: nat)

  /** realloc: a new block of `size` elements whose first elements are a copy
      of the old block (the rest is unspecified in C; here it is `fill`). */
  method Realloc<T>(a: array<T>, size: nat, fill: T) returns (b: array<T>)
    requires a.Length <= size
    ensures fresh(b) && b.Length == size
    ensures forall i :: 0 <= i < a.Length ==> b[i] == a[i]
  {
    b := new T[size](_ => fill);
    forall i | 0 <= i < a.Length {
      b[i] := a[i];
    }
  }
}
