/** shell_tokenize_input (shell.c:102-140): splits a line in place with
    strtok on SHELL_INPUT_TOKEN_CHARS and collects a pointer to each token in
    a growable, NULL-terminated array. A token is described by its Span, the
    half-open range of positions it covers in the line. */
module Tokenizer {
  import opened LibC
  import opened ShellH

  datatype Span = Span(start: nat, end: nat)

  /** The first position at or after i that does not hold a delimiter (or
      the end of the line): where strtok's token starts. */
  function SkipDelimiters(line: seq<char>, i: nat): (j: nat)
    requires i <= |line|
    ensures i <= j <= |line|
    ensures forall k :: i <= k < j ==> IsDelimiter(line[k])
    ensures j < |line| ==> !IsDelimiter(line[j])
    decreases |line| - i
  {
    if i == |line| || !IsDelimiter(line[i]) then i else SkipDelimiters(line, i + 1)
  }

  /** The first position at or after i that holds a delimiter (or the end of
      the line): where strtok's token ends. */
  function TokenEnd(line: seq<char>, i: nat): (j: nat)
    requires i <= |line|
    ensures i <= j <= |line|
    ensures forall k :: i <= k < j ==> !IsDelimiter(line[k])
    ensures j < |line| ==> IsDelimiter(line[j])
    decreases |line| - i
  {
    if i == |line| || IsDelimiter(line[i]) then i else TokenEnd(line, i + 1)
  }

  /** SkipDelimiters is characterised by its contract. */
  lemma {:induction false} SkipDelimitersUnique(line: seq<char>, i: nat, j: nat)
    requires i <= j <= |line|
    requires forall k :: i <= k < j ==> IsDelimiter(line[k])
    requires j < |line| ==> !IsDelimiter(line[j])
    ensures j == SkipDelimiters(line, i)
    decreases j - i
  {
    if i < j {
      SkipDelimitersUnique(line, i + 1, j);
    }
  }

  /** TokenEnd is characterised by its contract. */
  lemma {:induction false} TokenEndUnique(line: seq<char>, i: nat, j: nat)
    requires i <= j <= |line|
    requires forall k :: i <= k < j ==> !IsDelimiter(line[k])
    requires j < |line| ==> IsDelimiter(line[j])
    ensures j == TokenEnd(line, i)
    decreases j - i
  {
    if i < j {
      TokenEndUnique(line, i + 1, j);
    }
  }

  /** Where strtok resumes after a token ending at `end`: past the delimiter
      it overwrote, or at the end of the line when there was none. */
  function Resume(line: seq<char>, end: nat): nat {
    if end >= |line| then end else end + 1
  }

  /** A position strtok can resume from: the start of the line, its end, or
      just after a delimiter. */
  predicate Resumable(line: seq<char>, i: nat) {
    i == 0 || i == |line| || (0 < i <= |line| && IsDelimiter(line[i - 1]))
  }

  /** The tokens successive strtok calls return when started at position i,
      left to right. */
  function SpansFrom(line: seq<char>, i: nat): (r: seq<Span>)
    requires i <= |line|
    ensures forall k :: 0 <= k < |r| ==> i <= r[k].start < r[k].end <= |line|
    decreases |line| - i
  {
    var a := SkipDelimiters(line, i);
    if a == |line| then []
    else
      var b := TokenEnd(line, a);
      [Span(a, b)] + SpansFrom(line, Resume(line, b))
  }

  /** The tokens of a whole line. */
  function Spans(line: seq<char>): seq<Span> {
    SpansFrom(line, 0)
  }

  /** The token strings of a line. */
  function Words(line: seq<char>): (words: seq<seq<char>>)
    ensures |words| == |Spans(line)|
  {
    var spans := Spans(line);
    seq(|spans|, k requires 0 <= k < |spans| => line[spans[k].start..spans[k].end])
  }

  /** The position strtok starts from when it looks for token k: the start
      of the line for the first token, and after that where the previous
      token left it. */
  function ResumePoint(line: seq<char>, spans: seq<Span>, k: nat): nat
    requires k <= |spans|
  {
    if k == 0 then 0 else Resume(line, spans[k - 1].end)
  }

  /** From the point where strtok looks for token k, it returns the tokens
      from the k-th on. */
  lemma {:induction false} SpansFromResumePoint(line: seq<char>, k: nat)
    requires k <= |Spans(line)|
    ensures ResumePoint(line, Spans(line), k) <= |line|
    ensures SpansFrom(line, ResumePoint(line, Spans(line), k)) == Spans(line)[k..]
  {
    var all := Spans(line);
    if k > 0 {
      SpansFromResumePoint(line, k - 1);
      var from := ResumePoint(line, all, k - 1);
      var a := SkipDelimiters(line, from);
      var b := TokenEnd(line, a);
      var here := SpansFrom(line, from);
      assert here == [Span(a, b)] + SpansFrom(line, Resume(line, b));
      assert all[k - 1] == here[0] == Span(a, b);
      assert all[k..] == here[1..];
    }
  }

  // ---------------------------------------------------------------------
  // What a tokenization is, independently of how strtok finds it

  /** t is a maximal run of non-delimiters of line: non-empty, free of
      delimiters, and bounded on each side by a delimiter or an end of the line. */
  ghost predicate IsToken(line: seq<char>, t: Span) {
    && t.start < t.end <= |line|
    && (forall k :: t.start <= k < t.end ==> !IsDelimiter(line[k]))
    && (t.start == 0 || IsDelimiter(line[t.start - 1]))
    && (t.end == |line| || IsDelimiter(line[t.end]))
  }

  lemma TokenStartsWithNonDelimiter(line: seq<char>, t: Span)
    requires IsToken(line, t)
    ensures t.start < |line| && !IsDelimiter(line[t.start])
  {
  }

  /** Every span of r is a token lying at or after position i. */
  ghost predicate AllTokensFrom(line: seq<char>, i: nat, r: seq<Span>) {
    forall k :: 0 <= k < |r| ==> i <= r[k].start && IsToken(line, r[k])
  }

  /** The spans of r come strictly left to right, without overlapping. */
  ghost predicate Ordered(r: seq<Span>) {
    forall j, k :: 0 <= j < k < |r| ==> r[j].end < r[k].start
  }

  /** In an ordered list, a span that starts no later than span j ends
      comes no later than span j. */
  lemma OrderedStartsAfter(r: seq<Span>, j: nat, k: nat)
    requires Ordered(r) && j < |r| && k < |r| && r[k].start <= r[j].end
    ensures k <= j
  {
  }

  /** Position p lies inside some span of r. */
  ghost predicate Covered(r: seq<Span>, p: nat) {
    exists k :: 0 <= k < |r| && r[k].start <= p < r[k].end
  }

  /** Every non-delimiter at or after position i lies inside some span of r. */
  ghost predicate CoversFrom(line: seq<char>, i: nat, r: seq<Span>) {
    forall p :: i <= p < |line| && !IsDelimiter(line[p]) ==> Covered(r, p)
  }

  /** r lists, left to right, exactly the maximal runs of non-delimiters of
      line that lie at or after position i. */
  ghost predicate IsTokenizationFrom(line: seq<char>, i: nat, r: seq<Span>) {
    AllTokensFrom(line, i, r) && Ordered(r) && CoversFrom(line, i, r)
  }

  lemma {:induction false} SpansFromAreTokens(line: seq<char>, i: nat)
    requires i <= |line| && Resumable(line, i)
    ensures AllTokensFrom(line, i, SpansFrom(line, i))
    decreases |line| - i
  {
    var a := SkipDelimiters(line, i);
    if a < |line| {
      var b := TokenEnd(line, a);
      var rest := SpansFrom(line, Resume(line, b));
      var r := [Span(a, b)] + rest;
      assert SpansFrom(line, i) == r;
      SpansFromAreTokens(line, Resume(line, b));
      assert IsToken(line, Span(a, b));
      forall k | 0 <= k < |r|
        ensures i <= r[k].start && IsToken(line, r[k])
      {
        if k > 0 {
          assert r[k] == rest[k - 1];
        }
      }
    }
  }

  lemma {:induction false} SpansFromAreOrdered(line: seq<char>, i: nat)
    requires i <= |line|
    ensures Ordered(SpansFrom(line, i))
    decreases |line| - i
  {
    var a := SkipDelimiters(line, i);
    if a < |line| {
      var b := TokenEnd(line, a);
      var rest := SpansFrom(line, Resume(line, b));
      var r := [Span(a, b)] + rest;
      assert SpansFrom(line, i) == r;
      SpansFromAreOrdered(line, Resume(line, b));
      forall j, k | 0 <= j < k < |r|
        ensures r[j].end < r[k].start
      {
        assert r[k] == rest[k - 1];
        if j > 0 {
          assert r[j] == rest[j - 1];
        }
      }
    }
  }

  lemma {:induction false} SpansFromCover(line: seq<char>, i: nat)
    requires i <= |line|
    ensures CoversFrom(line, i, SpansFrom(line, i))
    decreases |line| - i
  {
    var a := SkipDelimiters(line, i);
    if a < |line| {
      var b := TokenEnd(line, a);
      var next := Resume(line, b);
      var rest := SpansFrom(line, next);
      var r := [Span(a, b)] + rest;
      assert SpansFrom(line, i) == r;
      SpansFromCover(line, next);
      forall p | i <= p < |line| && !IsDelimiter(line[p])
        ensures Covered(r, p)
      {
        if p < b {
          assert r[0].start <= p < r[0].end;
        } else {
          assert Covered(rest, p);
          var k :| 0 <= k < |rest| && rest[k].start <= p < rest[k].end;
          assert r[k + 1] == rest[k];
        }
      }
    }
  }

  /** What strtok returns from a resumable position is a tokenization. */
  lemma SpansFromIsTokenization(line: seq<char>, i: nat)
    requires i <= |line| && Resumable(line, i)
    ensures IsTokenizationFrom(line, i, SpansFrom(line, i))
  {
    SpansFromAreTokens(line, i);
    SpansFromAreOrdered(line, i);
    SpansFromCover(line, i);
  }

  /** The first span of a tokenization from a resumable position is the
      token strtok finds there. */
  lemma FirstOfTokenization(line: seq<char>, i: nat, r: seq<Span>)
    requires i <= |line| && Resumable(line, i)
    requires IsTokenizationFrom(line, i, r)
    requires SkipDelimiters(line, i) < |line|
    ensures r != []
    ensures r[0] == Span(SkipDelimiters(line, i), TokenEnd(line, SkipDelimiters(line, i)))
  {
    var a := SkipDelimiters(line, i);
    var b := TokenEnd(line, a);
    TokenStartsWithNonDelimiter(line, r[0]);
    assert a <= r[0].start;
    assert Covered(r, a);
    var k :| 0 <= k < |r| && r[k].start <= a < r[k].end;
    assert k == 0;
    assert r[0].end == b;
  }

  /** Dropping the first token of a tokenization leaves a tokenization of the
      rest of the line. */
  lemma RestOfTokenization(line: seq<char>, i: nat, r: seq<Span>)
    requires i <= |line|
    requires IsTokenizationFrom(line, i, r)
    requires r != [] && r[0].end <= |line|
    ensures IsTokenizationFrom(line, Resume(line, r[0].end), r[1..])
  {
    var next := Resume(line, r[0].end);
    var rest := r[1..];
    assert IsToken(line, r[0]);
    forall k | 0 <= k < |rest|
      ensures next <= rest[k].start && IsToken(line, rest[k])
    {
      assert r[0].end < r[k + 1].start;
      assert IsToken(line, r[k + 1]);
    }
    forall j, k | 0 <= j < k < |rest|
      ensures rest[j].end < rest[k].start
    {
      assert r[j + 1].end < r[k + 1].start;
    }
    forall p | next <= p < |line| && !IsDelimiter(line[p])
      ensures Covered(rest, p)
    {
      assert Covered(r, p);
      var k :| 0 <= k < |r| && r[k].start <= p < r[k].end;
      assert k != 0;
      assert rest[k - 1] == r[k];
    }
  }

  /** A sequence that starts with the token strtok finds from i and goes on
      with what strtok returns after it is what strtok returns from i. */
  lemma SpansFromFirstThenRest(line: seq<char>, i: nat, r: seq<Span>)
    requires i <= |line| && SkipDelimiters(line, i) < |line|
    requires r != [] && r[0] == Span(SkipDelimiters(line, i), TokenEnd(line, SkipDelimiters(line, i)))
    requires r[1..] == SpansFrom(line, Resume(line, r[0].end))
    ensures r == SpansFrom(line, i)
  {
    assert r == [r[0]] + r[1..];
  }

  /** A tokenization from a resumable position is unique: it is what strtok
      returns. */
  lemma {:induction false} TokenizationIsUnique(line: seq<char>, i: nat, r: seq<Span>)
    requires i <= |line| && Resumable(line, i)
    requires IsTokenizationFrom(line, i, r)
    ensures r == SpansFrom(line, i)
    decreases |line| - i
  {
    var a := SkipDelimiters(line, i);
    if a == |line| {
      if r != [] {
        TokenStartsWithNonDelimiter(line, r[0]);
      }
    } else {
      var b := TokenEnd(line, a);
      FirstOfTokenization(line, i, r);
      RestOfTokenization(line, i, r);
      TokenizationIsUnique(line, Resume(line, b), r[1..]);
      SpansFromFirstThenRest(line, i, r);
    }
  }

  /** The tokens of a line are exactly its maximal runs of non-delimiters,
      in left-to-right order. */
  lemma SpansAreTheTokenization(line: seq<char>, r: seq<Span>)
    ensures IsTokenizationFrom(line, 0, Spans(line))
    ensures IsTokenizationFrom(line, 0, r) <==> r == Spans(line)
  {
    SpansFromIsTokenization(line, 0);
    if IsTokenizationFrom(line, 0, r) {
      TokenizationIsUnique(line, 0, r);
    }
  }

  /** Every token string is non-empty and free of delimiters, and appears in
      the line at its span. */
  lemma WordsAreTokens(line: seq<char>, k: nat)
    requires k < |Words(line)|
    ensures Words(line)[k] != []
    ensures forall c :: c in Words(line)[k] ==> !IsDelimiter(c)
    ensures Words(line)[k] == line[Spans(line)[k].start..Spans(line)[k].end]
  {
    SpansFromAreTokens(line, 0);
    assert IsToken(line, Spans(line)[k]);
  }

  /** A line made only of delimiters, and only such a line, has no tokens. */
  lemma NoTokensIffAllDelimiters(line: seq<char>)
    ensures Spans(line) == [] <==> forall k :: 0 <= k < |line| ==> IsDelimiter(line[k])
  {
    if Spans(line) == [] {
      assert SkipDelimiters(line, 0) == |line|;
    } else {
      var a := SkipDelimiters(line, 0);
      assert a < |line| && !IsDelimiter(line[a]);
    }
  }

  /** A line that ends in a single non-delimiter after a delimiter has that
      character as its last token. */
  lemma LastTokenAfterDelimiter(line: seq<char>)
    requires |line| >= 2 && !IsDelimiter(line[|line| - 1]) && IsDelimiter(line[|line| - 2])
    ensures Spans(line) != [] && Spans(line)[|Spans(line)| - 1] == Span(|line| - 1, |line|)
  {
    var all := Spans(line);
    var last := |line| - 1;
    SpansFromAreTokens(line, 0);
    SpansFromAreOrdered(line, 0);
    SpansFromCover(line, 0);
    assert Covered(all, last);
    var k :| 0 <= k < |all| && all[k].start <= last < all[k].end;
    var m := |all| - 1;
    assert IsToken(line, all[k]) && IsToken(line, all[m]);
    assert all[k] == Span(last, |line|);
    OrderedStartsAfter(all, k, m);
  }

  // ---------------------------------------------------------------------
  // The in-place effect of strtok on the line

  /** strtok overwrites position i with NUL exactly when i holds a delimiter
      that directly follows a non-delimiter: the end of a token. */
  predicate IsCutPoint(line: seq<char>, i: nat) {
    0 < i < |line| && IsDelimiter(line[i]) && !IsDelimiter(line[i - 1])
  }

  /** The storage `orig` once strtok has worked through the first m
      positions of its C string (m is at most the length of that string,
      and positions before it read the same in the string and the storage). */
  function CutBelow(orig: seq<char>, m: nat): (r: seq<char>)
    ensures |r| == |orig|
  {
    seq(|orig|, i requires 0 <= i < |orig| => if i < m && IsCutPoint(orig, i) then NUL else orig[i])
  }

  /** Inside its C string, the storage has the same cut points as the string. */
  lemma CutPointsOfStorage(orig: seq<char>, i: nat)
    requires i < StrLen(orig)
    ensures IsCutPoint(orig, i) == IsCutPoint(CStr(orig), i)
  {
  }

  /** The storage `orig` once strtok has split the whole C string. */
  function Cut(orig: seq<char>): (r: seq<char>)
    ensures |r| == |orig|
  {
    CutBelow(orig, StrLen(orig))
  }

  /** The positions strtok overwrites are exactly the ends of tokens that lie
      inside the line: the single delimiter after each such token. */
  lemma CutPointsAreTokenEnds(line: seq<char>, i: nat)
    ensures IsCutPoint(line, i) <==>
      i < |line| && exists k :: 0 <= k < |Spans(line)| && Spans(line)[k].end == i
  {
    var r := Spans(line);
    SpansFromIsTokenization(line, 0);
    if IsCutPoint(line, i) {
      var k :| 0 <= k < |r| && r[k].start <= i - 1 < r[k].end;
      assert IsToken(line, r[k]);
      assert r[k].end == i;
    }
    if i < |line| && exists k :: 0 <= k < |r| && r[k].end == i {
      var k :| 0 <= k < |r| && r[k].end == i;
      assert IsToken(line, r[k]);
    }
  }

  /** Nothing else changes: a position of the storage differs after
      tokenizing exactly when it is the end of a token inside the C string,
      and it then holds NUL. */
  lemma CutChangesOnlyTokenEnds(orig: seq<char>, i: nat)
    requires i < |orig|
    ensures Cut(orig)[i] != orig[i] <==>
      i < StrLen(orig) && exists k :: 0 <= k < |Spans(CStr(orig))| && Spans(CStr(orig))[k].end == i
    ensures Cut(orig)[i] != orig[i] ==> Cut(orig)[i] == NUL
  {
    CutPointsAreTokenEnds(CStr(orig), i);
    if i < StrLen(orig) {
      CutPointsOfStorage(orig, i);
    }
  }

  /** No cut point lies in [m1, m2): strtok writes nothing while it passes
      over those positions. */
  lemma CutBelowNoCut(orig: seq<char>, m1: nat, m2: nat)
    requires m1 <= m2 <= StrLen(orig)
    requires forall i :: m1 <= i < m2 ==> !IsCutPoint(CStr(orig), i)
    ensures CutBelow(orig, m1) == CutBelow(orig, m2)
  {
    forall i | m1 <= i < m2
      ensures !IsCutPoint(orig, i)
    {
      CutPointsOfStorage(orig, i);
    }
  }

  /** Passing over a cut point writes NUL there. */
  lemma CutBelowStep(orig: seq<char>, b: nat)
    requires b < StrLen(orig) && IsCutPoint(CStr(orig), b)
    ensures CutBelow(orig, b + 1) == CutBelow(orig, b)[b := NUL]
  {
    CutPointsOfStorage(orig, b);
  }

  /** Tokenizing leaves the characters of every token in place. */
  lemma CutKeepsToken(orig: seq<char>, t: Span)
    requires IsCString(orig) && IsToken(CStr(orig), t)
    ensures forall j :: t.start <= j < t.end ==> Cut(orig)[j] == CStr(orig)[j] != NUL
  {
    var line := CStr(orig);
    forall j | t.start <= j < t.end
      ensures Cut(orig)[j] == line[j]
    {
      CutPointsOfStorage(orig, j);
      assert !IsCutPoint(line, j);
    }
  }

  /** After tokenizing, a NUL follows every token: the overwritten delimiter,
      or the terminator of the line. */
  lemma CutEndsToken(orig: seq<char>, t: Span)
    requires IsCString(orig) && IsToken(CStr(orig), t)
    ensures t.end < |orig| && Cut(orig)[t.end] == NUL
  {
    if t.end < |CStr(orig)| {
      CutPointsOfStorage(orig, t.end);
      assert IsCutPoint(CStr(orig), t.end);
    }
  }

  /** The pointer to the k-th token, read as a C string in the tokenized
      storage, is exactly the k-th token string: this is what execvp receives. */
  lemma TokenPointerReadsAsWord(orig: seq<char>, k: nat)
    requires IsCString(orig)
    requires k < |Spans(CStr(orig))|
    ensures Spans(CStr(orig))[k].start <= |orig|
    ensures CStr(Cut(orig)[Spans(CStr(orig))[k].start..]) == Words(CStr(orig))[k]
  {
    var line := CStr(orig);
    var t := Spans(line)[k];
    SpansFromAreTokens(line, 0);
    assert IsToken(line, t);
    CutKeepsToken(orig, t);
    CutEndsToken(orig, t);
    var tail := Cut(orig)[t.start..];
    var len := t.end - t.start;
    assert forall j :: 0 <= j < len ==> tail[j] == line[t.start + j];
    StrLenIsFirstNul(tail, len);
    assert tail[..len] == line[t.start..t.end];
  }

  // ---------------------------------------------------------------------
  // strtok and the tokenizer

  /** Where strtok finds token k: from the point it resumes at, skipping
      delimiters leads to the token's start (or to the end of the line when
      there are no more tokens), and the token runs to its end. */
  lemma StrTokFinds(line: seq<char>, k: nat)
    requires k <= |Spans(line)|
    ensures ResumePoint(line, Spans(line), k) <= |line|
    ensures k == |Spans(line)| ==> SkipDelimiters(line, ResumePoint(line, Spans(line), k)) == |line|
    ensures k < |Spans(line)| ==>
      && SkipDelimiters(line, ResumePoint(line, Spans(line), k)) == Spans(line)[k].start
      && TokenEnd(line, Spans(line)[k].start) == Spans(line)[k].end
  {
    var all := Spans(line);
    SpansFromResumePoint(line, k);
    var from := ResumePoint(line, all, k);
    var a := SkipDelimiters(line, from);
    if a < |line| {
      assert all[k..][0] == Span(a, TokenEnd(line, a));
    }
  }

  /** The scan strtok starts with (strspn): from position i, the first
      position of the C string `line` stored in `s` that is not a delimiter,
      or the terminating NUL. Only the positions from i on need to agree
      with `line`. */
  method SpanDelimiters(s: array<char>, i: nat, ghost line: seq<char>) returns (j: nat)
    requires i <= |line| < s.Length && s[|line|] == NUL && NUL !in line
    requires forall p :: i <= p < |line| ==> s[p] == line[p]
    ensures j == SkipDelimiters(line, i)
  {
    j := i;
    while s[j] != NUL && IsDelimiter(s[j])
      invariant i <= j <= |line|
      invariant forall p :: i <= p < j ==> IsDelimiter(line[p])
      decreases |line| - j
    {
      j := j + 1;
    }
    SkipDelimitersUnique(line, i, j);
  }

  /** The scan strtok continues with (strcspn): from position i, the first
      position of the C string `line` stored in `s` that holds a delimiter,
      or the terminating NUL. */
  method SpanToken(s: array<char>, i: nat, ghost line: seq<char>) returns (j: nat)
    requires i <= |line| < s.Length && s[|line|] == NUL && NUL !in line
    requires forall p :: i <= p < |line| ==> s[p] == line[p]
    ensures j == TokenEnd(line, i)
  {
    j := i;
    while s[j] != NUL && !IsDelimiter(s[j])
      invariant i <= j <= |line|
      invariant forall p :: i <= p < j ==> !IsDelimiter(line[p])
      decreases |line| - j
    {
      j := j + 1;
    }
    TokenEndUnique(line, i, j);
  }

  /** What one strtok call returns and saves when it starts at position
      `from` of the line: the start of the next token and the point after
      it, or NULL and the end of the line once only delimiters are left. */
  function StrTokResult(line: seq<char>, from: nat): (Ptr, nat)
    requires from <= |line|
  {
    var a := SkipDelimiters(line, from);
    if a == |line| then (Null, |line|) else (At(a), Resume(line, TokenEnd(line, a)))
  }

  /** What the k-th strtok call of a tokenization returns and saves: token k
      and the point where the search for token k+1 starts, or NULL once the
      tokens are exhausted. */
  function NthStrTok(line: seq<char>, all: seq<Span>, k: nat): (Ptr, nat)
    requires k <= |all|
  {
    if k < |all| then (At(all[k].start), ResumePoint(line, all, k + 1)) else (Null, |line|)
  }

  /** strtok always saves a position it can resume from. */
  lemma StrTokResumes(line: seq<char>, from: nat)
    requires from <= |line|
    ensures StrTokResult(line, from).1 <= |line| && Resumable(line, StrTokResult(line, from).1)
  {
  }

  /** The strtok call that resumes where token k-1 left off returns token k. */
  lemma StrTokReturnsToken(line: seq<char>, k: nat)
    requires k <= |Spans(line)|
    ensures ResumePoint(line, Spans(line), k) <= |line| && Resumable(line, ResumePoint(line, Spans(line), k))
    ensures StrTokResult(line, ResumePoint(line, Spans(line), k)) == NthStrTok(line, Spans(line), k)
  {
    StrTokFinds(line, k);
    if k > 0 {
      StrTokFinds(line, k - 1);
    }
  }

  /** Before a strtok call that starts at `from`, the storage still holds
      the C string from that position on, with its terminating NUL. */
  lemma StorageHoldsLine(a: seq<char>, orig: seq<char>, from: nat)
    requires IsCString(orig) && a == CutBelow(orig, from)
    ensures StrLen(orig) < |a| && a[StrLen(orig)] == NUL && NUL !in CStr(orig)
    ensures forall p :: from <= p < StrLen(orig) ==> a[p] == CStr(orig)[p]
  {
  }

  /** The writes of one strtok call that starts at `from`: none while it
      skips delimiters and scans the token, then NUL over the delimiter that
      ends the token, if there is one. */
  lemma StrTokCuts(orig: seq<char>, from: nat)
    requires IsCString(orig) && from <= StrLen(orig) && Resumable(CStr(orig), from)
    ensures var line := CStr(orig); var a := SkipDelimiters(line, from);
      a == |line| ==> CutBelow(orig, from) == CutBelow(orig, a)
    ensures var line := CStr(orig); var a := SkipDelimiters(line, from);
      a < |line| ==> CutBelow(orig, from) == CutBelow(orig, TokenEnd(line, a))
    ensures var line := CStr(orig); var a := SkipDelimiters(line, from); var b := TokenEnd(line, a);
      a < |line| && b < |line| ==> CutBelow(orig, b + 1) == CutBelow(orig, b)[b := NUL]
  {
    var line := CStr(orig);
    var a := SkipDelimiters(line, from);
    if a == |line| {
      CutBelowNoCut(orig, from, a);
    } else {
      var b := TokenEnd(line, a);
      CutBelowNoCut(orig, from, b);
      if b < |line| {
        CutBelowStep(orig, b);
      }
    }
  }

  /** One call of strtok on SHELL_INPUT_TOKEN_CHARS. `from` is where the
      call starts (the line itself on the first call, the saved position
      afterwards) and `next` the position strtok saves for the following
      call. `orig` is the storage before tokenizing began and `line` its C
      string. */
  method StrTok(s: array<char>, from: nat, ghost orig: seq<char>, ghost line: seq<char>)
    returns (token: Ptr, next: nat)
    requires IsCString(orig) && s.Length == |orig| && line == CStr(orig)
    requires from <= |line| && Resumable(line, from)
    requires s[..] == CutBelow(orig, from)
    modifies s
    ensures next <= |line| && Resumable(line, next)
    ensures (token, next) == StrTokResult(line, from)
    ensures s[..] == CutBelow(orig, next)
  {
    StrTokResumes(line, from);
    StrTokCuts(orig, from);
    StorageHoldsLine(s[..], orig, from);
    var i := SpanDelimiters(s, from, line);
    if s[i] == NUL {
      token, next := Null, i;
      return;
    }
    var j := SpanToken(s, i, line);
    token := At(i);
    if s[j] == NUL {
      next := j;
    } else {
      s[j] := NUL;
      next := j + 1;
    }
  }

  // ---------------------------------------------------------------------
  // The pointer array as shell.c sizes it

  /** The number of pointers of `pointerSize` bytes that fit in the token
      array as shell.c allocates it after `grown` growth steps: calloc asks
      for SHELL_INPUT_BUFFER_SIZE elements of SHELL_INPUT_BUFFER_SIZE bytes,
      but realloc is given current_buffer_size, a count of pointers, as a
      number of bytes. */
  function AsWrittenTokenSlots(grown: nat, pointerSize: nat): (slots: nat)
    requires pointerSize > 0
    ensures slots * pointerSize <= AsWrittenTokenBytes(grown) < (slots + 1) * pointerSize
  {
    AsWrittenTokenBytes(grown) / pointerSize
  }

  /** The byte size of the token array as shell.c allocates it after
      `grown` growth steps: SHELL_INPUT_BUFFER_SIZE * SHELL_INPUT_BUFFER_SIZE
      from calloc, then current_buffer_size from each realloc. */
  function AsWrittenTokenBytes(grown: nat): nat {
    if grown == 0 then InputBufferSize * InputBufferSize
    else InputBufferSize * Growth(grown)
  }

  /** With pointers of two bytes or more, the first slot written after a
      growth step (index current_buffer_size / SHELL_INPUT_BUFFER_GROWTH,
      the old capacity) already lies outside the reallocated block: a line
      of SHELL_INPUT_BUFFER_SIZE tokens or more overflows it, at the latest
      with the terminating NULL. */
  lemma AsWrittenTokenArrayOverflows(grown: nat, pointerSize: nat)
    requires grown >= 1 && pointerSize >= 2
    ensures AsWrittenTokenSlots(grown, pointerSize) <= InputBufferSize * Growth(grown - 1)
  {
    var before := InputBufferSize * Growth(grown - 1);
    var bytes := InputBufferSize * Growth(grown);
    assert bytes == 2 * before;
    AtMostHalf(bytes, pointerSize);
  }

  /** With 8-byte pointers, the first growth step shrinks the block from
      SHELL_INPUT_BUFFER_SIZE * SHELL_INPUT_BUFFER_SIZE bytes (131072
      pointers) to 2048 bytes (256 pointers): of the 1024 pointers already
      stored, those at 256 and above are cut off. */
  lemma AsWrittenFirstGrowthDropsPointers()
    ensures AsWrittenTokenSlots(0, 8) == 131072
    ensures AsWrittenTokenSlots(1, 8) == 256 < InputBufferSize
  {
  }

  /** Dividing by two or more leaves at most half. */
  lemma AtMostHalf(x: nat, d: nat)
    requires d >= 2
    ensures x / d <= x / 2
  {
    var q := x / d;
    assert q * d <= x;
    assert q * 2 <= q * d;
  }

  /** The growth step of the pointer array: once position `used` is past
      its end, realloc it to SHELL_INPUT_BUFFER_GROWTH times its size; the
      pointers stored so far are kept. */
  method MakeRoom(tokens: array<Ptr>, used: nat) returns (grown: array<Ptr>, size: nat)
    requires ValidCapacity(tokens.Length) && used <= tokens.Length
    ensures grown == tokens || fresh(grown)
    ensures grown.Length == size && ValidCapacity(size) && used < size
    ensures size == if used < tokens.Length then tokens.Length else tokens.Length * InputBufferGrowth
    ensures forall k :: 0 <= k < used ==> grown[k] == tokens[k]
  {
    grown, size := tokens, tokens.Length;
    if used >= size {
      GrowthKeepsCapacity(size);
      size := size * InputBufferGrowth;
      grown := Realloc(tokens, size, Null);
    }
  }

  /** Tokenizes the C string in `s` in place. The pointer array starts with
      SHELL_INPUT_BUFFER_SIZE slots and doubles whenever it fills; it holds
      one pointer per token, left to right, followed by NULL. The storage
      afterwards is the line with a NUL after each token. */
  method TokenizeInput(s: array<char>) returns (tokens: array<Ptr>, count: nat)
    requires IsCString(s[..])
    modifies s
    ensures fresh(tokens)
    ensures ValidCapacity(tokens.Length) && count < tokens.Length
    ensures count == |Spans(CStr(old(s[..])))|
    ensures forall k :: 0 <= k < count ==> tokens[k] == At(Spans(CStr(old(s[..])))[k].start)
    ensures tokens[count] == Null
    ensures s[..] == Cut(old(s[..]))
  {
    ghost var orig := s[..];
    ghost var line := CStr(orig);
    ghost var all := Spans(line);
    ghost var starts := seq(|all|, k requires 0 <= k < |all| => At(all[k].start));
    var currentBufferSize := InputBufferSize;
    tokens := new Ptr[currentBufferSize];
    InitialCapacity();
    assert s[..] == CutBelow(orig, 0);
    StrTokReturnsToken(line, 0);
    var token: Ptr, save: nat := StrTok(s, 0, orig, line);
    var tokenBufferPos: nat := 0;
    while token != Null
      invariant fresh(tokens)
      invariant tokens.Length == currentBufferSize && ValidCapacity(currentBufferSize)
      invariant tokenBufferPos < currentBufferSize && tokenBufferPos <= |all|
      invariant s[..] == CutBelow(orig, save)
      invariant (token, save) == NthStrTok(line, all, tokenBufferPos)
      invariant forall k :: 0 <= k < tokenBufferPos ==> tokens[k] == starts[k]
      decreases |all| - tokenBufferPos
    {
      tokens[tokenBufferPos] := token;
      tokenBufferPos := tokenBufferPos + 1;
      assert forall k :: 0 <= k < tokenBufferPos ==> tokens[k] == starts[k];
      tokens, currentBufferSize := MakeRoom(tokens, tokenBufferPos);
      StrTokReturnsToken(line, tokenBufferPos);
      // strtok writes only into the line, never into the pointer array
      ghost var stored := tokens[..];
      token, save := StrTok(s, save, orig, line);
      assert tokens[..] == stored;
    }
    tokens[tokenBufferPos] := Null;
    count := tokenBufferPos;
  }
}
