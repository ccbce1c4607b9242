/** shell_is_background (shell.c:34-44): whether a command line asks to run
    in the background, judged by its last character; and what that judgement
    sees in the REPL, where it is made after the line has been tokenized in
    place (shell.c:183-187). */
module Background {
  import opened LibC
  import opened ShellH
  import opened Tokenizer

  datatype Option<T> = None | Some(value: T)

  /** shell_is_background on the C string stored in `s`: 1 when the
      character before the terminating NUL is SHELL_EXECUTE_BACKGROUND_TOKEN,
      0 otherwise. On an empty string the source reads string[-1], which is
      undefined: the model answers None there. */
  function IsBackground(s: seq<char>): (r: Option<int>)
    requires IsCString(s)
    ensures r == None <==> StrLen(s) == 0
    ensures r == Some(1) <==> StrLen(s) > 0 && s[StrLen(s) - 1] == BackgroundToken
    ensures r == Some(0) <==> StrLen(s) > 0 && s[StrLen(s) - 1] != BackgroundToken
  {
    var length := StrLen(s);
    if length == 0 then None
    else if s[length - 1] == BackgroundToken then Some(1)
    else Some(0)
  }

  /** The judgement on the characters of a string: undefined when there are
      none, 1 when the last one is '&', 0 otherwise. */
  function EndsInBackgroundToken(str: seq<char>): Option<int> {
    if str == [] then None
    else if str[|str| - 1] == BackgroundToken then Some(1)
    else Some(0)
  }

  /** shell_is_background depends only on the C string, not on what the
      storage holds after its NUL, and answers as EndsInBackgroundToken; it
      is undefined exactly on the empty string, and otherwise 1 or 0. */
  lemma IsBackgroundReadsCString(s: seq<char>)
    requires IsCString(s)
    ensures IsBackground(s) == EndsInBackgroundToken(CStr(s))
    ensures IsBackground(s) == None <==> CStr(s) == []
    ensures IsBackground(s) == Some(1) <==> CStr(s) != [] && CStr(s)[|CStr(s)| - 1] == BackgroundToken
    ensures IsBackground(s) == Some(0) <==> CStr(s) != [] && CStr(s)[|CStr(s)| - 1] != BackgroundToken
  {
  }

  /** What strlen sees of a line once it has been tokenized in place: the
      line up to the end of its first token when a delimiter follows that
      token (strtok overwrote it with NUL), the whole line otherwise. */
  function TokenizedPrefix(line: seq<char>): (p: seq<char>)
    ensures p <= line
  {
    var all := Spans(line);
    if all != [] && all[0].end < |line| then line[..all[0].end] else line
  }

  /** strtok writes no NUL before the end of the first token: the
      positions before it are leading delimiters or characters of that token. */
  lemma NoCutInFirstToken(line: seq<char>, i: nat)
    requires Spans(line) == [] || i < Spans(line)[0].end
    ensures !IsCutPoint(line, i)
  {
    StrTokFinds(line, 0);
  }

  /** After tokenizing, the C string in the storage is the TokenizedPrefix
      of the original line. */
  lemma CutReadsAsTokenizedPrefix(orig: seq<char>)
    requires IsCString(orig)
    ensures IsCString(Cut(orig))
    ensures CStr(Cut(orig)) == TokenizedPrefix(CStr(orig))
  {
    var line := CStr(orig);
    var all := Spans(line);
    var n := |TokenizedPrefix(line)|;
    forall i | 0 <= i < n
      ensures Cut(orig)[i] == line[i]
    {
      CutPointsOfStorage(orig, i);
      NoCutInFirstToken(line, i);
    }
    if all != [] && all[0].end < |line| {
      CutPointsAreTokenEnds(line, n);
      CutPointsOfStorage(orig, n);
    }
    StrLenIsFirstNul(Cut(orig), n);
  }

  /** In the REPL, background detection runs on the tokenized line. When a
      delimiter follows the first token, the answer is decided by the last
      character of that token alone; otherwise tokenizing changed nothing
      strlen can see, and the answer is the one the untouched line gives. */
  lemma BackgroundAfterTokenize(orig: seq<char>)
    requires IsCString(orig)
    ensures IsCString(Cut(orig))
    ensures var line := CStr(orig); var all := Spans(line);
      all != [] && all[0].end < |line| ==>
        IsBackground(Cut(orig)) == Some(if Words(line)[0][|Words(line)[0]| - 1] == BackgroundToken then 1 else 0)
    ensures var line := CStr(orig); var all := Spans(line);
      !(all != [] && all[0].end < |line|) ==> IsBackground(Cut(orig)) == IsBackground(orig)
  {
    var line := CStr(orig);
    CutReadsAsTokenizedPrefix(orig);
    IsBackgroundReadsCString(Cut(orig));
    IsBackgroundReadsCString(orig);
    var all := Spans(line);
    if all != [] && all[0].end < |line| {
      WordsAreTokens(line, 0);
    }
  }

  /** A line of two or more tokens that ends in '&' after a first token
      that does not ("sleep 5 &") asks for the background as read, but the
      REPL, which detects after tokenizing, passes 0. */
  lemma TrailingAmpersandIsLostAfterTokenizing(orig: seq<char>)
    requires IsCString(orig)
    requires var line := CStr(orig); var words := Words(line);
      |words| >= 2 && line[|line| - 1] == BackgroundToken && words[0][|words[0]| - 1] != BackgroundToken
    ensures IsBackground(orig) == Some(1)
    ensures IsCString(Cut(orig)) && IsBackground(Cut(orig)) == Some(0)
  {
    var line := CStr(orig);
    SpansFromAreOrdered(line, 0);
    SpansFromAreTokens(line, 0);
    assert IsToken(line, Spans(line)[1]);
    BackgroundAfterTokenize(orig);
    IsBackgroundReadsCString(orig);
  }

  /** "a &": the smallest such line. */
  lemma AmpersandAfterDelimiterIsLost()
    ensures IsCString("a &\0") && IsBackground("a &\0") == Some(1)
    ensures IsCString(Cut("a &\0")) && IsBackground(Cut("a &\0")) == Some(0)
  {
    var orig := "a &\0";
    var line := "a &";
    StrLenIsFirstNul(orig, 3);
    assert CStr(orig) == line;
    TokenEndUnique(line, 0, 1);
    assert Spans(line)[0] == Span(0, 1);
    BackgroundAfterTokenize(orig);
  }

  /** "ls&": the '&' belongs to the only token, so nothing is overwritten
      before it and the REPL passes 1. */
  lemma AmpersandInsideLastTokenIsSeen()
    ensures IsCString("ls&\0")
    ensures IsCString(Cut("ls&\0")) && IsBackground(Cut("ls&\0")) == Some(1)
  {
    var orig := "ls&\0";
    var line := "ls&";
    StrLenIsFirstNul(orig, 3);
    assert CStr(orig) == line;
    TokenEndUnique(line, 0, 3);
    assert Spans(line)[0] == Span(0, 3);
    BackgroundAfterTokenize(orig);
  }
}
