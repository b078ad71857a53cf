/**
 The two-pass normalizer of JSON with comments, discovery/configuration.rs: comments
 go first, then trailing commas.  The first pass is specified by a reader without
 lookahead, which waits one character before it decides what a slash means.  A
 function of a text and a number reads that many characters from the front.
 */
module Jsonc {
  import opened Common

  datatype Error = UnterminatedBlockComment | UnterminatedString

  // ----- the first pass: comments -----

  /** `Slash` has read a slash and not yet decided; `Block` remembers whether it just read a star. */
  datatype Mode = Plain | Slash | Line | Block(star: bool) | InString | Escaped

  function Next(m: Mode, c: char): Mode {
    match m
    case Plain => if c == '"' then InString else if c == '/' then Slash else Plain
    case Slash => if c == '/' then Line else if c == '*' then Block(false) else if c == '"' then InString else Plain
    case Line => if c == '\n' then Plain else Line
    case Block(star) => if star && c == '/' then Plain else Block(c == '*')
    case InString => if c == '\\' then Escaped else if c == '"' then Plain else InString
    case Escaped => InString
  }

  function Emit(m: Mode, c: char): string {
    match m
    case Plain => if c == '/' then "" else [c]
    case Slash => if c == '/' || c == '*' then "" else ['/', c]
    case Line => if c == '\n' then [c] else ""
    case Block(_) => if c == '\n' then [c] else ""
    case InString => [c]
    case Escaped => [c]
  }

  function Scan(m: Mode, text: string, n: nat): Mode
    requires n <= |text|
  {
    if n == 0 then m else Next(Scan(m, text, n - 1), text[n - 1])
  }

  function Body(m: Mode, text: string, n: nat): string
    requires n <= |text|
  {
    if n == 0 then "" else Body(m, text, n - 1) + Emit(Scan(m, text, n - 1), text[n - 1])
  }

  /** A slash at the end of the text stands for itself. */
  function Pending(m: Mode): string {
    if m == Slash then "/" else ""
  }

  function Stripped(text: string): Result<string, Error> {
    var m := Scan(Plain, text, |text|);
    if m.Block? then Err(UnterminatedBlockComment)
    else if m == InString || m == Escaped then Err(UnterminatedString)
    else Ok(Body(Plain, text, |text|) + Pending(m))
  }

  // ----- the second pass: trailing commas -----

  datatype StringMode = Outside | Within | AfterBackslash

  function StringNext(m: StringMode, c: char): StringMode {
    match m
    case Outside => if c == '"' then Within else Outside
    case Within => if c == '\\' then AfterBackslash else if c == '"' then Outside else Within
    case AfterBackslash => Within
  }

  function StringScan(text: string, n: nat): StringMode
    requires n <= |text|
  {
    if n == 0 then Outside else StringNext(StringScan(text, n - 1), text[n - 1])
  }

  /** From `i` on, the first character that is not white space closes an object or an array. */
  predicate ClosesNext(text: string, i: nat)
    decreases |text| - i
  {
    i < |text| && if IsWhitespace(text[i]) then ClosesNext(text, i + 1) else text[i] == '}' || text[i] == ']'
  }

  predicate IsTrailingComma(text: string, i: nat)
    requires i < |text|
  {
    StringScan(text, i) == Outside && text[i] == ',' && ClosesNext(text, i + 1)
  }

  /** What the first `n` characters leave. */
  function WithoutCommas(text: string, n: nat): string
    requires n <= |text|
  {
    if n == 0 then ""
    else WithoutCommas(text, n - 1) + if IsTrailingComma(text, n - 1) then "" else [text[n - 1]]
  }

  function TrimByteOrderMarks(text: string): string {
    if text != "" && text[0] == '\U{feff}' then TrimByteOrderMarks(text[1..]) else text
  }

  /** Both passes on a text whose leading byte order marks have been dealt with. */
  function Cleaned(text: string): Result<string, Error> {
    var stripped := Stripped(text);
    if stripped.Err? then stripped else Ok(WithoutCommas(stripped.value, |stripped.value|))
  }

  function Normalized(source: string): Result<string, Error> {
    Cleaned(TrimByteOrderMarks(source))
  }

  // ----- the passes as the source runs them -----

  /** The reader is in mode `m`; a slash that begins no comment has already been written. */
  ghost predicate StripsIn(text: string, i: nat, output: string, inString: bool, escaped: bool, m: Mode) {
    && i <= |text| && (escaped ==> inString)
    && m == Scan(Plain, text, i) && output == Body(Plain, text, i) + Pending(m)
    && (inString ==> m == if escaped then Escaped else InString)
    && (!inString ==>
          m == Plain || (m == Slash && (i < |text| ==> text[i] != '/' && text[i] != '*')) || (m == Line && i == |text|))
  }

  /** What the first loop keeps. */
  ghost predicate StripLoop(text: string, i: nat, output: string, inString: bool, escaped: bool) {
    exists m :: StripsIn(text, i, output, inString, escaped, m)
  }

  /** Outside strings, a character that begins no comment is written. */
  lemma OutsideKeeps(text: string, i: nat, output: string)
    requires i < |text| && StripLoop(text, i, output, false, false)
    requires text[i] == '/' ==> !(i + 1 < |text| && (text[i + 1] == '/' || text[i + 1] == '*'))
    ensures StripLoop(text, i + 1, output + [text[i]], text[i] == '"', false)
  {
    var m :| StripsIn(text, i, output, false, false, m);
    var body, c := Body(Plain, text, i), text[i];
    assert m == Slash ==> body + "/" + [c] == body + ['/', c];
    assert StripsIn(text, i + 1, output + [c], c == '"', false, Next(m, c));
  }

  lemma OutsideOpens(text: string, i: nat, output: string)
    requires i + 1 < |text| && StripLoop(text, i, output, false, false)
    requires text[i] == '/' && (text[i + 1] == '/' || text[i + 1] == '*')
    ensures CommentLoop(text, i + 2, output, if text[i + 1] == '/' then Line else Block(false))
  {
    var m :| StripsIn(text, i, output, false, false, m);
    assert m == Plain && Scan(Plain, text, i + 1) == Slash;
    assert Body(Plain, text, i + 2) == Body(Plain, text, i) + "" + "";
  }

  lemma StringStep(text: string, i: nat, output: string, escaped: bool)
    requires i < |text| && StripLoop(text, i, output, true, escaped)
    ensures StripLoop(text, i + 1, output + [text[i]], escaped || text[i] != '"', !escaped && text[i] == '\\')
  {
    var m :| StripsIn(text, i, output, true, escaped, m);
    assert StripsIn(text, i + 1, output + [text[i]], escaped || text[i] != '"', !escaped && text[i] == '\\',
                    Next(m, text[i]));
  }

  /** What the comment loops keep. */
  ghost predicate CommentLoop(text: string, i: nat, output: string, m: Mode) {
    i <= |text| && output == Body(Plain, text, i) && Scan(Plain, text, i) == m
  }

  lemma LineStep(text: string, i: nat, output: string)
    requires i < |text| && CommentLoop(text, i, output, Line)
    ensures text[i] == '\n' ==> CommentLoop(text, i + 1, output + ['\n'], Plain)
    ensures text[i] != '\n' ==> CommentLoop(text, i + 1, output, Line)
  {
    assert output + "" == output;
  }

  lemma BlockStep(text: string, i: nat, output: string, star: bool)
    requires i < |text| && CommentLoop(text, i, output, Block(star))
    ensures var m := if star && text[i] == '/' then Plain else Block(text[i] == '*');
            CommentLoop(text, i + 1, if text[i] == '\n' then output + ['\n'] else output, m)
  {
    assert output + "" == output;
  }

  lemma CommentLeaves(text: string, i: nat, output: string, m: Mode)
    requires CommentLoop(text, i, output, m) && (m == Plain || (m == Line && i == |text|))
    ensures StripLoop(text, i, output, false, false)
  {
    assert StripsIn(text, i, output, false, false, m);
  }

  lemma UnclosedComment(text: string, output: string, star: bool)
    requires CommentLoop(text, |text|, output, Block(star))
    ensures Stripped(text) == Err(UnterminatedBlockComment)
  {
  }

  lemma StripLoopEnds(text: string, output: string, inString: bool, escaped: bool)
    requires StripLoop(text, |text|, output, inString, escaped)
    ensures Stripped(text) == if inString then Err(UnterminatedString) else Ok(output)
  {
  }

  /** Skips a line comment behind its slashes; the line break stays. */
  method SkipLineComment(text: string, start: nat, before: string) returns (i: nat, output: string)
    requires CommentLoop(text, start, before, Line)
    ensures start <= i && StripLoop(text, i, output, false, false)
  {
    i, output := start, before;
    var found := false;
    while i < |text| && !found
      invariant start <= i && CommentLoop(text, i, output, if found then Plain else Line)
      decreases |text| - i
    {
      LineStep(text, i, output);
      if text[i] == '\n' {
        output := output + ['\n'];
        found := true;
      }
      i := i + 1;
    }
    CommentLeaves(text, i, output, if found then Plain else Line);
  }

  /** Skips a block comment behind its opening mark; its line breaks stay. */
  method SkipBlockComment(text: string, start: nat, before: string) returns (i: nat, output: string, closed: bool)
    requires CommentLoop(text, start, before, Block(false))
    ensures start <= i
    ensures if closed then StripLoop(text, i, output, false, false) else Stripped(text) == Err(UnterminatedBlockComment)
  {
    i, output, closed := start, before, false;
    var previous := '\0';
    while i < |text| && !closed
      invariant start <= i && CommentLoop(text, i, output, if closed then Plain else Block(previous == '*'))
      decreases |text| - i
    {
      BlockStep(text, i, output, previous == '*');
      if text[i] == '\n' {
        output := output + ['\n'];
      }
      if previous == '*' && text[i] == '/' {
        closed := true;
      } else {
        previous := text[i];
      }
      i := i + 1;
    }
    if closed {
      CommentLeaves(text, i, output, Plain);
    } else {
      UnclosedComment(text, output, previous == '*');
    }
  }

  method StripComments(text: string) returns (r: Result<string, Error>)
    ensures r == Stripped(text)
  {
    var output, i: nat := "", 0;
    var inString, escaped := false, false;
    assert StripsIn(text, 0, "", false, false, Plain);
    while i < |text|
      invariant StripLoop(text, i, output, inString, escaped)
      decreases |text| - i
    {
      var c := text[i];
      if inString {
        StringStep(text, i, output, escaped);
        output := output + [c];
        if escaped {
          escaped := false;
        } else if c == '\\' {
          escaped := true;
        } else if c == '"' {
          inString := false;
        }
        i := i + 1;
        continue;
      }
      if c == '"' {
        OutsideKeeps(text, i, output);
        inString := true;
        output := output + [c];
        i := i + 1;
      } else if c == '/' && i + 1 < |text| && text[i + 1] == '/' {
        OutsideOpens(text, i, output);
        i, output := SkipLineComment(text, i + 2, output);
      } else if c == '/' && i + 1 < |text| && text[i + 1] == '*' {
        OutsideOpens(text, i, output);
        var closed;
        i, output, closed := SkipBlockComment(text, i + 2, output);
        if !closed {
          return Err(UnterminatedBlockComment);
        }
      } else {
        OutsideKeeps(text, i, output);
        output := output + [c];
        i := i + 1;
      }
    }
    StripLoopEnds(text, output, inString, escaped);
    r := if inString then Err(UnterminatedString) else Ok(output);
  }

  method DropTrailingCommas(text: string) returns (normalized: string)
    ensures normalized == WithoutCommas(text, |text|)
  {
    normalized := "";
    var inString, escaped := false, false;
    for i := 0 to |text|
      invariant normalized == WithoutCommas(text, i)
      invariant StringScan(text, i) == if !inString then Outside else if escaped then AfterBackslash else Within
      invariant escaped ==> inString
    {
      var c := text[i];
      if inString {
        normalized := normalized + [c];
        if escaped {
          escaped := false;
        } else if c == '\\' {
          escaped := true;
        } else if c == '"' {
          inString := false;
        }
        continue;
      }
      if c == '"' {
        inString := true;
        normalized := normalized + [c];
        continue;
      }
      if c == ',' {
        if ClosesNext(text, i + 1) {
          continue;
        }
      }
      normalized := normalized + [c];
    }
  }

  method NormalizeJsonc(source: string) returns (r: Result<string, Error>)
    ensures r == Normalized(source)
  {
    r := StripComments(TrimByteOrderMarks(source));
    if r.Ok? {
      var normalized := DropTrailingCommas(r.value);
      r := Ok(normalized);
    }
  }

  // ----- string literals and lines -----

  predicate IsCaptured(m: StringMode, c: char) {
    m != Outside || c == '"'
  }

  /** All string literals of a text without comments, quotes included. */
  function Literals(text: string, n: nat): string
    requires n <= |text|
  {
    if n == 0 then ""
    else Literals(text, n - 1) + if IsCaptured(StringScan(text, n - 1), text[n - 1]) then [text[n - 1]] else ""
  }

  predicate IsCommentMode(m: Mode) {
    m == Line || m.Block?
  }

  /** What is left of a mode when comments are not known. */
  function View(m: Mode): StringMode {
    if m == InString then Within else if m == Escaped then AfterBackslash else Outside
  }

  predicate IsSourceCaptured(m: Mode, c: char) {
    !IsCommentMode(m) && IsCaptured(View(m), c)
  }

  /** All string literals outside comments. */
  function SourceLiterals(text: string, n: nat): string
    requires n <= |text|
  {
    if n == 0 then ""
    else
      SourceLiterals(text, n - 1)
      + if IsSourceCaptured(Scan(Plain, text, n - 1), text[n - 1]) then [text[n - 1]] else ""
  }

  function Newlines(text: string, n: nat): nat
    requires n <= |text|
  {
    if n == 0 then 0 else Newlines(text, n - 1) + if text[n - 1] == '\n' then 1 else 0
  }

  lemma {:induction false} SameFront(a: string, b: string, n: nat)
    requires n <= |a| && n <= |b| && forall i :: 0 <= i < n ==> a[i] == b[i]
    ensures StringScan(a, n) == StringScan(b, n) && Literals(a, n) == Literals(b, n) && Newlines(a, n) == Newlines(b, n)
  {
    if n > 0 {
      SameFront(a, b, n - 1);
    }
  }

  /** The string mode at the end, the literals and the line count of a text. */
  ghost predicate Shows(text: string, m: StringMode, literals: string, newlines: nat) {
    StringScan(text, |text|) == m && Literals(text, |text|) == literals && Newlines(text, |text|) == newlines
  }

  lemma ShowsOneMore(text: string, m: StringMode, literals: string, newlines: nat, c: char)
    requires Shows(text, m, literals, newlines)
    ensures Shows(text + [c], StringNext(m, c), literals + (if IsCaptured(m, c) then [c] else ""),
                  newlines + if c == '\n' then 1 else 0)
  {
    SameFront(text, text + [c], |text|);
  }

  lemma ShowsEmitted(text: string, m: Mode, literals: string, newlines: nat, c: char)
    requires Shows(text, View(m), literals, newlines)
    ensures Shows(text + Emit(m, c), View(Next(m, c)), literals + (if IsSourceCaptured(m, c) then [c] else ""),
                  newlines + if c == '\n' then 1 else 0)
  {
    assert literals + "" == literals;
    if Emit(m, c) == "" {
      assert text + Emit(m, c) == text;
    } else if m == Slash {
      assert text + Emit(m, c) == (text + ['/']) + [c];
      ShowsOneMore(text, Outside, literals, newlines, '/');
      ShowsOneMore(text + ['/'], Outside, literals, newlines, c);
    } else {
      ShowsOneMore(text, View(m), literals, newlines, c);
    }
  }

  lemma {:induction false} BodyShows(text: string, n: nat)
    requires n <= |text|
    ensures Shows(Body(Plain, text, n), View(Scan(Plain, text, n)), SourceLiterals(text, n), Newlines(text, n))
  {
    if n > 0 {
      BodyShows(text, n - 1);
      ShowsEmitted(Body(Plain, text, n - 1), Scan(Plain, text, n - 1), SourceLiterals(text, n - 1),
                   Newlines(text, n - 1), text[n - 1]);
    }
  }

  lemma StrippedShows(text: string)
    requires Stripped(text).Ok?
    ensures Shows(Stripped(text).value, Outside, SourceLiterals(text, |text|), Newlines(text, |text|))
  {
    var body, literals, newlines := Body(Plain, text, |text|), SourceLiterals(text, |text|), Newlines(text, |text|);
    BodyShows(text, |text|);
    if Scan(Plain, text, |text|) == Slash {
      ShowsOneMore(body, Outside, literals, newlines, '/');
      assert body + "/" == body + ['/'] && literals + "" == literals;
    } else {
      assert body + "" == body;
    }
  }

  lemma {:induction false} CommasShow(text: string, n: nat)
    requires n <= |text|
    ensures Shows(WithoutCommas(text, n), StringScan(text, n), Literals(text, n), Newlines(text, n))
  {
    if n > 0 {
      CommasShow(text, n - 1);
      var front := WithoutCommas(text, n - 1);
      if IsTrailingComma(text, n - 1) {
        assert front + "" == front && Literals(text, n - 1) + "" == Literals(text, n - 1);
      } else {
        ShowsOneMore(front, StringScan(text, n - 1), Literals(text, n - 1), Newlines(text, n - 1), text[n - 1]);
      }
    }
  }

  lemma {:induction false} LaterNewlines(text: string, n: nat)
    requires text != "" && text[0] != '\n' && n < |text|
    ensures Newlines(text[1..], n) == Newlines(text, n + 1)
  {
    if n > 0 {
      LaterNewlines(text, n - 1);
    }
  }

  lemma {:induction false} TrimKeepsNewlines(text: string)
    ensures var r := TrimByteOrderMarks(text); Newlines(r, |r|) == Newlines(text, |text|)
  {
    if text != "" && text[0] == '\U{feff}' {
      TrimKeepsNewlines(text[1..]);
      LaterNewlines(text, |text| - 1);
    }
  }

  /** Normalizing keeps every string literal exactly, and the number of every line. */
  lemma StringsAndLinesKept(source: string)
    requires Normalized(source).Ok?
    ensures var text, r := TrimByteOrderMarks(source), Normalized(source).value;
            && StringScan(r, |r|) == Outside && Literals(r, |r|) == SourceLiterals(text, |text|)
            && Newlines(r, |r|) == Newlines(source, |source|)
  {
    var text := TrimByteOrderMarks(source);
    StrippedShows(text);
    TrimKeepsNewlines(source);
    var stripped := Stripped(text).value;
    CommasShow(stripped, |stripped|);
  }

  // ----- inserting a comment -----

  lemma {:induction false} FrontRead(m: Mode, a: string, b: string, n: nat)
    requires n <= |a|
    ensures Scan(m, a + b, n) == Scan(m, a, n) && Body(m, a + b, n) == Body(m, a, n)
  {
    if n > 0 {
      FrontRead(m, a, b, n - 1);
      assert (a + b)[n - 1] == a[n - 1];
    }
  }

  /** From position `k` on the text is read as `b` is from `n` on, behind what has been written before. */
  ghost predicate ReadAs(m: Mode, text: string, k: nat, written: string, later: Mode, b: string, n: nat) {
    && k <= |text| && n <= |b| && Scan(m, text, k) == Scan(later, b, n)
    && Body(m, text, k) == written + Body(later, b, n)
  }

  lemma ReadAsStep(m: Mode, text: string, k: nat, written: string, later: Mode, b: string, n: nat)
    requires ReadAs(m, text, k, written, later, b, n) && k < |text| && n < |b| && text[k] == b[n]
    ensures ReadAs(m, text, k + 1, written, later, b, n + 1)
  {
    Reassociate(written, Body(later, b, n), Emit(Scan(later, b, n), b[n]));
  }

  lemma {:induction false} BackRead(m: Mode, a: string, b: string, n: nat)
    requires n <= |b|
    ensures ReadAs(m, a + b, |a| + n, Body(m, a, |a|), Scan(m, a, |a|), b, n)
  {
    if n == 0 {
      FrontRead(m, a, b, |a|);
    } else {
      BackRead(m, a, b, n - 1);
      ReadAsStep(m, a + b, |a| + n - 1, Body(m, a, |a|), Scan(m, a, |a|), b, n - 1);
    }
  }

  /** How a text is read as a whole. */
  ghost predicate Reads(m: Mode, text: string, after: Mode, body: string) {
    Scan(m, text, |text|) == after && Body(m, text, |text|) == body
  }

  lemma ReadsJoin(m: Mode, a: string, middle: Mode, x: string, b: string, after: Mode, y: string)
    requires Reads(m, a, middle, x) && Reads(middle, b, after, y)
    ensures Reads(m, a + b, after, x + y)
  {
    BackRead(m, a, b, |b|);
    assert |a + b| == |a| + |b|;
  }

  /** Text that can stand inside a block comment on one line. */
  predicate IsCommentBody(body: string) {
    '\n' !in body && forall i :: 0 <= i < |body| - 1 ==> !(body[i] == '*' && body[i + 1] == '/')
  }

  lemma {:induction false} InsideBlock(body: string, n: nat)
    requires IsCommentBody(body) && n <= |body|
    ensures Scan(Block(false), body, n) == Block(n > 0 && body[n - 1] == '*') && Body(Block(false), body, n) == ""
  {
    if n > 0 {
      InsideBlock(body, n - 1);
    }
  }

  function BlockComment(body: string): string {
    "/*" + body + "*/"
  }

  lemma CommentVanishes(body: string)
    requires IsCommentBody(body)
    ensures Reads(Plain, BlockComment(body), Plain, "")
  {
    InsideBlock(body, |body|);
    var m := Block(body != "" && body[|body| - 1] == '*');
    assert Reads(Block(false), body, m, "");
    assert Scan(Plain, "/*", 1) == Slash && Body(Plain, "/*", 1) == "";
    assert Reads(Plain, "/*", Block(false), "");
    assert Scan(m, "*/", 1) == Block(true) && Body(m, "*/", 1) == "";
    assert Reads(m, "*/", Plain, "");
    ReadsJoin(Plain, "/*", Block(false), "", body, m, "");
    ReadsJoin(Plain, "/*" + body, m, "", "*/", Plain, "");
  }

  /** Where reading is plain and no slash is pending, a comment without a line break leaves no trace. */
  lemma InsertedCommentStripped(a: string, body: string, b: string)
    requires Scan(Plain, a, |a|) == Plain && IsCommentBody(body)
    ensures Stripped(a + BlockComment(body) + b) == Stripped(a + b)
  {
    var x, y, after := Body(Plain, a, |a|), Body(Plain, b, |b|), Scan(Plain, b, |b|);
    CommentVanishes(body);
    ReadsJoin(Plain, a, Plain, x, BlockComment(body), Plain, "");
    assert x + "" == x;
    ReadsJoin(Plain, a, Plain, x, b, after, y);
    ReadsJoin(Plain, a + BlockComment(body), Plain, x, b, after, y);
  }

  predicate StartsWithMark(text: string) {
    text != "" && text[0] == '\U{feff}'
  }

  lemma {:induction false} TrimJoin(a: string, b: string)
    ensures TrimByteOrderMarks(a + b) ==
            if TrimByteOrderMarks(a) == "" then TrimByteOrderMarks(b) else TrimByteOrderMarks(a) + b
  {
    if a == "" {
      assert a + b == b;
    } else {
      assert (a + b)[1..] == a[1..] + b;
      if StartsWithMark(a) {
        TrimJoin(a[1..], b);
      }
    }
  }

  lemma NoMarkToTrim(body: string, b: string)
    ensures TrimByteOrderMarks(BlockComment(body) + b) == BlockComment(body) + b
  {
  }

  lemma EmptyFront(text: string)
    ensures "" + text == text
  {
  }

  /**
   A block comment without a line break may be inserted at any position outside strings
   and comments where no slash is pending, except between leading byte order marks.
   */
  lemma CommentInsertionInvisible(a: string, body: string, b: string)
    requires var front := TrimByteOrderMarks(a);
             Scan(Plain, front, |front|) == Plain && IsCommentBody(body) && (front != "" || !StartsWithMark(b))
    ensures Normalized(a + BlockComment(body) + b) == Normalized(a + b)
  {
    var front, comment := TrimByteOrderMarks(a), BlockComment(body);
    TrimJoin(a, b);
    TrimJoin(a, comment + b);
    Reassociate(a, comment, b);
    Reassociate(front, comment, b);
    InsertedCommentStripped(front, body, b);
    NoMarkToTrim(body, b);
    if front == "" {
      EmptyFront(comment + b);
      EmptyFront(b);
      EmptyFront(comment);
    }
  }

  const MARK: string := ['\U{feff}']

  lemma {:induction false} MarkShifts(text: string, n: nat)
    requires n <= |text|
    ensures StringScan(MARK + text, n + 1) == StringScan(text, n)
    ensures Scan(Plain, MARK + text, n + 1) == Scan(Plain, text, n)
    ensures Body(Plain, MARK + text, n + 1) == MARK + Body(Plain, text, n)
  {
    if n == 0 {
      assert StringScan(MARK + text, 0) == Outside && Scan(Plain, MARK + text, 0) == Plain &&
        Body(Plain, MARK + text, 0) == "";
    } else {
      MarkShifts(text, n - 1);
      assert (MARK + text)[n] == text[n - 1];
      Reassociate(MARK, Body(Plain, text, n - 1), Emit(Scan(Plain, text, n - 1), text[n - 1]));
    }
  }

  lemma {:induction false} MarkShiftsCloser(text: string, i: nat)
    ensures ClosesNext(MARK + text, i + 1) == ClosesNext(text, i)
    decreases |text| - i
  {
    if i < |text| {
      assert (MARK + text)[i + 1] == text[i];
      MarkShiftsCloser(text, i + 1);
    }
  }

  lemma {:induction false} MarkShiftsCommas(text: string, n: nat)
    requires n <= |text|
    ensures WithoutCommas(MARK + text, n + 1) == MARK + WithoutCommas(text, n)
  {
    if n == 0 {
      assert !IsTrailingComma(MARK + text, 0) && WithoutCommas(MARK + text, 0) == "";
    } else {
      MarkShiftsCommas(text, n - 1);
      MarkShifts(text, n - 1);
      MarkShiftsCloser(text, n);
      var longer := MARK + text;
      assert longer[n] == text[n - 1];
      assert IsTrailingComma(longer, n) <==> IsTrailingComma(text, n - 1);
      assert WithoutCommas(longer, n) == MARK + WithoutCommas(text, n - 1);
      Reassociate(MARK, WithoutCommas(text, n - 1), [text[n - 1]]);
    }
  }

  lemma MarkStaysInFirstPass(text: string)
    ensures Stripped(MARK + text) == if Stripped(text).Ok? then Ok(MARK + Stripped(text).value) else Stripped(text)
  {
    MarkShifts(text, |text|);
    Reassociate(MARK, Body(Plain, text, |text|), Pending(Scan(Plain, text, |text|)));
  }

  lemma MarkStays(text: string)
    ensures Cleaned(MARK + text).Ok? <==> Cleaned(text).Ok?
    ensures Cleaned(text).Ok? ==> Cleaned(MARK + text).value == MARK + Cleaned(text).value
  {
    MarkStaysInFirstPass(text);
    if Stripped(text).Ok? {
      MarkShiftsCommas(Stripped(text).value, |Stripped(text).value|);
    }
  }

  lemma {:induction false} MarksCount(text: string)
    requires Cleaned(text).Ok?
    ensures Cleaned(TrimByteOrderMarks(text)).Ok?
    ensures |Cleaned(text).value| == |Cleaned(TrimByteOrderMarks(text)).value| + |text| - |TrimByteOrderMarks(text)|
  {
    if StartsWithMark(text) {
      assert text == MARK + text[1..];
      MarkStays(text[1..]);
      MarksCount(text[1..]);
    }
  }

  lemma {:induction false} TrimShortens(text: string)
    ensures |TrimByteOrderMarks(text)| <= |text|
    ensures StartsWithMark(text) ==> |TrimByteOrderMarks(text)| < |text|
  {
    if StartsWithMark(text) {
      TrimShortens(text[1..]);
    }
  }

  lemma CommentedMarksStay(a: string, body: string, b: string)
    requires TrimByteOrderMarks(a) == "" && IsCommentBody(body)
    ensures Normalized(a + BlockComment(body) + b) == Cleaned(b)
  {
    var comment := BlockComment(body);
    TrimJoin(a, comment + b);
    NoMarkToTrim(body, b);
    Reassociate(a, comment, b);
    InsertedCommentStripped("", body, b);
    assert "" + comment == comment && "" + b == b;
  }

  /** The exception is real: in front of a mark, a comment keeps the mark from being trimmed. */
  lemma CommentBeforeMarkShows(a: string, body: string, b: string)
    requires TrimByteOrderMarks(a) == "" && StartsWithMark(b) && IsCommentBody(body)
    requires Normalized(a + BlockComment(body) + b).Ok?
    ensures Normalized(a + BlockComment(body) + b) != Normalized(a + b)
  {
    CommentedMarksStay(a, body, b);
    TrimJoin(a, b);
    MarksCount(b);
    TrimShortens(b);
  }

  // ----- texts that stay as they are -----

  predicate NoTrailingComma(text: string) {
    forall i :: 0 <= i < |text| ==> !IsTrailingComma(text, i)
  }

  /** No comment begins outside a string. */
  predicate CommentFree(text: string) {
    forall i {:trigger StringScan(text, i)} ::
      0 <= i < |text| - 1 && StringScan(text, i) == Outside && text[i] == '/' ==>
        text[i + 1] != '/' && text[i + 1] != '*'
  }

  lemma {:induction false} CommaFreeStays(text: string, n: nat)
    requires n <= |text|
    ensures |WithoutCommas(text, n)| <= n
    ensures |WithoutCommas(text, n)| == n <==> forall i :: 0 <= i < n ==> !IsTrailingComma(text, i)
    ensures |WithoutCommas(text, n)| == n ==> WithoutCommas(text, n) == text[..n]
  {
    if n > 0 {
      CommaFreeStays(text, n - 1);
      assert text[..n] == text[..n - 1] + [text[n - 1]];
    }
  }

  /** Until a comment begins, nothing is lost. */
  lemma {:induction false} NothingLost(text: string, n: nat)
    requires n <= |text| && CommentFree(text)
    ensures var m := Scan(Plain, text, n);
            && !IsCommentMode(m) && View(m) == StringScan(text, n) && Body(Plain, text, n) + Pending(m) == text[..n]
            && (m == Slash && n < |text| ==> text[n] != '/' && text[n] != '*')
  {
    if n > 0 {
      NothingLost(text, n - 1);
      var m, c := Scan(Plain, text, n - 1), text[n - 1];
      assert StringScan(text, n - 1) == View(m);
      assert text[..n] == text[..n - 1] + [c];
      assert Emit(m, c) + Pending(Next(m, c)) == Pending(m) + [c];
      Reassociate(Body(Plain, text, n - 1), Emit(m, c), Pending(Next(m, c)));
      Reassociate(Body(Plain, text, n - 1), Pending(m), [c]);
    }
  }

  lemma CommentFreeStays(text: string)
    requires CommentFree(text)
    ensures Stripped(text) == (if StringScan(text, |text|) == Outside then Ok(text) else Err(UnterminatedString))
  {
    NothingLost(text, |text|);
    assert text[..|text|] == text;
  }

  function Kept(text: string, n: nat): nat
    requires n <= |text|
  {
    |Body(Plain, text, n)| + |Pending(Scan(Plain, text, n))|
  }

  lemma KeepsAtMostOneMore(text: string, n: nat)
    requires n < |text|
    ensures Kept(text, n + 1) <= Kept(text, n) + 1
    ensures !IsCommentMode(Scan(Plain, text, n)) && IsCommentMode(Scan(Plain, text, n + 1)) ==>
      Kept(text, n + 1) < Kept(text, n)
  {
    assert |Body(Plain, text, n + 1)| == |Body(Plain, text, n)| + |Emit(Scan(Plain, text, n), text[n])|;
  }

  /** What a comment swallows never comes back. */
  lemma {:induction false} LossGrows(text: string, k: nat, n: nat)
    requires k <= n <= |text|
    ensures Kept(text, n) - Kept(text, k) <= n - k
    decreases n - k
  {
    if k < n {
      LossGrows(text, k, n - 1);
      KeepsAtMostOneMore(text, n - 1);
    }
  }

  /** A first comment swallows its opening characters. */
  lemma {:induction false} CommentLoses(text: string, n: nat)
    requires n <= |text| && IsCommentMode(Scan(Plain, text, n))
    ensures Kept(text, n) < n
  {
    KeepsAtMostOneMore(text, n - 1);
    LossGrows(text, 0, n - 1);
    if IsCommentMode(Scan(Plain, text, n - 1)) {
      CommentLoses(text, n - 1);
    }
  }

  lemma {:induction false} ViewWithoutComments(text: string, n: nat)
    requires n <= |text| && forall k :: 0 <= k <= n ==> !IsCommentMode(Scan(Plain, text, k))
    ensures View(Scan(Plain, text, n)) == StringScan(text, n)
  {
    if n > 0 {
      ViewWithoutComments(text, n - 1);
      assert !IsCommentMode(Scan(Plain, text, n - 1));
    }
  }

  lemma StrippedShortens(text: string)
    requires Stripped(text).Ok?
    ensures |Stripped(text).value| <= |text|
    ensures |Stripped(text).value| == |text| ==> CommentFree(text) && StringScan(text, |text|) == Outside
  {
    assert |Stripped(text).value| == Kept(text, |text|);
    LossGrows(text, 0, |text|);
    if Kept(text, |text|) == |text| {
      forall k | 0 <= k <= |text|
        ensures !IsCommentMode(Scan(Plain, text, k))
      {
        LossGrows(text, k, |text|);
        if IsCommentMode(Scan(Plain, text, k)) {
          CommentLoses(text, k);
        }
      }
      ViewWithoutComments(text, |text|);
      forall i | 0 <= i < |text| - 1 && StringScan(text, i) == Outside && text[i] == '/'
        ensures text[i + 1] != '/' && text[i + 1] != '*'
      {
        ViewWithoutComments(text, i);
        assert !IsCommentMode(Scan(Plain, text, i)) && !IsCommentMode(Scan(Plain, text, i + 1));
        assert !IsCommentMode(Scan(Plain, text, i + 2));
      }
    }
  }

  /**
   A text stays as it is exactly when its strings are closed and it has no leading byte
   order mark, no comment outside a string and no trailing comma.
   */
  lemma UnchangedExactlyWhenClean(text: string)
    ensures Normalized(text) == Ok(text) <==>
      !StartsWithMark(text) && CommentFree(text) && StringScan(text, |text|) == Outside && NoTrailingComma(text)
  {
    if Normalized(text) == Ok(text) {
      var trimmed := TrimByteOrderMarks(text);
      TrimShortens(text);
      var stripped := Stripped(trimmed).value;
      StrippedShortens(trimmed);
      CommaFreeStays(stripped, |stripped|);
      assert |text| <= |stripped| <= |trimmed| <= |text|;
      assert trimmed == text;
      assert stripped[..|stripped|] == stripped;
    } else if !StartsWithMark(text) && CommentFree(text) && StringScan(text, |text|) == Outside {
      CommentFreeStays(text);
      CommaFreeStays(text, |text|);
      assert text[..|text|] == text;
    }
  }

  // ----- normalizing twice -----

  /** The text ends in a slash outside strings. */
  predicate EndsInSlash(text: string) {
    text != "" && text[|text| - 1] == '/' && StringScan(text, |text| - 1) == Outside
  }

  lemma ModeOneMore(text: string, c: char, n: nat)
    requires n <= |text|
    ensures StringScan(text + [c], n) == StringScan(text, n)
  {
    SameFront(text, text + [c], n);
  }

  lemma FreeOneMore(text: string, c: char)
    requires CommentFree(text) && !(EndsInSlash(text) && (c == '/' || c == '*'))
    ensures CommentFree(text + [c])
    ensures EndsInSlash(text + [c]) <==> c == '/' && StringScan(text, |text|) == Outside
  {
    var longer := text + [c];
    forall i | 0 <= i < |longer| - 1 && StringScan(longer, i) == Outside && longer[i] == '/'
      ensures longer[i + 1] != '/' && longer[i + 1] != '*'
    {
      ModeOneMore(text, c, i);
      assert longer[i] == text[i] && (i < |text| - 1 ==> longer[i + 1] == text[i + 1]);
    }
    ModeOneMore(text, c, |text|);
  }

  /** What has been written in mode `m` begins no comment, not even with the next character. */
  ghost predicate Settled(body: string, m: Mode) {
    CommentFree(body) && !EndsInSlash(body) && StringScan(body, |body|) == View(m)
  }

  lemma SettledOneMore(body: string, m: StringMode, c: char)
    requires CommentFree(body) && !(EndsInSlash(body) && (c == '/' || c == '*')) && StringScan(body, |body|) == m
    ensures CommentFree(body + [c]) && StringScan(body + [c], |body| + 1) == StringNext(m, c)
    ensures EndsInSlash(body + [c]) <==> c == '/' && m == Outside
  {
    FreeOneMore(body, c);
    SameFront(body, body + [c], |body|);
  }

  lemma EmittedIsSettled(body: string, m: Mode, c: char)
    requires Settled(body, m)
    ensures Settled(body + Emit(m, c), Next(m, c))
  {
    if Emit(m, c) == "" {
      assert body + Emit(m, c) == body;
    } else if m == Slash {
      assert body + Emit(m, c) == (body + ['/']) + [c];
      SettledOneMore(body, Outside, '/');
      SettledOneMore(body + ['/'], Outside, c);
    } else {
      SettledOneMore(body, View(m), c);
    }
  }

  lemma {:induction false} BodyIsSettled(text: string, n: nat)
    requires n <= |text|
    ensures Settled(Body(Plain, text, n), Scan(Plain, text, n))
  {
    if n > 0 {
      BodyIsSettled(text, n - 1);
      EmittedIsSettled(Body(Plain, text, n - 1), Scan(Plain, text, n - 1), text[n - 1]);
    }
  }

  lemma StrippedIsCommentFree(text: string)
    requires Stripped(text).Ok?
    ensures CommentFree(Stripped(text).value)
  {
    var body := Body(Plain, text, |text|);
    BodyIsSettled(text, |text|);
    FreeOneMore(body, '/');
    assert body + "" == body && body + "/" == body + ['/'];
  }

  lemma {:induction false} CommasLeaveFree(text: string, n: nat)
    requires n <= |text| && CommentFree(text)
    ensures CommentFree(WithoutCommas(text, n))
    ensures EndsInSlash(WithoutCommas(text, n)) && n < |text| ==> text[n] != '/' && text[n] != '*'
  {
    if n > 0 {
      var front, c := WithoutCommas(text, n - 1), text[n - 1];
      CommasLeaveFree(text, n - 1);
      CommasShow(text, n - 1);
      if IsTrailingComma(text, n - 1) {
        assert front + "" == front;
      } else {
        FreeOneMore(front, c);
      }
    }
  }

  /** What has been normalized once stays as it is when no mark and no trailing comma is left. */
  lemma OnceIsClean(source: string)
    requires Normalized(source).Ok?
    ensures var once := Normalized(source).value;
            Normalized(once) == Ok(once) <==> !StartsWithMark(once) && NoTrailingComma(once)
  {
    var text, once := TrimByteOrderMarks(source), Normalized(source).value;
    StrippedIsCommentFree(text);
    CommasLeaveFree(Stripped(text).value, |Stripped(text).value|);
    StringsAndLinesKept(source);
    UnchangedExactlyWhenClean(once);
  }
}
