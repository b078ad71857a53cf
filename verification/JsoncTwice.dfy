/**
 When normalizing JSON with comments a second time changes the text again: a condition on
 the source, which follows one comma, or one byte order mark, through both passes.
 */
module JsoncTwice {
  import opened Common
  import opened Jsonc

  // ----- the condition -----

  /** The character lies in a comment, delimiters and the line break that ends it included. */
  predicate InComment(text: string, n: nat)
    requires n < |text|
  {
    || IsCommentMode(Scan(Plain, text, n)) || IsCommentMode(Scan(Plain, text, n + 1))
    || (n + 2 <= |text| && Scan(Plain, text, n + 1) == Slash && IsCommentMode(Scan(Plain, text, n + 2)))
  }

  /** The first position from `n` on that is neither white space nor in a comment. */
  function Skip(text: string, n: nat): (k: nat)
    requires n <= |text|
    ensures n <= k <= |text|
    decreases |text| - n
  {
    if n < |text| && (IsWhitespace(text[n]) || InComment(text, n)) then Skip(text, n + 1) else n
  }

  predicate IsCloser(c: char) {
    c == '}' || c == ']'
  }

  /** A comma, and behind it a closing bracket. */
  predicate CommaCloses(text: string, j: nat)
    requires j <= |text|
  {
    && j < |text| && text[j] == ','
    && var k := Skip(text, j + 1);
    && k < |text| && IsCloser(text[k])
  }

  /** A comma outside strings and comments, behind it a comma, and behind that a closing bracket. */
  predicate IsDoubleComma(text: string, i: nat)
    requires i < |text|
  {
    && (Scan(Plain, text, i) == Plain || Scan(Plain, text, i) == Slash) && text[i] == ','
    && CommaCloses(text, Skip(text, i + 1))
  }

  predicate HasDoubleComma(text: string) {
    exists i :: 0 <= i < |text| && IsDoubleComma(text, i)
  }

  /** In front of the character there is nothing but comments without a line break. */
  predicate IsFirstLeft(text: string, k: nat)
    requires k < |text|
  {
    !InComment(text, k) && forall i :: 0 <= i < k ==> InComment(text, i) && text[i] != '\n'
  }

  predicate HasHiddenMark(text: string) {
    exists k :: 0 <= k < |text| && IsFirstLeft(text, k) && text[k] == '\U{feff}'
  }

  // ----- through the first pass -----

  lemma {:induction false} BodyGrows(text: string, k: nat, n: nat)
    requires k <= n <= |text|
    ensures Body(Plain, text, k) <= Body(Plain, text, n)
  {
    if k < n {
      BodyGrows(text, k, n - 1);
    }
  }

  /** Where in the output of the first pass the character `n` is written. */
  lemma EmittedThere(text: string, n: nat)
    requires Stripped(text).Ok? && n < |text|
    ensures var x, p, e := Stripped(text).value, |Body(Plain, text, n)|, Emit(Scan(Plain, text, n), text[n]);
            && |Body(Plain, text, n + 1)| == p + |e| <= |x|
            && (e != "" ==> x[p] == e[0]) && (|e| > 1 ==> |e| == 2 && x[p + 1] == e[1])
  {
    BodyGrows(text, n + 1, |text|);
    var body := Body(Plain, text, n + 1);
    assert forall i :: 0 <= i < |body| ==> Stripped(text).value[i] == body[i];
  }

  /** The string mode of the output is that of the source. */
  lemma SameStrings(text: string, n: nat)
    requires Stripped(text).Ok? && n <= |text|
    ensures |Body(Plain, text, n)| <= |Stripped(text).value|
    ensures StringScan(Stripped(text).value, |Body(Plain, text, n)|) == View(Scan(Plain, text, n))
  {
    BodyShows(text, n);
    BodyGrows(text, n, |text|);
    SameFront(Body(Plain, text, n), Stripped(text).value, |Body(Plain, text, n)|);
  }

  /** Reading stands outside strings, and no slash is pending but one that begins a comment. */
  predicate Between(text: string, n: nat)
    requires n <= |text|
  {
    var m := Scan(Plain, text, n);
    m == Plain || IsCommentMode(m) || (m == Slash && n < |text| && (text[n] == '/' || text[n] == '*'))
  }

  function SkipSpaces(text: string, n: nat): (k: nat)
    requires n <= |text|
    ensures n <= k <= |text|
    decreases |text| - n
  {
    if n < |text| && IsWhitespace(text[n]) then SkipSpaces(text, n + 1) else n
  }

  /** A character that is skipped leaves at most white space. */
  lemma SkippedLeavesSpace(text: string, n: nat)
    requires Stripped(text).Ok? && n < |text| && Between(text, n) && (IsWhitespace(text[n]) || InComment(text, n))
    ensures Between(text, n + 1)
    ensures var x, p, q := Stripped(text).value, |Body(Plain, text, n)|, |Body(Plain, text, n + 1)|;
            p <= q <= |x| && SkipSpaces(x, p) == SkipSpaces(x, q)
  {
    EmittedThere(text, n);
    var m := Scan(Plain, text, n);
    assert Emit(m, text[n]) == "" || (Emit(m, text[n]) == [text[n]] && IsWhitespace(text[n]));
    assert n + 2 <= |text| ==> Scan(Plain, text, n + 2) == Next(Next(m, text[n]), text[n + 1]);
  }

  /** The position `k` of the source, or its end, stands at `q` in the output. */
  ghost predicate Lands(text: string, k: nat, q: nat)
    requires Stripped(text).Ok? && k <= |text|
  {
    var x := Stripped(text).value;
    && q == |Body(Plain, text, k)| <= |x|
    && if k == |text| then q == |x| else Scan(Plain, text, k) == Plain && q < |x| && x[q] == text[k]
  }

  /** A slash at the end of the source is written last. */
  lemma LastSlashWritten(text: string)
    requires Stripped(text).Ok? && Scan(Plain, text, |text|) == Slash
    ensures var x, p := Stripped(text).value, |Body(Plain, text, |text|)|; p < |x| && x[p] == '/'
  {
  }

  /** A slash that begins no comment is written with the next character. */
  lemma NextWritesSlash(text: string, n: nat)
    requires Stripped(text).Ok? && n < |text| && Scan(Plain, text, n) == Slash && text[n] != '/' && text[n] != '*'
    ensures var x, p := Stripped(text).value, |Body(Plain, text, n)|; p < |x| && x[p] == '/'
  {
    EmittedThere(text, n);
  }

  lemma SlashWaits(text: string, n: nat)
    requires n < |text| && Scan(Plain, text, n) == Plain && text[n] == '/' && !InComment(text, n)
    ensures Scan(Plain, text, n + 1) == Slash && |Body(Plain, text, n + 1)| == |Body(Plain, text, n)|
    ensures n + 1 < |text| ==> text[n + 1] != '/' && text[n + 1] != '*'
  {
    assert n + 1 < |text| ==> Scan(Plain, text, n + 2) == Next(Slash, text[n + 1]);
  }

  lemma SlashWritten(text: string, n: nat)
    requires Stripped(text).Ok? && n < |text| && Scan(Plain, text, n) == Plain && text[n] == '/' && !InComment(text, n)
    ensures var x, p := Stripped(text).value, |Body(Plain, text, n)|; p < |x| && x[p] == '/'
  {
    SlashWaits(text, n);
    if n + 1 < |text| {
      NextWritesSlash(text, n + 1);
    } else {
      LastSlashWritten(text);
    }
  }

  lemma StopsAtSame(text: string, n: nat)
    requires Stripped(text).Ok? && n < |text| && Between(text, n) && !IsWhitespace(text[n]) && !InComment(text, n)
    ensures Lands(text, n, |Body(Plain, text, n)|)
  {
    assert Scan(Plain, text, n) == Plain;
    if text[n] == '/' {
      SlashWritten(text, n);
    } else {
      EmittedThere(text, n);
    }
  }

  lemma EndsAtSame(text: string)
    requires Stripped(text).Ok? && Between(text, |text|)
    ensures Lands(text, |text|, |Body(Plain, text, |text|)|)
  {
  }

  /** What comes next in the source, white space and comments aside, lands at what comes next in the output. */
  ghost predicate LandsBehind(text: string, n: nat)
    requires Stripped(text).Ok? && n <= |text|
  {
    && |Body(Plain, text, n)| <= |Stripped(text).value|
    && Lands(text, Skip(text, n), SkipSpaces(Stripped(text).value, |Body(Plain, text, n)|))
  }

  lemma LandsBehindSpace(text: string, n: nat)
    requires Stripped(text).Ok? && n < |text| && Between(text, n) && (IsWhitespace(text[n]) || InComment(text, n))
    requires LandsBehind(text, n + 1)
    ensures LandsBehind(text, n)
  {
    SkippedLeavesSpace(text, n);
    assert Skip(text, n) == Skip(text, n + 1);
  }

  lemma LandsHere(text: string, n: nat)
    requires Stripped(text).Ok? && n <= |text| && Lands(text, n, |Body(Plain, text, n)|)
    requires n < |text| ==> !IsWhitespace(text[n]) && !InComment(text, n)
    ensures LandsBehind(text, n)
  {
    assert Skip(text, n) == n;
    assert SkipSpaces(Stripped(text).value, |Body(Plain, text, n)|) == |Body(Plain, text, n)|;
  }

  /** Skipping white space and comments in the source is skipping white space in the output. */
  lemma {:induction false} SkipsAlike(text: string, n: nat)
    requires Stripped(text).Ok? && n <= |text| && Between(text, n)
    ensures LandsBehind(text, n)
    decreases |text| - n
  {
    if n == |text| {
      EndsAtSame(text);
      LandsHere(text, n);
    } else if IsWhitespace(text[n]) || InComment(text, n) {
      SkippedLeavesSpace(text, n);
      SkipsAlike(text, n + 1);
      LandsBehindSpace(text, n);
    } else {
      StopsAtSame(text, n);
      LandsHere(text, n);
    }
  }

  /** Every character of the body was written by one character of the source. */
  lemma {:induction false} Origin(text: string, n: nat, p: nat) returns (i: nat)
    requires n <= |text| && p < |Body(Plain, text, n)|
    ensures i < n && |Body(Plain, text, i)| <= p < |Body(Plain, text, i + 1)|
  {
    if p < |Body(Plain, text, n - 1)| {
      i := Origin(text, n - 1, p);
    } else {
      i := n - 1;
    }
  }

  predicate PlainCloses(x: string, q: nat)
    requires q <= |x|
  {
    q < |x| && x[q] == ',' && ClosesNext(x, q + 1)
  }

  /** The same in a text without comments. */
  predicate IsPlainDouble(x: string, p: nat)
    requires p < |x|
  {
    StringScan(x, p) == Outside && x[p] == ',' && PlainCloses(x, SkipSpaces(x, p + 1))
  }

  lemma {:induction false} ClosesAtSolid(x: string, n: nat)
    requires n <= |x|
    ensures ClosesNext(x, n) <==> SkipSpaces(x, n) < |x| && IsCloser(x[SkipSpaces(x, n)])
    decreases |x| - n
  {
    if n < |x| && IsWhitespace(x[n]) {
      ClosesAtSolid(x, n + 1);
    }
  }

  /** A comma outside strings and comments, and where it stands in the output. */
  ghost predicate CommaAt(text: string, i: nat, p: nat)
    requires Stripped(text).Ok? && i < |text|
  {
    var x := Stripped(text).value;
    && text[i] == ',' && (Scan(Plain, text, i) == Plain || Scan(Plain, text, i) == Slash)
    && p + 1 == |Body(Plain, text, i + 1)| <= |x| && x[p] == ',' && StringScan(x, p) == Outside
  }

  lemma CommaWritten(text: string, i: nat)
    requires Stripped(text).Ok? && i < |text| && text[i] == ','
    requires Scan(Plain, text, i) == Plain || Scan(Plain, text, i) == Slash
    ensures |Body(Plain, text, i + 1)| > 0 && CommaAt(text, i, |Body(Plain, text, i + 1)| - 1)
  {
    EmittedThere(text, i);
    SameStrings(text, i);
    if Scan(Plain, text, i) == Slash {
      OneFurther(Stripped(text).value, |Body(Plain, text, i)|, '/');
    }
  }

  lemma OneFurther(x: string, n: nat, c: char)
    requires n < |x| && x[n] == c
    ensures StringScan(x, n + 1) == StringNext(StringScan(x, n), c)
  {
  }

  lemma CloserWritten(text: string, j: nat, q: nat)
    requires Stripped(text).Ok? && j < |text| && Lands(text, j, q) && text[j] == ','
    ensures ClosesNext(Stripped(text).value, q + 1) <==>
      Skip(text, j + 1) < |text| && IsCloser(text[Skip(text, j + 1)])
  {
    EmittedThere(text, j);
    SkipsAlike(text, j + 1);
    ClosesAtSolid(Stripped(text).value, q + 1);
  }

  lemma SecondComma(text: string, j: nat, q: nat)
    requires Stripped(text).Ok? && j <= |text| && Lands(text, j, q)
    ensures PlainCloses(Stripped(text).value, q) <==> CommaCloses(text, j)
  {
    if j < |text| && text[j] == ',' {
      CloserWritten(text, j, q);
    }
  }

  /** Two commas in a row are two commas in a row in the output. */
  lemma DoubleWritten(text: string, i: nat, p: nat)
    requires Stripped(text).Ok? && i < |text| && CommaAt(text, i, p)
    ensures IsPlainDouble(Stripped(text).value, p) <==> IsDoubleComma(text, i)
  {
    SkipsAlike(text, i + 1);
    SecondComma(text, Skip(text, i + 1), SkipSpaces(Stripped(text).value, p + 1));
  }

  lemma CommaOrigin(text: string, p: nat) returns (i: nat)
    requires Stripped(text).Ok? && p < |Stripped(text).value|
    requires Stripped(text).value[p] == ',' && StringScan(Stripped(text).value, p) == Outside
    ensures i < |text| && CommaAt(text, i, p)
  {
    i := Origin(text, |text|, p);
    OnlyCommas(text, i, p);
  }

  lemma OnlyCommas(text: string, i: nat, p: nat)
    requires Stripped(text).Ok? && i < |text| && |Body(Plain, text, i)| <= p < |Body(Plain, text, i + 1)|
    requires p < |Stripped(text).value| && Stripped(text).value[p] == ',' &&
      StringScan(Stripped(text).value, p) == Outside
    ensures CommaAt(text, i, p)
  {
    EmittedThere(text, i);
    SameStrings(text, i);
    var m := Scan(Plain, text, i);
    assert View(m) == Outside;
    assert text[i] == ',';
  }

  lemma DoublesKept(text: string)
    requires Stripped(text).Ok?
    ensures HasDoubleComma(text) <==>
      exists p :: 0 <= p < |Stripped(text).value| && IsPlainDouble(Stripped(text).value, p)
  {
    var x := Stripped(text).value;
    if HasDoubleComma(text) {
      var i :| 0 <= i < |text| && IsDoubleComma(text, i);
      CommaWritten(text, i);
      DoubleWritten(text, i, |Body(Plain, text, i + 1)| - 1);
    }
    if exists p :: 0 <= p < |x| && IsPlainDouble(x, p) {
      var p :| 0 <= p < |x| && IsPlainDouble(x, p);
      var i := CommaOrigin(text, p);
      DoubleWritten(text, i, p);
    }
  }

  /** Behind comments without a line break nothing has been written. */
  lemma {:induction false} NothingWritten(text: string, k: nat)
    requires k <= |text| && forall i :: 0 <= i < k ==> InComment(text, i) && text[i] != '\n'
    ensures Body(Plain, text, k) == "" && Between(text, k)
  {
    if k > 0 {
      NothingWritten(text, k - 1);
      assert InComment(text, k - 1);
    }
  }

  /** Only a slash that may begin a comment and text in a comment write nothing. */
  lemma SilentMode(m: Mode, c: char)
    requires |Emit(m, c)| == 0
    ensures m == Plain ==> Next(m, c) == Slash && c != '\n'
    ensures m != Plain ==> IsCommentMode(m) || IsCommentMode(Next(m, c))
    ensures m != Plain ==> c != '\n'
    ensures m == Slash ==> IsCommentMode(Next(m, c))
  {
  }

  lemma WrittenAtOnce(text: string, n: nat)
    requires n < |text|
    ensures |Body(Plain, text, n + 1)| == |Body(Plain, text, n)| + |Emit(Scan(Plain, text, n), text[n])|
  {
  }

  lemma SilentStep(text: string, i: nat, k: nat)
    requires i < k <= |text| && |Body(Plain, text, k)| == 0
    ensures |Emit(Scan(Plain, text, i), text[i])| == 0
  {
    WrittenAtOnce(text, i);
    BodyGrows(text, i + 1, k);
  }

  /** What is written by nothing lies in a comment. */
  lemma SilentInComment(text: string, i: nat, k: nat)
    requires i < k <= |text| && |Body(Plain, text, k)| == 0 && Scan(Plain, text, k) == Plain
    ensures InComment(text, i) && text[i] != '\n'
  {
    SilentStep(text, i, k);
    SilentMode(Scan(Plain, text, i), text[i]);
    assert Scan(Plain, text, i + 1) == Next(Scan(Plain, text, i), text[i]);
    if Scan(Plain, text, i) == Plain {
      SilentStep(text, i + 1, k);
      SilentMode(Slash, text[i + 1]);
      assert Scan(Plain, text, i + 2) == Next(Slash, text[i + 1]);
    }
  }

  lemma MarkOrigin(text: string) returns (k: nat)
    requires Stripped(text).Ok? && StartsWithMark(Stripped(text).value)
    ensures k < |text| && text[k] == '\U{feff}' && Scan(Plain, text, k) == Plain && Body(Plain, text, k) == ""
  {
    k := Origin(text, |text|, 0);
    EmittedThere(text, k);
    SameStrings(text, k);
  }

  lemma MarkKept(text: string)
    requires Stripped(text).Ok?
    ensures HasHiddenMark(text) <==> StartsWithMark(Stripped(text).value)
  {
    if HasHiddenMark(text) {
      var k :| 0 <= k < |text| && IsFirstLeft(text, k) && text[k] == '\U{feff}';
      NothingWritten(text, k);
      StopsAtSame(text, k);
    }
    if StartsWithMark(Stripped(text).value) {
      var k := MarkOrigin(text);
      forall i | 0 <= i < k
        ensures InComment(text, i) && text[i] != '\n'
      {
        SilentInComment(text, i, k);
      }
      assert IsFirstLeft(text, k);
    }
  }

  // ----- through the second pass -----

  lemma {:induction false} KeptGrows(x: string, k: nat, n: nat)
    requires k <= n <= |x|
    ensures WithoutCommas(x, k) <= WithoutCommas(x, n)
  {
    if k < n {
      KeptGrows(x, k, n - 1);
    }
  }

  /** Where in the output of the second pass a character that stays is written. */
  lemma KeptThere(x: string, n: nat)
    requires n < |x|
    ensures var once, p := WithoutCommas(x, |x|), |WithoutCommas(x, n)|;
            && |WithoutCommas(x, n + 1)| <= |once|
            && if IsTrailingComma(x, n) then |WithoutCommas(x, n + 1)| == p
               else |WithoutCommas(x, n + 1)| == p + 1 && once[p] == x[n] && StringScan(once, p) == StringScan(x, n)
  {
    KeptGrows(x, n + 1, |x|);
    KeptGrows(x, n, |x|);
    CommasShow(x, n);
    SameFront(WithoutCommas(x, n), WithoutCommas(x, |x|), |WithoutCommas(x, n)|);
  }

  /** Behind a position of the output a bracket closes if one did, or if the comma before one is gone. */
  lemma {:induction false} CloserMoves(x: string, n: nat)
    requires n <= |x|
    ensures |WithoutCommas(x, n)| <= |WithoutCommas(x, |x|)|
    ensures var j := SkipSpaces(x, n);
            ClosesNext(WithoutCommas(x, |x|), |WithoutCommas(x, n)|) <==>
              j < |x| && (IsCloser(x[j]) || IsTrailingComma(x, j))
    decreases |x| - n
  {
    if n < |x| {
      KeptThere(x, n);
      if IsWhitespace(x[n]) {
        CloserMoves(x, n + 1);
      } else if IsTrailingComma(x, n) {
        CloserMoves(x, n + 1);
        ClosesAtSolid(x, n + 1);
      }
    }
  }

  lemma {:induction false} SpacesStayOutside(x: string, n: nat)
    requires n <= |x| && StringScan(x, n) == Outside
    ensures StringScan(x, SkipSpaces(x, n)) == Outside
    decreases |x| - n
  {
    if n < |x| && IsWhitespace(x[n]) {
      SpacesStayOutside(x, n + 1);
    }
  }

  lemma {:induction false} KeptOrigin(x: string, n: nat, p: nat) returns (i: nat)
    requires n <= |x| && p < |WithoutCommas(x, n)|
    ensures i < n && |WithoutCommas(x, i)| == p && !IsTrailingComma(x, i)
  {
    if p < |WithoutCommas(x, n - 1)| {
      i := KeptOrigin(x, n - 1, p);
    } else {
      i := n - 1;
    }
  }

  /** A comma that stays becomes a trailing one exactly when the next character is a comma that goes. */
  lemma BecomesTrailing(x: string, i: nat)
    requires i < |x| && !IsTrailingComma(x, i)
    ensures var once, p := WithoutCommas(x, |x|), |WithoutCommas(x, i)|;
            p < |once| && (IsTrailingComma(once, p) <==> IsPlainDouble(x, i))
  {
    KeptThere(x, i);
    CloserMoves(x, i + 1);
    ClosesAtSolid(x, i + 1);
    if StringScan(x, i) == Outside && x[i] == ',' {
      SpacesStayOutside(x, i + 1);
    }
  }

  lemma TrailingWasDouble(x: string, p: nat) returns (i: nat)
    requires p < |WithoutCommas(x, |x|)| && IsTrailingComma(WithoutCommas(x, |x|), p)
    ensures i < |x| && IsPlainDouble(x, i)
  {
    i := KeptOrigin(x, |x|, p);
    BecomesTrailing(x, i);
  }

  lemma DoubleTurnsTrailing(x: string, i: nat)
    requires i < |x| && IsPlainDouble(x, i)
    ensures !NoTrailingComma(WithoutCommas(x, |x|))
  {
    ClosesAtSolid(x, i + 1);
    BecomesTrailing(x, i);
    assert IsTrailingComma(WithoutCommas(x, |x|), |WithoutCommas(x, i)|);
  }

  lemma DoublesBecomeTrailing(x: string)
    ensures !NoTrailingComma(WithoutCommas(x, |x|)) <==> exists i :: 0 <= i < |x| && IsPlainDouble(x, i)
  {
    var once := WithoutCommas(x, |x|);
    if !NoTrailingComma(once) {
      var p :| 0 <= p < |once| && IsTrailingComma(once, p);
      var i := TrailingWasDouble(x, p);
      assert IsPlainDouble(x, i);
    }
    if i: nat :| i < |x| && IsPlainDouble(x, i) {
      DoubleTurnsTrailing(x, i);
    }
  }

  lemma CloserStaysFirst(x: string)
    requires x != "" && IsTrailingComma(x, 0)
    ensures var once := WithoutCommas(x, |x|); once != "" && (IsWhitespace(once[0]) || IsCloser(once[0]))
  {
    KeptThere(x, 0);
    CloserMoves(x, 1);
    ClosesAtSolid(x, 1);
    assert ClosesNext(WithoutCommas(x, |x|), 0);
  }

  lemma MarkStaysFirst(x: string)
    ensures StartsWithMark(WithoutCommas(x, |x|)) <==> StartsWithMark(x)
  {
    if x != "" {
      KeptThere(x, 0);
      if IsTrailingComma(x, 0) {
        CloserStaysFirst(x);
      }
    }
  }

  // ----- normalizing twice -----

  /**
   A second run changes the text exactly when, outside strings, two commas stand before a
   closing bracket with nothing but white space and comments between them, or when nothing
   but comments without a line break stands between the start, leading byte order marks
   aside, and another mark.
   */
  lemma NormalizingTwice(source: string)
    requires Normalized(source).Ok?
    ensures var text, once := TrimByteOrderMarks(source), Normalized(source).value;
            Normalized(once) != Ok(once) <==> HasDoubleComma(text) || HasHiddenMark(text)
  {
    var text := TrimByteOrderMarks(source);
    var x := Stripped(text).value;
    OnceIsClean(source);
    DoublesKept(text);
    DoublesBecomeTrailing(x);
    MarkKept(text);
    MarkStaysFirst(x);
  }

  /** Two commas before a bracket need two runs. */
  lemma DoubleCommaNeedsTwoRuns()
    ensures Normalized(",,]") == Ok(",]") && Normalized(",]") == Ok("]")
  {
    var c, d := ",,]", ",]";
    assert StringScan(c, 1) == Outside && StringScan(c, 2) == Outside && StringScan(c, 3) == Outside;
    assert StringScan(d, 1) == Outside && StringScan(d, 2) == Outside;
    CommentFreeStays(c);
    CommentFreeStays(d);
    assert ClosesNext(c, 2) && !ClosesNext(c, 1) && ClosesNext(d, 1);
    assert WithoutCommas(c, 1) == "," && WithoutCommas(c, 2) == "," && WithoutCommas(c, 3) == ",]";
    assert WithoutCommas(d, 1) == "" && WithoutCommas(d, 2) == "]";
  }
}
