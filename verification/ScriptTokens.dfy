/**
 The shell tokenizer of discovery/scripts.rs.  The states and their steps are
 functions; the class updates the same state field by field.  Characters have width
 one.
 */
module ScriptTokens {
  import opened Common
  import opened Sorting

  datatype ScriptSpan = ScriptSpan(start: nat, end: nat)

  datatype ScriptToken = ScriptToken(value: string, span: ScriptSpan)

  datatype ScriptSegment = ScriptSegment(tokens: seq<ScriptToken>, span: ScriptSpan)

  datatype UnmodeledKind =
    | DanglingEscape | GlobExpansion | InlineCode | Redirection | ShellExpansion
    | UnsupportedShellSyntax | UnsupportedShellWrapper | UnterminatedDoubleQuote | UnterminatedSingleQuote

  datatype Unmodeled = Unmodeled(span: ScriptSpan, kind: UnmodeledKind)

  datatype TokenizedScript = TokenizedScript(segments: seq<ScriptSegment>, unmodeled: seq<Unmodeled>)

  datatype Quote = Unquoted | Single | Double

  datatype State = State(
    segments: seq<ScriptSegment>, segmentTokens: seq<ScriptToken>, unmodeled: seq<Unmodeled>,
    word: string, wordStart: Option<nat>, segmentStart: nat, quote: Quote, quoteStart: nat, index: nat)

  const START := State([], [], [], "", None, 0, Unquoted, 0, 0)

  // ----- the order of the unmodeled spans -----

  /** The order in which the kinds are declared. */
  function KindRank(kind: UnmodeledKind): nat {
    match kind
    case DanglingEscape => 0
    case GlobExpansion => 1
    case InlineCode => 2
    case Redirection => 3
    case ShellExpansion => 4
    case UnsupportedShellSyntax => 5
    case UnsupportedShellWrapper => 6
    case UnterminatedDoubleQuote => 7
    case UnterminatedSingleQuote => 8
  }

  predicate UnmodeledLeq(a: Unmodeled, b: Unmodeled) {
    a.span.start < b.span.start || (a.span.start == b.span.start &&
      (a.span.end < b.span.end || (a.span.end == b.span.end && KindRank(a.kind) <= KindRank(b.kind))))
  }

  function SortedUnmodeled(s: seq<Unmodeled>): seq<Unmodeled> {
    Dedup(Sort(UnmodeledLeq, s))
  }

  lemma SortedUnmodeledElements(s: seq<Unmodeled>, u: Unmodeled)
    ensures u in SortedUnmodeled(s) <==> u in s
  {
    DedupElements(Sort(UnmodeledLeq, s), u);
    SortElements(UnmodeledLeq, s, u);
  }

  // ----- steps -----

  predicate IsGlob(c: char) { c == '*' || c == '?' || c == '[' }

  predicate IsRedirection(c: char) { c == '>' || c == '<' }

  predicate IsGrouping(c: char) { c == '(' || c == ')' || c == '{' || c == '}' }

  predicate IsOperator(c: char) { c == ';' || c == '|' || c == '&' || c == '\n' }

  function FindFrom(source: string, c: char, from: nat): (r: Option<nat>)
    ensures r.Some? ==> from <= r.value < |source| && source[r.value] == c && c !in source[from..r.value]
    ensures r.None? ==> from <= |source| ==> c !in source[from..]
    decreases |source| - from
  {
    if from >= |source| then None else if source[from] == c then Some(from) else FindFrom(source, c, from + 1)
  }

  /** `end` lies behind the first `c` from `from` on, or at the end of the source when there is none. */
  predicate IsBehindFirst(source: string, c: char, from: nat, end: nat) {
    && from <= end <= |source|
    && if c in source[from..] then from < end && source[end - 1] == c && c !in source[from..end - 1]
       else end == |source|
  }

  /** A command substitution reaches to its first closing mark, a bare marker stands alone. */
  function ShellExpansionEnd(source: string, start: nat, marker: char): (end: nat)
    requires start < |source|
    ensures start < end <= |source|
    ensures marker == '`' ==> IsBehindFirst(source, '`', start + 1, end)
    ensures marker != '`' && start + 1 < |source| && source[start + 1] == '(' ==>
      IsBehindFirst(source, ')', start + 2, end)
    ensures marker != '`' && !(start + 1 < |source| && source[start + 1] == '(') ==> end == start + 1
  {
    if marker == '`' then
      var close := FindFrom(source, '`', start + 1);
      if close.Some? then close.value + 1 else |source|
    else if start + 1 < |source| && source[start + 1] == '(' then
      var close := FindFrom(source, ')', start + 2);
      if close.Some? then close.value + 1 else |source|
    else start + 1
  }

  function WithWord(s: State): State {
    if s.wordStart.None? then s.(wordStart := Some(s.index)) else s
  }

  function PushWord(s: State, c: char): State {
    s.(word := s.word + [c])
  }

  function FinishWord(s: State): State {
    if s.wordStart.None? then s
    else
      s.(segmentTokens := s.segmentTokens + [ScriptToken(s.word, ScriptSpan(s.wordStart.value, s.index))],
         word := "", wordStart := None)
  }

  function FinishSegment(s: State, end: nat): State {
    if s.segmentTokens == [] then s
    else
      s.(segments := s.segments + [ScriptSegment(s.segmentTokens, ScriptSpan(s.segmentStart, end))],
         segmentTokens := [])
  }

  function PushUnmodeled(s: State, start: nat, end: nat, kind: UnmodeledKind): (r: State)
    ensures s.unmodeled <= r.unmodeled
  {
    s.(unmodeled := s.unmodeled + [Unmodeled(ScriptSpan(start, end), kind)])
  }

  function BeginQuote(s: State, quote: Quote): State {
    WithWord(s).(quote := quote, quoteStart := s.index, index := s.index + 1)
  }

  function Escape(source: string, s: State): State {
    if s.index + 1 >= |source| then PushUnmodeled(s, s.index, |source|, DanglingEscape).(index := |source|)
    else PushWord(s, source[s.index + 1]).(index := s.index + 2)
  }

  function Expansion(source: string, s: State, marker: char): State
    requires s.index < |source|
  {
    var end := ShellExpansionEnd(source, s.index, marker);
    PushUnmodeled(s, s.index, end, ShellExpansion).(index := end)
  }

  function UnmodeledCharacter(s: State, c: char, kind: UnmodeledKind, retain: bool): State {
    var t := if retain then PushWord(WithWord(s), c) else s;
    PushUnmodeled(t, s.index, s.index + 1, kind).(index := s.index + 1)
  }

  function Operator(source: string, s: State, c: char): State {
    var t := FinishSegment(FinishWord(s), s.index);
    var next := if s.index + 1 < |source| && source[s.index + 1] == c then s.index + 2 else s.index + 1;
    t.(index := next, segmentStart := next)
  }

  function Comment(source: string, s: State): State {
    var t := FinishSegment(s, s.index);
    var newline := FindFrom(source, '\n', s.index);
    if newline.Some? then t.(index := newline.value + 1, segmentStart := newline.value + 1)
    else t.(index := |source|)
  }

  function SingleQuoted(s: State, c: char): State {
    (if c == '\'' then s.(quote := Unquoted) else PushWord(s, c)).(index := s.index + 1)
  }

  function DoubleQuoted(source: string, s: State, c: char): State
    requires s.index < |source|
  {
    if c == '"' then s.(quote := Unquoted, index := s.index + 1)
    else if c == '\\' then Escape(source, s)
    else if c == '$' || c == '`' then Expansion(source, s, c)
    else PushWord(s, c).(index := s.index + 1)
  }

  function UnquotedStep(source: string, s: State, c: char): State
    requires s.index < |source|
  {
    if c == '\'' then BeginQuote(s, Single)
    else if c == '"' then BeginQuote(s, Double)
    else if c == '\\' then Escape(source, WithWord(s))
    else if c == '$' || c == '`' then Expansion(source, WithWord(s), c)
    else if IsGlob(c) then UnmodeledCharacter(s, c, GlobExpansion, true)
    else if IsRedirection(c) then UnmodeledCharacter(FinishWord(s), c, Redirection, false)
    else if IsGrouping(c) then UnmodeledCharacter(s, c, UnsupportedShellSyntax, true)
    else if IsOperator(c) then Operator(source, s, c)
    else if c == '#' && s.wordStart.None? then Comment(source, s)
    else if IsWhitespace(c) then FinishWord(s).(index := s.index + 1)
    else PushWord(WithWord(s), c).(index := s.index + 1)
  }

  function Step(source: string, s: State): (r: State)
    requires s.index < |source|
    ensures s.index < r.index <= |source|
  {
    var c := source[s.index];
    match s.quote
    case Single => SingleQuoted(s, c)
    case Double => DoubleQuoted(source, s, c)
    case Unquoted => UnquotedStep(source, s, c)
  }

  function Run(source: string, s: State): (r: State)
    requires s.index <= |source|
    ensures r.index == |source|
    decreases |source| - s.index
  {
    if s.index == |source| then s else Run(source, Step(source, s))
  }

  function Unterminated(source: string, s: State): State {
    match s.quote
    case Unquoted => s
    case Single => PushUnmodeled(s, s.quoteStart, |source|, UnterminatedSingleQuote)
    case Double => PushUnmodeled(s, s.quoteStart, |source|, UnterminatedDoubleQuote)
  }

  function Finished(source: string, s: State): State {
    var u := FinishSegment(FinishWord(Unterminated(source, s).(index := |source|)), |source|);
    u.(unmodeled := SortedUnmodeled(u.unmodeled))
  }

  function Tokenized(source: string): TokenizedScript {
    var s := Finished(source, Run(source, START));
    TokenizedScript(s.segments, s.unmodeled)
  }

  // ----- reading, as a relation between states -----

  predicate IsStep(source: string, s: State, t: State) {
    s.index < |source| && Step(source, s) == t
  }

  ghost predicate IsTrace(source: string, trace: seq<State>, s: State, t: State) {
    && trace != [] && trace[0] == s && trace[|trace| - 1] == t
    && forall i :: 0 <= i < |trace| - 1 ==> IsStep(source, trace[i], trace[i + 1])
  }

  /** Some number of steps lead from `s` to `t`. */
  ghost predicate Leads(source: string, s: State, t: State) {
    exists trace :: IsTrace(source, trace, s, t)
  }

  lemma LeadsNowhere(source: string, s: State)
    ensures Leads(source, s, s)
  {
    assert IsTrace(source, [s], s, s);
  }

  lemma LeadsByStep(source: string, s: State)
    requires s.index < |source|
    ensures Leads(source, s, Step(source, s))
  {
    assert IsTrace(source, [s, Step(source, s)], s, Step(source, s));
  }

  lemma LeadsTrans(source: string, s: State, t: State, u: State)
    requires Leads(source, s, t) && Leads(source, t, u)
    ensures Leads(source, s, u)
  {
    var a :| IsTrace(source, a, s, t);
    var b :| IsTrace(source, b, t, u);
    var c: seq<State> := a + b[1..];
    forall i | 0 <= i < |c| - 1
      ensures IsStep(source, c[i], c[i + 1])
    {
      if i < |a| - 1 {
        assert IsStep(source, a[i], a[i + 1]);
      } else {
        var k := i - |a| + 1;
        assert IsStep(source, b[k], b[k + 1]);
        assert c[i] == b[k] && c[i + 1] == b[k + 1];
      }
    }
    assert IsTrace(source, c, s, u);
  }

  // ----- what holds of every input -----

  ghost predicate TokensWithin(tokens: seq<ScriptToken>, low: nat, high: nat) {
    && (forall i :: 0 <= i < |tokens| ==> low <= tokens[i].span.start < tokens[i].span.end <= high)
    && forall i, j :: 0 <= i < j < |tokens| ==> tokens[i].span.end <= tokens[j].span.start
  }

  ghost predicate SegmentsWithin(segments: seq<ScriptSegment>, high: nat) {
    && (forall i :: 0 <= i < |segments| ==>
          && segments[i].tokens != [] && segments[i].span.end <= high
          && TokensWithin(segments[i].tokens, segments[i].span.start, segments[i].span.end))
    && forall i, j :: 0 <= i < j < |segments| ==> segments[i].span.end <= segments[j].span.start
  }

  ghost predicate UnmodeledWithin(unmodeled: seq<Unmodeled>, high: nat) {
    forall i :: 0 <= i < |unmodeled| ==> unmodeled[i].span.start < unmodeled[i].span.end <= high
  }

  function Flatten(segments: seq<ScriptSegment>): seq<ScriptToken> {
    if segments == [] then [] else Flatten(segments[..|segments| - 1]) + segments[|segments| - 1].tokens
  }

  function Emitted(s: State): seq<ScriptToken> {
    Flatten(s.segments) + s.segmentTokens
  }

  ghost predicate InTokens(tokens: seq<ScriptToken>, p: nat) {
    exists i :: 0 <= i < |tokens| && tokens[i].span.start <= p < tokens[i].span.end
  }

  predicate InWord(s: State, p: nat) {
    s.wordStart.Some? && s.wordStart.value <= p < s.index
  }

  predicate IsSeparator(c: char) {
    IsWhitespace(c) || IsOperator(c) || IsRedirection(c)
  }

  /**
   What the step from `s` passes over for no word: a separator or a doubled operator, or the
   line behind a `#`.  All of them are met outside quotations, and the `#` with no word open.
   */
  predicate PassesOver(source: string, s: State, p: nat) {
    && s.index <= p < |source| && s.quote == Unquoted
    && var c := source[s.index];
    || (p == s.index && IsSeparator(c))
    || (p == s.index + 1 && IsOperator(c) && source[p] == c)
    || (c == '#' && s.wordStart.None? && '\n' !in source[s.index..p])
  }

  /** Some step of reading the script passes over it. */
  ghost predicate PassedOver(source: string, p: nat) {
    exists s :: Leads(source, START, s) && PassesOver(source, s, p)
  }

  /** Text that is in no token was passed over. */
  ghost predicate Accounted(source: string, s: State) {
    s.index <= |source| &&
    forall p :: 0 <= p < s.index ==>
      InTokens(Emitted(s), p) || InWord(s, p) || PassedOver(source, p)
  }

  /** The shape of every state between two steps. */
  ghost predicate Shaped(source: string, s: State) {
    && s.segmentStart <= s.index <= |source| && UnmodeledWithin(s.unmodeled, s.index)
    && (s.wordStart.None? ==> s.word == "" && s.quote == Unquoted)
    && (s.wordStart.Some? ==> s.segmentStart <= s.wordStart.value < s.index)
    && (s.quote != Unquoted ==> s.quoteStart < s.index)
    && TokensWithin(s.segmentTokens, s.segmentStart, if s.wordStart.Some? then s.wordStart.value else s.index)
    && SegmentsWithin(s.segments, s.index)
    // Only a comment that ends the script leaves the segment start behind.
    && (SegmentsWithin(s.segments, s.segmentStart)
        || (s.index == |source| && s.segmentTokens == [] && s.wordStart.None?))
  }

  lemma FinishWordShaped(source: string, s: State)
    requires Shaped(source, s) && s.quote == Unquoted && s.index < |source|
    ensures var t := FinishWord(s); Shaped(source, t) && t.wordStart.None? && t.index == s.index && t.quote == Unquoted
  {
    if s.wordStart.Some? {
      var t := FinishWord(s);
      forall i, j | 0 <= i < j < |t.segmentTokens|
        ensures t.segmentTokens[i].span.end <= t.segmentTokens[j].span.start
      {
      }
    }
  }

  lemma FinishSegmentShaped(source: string, s: State)
    requires Shaped(source, s) && s.wordStart.None? && s.index < |source|
    ensures var t := FinishSegment(s, s.index);
            && t.segmentTokens == [] && t.wordStart.None? && t.word == "" && t.quote == Unquoted
            && SegmentsWithin(t.segments, s.index) && t.unmodeled == s.unmodeled && t.index == s.index
  {
    if s.segmentTokens != [] {
      var t := FinishSegment(s, s.index);
      forall i, j | 0 <= i < j < |t.segments|
        ensures t.segments[i].span.end <= t.segments[j].span.start
      {
        if j == |t.segments| - 1 {
          assert t.segments[i] == s.segments[i];
        }
      }
    }
  }

  /** What the steps share that go on with a word or open one. */
  ghost predicate GrowsWord(source: string, s: State, t: State) {
    && t.segments == s.segments && t.segmentTokens == s.segmentTokens && t.segmentStart == s.segmentStart
    && t.wordStart == Some(if s.wordStart.Some? then s.wordStart.value else s.index)
    && s.index < t.index <= |source| && (t.quote != Unquoted ==> t.quoteStart < t.index)
    && (t.unmodeled == s.unmodeled ||
        exists kind :: t.unmodeled == s.unmodeled + [Unmodeled(ScriptSpan(s.index, t.index), kind)])
  }

  /** What the steps share that stand between words. */
  ghost predicate SkipsOn(source: string, s: State, t: State) {
    && t.segments == s.segments && t.segmentTokens == FinishWord(s).segmentTokens && t.segmentStart == s.segmentStart
    && t.wordStart == None && t.word == "" && t.quote == Unquoted && t.index == s.index + 1
    && (t.unmodeled == s.unmodeled ||
        exists kind :: t.unmodeled == s.unmodeled + [Unmodeled(ScriptSpan(s.index, t.index), kind)])
  }

  /** What an operator and a comment share: the segment ends here and the next one starts where reading goes on. */
  ghost predicate EndsSegment(source: string, s: State, t: State) {
    && t.segments == FinishSegment(FinishWord(s), s.index).segments && t.segmentTokens == []
    && t.wordStart == None && t.word == "" && t.quote == Unquoted && s.index < t.index <= |source|
    && t.unmodeled == s.unmodeled
    && (t.segmentStart == t.index || (t.segmentStart == s.segmentStart && t.index == |source|))
  }

  lemma QuotedGrowsWord(source: string, s: State)
    requires Shaped(source, s) && s.index < |source| && s.quote != Unquoted
    ensures GrowsWord(source, s, Step(source, s))
  {
  }

  predicate EndsWord(s: State, c: char) {
    IsRedirection(c) || IsOperator(c) || (c == '#' && s.wordStart.None?) || IsWhitespace(c)
  }

  lemma UnquotedGrowsWord(source: string, s: State)
    requires Shaped(source, s) && s.index < |source| && s.quote == Unquoted && !EndsWord(s, source[s.index])
    ensures GrowsWord(source, s, UnquotedStep(source, s, source[s.index]))
  {
  }

  lemma UnquotedSkipsOn(source: string, s: State)
    requires Shaped(source, s) && s.index < |source| && s.quote == Unquoted
    requires var c := source[s.index]; EndsWord(s, c) && !IsOperator(c) && c != '#'
    ensures SkipsOn(source, s, UnquotedStep(source, s, source[s.index]))
  {
  }

  lemma OperatorCloses(source: string, s: State)
    requires Shaped(source, s) && s.index < |source| && s.quote == Unquoted
    ensures EndsSegment(source, s, Operator(source, s, source[s.index]))
  {
  }

  lemma OperatorStep(source: string, s: State)
    requires s.index < |source| && IsOperator(source[s.index])
    ensures UnquotedStep(source, s, source[s.index]) == Operator(source, s, source[s.index])
  {
  }

  lemma OperatorEndsSegment(source: string, s: State)
    requires Shaped(source, s) && s.index < |source| && s.quote == Unquoted && IsOperator(source[s.index])
    ensures EndsSegment(source, s, UnquotedStep(source, s, source[s.index]))
  {
    OperatorCloses(source, s);
    OperatorStep(source, s);
  }

  lemma CommentEndsSegment(source: string, s: State)
    requires Shaped(source, s) && s.index < |source| && s.quote == Unquoted
    requires s.wordStart.None? && source[s.index] == '#'
    ensures EndsSegment(source, s, UnquotedStep(source, s, source[s.index]))
  {
  }

  /** The three ways in which a step goes on. */
  datatype Move = Growing | Skipping | Ending

  ghost predicate Moves(source: string, s: State, t: State, move: Move) {
    match move
    case Growing => GrowsWord(source, s, t)
    case Skipping => SkipsOn(source, s, t) && s.quote == Unquoted
    case Ending => EndsSegment(source, s, t) && s.quote == Unquoted
  }

  lemma UnquotedMoves(source: string, s: State) returns (move: Move)
    requires Shaped(source, s) && s.index < |source| && s.quote == Unquoted
    ensures Moves(source, s, UnquotedStep(source, s, source[s.index]), move)
  {
    var c := source[s.index];
    if !EndsWord(s, c) {
      UnquotedGrowsWord(source, s);
      move := Growing;
    } else if IsOperator(c) {
      OperatorEndsSegment(source, s);
      move := Ending;
    } else if c == '#' {
      CommentEndsSegment(source, s);
      move := Ending;
    } else {
      UnquotedSkipsOn(source, s);
      move := Skipping;
    }
  }

  lemma StepMoves(source: string, s: State) returns (move: Move)
    requires Shaped(source, s) && s.index < |source|
    ensures Moves(source, s, Step(source, s), move)
  {
    if s.quote == Unquoted {
      move := UnquotedMoves(source, s);
    } else {
      QuotedGrowsWord(source, s);
      move := Growing;
    }
  }

  lemma GrowsWordShaped(source: string, s: State, t: State)
    requires Shaped(source, s) && s.index < |source| && GrowsWord(source, s, t)
    ensures Shaped(source, t)
  {
  }

  lemma SkipsOnShaped(source: string, s: State, t: State)
    requires Shaped(source, s) && s.index < |source| && s.quote == Unquoted && SkipsOn(source, s, t)
    ensures Shaped(source, t)
  {
    FinishWordShaped(source, s);
  }

  lemma EndsSegmentShaped(source: string, s: State, t: State)
    requires Shaped(source, s) && s.index < |source| && s.quote == Unquoted && EndsSegment(source, s, t)
    ensures Shaped(source, t)
  {
    FinishWordShaped(source, s);
    FinishSegmentShaped(source, FinishWord(s));
  }

  lemma StepShaped(source: string, s: State)
    requires Shaped(source, s) && s.index < |source|
    ensures Shaped(source, Step(source, s))
  {
    var t := Step(source, s);
    var move := StepMoves(source, s);
    match move {
      case Growing => GrowsWordShaped(source, s, t);
      case Skipping => SkipsOnShaped(source, s, t);
      case Ending => EndsSegmentShaped(source, s, t);
    }
  }

  lemma FlattenGrows(segments: seq<ScriptSegment>, last: ScriptSegment)
    ensures Flatten(segments + [last]) == Flatten(segments) + last.tokens
  {
    assert (segments + [last])[..|segments|] == segments;
  }

  lemma FinishWordEmits(s: State)
    ensures s.wordStart.Some? ==>
      Emitted(FinishWord(s)) == Emitted(s) + [ScriptToken(s.word, ScriptSpan(s.wordStart.value, s.index))]
    ensures s.wordStart.None? ==> Emitted(FinishWord(s)) == Emitted(s)
  {
  }

  lemma FinishSegmentEmits(s: State, end: nat)
    ensures Emitted(FinishSegment(s, end)) == Emitted(s)
  {
    FlattenGrows(s.segments, ScriptSegment(s.segmentTokens, ScriptSpan(s.segmentStart, end)));
  }

  lemma InLongerTokens(tokens: seq<ScriptToken>, last: ScriptToken, p: nat)
    ensures InTokens(tokens + [last], p) <==> InTokens(tokens, p) || last.span.start <= p < last.span.end
  {
    var longer := tokens + [last];
    if InTokens(tokens, p) {
      var i :| 0 <= i < |tokens| && tokens[i].span.start <= p < tokens[i].span.end;
      assert longer[i] == tokens[i];
    }
    if last.span.start <= p < last.span.end {
      assert longer[|tokens|] == last;
    }
  }

  lemma FinishWordKeeps(s: State, p: nat)
    requires InTokens(Emitted(s), p) || InWord(s, p)
    ensures InTokens(Emitted(FinishWord(s)), p)
  {
    FinishWordEmits(s);
    if s.wordStart.Some? {
      InLongerTokens(Emitted(s), ScriptToken(s.word, ScriptSpan(s.wordStart.value, s.index)), p);
    }
  }

  lemma NotInFront(source: string, c: char, from: nat, p: nat, end: nat)
    requires from <= p <= end <= |source| && c !in source[from..end]
    ensures c !in source[from..p]
  {
    forall i | 0 <= i < |source[from..p]|
      ensures source[from..p][i] != c
    {
      assert source[from..p][i] == source[from..end][i];
    }
  }

  lemma CommentReaches(source: string, s: State, p: nat)
    requires s.index <= p < |source| && source[s.index] == '#' && s.quote == Unquoted && s.wordStart.None?
    requires var newline := FindFrom(source, '\n', s.index); newline.Some? ==> p <= newline.value
    ensures PassesOver(source, s, p)
  {
    var newline := FindFrom(source, '\n', s.index);
    NotInFront(source, '\n', s.index, p, if newline.Some? then newline.value else |source|);
  }

  /** What a step reads and does not keep for a word it passes over. */
  lemma SkippedText(source: string, s: State, p: nat)
    requires Shaped(source, s) && s.index < |source| && s.index <= p < Step(source, s).index &&
      !InWord(Step(source, s), p)
    ensures PassesOver(source, s, p)
  {
    if s.quote != Unquoted {
      QuotedGrowsWord(source, s);
    } else if !EndsWord(s, source[s.index]) {
      UnquotedGrowsWord(source, s);
    } else if source[s.index] == '#' {
      CommentReaches(source, s, p);
    }
  }

  /** No step loses a token or the open word. */
  lemma StepKeeps(source: string, s: State, p: nat)
    requires Shaped(source, s) && s.index < |source| && p < s.index
    requires InTokens(Emitted(s), p) || InWord(s, p)
    ensures var t := Step(source, s); InTokens(Emitted(t), p) || InWord(t, p)
  {
    var t := Step(source, s);
    var move := StepMoves(source, s);
    if move != Growing {
      FinishWordKeeps(s, p);
      FinishSegmentEmits(FinishWord(s), s.index);
    }
  }

  lemma StepAccounted(source: string, s: State)
    requires Leads(source, START, s) && Shaped(source, s) && Accounted(source, s) && s.index < |source|
    ensures Accounted(source, Step(source, s))
  {
    var t := Step(source, s);
    forall p: nat | p < t.index
      ensures InTokens(Emitted(t), p) || InWord(t, p) || PassedOver(source, p)
    {
      if p >= s.index {
        if !InWord(t, p) {
          SkippedText(source, s, p);
        }
      } else if InTokens(Emitted(s), p) || InWord(s, p) {
        StepKeeps(source, s, p);
      }
    }
  }

  lemma {:induction false} RunShaped(source: string, s: State)
    requires Leads(source, START, s) && Shaped(source, s) && Accounted(source, s)
    ensures Shaped(source, Run(source, s)) && Accounted(source, Run(source, s))
    decreases |source| - s.index
  {
    if s.index < |source| {
      StepShaped(source, s);
      StepAccounted(source, s);
      LeadsByStep(source, s);
      LeadsTrans(source, START, s, Step(source, s));
      RunShaped(source, Step(source, s));
    }
  }

  lemma FinishedSegments(source: string, s: State)
    requires Shaped(source, s) && s.index == |source|
    ensures SegmentsWithin(FinishSegment(FinishWord(s), |source|).segments, |source|)
  {
    var u := FinishWord(s);
    assert TokensWithin(u.segmentTokens, s.segmentStart, |source|);
    if u.segmentTokens != [] {
      var v := FinishSegment(u, |source|).segments;
      forall i, j | 0 <= i < j < |v|
        ensures v[i].span.end <= v[j].span.start
      {
        assert v[i] == s.segments[i];
      }
    }
  }

  lemma FinishedUnmodeled(source: string, s: State)
    requires Shaped(source, s) && s.index == |source|
    ensures UnmodeledWithin(Finished(source, s).unmodeled, |source|)
  {
    var all := Unterminated(source, s).unmodeled;
    assert UnmodeledWithin(all, |source|);
    forall i | 0 <= i < |SortedUnmodeled(all)|
      ensures SortedUnmodeled(all)[i] in all
    {
      SortedUnmodeledElements(all, SortedUnmodeled(all)[i]);
    }
  }

  lemma FinishedParts(source: string, s: State)
    requires s.index == |source|
    ensures Finished(source, s).segments == FinishSegment(FinishWord(s), |source|).segments
    ensures Finished(source, s).unmodeled == SortedUnmodeled(Unterminated(source, s).unmodeled)
  {
  }

  lemma FinishedAccounted(source: string, s: State, p: nat)
    requires Accounted(source, s) && p < s.index == |source|
    ensures InTokens(Flatten(FinishSegment(FinishWord(s), |source|).segments), p) || PassedOver(source, p)
  {
    if InTokens(Emitted(s), p) || InWord(s, p) {
      FinishWordKeeps(s, p);
      var u := FinishWord(s);
      FinishSegmentEmits(u, |source|);
      var v := FinishSegment(u, |source|);
      assert v.segmentTokens == [] && Emitted(v) == Flatten(v.segments);
    }
  }

  /**
   For every script: tokens are nonempty spans, ordered, disjoint and nested in ordered,
   disjoint segments, of which none is empty; and all text outside the tokens was passed
   over by some step of reading, as a separator or as a comment.
   */
  lemma TokensAreNested(source: string)
    ensures var r := Tokenized(source);
            && SegmentsWithin(r.segments, |source|) && UnmodeledWithin(r.unmodeled, |source|)
            && forall p :: 0 <= p < |source| ==>
                 InTokens(Flatten(r.segments), p) || PassedOver(source, p)
  {
    LeadsNowhere(source, START);
    RunShaped(source, START);
    var s := Run(source, START);
    FinishedSegments(source, s);
    FinishedUnmodeled(source, s);
    FinishedParts(source, s);
    forall p | 0 <= p < |source|
      ensures InTokens(Flatten(Tokenized(source).segments), p) || PassedOver(source, p)
    {
      FinishedAccounted(source, s, p);
    }
  }

  lemma {:induction false} TraceRuns(source: string, trace: seq<State>, s: State, t: State)
    requires s.index <= |source| && IsTrace(source, trace, s, t)
    ensures t.index <= |source| && Run(source, s) == Run(source, t)
    decreases |trace|
  {
    if |trace| > 1 {
      assert IsStep(source, trace[0], trace[1]);
      forall i | 0 <= i < |trace[1..]| - 1
        ensures IsStep(source, trace[1..][i], trace[1..][i + 1])
      {
        assert IsStep(source, trace[i + 1], trace[i + 2]);
      }
      TraceRuns(source, trace[1..], trace[1], t);
    }
  }

  lemma LeadsRuns(source: string, s: State, t: State)
    requires s.index <= |source| && Leads(source, s, t)
    ensures t.index <= |source| && Run(source, s) == Run(source, t)
  {
    var trace :| IsTrace(source, trace, s, t);
    TraceRuns(source, trace, s, t);
  }

  lemma RunEnds(source: string, s: State)
    requires s.index == |source|
    ensures Run(source, s) == s
  {
  }

  // ----- what is reported -----

  /** What the shell would expand, redirect or group when it meets `c` in this quotation. */
  function DynamicKind(q: Quote, c: char): Option<UnmodeledKind> {
    if q == Single then None
    else if c == '$' || c == '`' then Some(ShellExpansion)
    else if q == Double then None
    else if IsGlob(c) then Some(GlobExpansion)
    else if IsRedirection(c) then Some(Redirection)
    else if IsGrouping(c) then Some(UnsupportedShellSyntax)
    else None
  }

  /** What the step from `s` reports: dynamic text, or an escape with nothing behind it. */
  function Report(source: string, s: State): Option<UnmodeledKind>
    requires s.index < |source|
  {
    var c := source[s.index];
    if c == '\\' && s.quote != Single && s.index + 1 == |source| then Some(DanglingEscape) else DynamicKind(s.quote, c)
  }

  ghost predicate ReportsOnly(s: State, t: State, kind: Option<UnmodeledKind>) {
    match kind
    case None => t.unmodeled == s.unmodeled
    case Some(k) => t.unmodeled == s.unmodeled + [Unmodeled(ScriptSpan(s.index, t.index), k)]
  }

  lemma QuotedReports(source: string, s: State)
    requires s.index < |source| && s.quote != Unquoted
    ensures ReportsOnly(s, Step(source, s), Report(source, s))
  {
  }

  /** Quotation marks, escapes and expansions. */
  predicate IsMark(c: char) {
    c == '\'' || c == '"' || c == '\\' || c == '$' || c == '`'
  }

  lemma MarkReports(source: string, s: State)
    requires s.index < |source| && s.quote == Unquoted && IsMark(source[s.index])
    ensures ReportsOnly(s, UnquotedStep(source, s, source[s.index]), Report(source, s))
  {
  }

  lemma CharacterReports(source: string, s: State)
    requires s.index < |source| && s.quote == Unquoted && !IsMark(source[s.index])
    ensures ReportsOnly(s, UnquotedStep(source, s, source[s.index]), Report(source, s))
  {
  }

  /** One step reports exactly what `Report` says, with the text it reads. */
  lemma StepReports(source: string, s: State)
    requires s.index < |source|
    ensures ReportsOnly(s, Step(source, s), Report(source, s))
  {
    if s.quote != Unquoted {
      QuotedReports(source, s);
    } else if IsMark(source[s.index]) {
      MarkReports(source, s);
    } else {
      CharacterReports(source, s);
    }
  }

  /** Some step of reading the script reports `u`. */
  ghost predicate IsMet(source: string, u: Unmodeled) {
    exists s :: Leads(source, START, s) && s.index < |source| && Report(source, s) == Some(u.kind)
                && u.span == ScriptSpan(s.index, Step(source, s).index)
  }

  /** Reading ends in `s`, inside the quotation that `u` reports from its opening mark to the end. */
  predicate IsLeftOpen(source: string, s: State, u: Unmodeled) {
    var kind := if s.quote == Single then UnterminatedSingleQuote else UnterminatedDoubleQuote;
    s.quote != Unquoted && u == Unmodeled(ScriptSpan(s.quoteStart, |source|), kind)
  }

  lemma {:induction false} RunReports(source: string, s: State, u: Unmodeled)
    requires Leads(source, START, s) && s.index <= |source| && (u in s.unmodeled ==> IsMet(source, u))
    ensures u in s.unmodeled ==> u in Run(source, s).unmodeled
    ensures u in Run(source, s).unmodeled ==> IsMet(source, u)
    decreases |source| - s.index
  {
    if s.index < |source| {
      StepReports(source, s);
      LeadsByStep(source, s);
      LeadsTrans(source, START, s, Step(source, s));
      RunReports(source, Step(source, s), u);
    }
  }

  lemma MetIsKept(source: string, u: Unmodeled)
    requires IsMet(source, u)
    ensures u in Run(source, START).unmodeled
  {
    var s :| Leads(source, START, s) && s.index < |source| && Report(source, s) == Some(u.kind)
             && u.span == ScriptSpan(s.index, Step(source, s).index);
    StepReports(source, s);
    LeadsRuns(source, START, s);
    LeadsByStep(source, s);
    LeadsTrans(source, START, s, Step(source, s));
    RunReports(source, Step(source, s), u);
  }

  lemma UnterminatedReports(source: string, s: State, u: Unmodeled)
    ensures u in Unterminated(source, s).unmodeled <==> u in s.unmodeled || IsLeftOpen(source, s, u)
  {
  }

  lemma FinishedReports(source: string, s: State, u: Unmodeled)
    requires s.index == |source|
    ensures u in Finished(source, s).unmodeled <==> u in s.unmodeled || IsLeftOpen(source, s, u)
  {
    FinishedParts(source, s);
    SortedUnmodeledElements(Unterminated(source, s).unmodeled, u);
    UnterminatedReports(source, s, u);
  }

  /**
   The tokenizer reports exactly the dynamic text and the dangling escape that reading
   meets, each with the text its step reads, and the quotation that is left open.
   */
  lemma ReportedExactlyWhenMet(source: string, u: Unmodeled)
    ensures u in Tokenized(source).unmodeled <==> IsMet(source, u) || IsLeftOpen(source, Run(source, START), u)
  {
    FinishedReports(source, Run(source, START), u);
    LeadsNowhere(source, START);
    RunReports(source, START, u);
    if IsMet(source, u) {
      MetIsKept(source, u);
    }
  }

  // ----- the order of the reports -----

  /** By start, then by end, then in the order in which the kinds are listed here. */
  ghost predicate ComesBefore(a: Unmodeled, b: Unmodeled) {
    var kinds := [DanglingEscape, GlobExpansion, InlineCode, Redirection, ShellExpansion, UnsupportedShellSyntax,
                  UnsupportedShellWrapper, UnterminatedDoubleQuote, UnterminatedSingleQuote];
    || a.span.start < b.span.start
    || (a.span.start == b.span.start && a.span.end < b.span.end)
    || (a.span == b.span && exists i, j :: 0 <= i < j < |kinds| && kinds[i] == a.kind && kinds[j] == b.kind)
  }

  lemma KindsInOrder(a: UnmodeledKind, b: UnmodeledKind)
    ensures KindRank(a) == KindRank(b) ==> a == b
    ensures var kinds := [DanglingEscape, GlobExpansion, InlineCode, Redirection, ShellExpansion,
                          UnsupportedShellSyntax, UnsupportedShellWrapper, UnterminatedDoubleQuote,
                          UnterminatedSingleQuote];
            && |kinds| == 9 && KindRank(a) < 9 && KindRank(b) < 9
            && kinds[KindRank(a)] == a && kinds[KindRank(b)] == b
  {
  }

  lemma UnmodeledOrder()
    ensures TotalPreorder(UnmodeledLeq) && forall a, b :: UnmodeledLeq(a, b) && UnmodeledLeq(b, a) ==> a == b
  {
    forall a, b | UnmodeledLeq(a, b) && UnmodeledLeq(b, a)
      ensures a == b
    {
      KindsInOrder(a.kind, b.kind);
    }
  }

  /** The reports of a script come in order, none of them twice. */
  lemma ReportsInOrder(source: string, i: nat, j: nat)
    requires i < j < |Tokenized(source).unmodeled|
    ensures ComesBefore(Tokenized(source).unmodeled[i], Tokenized(source).unmodeled[j])
  {
    var s := FinishSegment(FinishWord(Unterminated(source, Run(source, START)).(index := |source|)), |source|);
    UnmodeledOrder();
    SortSorted(UnmodeledLeq, s.unmodeled);
    DedupSorted(UnmodeledLeq, Sort(UnmodeledLeq, s.unmodeled));
    var a, b := Tokenized(source).unmodeled[i], Tokenized(source).unmodeled[j];
    assert UnmodeledLeq(a, b) && a != b;
    KindsInOrder(a.kind, b.kind);
  }

  // ----- the tokenizer -----

  class ScriptTokenizer {
    const source: string
    var segments: seq<ScriptSegment>
    var segmentTokens: seq<ScriptToken>
    var unmodeled: seq<Unmodeled>
    var word: string
    var wordStart: Option<nat>
    var segmentStart: nat
    var quote: Quote
    var quoteStart: nat
    var index: nat

    constructor (source: string)
      ensures this.source == source && Now() == START
    {
      this.source := source;
      segments, segmentTokens, unmodeled := [], [], [];
      word, wordStart, segmentStart := "", None, 0;
      quote, quoteStart, index := Unquoted, 0, 0;
    }

    ghost function Now(): State
      reads this
    {
      State(segments, segmentTokens, unmodeled, word, wordStart, segmentStart, quote, quoteStart, index)
    }

    method StartWord()
      modifies this`wordStart
      ensures Now() == WithWord(old(Now()))
    {
      if wordStart.None? {
        wordStart := Some(index);
      }
    }

    method TakeWord()
      modifies this
      ensures Now() == FinishWord(old(Now()))
    {
      if wordStart.None? {
        return;
      }
      segmentTokens := segmentTokens + [ScriptToken(word, ScriptSpan(wordStart.value, index))];
      word, wordStart := "", None;
    }

    method TakeSegment(end: nat)
      modifies this
      ensures Now() == FinishSegment(old(Now()), end)
    {
      if segmentTokens == [] {
        return;
      }
      segments := segments + [ScriptSegment(segmentTokens, ScriptSpan(segmentStart, end))];
      segmentTokens := [];
    }

    method ConsumeSingleQuoted(c: char)
      modifies this
      ensures Now() == SingleQuoted(old(Now()), c)
    {
      if c == '\'' {
        quote := Unquoted;
      } else {
        word := word + [c];
      }
      index := index + 1;
    }

    method ConsumeDoubleQuoted(c: char)
      requires index < |source|
      modifies this
      ensures Now() == DoubleQuoted(source, old(Now()), c)
    {
      if c == '"' {
        quote := Unquoted;
        index := index + 1;
      } else if c == '\\' {
        ConsumeEscape();
      } else if c == '$' || c == '`' {
        ConsumeExpansion(c);
      } else {
        word := word + [c];
        index := index + 1;
      }
    }

    method ConsumeUnquoted(c: char)
      requires index < |source|
      modifies this
      ensures Now() == UnquotedStep(source, old(Now()), c)
    {
      if c == '\'' {
        BeginQuoting(Single);
      } else if c == '"' {
        BeginQuoting(Double);
      } else if c == '\\' {
        StartWord();
        ConsumeEscape();
      } else if c == '$' || c == '`' {
        StartWord();
        ConsumeExpansion(c);
      } else if IsGlob(c) {
        ConsumeUnmodeledCharacter(c, GlobExpansion, true);
      } else if IsRedirection(c) {
        TakeWord();
        ConsumeUnmodeledCharacter(c, Redirection, false);
      } else if IsGrouping(c) {
        ConsumeUnmodeledCharacter(c, UnsupportedShellSyntax, true);
      } else if IsOperator(c) {
        ConsumeOperator(c);
      } else if c == '#' && wordStart.None? {
        ConsumeComment();
      } else if IsWhitespace(c) {
        TakeWord();
        index := index + 1;
      } else {
        StartWord();
        word := word + [c];
        index := index + 1;
      }
    }

    method BeginQuoting(q: Quote)
      modifies this
      ensures Now() == BeginQuote(old(Now()), q)
    {
      StartWord();
      quote, quoteStart := q, index;
      index := index + 1;
    }

    method ConsumeEscape()
      modifies this
      ensures Now() == Escape(source, old(Now()))
    {
      var escapedIndex := index + 1;
      if escapedIndex >= |source| {
        unmodeled := unmodeled + [Unmodeled(ScriptSpan(index, |source|), DanglingEscape)];
        index := |source|;
        return;
      }
      word := word + [source[escapedIndex]];
      index := escapedIndex + 1;
    }

    method ConsumeExpansion(marker: char)
      requires index < |source|
      modifies this
      ensures Now() == Expansion(source, old(Now()), marker)
    {
      var end := ShellExpansionEnd(source, index, marker);
      unmodeled := unmodeled + [Unmodeled(ScriptSpan(index, end), ShellExpansion)];
      index := end;
    }

    method ConsumeUnmodeledCharacter(c: char, kind: UnmodeledKind, retain: bool)
      modifies this
      ensures Now() == UnmodeledCharacter(old(Now()), c, kind, retain)
    {
      if retain {
        StartWord();
        word := word + [c];
      }
      unmodeled := unmodeled + [Unmodeled(ScriptSpan(index, index + 1), kind)];
      index := index + 1;
    }

    method ConsumeOperator(c: char)
      modifies this
      ensures Now() == Operator(source, old(Now()), c)
    {
      TakeWord();
      TakeSegment(index);
      index := index + 1;
      if index < |source| && source[index] == c {
        index := index + 1;
      }
      segmentStart := index;
    }

    method ConsumeComment()
      modifies this
      ensures Now() == Comment(source, old(Now()))
    {
      TakeSegment(index);
      var newline := FindFrom(source, '\n', index);
      if newline.Some? {
        index := newline.value + 1;
        segmentStart := index;
      } else {
        index := |source|;
      }
    }

    method Finish() returns (r: TokenizedScript)
      modifies this
      ensures var s := Finished(source, old(Now())); Now() == s && r == TokenizedScript(s.segments, s.unmodeled)
    {
      match quote {
        case Unquoted =>
        case Single => unmodeled := unmodeled + [Unmodeled(ScriptSpan(quoteStart, |source|), UnterminatedSingleQuote)];
        case Double => unmodeled := unmodeled + [Unmodeled(ScriptSpan(quoteStart, |source|), UnterminatedDoubleQuote)];
      }
      index := |source|;
      TakeWord();
      TakeSegment(|source|);
      unmodeled := SortedUnmodeled(unmodeled);
      r := TokenizedScript(segments, unmodeled);
    }

    /** Reads the whole script; each step consumes at least one character. */
    method Tokenize() returns (r: TokenizedScript)
      requires Now() == START
      modifies this
      ensures r == Tokenized(source)
    {
      while index < |source|
        invariant index <= |source| && Run(source, Now()) == Run(source, START)
        decreases |source| - index
      {
        var c := source[index];
        match quote {
          case Single => ConsumeSingleQuoted(c);
          case Double => ConsumeDoubleQuoted(c);
          case Unquoted => ConsumeUnquoted(c);
        }
      }
      r := Finish();
    }
  }

  method TokenizeScript(source: string) returns (r: TokenizedScript)
    ensures r == Tokenized(source)
  {
    var tokenizer := new ScriptTokenizer(source);
    r := tokenizer.Tokenize();
  }
}
