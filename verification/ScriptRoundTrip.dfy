/**
 Writing scripts and reading them back with the tokenizer of discovery/scripts.rs.  The
 writer knows every way of writing a word, a gap between words and an end of a segment,
 and says for each what it stands for.
 */
module ScriptRoundTrip {
  import opened Common
  import opened ScriptTokens

  // ----- written text -----

  /** A text, one character behind the other. */
  datatype Text = Nothing | Char(c: char, rest: Text)

  function Length(text: Text): nat {
    if text.Nothing? then 0 else 1 + Length(text.rest)
  }

  function One(c: char): (r: Text)
    ensures Length(r) == 1
  {
    Char(c, Nothing)
  }

  function Cat(a: Text, b: Text): (r: Text)
    ensures Length(r) == Length(a) + Length(b)
  {
    if a.Nothing? then b else Char(a.c, Cat(a.rest, b))
  }

  lemma {:induction false} CatAssociates(a: Text, b: Text, c: Text)
    ensures Cat(Cat(a, b), c) == Cat(a, Cat(b, c))
    decreases a
  {
    if a.Char? {
      CatAssociates(a.rest, b, c);
    }
  }

  predicate Avoids(text: Text, c: char) {
    text.Char? ==> text.c != c && Avoids(text.rest, c)
  }

  /** The string of a text, in front of the rest. */
  function Spell(text: Text, rest: string): string {
    if text.Nothing? then rest else [text.c] + Spell(text.rest, rest)
  }

  // ----- what can be written -----

  /** `$c`, `$(text)` and `` `text` ``, none of which the tokenizer looks into. */
  datatype Expansion = Variable(c: char) | Substitution(text: Text) | Backtick(text: Text)

  /** Inside double quotes: a character for itself, a backslash before any character, or an expansion. */
  datatype Part = Plain(c: char) | Backslashed(c: char) | Shown(expansion: Expansion)

  /** Inside a word; `Live` is a character that a shell would expand or group by. */
  datatype Piece =
    | Bare(c: char) | Escaped(c: char) | InSingle(text: Text) | InDouble(parts: seq<Part>)
    | Live(c: char) | Opened(expansion: Expansion)

  datatype Gap = Blank(c: char) | Redirect(c: char)

  type Word = word: seq<Piece> | word != [] witness [Bare('a')]

  datatype Words = Last(word: Word) | More(word: Word, gap: Gap, rest: Words)

  /** A `tight` operator stands right between two words; other separators are set apart by spaces. */
  datatype Separator = Operator(c: char, doubled: bool, tight: bool) | Comment(text: Text)

  datatype Script = End(words: Words) | Then(words: Words, separator: Separator, rest: Script)

  /** Stands for itself outside quotes. */
  predicate IsOrdinary(c: char) {
    && c != '\'' && c != '"' && c != '\\' && c != '$' && c != '`'
    && c != '*' && c != '?' && c != '[' && c != '>' && c != '<' && c != '(' && c != ')' && c != '{' && c != '}'
    && c != ';' && c != '|' && c != '&' && c != '\n' && !IsWhitespace(c)
  }

  /** Stands for itself inside double quotes. */
  predicate IsPlain(c: char) {
    c != '"' && c != '\\' && c != '$' && c != '`'
  }

  function LiveKind(c: char): Option<UnmodeledKind> {
    if c == '*' || c == '?' || c == '[' then Some(GlobExpansion)
    else if c == '(' || c == ')' || c == '{' || c == '}' then Some(UnsupportedShellSyntax)
    else None
  }

  predicate IsClosed(e: Expansion) {
    match e
    case Variable(c) => true
    case Substitution(text) => Avoids(text, ')')
    case Backtick(text) => Avoids(text, '`')
  }

  predicate CanBePart(part: Part) {
    match part
    case Plain(c) => IsPlain(c)
    case Backslashed(c) => true
    case Shown(e) => IsClosed(e) && (e.Variable? ==> IsPlain(e.c) && e.c != '(')
  }

  predicate CanBeParts(parts: seq<Part>) {
    forall i :: 0 <= i < |parts| ==> CanBePart(parts[i])
  }

  predicate CanBePiece(piece: Piece) {
    match piece
    case Bare(c) => IsOrdinary(c)
    case Escaped(c) => true
    case InSingle(text) => Avoids(text, '\'')
    case InDouble(parts) => CanBeParts(parts)
    case Live(c) => LiveKind(c).Some?
    case Opened(e) => IsClosed(e) && (e.Variable? ==> IsOrdinary(e.c))
  }

  predicate CanBePieces(word: seq<Piece>) {
    forall i :: 0 <= i < |word| ==> CanBePiece(word[i])
  }

  /** A word begins with anything but a bare `#`, which would begin a comment. */
  predicate CanBeWord(word: Word) {
    word[0] != Bare('#') && CanBePieces(word)
  }

  predicate CanBeGap(gap: Gap) {
    match gap
    case Blank(c) => IsWhitespace(c) && c != '\n'
    case Redirect(c) => c == '>' || c == '<'
  }

  predicate CanBeWords(words: Words) {
    match words
    case Last(word) => CanBeWord(word)
    case More(word, gap, rest) => CanBeWord(word) && CanBeGap(gap) && CanBeWords(rest)
  }

  predicate CanSeparate(separator: Separator) {
    match separator
    case Operator(c, doubled, tight) => c == ';' || c == '|' || c == '&' || c == '\n'
    case Comment(text) => Avoids(text, '\n')
  }

  predicate CanBeWritten(script: Script) {
    match script
    case End(words) => CanBeWords(words)
    case Then(words, separator, rest) => CanBeWords(words) && CanSeparate(separator) && CanBeWritten(rest)
  }

  // ----- how it is written -----

  function WriteExpansion(e: Expansion): Text {
    match e
    case Variable(c) => Char('$', One(c))
    case Substitution(text) => Char('$', Char('(', Cat(text, One(')'))))
    case Backtick(text) => Char('`', Cat(text, One('`')))
  }

  function WritePart(part: Part): Text {
    match part
    case Plain(c) => One(c)
    case Backslashed(c) => Char('\\', One(c))
    case Shown(e) => WriteExpansion(e)
  }

  function WriteParts(parts: seq<Part>): Text {
    if parts == [] then Nothing else Cat(WritePart(parts[0]), WriteParts(parts[1..]))
  }

  function WritePiece(piece: Piece): (r: Text)
    ensures r.Char?
  {
    match piece
    case Bare(c) => One(c)
    case Escaped(c) => Char('\\', One(c))
    case InSingle(text) => Char('\'', Cat(text, One('\'')))
    case InDouble(parts) => Char('"', Cat(WriteParts(parts), One('"')))
    case Live(c) => One(c)
    case Opened(e) => WriteExpansion(e)
  }

  function WriteWord(word: seq<Piece>): (r: Text)
    ensures word != [] ==> r.Char?
  {
    if word == [] then Nothing else Cat(WritePiece(word[0]), WriteWord(word[1..]))
  }

  function WriteWords(words: Words): Text {
    match words
    case Last(word) => WriteWord(word)
    case More(word, gap, rest) => Cat(WriteWord(word), Char(gap.c, WriteWords(rest)))
  }

  function WriteSeparator(separator: Separator): Text {
    match separator
    case Operator(c, doubled, tight) => if doubled then Char(c, One(c)) else One(c)
    case Comment(text) => Char('#', Cat(text, One('\n')))
  }

  /** The spaces on either side of a separator. */
  function Space(separator: Separator): Text {
    if separator.Operator? && separator.tight then Nothing else One(' ')
  }

  function Write(script: Script): Text {
    match script
    case End(words) => WriteWords(words)
    case Then(words, separator, rest) =>
      Cat(WriteWords(words),
          Cat(Space(separator), Cat(WriteSeparator(separator), Cat(Space(separator), Write(rest)))))
  }

  // ----- what it stands for -----

  /** Of an expansion only the character behind a bare marker stands in the text. */
  function ExpansionText(e: Expansion, rest: string): string {
    if e.Variable? then [e.c] + rest else rest
  }

  /** The text of a part, in front of the text of the rest. */
  function PartText(part: Part, rest: string): string {
    match part
    case Plain(c) => [c] + rest
    case Backslashed(c) => [c] + rest
    case Shown(e) => ExpansionText(e, rest)
  }

  function PartsText(parts: seq<Part>, rest: string): string {
    if parts == [] then rest else PartText(parts[0], PartsText(parts[1..], rest))
  }

  /** Quotation marks and backslashes leave no trace in the text. */
  function PieceText(piece: Piece, rest: string): string {
    match piece
    case Bare(c) => [c] + rest
    case Escaped(c) => [c] + rest
    case InSingle(text) => Spell(text, rest)
    case InDouble(parts) => PartsText(parts, rest)
    case Live(c) => [c] + rest
    case Opened(e) => ExpansionText(e, rest)
  }

  function WordText(word: seq<Piece>): string {
    if word == [] then "" else PieceText(word[0], WordText(word[1..]))
  }

  function Report(reports: seq<Unmodeled>, start: nat, length: nat, kind: UnmodeledKind): seq<Unmodeled> {
    reports + [Unmodeled(ScriptSpan(start, start + length), kind)]
  }

  /** The marker of a variable is reported, any other expansion as a whole. */
  function ReportExpansion(reports: seq<Unmodeled>, e: Expansion, at: nat): seq<Unmodeled> {
    Report(reports, at, if e.Variable? then 1 else Length(WriteExpansion(e)), ShellExpansion)
  }

  function ReportPart(reports: seq<Unmodeled>, part: Part, at: nat): seq<Unmodeled> {
    if part.Shown? then ReportExpansion(reports, part.expansion, at) else reports
  }

  function ReportParts(reports: seq<Unmodeled>, parts: seq<Part>, at: nat): seq<Unmodeled>
    decreases |parts|
  {
    if parts == [] then reports
    else ReportParts(ReportPart(reports, parts[0], at), parts[1..], at + Length(WritePart(parts[0])))
  }

  function ReportPiece(reports: seq<Unmodeled>, piece: Piece, at: nat): seq<Unmodeled> {
    match piece
    case Bare(c) => reports
    case Escaped(c) => reports
    case InSingle(text) => reports
    case InDouble(parts) => ReportParts(reports, parts, at + 1)
    case Live(c) => if LiveKind(c).Some? then Report(reports, at, 1, LiveKind(c).value) else reports
    case Opened(e) => ReportExpansion(reports, e, at)
  }

  function ReportPieces(reports: seq<Unmodeled>, word: seq<Piece>, at: nat): seq<Unmodeled>
    decreases |word|
  {
    if word == [] then reports
    else ReportPieces(ReportPiece(reports, word[0], at), word[1..], at + Length(WritePiece(word[0])))
  }

  function ReportGap(reports: seq<Unmodeled>, gap: Gap, at: nat): seq<Unmodeled> {
    if gap.Redirect? then Report(reports, at, 1, Redirection) else reports
  }

  function ReportWords(reports: seq<Unmodeled>, words: Words, at: nat): seq<Unmodeled>
    decreases words
  {
    match words
    case Last(word) => ReportPieces(reports, word, at)
    case More(word, gap, rest) =>
      var end := at + Length(WriteWord(word));
      ReportWords(ReportGap(ReportPieces(reports, word, at), gap, end), rest, end + 1)
  }

  /** Behind the reports so far, those of a script written from position `at` on. */
  function ReportScript(reports: seq<Unmodeled>, script: Script, at: nat): seq<Unmodeled>
    decreases script
  {
    match script
    case End(words) => ReportWords(reports, words, at)
    case Then(words, separator, rest) =>
      var end := at + Length(WriteWords(words)) + Length(Space(separator));
      var next := end + Length(WriteSeparator(separator));
      ReportScript(ReportWords(reports, words, at), rest, next + Length(Space(separator)))
  }

  function WordToken(word: seq<Piece>, at: nat): ScriptToken {
    ScriptToken(WordText(word), ScriptSpan(at, at + Length(WriteWord(word))))
  }

  /** The tokens of words written from position `at` on. */
  function TokensAt(words: Words, at: nat): (r: seq<ScriptToken>)
    ensures r != []
  {
    match words
    case Last(word) => [WordToken(word, at)]
    case More(word, gap, rest) => [WordToken(word, at)] + TokensAt(rest, at + Length(WriteWord(word)) + 1)
  }

  /** A segment reaches from behind the separator before it to the separator that ends it. */
  function SegmentsAt(script: Script, start: nat, at: nat): (r: seq<ScriptSegment>)
    ensures r != []
  {
    match script
    case End(words) => [ScriptSegment(TokensAt(words, at), ScriptSpan(start, at + Length(WriteWords(words))))]
    case Then(words, separator, rest) =>
      var end := at + Length(WriteWords(words)) + Length(Space(separator));
      var next := end + Length(WriteSeparator(separator));
      [ScriptSegment(TokensAt(words, at), ScriptSpan(start, end))]
      + SegmentsAt(rest, next, next + Length(Space(separator)))
  }

  // ----- where text stands -----

  predicate CharAt(source: string, at: nat, c: char) {
    at < |source| && source[at] == c
  }

  /** `text` stands in the source at `at`. */
  predicate StandsAt(source: string, at: nat, text: Text)
    decreases text
  {
    text.Char? ==> CharAt(source, at, text.c) && StandsAt(source, at + 1, text.rest)
  }

  lemma {:induction false} StandsSplit(source: string, at: nat, a: Text, b: Text)
    requires StandsAt(source, at, Cat(a, b))
    ensures StandsAt(source, at, a) && StandsAt(source, at + Length(a), b)
    decreases a
  {
    if a.Char? {
      StandsSplit(source, at + 1, a.rest, b);
    }
  }

  lemma {:induction false} StandsTwo(source: string, at: nat, c: char, d: char)
    requires StandsAt(source, at, Char(c, One(d)))
    ensures CharAt(source, at, c) && CharAt(source, at + 1, d)
  {
  }

  lemma {:induction false} SliceUnfolds(source: string, at: nat, end: nat)
    requires at < end <= |source|
    ensures source[at..end] == [source[at]] + source[at + 1..end]
    ensures forall c, rest :: source[at..end] == [c] + rest ==> c == source[at] && rest == source[at + 1..end]
  {
    forall c, rest | source[at..end] == [c] + rest
      ensures c == source[at] && rest == source[at + 1..end]
    {
      assert ([c] + rest)[0] == c && ([c] + rest)[1..] == rest;
      assert source[at..end][1..] == source[at + 1..end];
    }
  }

  /** Exactly the string that lies there. */
  lemma {:induction false} StandsMeans(source: string, at: nat, text: Text)
    requires at <= |source|
    ensures StandsAt(source, at, text) <==>
              at + Length(text) <= |source| && source[at..at + Length(text)] == Spell(text, "")
    decreases text
  {
    if text.Char? && at < |source| {
      StandsMeans(source, at + 1, text.rest);
      if at + Length(text) <= |source| {
        SliceUnfolds(source, at, at + Length(text));
      }
    }
  }

  lemma {:induction false} SpelledLength(text: Text)
    ensures |Spell(text, "")| == Length(text)
    decreases text
  {
    if text.Char? {
      SpelledLength(text.rest);
    }
  }

  lemma {:induction false} SpelledStands(text: Text)
    ensures StandsAt(Spell(text, ""), 0, text) && |Spell(text, "")| == Length(text)
  {
    var source := Spell(text, "");
    SpelledLength(text);
    assert source[0..0 + |source|] == source;
    StandsMeans(source, 0, text);
  }

  /** Words one behind the other, from position `at` on. */
  predicate WordsAt(source: string, at: nat, words: Words)
    decreases words
  {
    && StandsAt(source, at, WriteWord(words.word))
    && (words.More? ==>
          var end := at + Length(WriteWord(words.word));
          CharAt(source, end, words.gap.c) && WordsAt(source, end + 1, words.rest))
  }

  lemma {:induction false} WordsStand(source: string, at: nat, words: Words)
    requires StandsAt(source, at, WriteWords(words))
    ensures WordsAt(source, at, words)
    decreases words
  {
    if words.More? {
      var end := at + Length(WriteWord(words.word));
      StandsSplit(source, at, WriteWord(words.word), Char(words.gap.c, WriteWords(words.rest)));
      WordsStand(source, end + 1, words.rest);
    }
  }

  /** A separator between its spaces; `next` is the position behind it all. */
  predicate SeparatorAt(source: string, at: nat, separator: Separator, next: nat) {
    var start := at + Length(Space(separator));
    var end := start + Length(WriteSeparator(separator));
    && StandsAt(source, at, Space(separator)) && StandsAt(source, start, WriteSeparator(separator))
    && StandsAt(source, end, Space(separator)) && next == end + Length(Space(separator))
  }

  /** Segments one behind the other, from position `at` on. */
  predicate ScriptAt(source: string, at: nat, script: Script)
    decreases script
  {
    && WordsAt(source, at, script.words)
    && (script.Then? ==>
          var end := at + Length(WriteWords(script.words));
          var next := end + Length(WriteSeparator(script.separator)) + 2 * Length(Space(script.separator));
          SeparatorAt(source, end, script.separator, next) && ScriptAt(source, next, script.rest))
  }

  lemma {:induction false} StandsBetween(source: string, at: nat, words: Text, separator: Separator, rest: Text,
                                         end: nat, next: nat)
    requires var space := Space(separator);
             StandsAt(source, at, Cat(words, Cat(space, Cat(WriteSeparator(separator), Cat(space, rest)))))
    requires end == at + Length(words)
    requires next == end + Length(WriteSeparator(separator)) + 2 * Length(Space(separator))
    ensures StandsAt(source, at, words) && SeparatorAt(source, end, separator, next) && StandsAt(source, next, rest)
  {
    var space, written := Space(separator), WriteSeparator(separator);
    StandsSplit(source, at, words, Cat(space, Cat(written, Cat(space, rest))));
    StandsApart(source, end, space, written, rest);
  }

  lemma {:induction false} StandsApart(source: string, at: nat, space: Text, written: Text, rest: Text)
    requires StandsAt(source, at, Cat(space, Cat(written, Cat(space, rest))))
    ensures StandsAt(source, at, space) && StandsAt(source, at + Length(space), written)
    ensures var end := at + Length(space) + Length(written);
            StandsAt(source, end, space) && StandsAt(source, end + Length(space), rest)
  {
    StandsSplit(source, at, space, Cat(written, Cat(space, rest)));
    StandsSplit(source, at + Length(space), written, Cat(space, rest));
    StandsSplit(source, at + Length(space) + Length(written), space, rest);
  }

  lemma {:induction false} ThenStands(source: string, at: nat, script: Script, end: nat, next: nat)
    requires script.Then? && StandsAt(source, at, Write(script)) && end == at + Length(WriteWords(script.words))
    requires next == end + Length(WriteSeparator(script.separator)) + 2 * Length(Space(script.separator))
    ensures WordsAt(source, at, script.words) && SeparatorAt(source, end, script.separator, next)
    ensures StandsAt(source, next, Write(script.rest))
  {
    StandsBetween(source, at, WriteWords(script.words), script.separator, Write(script.rest), end, next);
    WordsStand(source, at, script.words);
  }

  lemma {:induction false} ScriptStands(source: string, at: nat, script: Script)
    requires StandsAt(source, at, Write(script))
    ensures ScriptAt(source, at, script)
    decreases script
  {
    if script.End? {
      WordsStand(source, at, script.words);
    } else {
      var end := at + Length(WriteWords(script.words));
      var next := end + Length(WriteSeparator(script.separator)) + 2 * Length(Space(script.separator));
      ThenStands(source, at, script, end, next);
      ScriptStands(source, next, script.rest);
    }
  }

  lemma {:induction false} NotBefore(source: string, c: char, from: nat, end: nat)
    requires from <= end <= |source| && c !in source[from..end]
    ensures forall k :: from <= k < end ==> source[k] != c
  {
    forall k | from <= k < end
      ensures source[k] != c
    {
      assert source[from..end][k - from] == source[k];
    }
  }

  /** A text without `c`, and the `c` behind it. */
  lemma {:induction false} TextStands(source: string, c: char, from: nat, text: Text)
    requires StandsAt(source, from, Cat(text, One(c))) && Avoids(text, c)
    ensures CharAt(source, from + Length(text), c)
    ensures forall k :: from <= k < from + Length(text) ==> k < |source| && source[k] != c
    decreases text
  {
    if text.Char? {
      TextStands(source, c, from + 1, text.rest);
    }
  }

  /** What lies behind the first `c` lies behind the text in front of it. */
  lemma {:induction false} BehindText(source: string, c: char, from: nat, text: Text, end: nat)
    requires StandsAt(source, from, Cat(text, One(c))) && Avoids(text, c) && IsBehindFirst(source, c, from, end)
    ensures end == from + Length(text) + 1
  {
    TextStands(source, c, from, text);
    assert source[from..][Length(text)] == c;
    NotBefore(source, c, from, end - 1);
  }

  // ----- what reading adds -----

  function AddText(text: string, added: Text): string
    decreases added
  {
    if added.Nothing? then text else AddText(text + [added.c], added.rest)
  }

  function AddExpansion(text: string, e: Expansion): string {
    if e.Variable? then text + [e.c] else text
  }

  function AddPart(text: string, part: Part): string {
    match part
    case Plain(c) => text + [c]
    case Backslashed(c) => text + [c]
    case Shown(e) => AddExpansion(text, e)
  }

  function AddParts(text: string, parts: seq<Part>): string
    decreases |parts|
  {
    if parts == [] then text else AddParts(AddPart(text, parts[0]), parts[1..])
  }

  function AddPiece(text: string, piece: Piece): string {
    match piece
    case Bare(c) => text + [c]
    case Escaped(c) => text + [c]
    case InSingle(inner) => AddText(text, inner)
    case InDouble(parts) => AddParts(text, parts)
    case Live(c) => text + [c]
    case Opened(e) => AddExpansion(text, e)
  }

  function AddPieces(text: string, word: seq<Piece>): string
    decreases |word|
  {
    if word == [] then text else AddPieces(AddPiece(text, word[0]), word[1..])
  }

  function AddTokens(tokens: seq<ScriptToken>, words: Words, at: nat): seq<ScriptToken>
    decreases words
  {
    match words
    case Last(word) => tokens + [WordToken(word, at)]
    case More(word, gap, rest) => AddTokens(tokens + [WordToken(word, at)], rest, at + Length(WriteWord(word)) + 1)
  }

  function AddSegments(segments: seq<ScriptSegment>, script: Script, start: nat, at: nat): seq<ScriptSegment>
    decreases script
  {
    match script
    case End(words) => segments + [ScriptSegment(TokensAt(words, at),
                                                 ScriptSpan(start, at + Length(WriteWords(words))))]
    case Then(words, separator, rest) =>
      var end := at + Length(WriteWords(words)) + Length(Space(separator));
      var next := end + Length(WriteSeparator(separator));
      AddSegments(segments + [ScriptSegment(TokensAt(words, at), ScriptSpan(start, end))], rest, next,
                  next + Length(Space(separator)))
  }

  /** Appending a whole is appending its two halves. */
  lemma {:induction false} Joins<T>(before: seq<T>, first: seq<T>, rest: seq<T>, whole: seq<T>)
    requires whole == first + rest
    ensures (before + first) + rest == before + whole
  {
  }

  lemma {:induction false} TextAdds(text: string, added: Text, rest: string)
    ensures AddText(text, added) + rest == text + Spell(added, rest)
    decreases added
  {
    if added.Char? {
      TextAdds(text + [added.c], added.rest, rest);
      Reassociate(text, [added.c], Spell(added.rest, rest));
    }
  }

  lemma {:induction false} ExpansionAdds(text: string, e: Expansion, rest: string)
    ensures AddExpansion(text, e) + rest == text + ExpansionText(e, rest)
  {
    if e.Variable? {
      Reassociate(text, [e.c], rest);
    }
  }

  lemma {:induction false} PartAdds(text: string, part: Part, rest: string)
    ensures AddPart(text, part) + rest == text + PartText(part, rest)
  {
    match part {
      case Plain(c) => Reassociate(text, [c], rest);
      case Backslashed(c) => Reassociate(text, [c], rest);
      case Shown(e) => ExpansionAdds(text, e, rest);
    }
  }

  lemma {:induction false} PartsAdd(text: string, parts: seq<Part>, rest: string)
    ensures AddParts(text, parts) + rest == text + PartsText(parts, rest)
    decreases |parts|
  {
    if parts != [] {
      PartsAdd(AddPart(text, parts[0]), parts[1..], rest);
      PartAdds(text, parts[0], PartsText(parts[1..], rest));
    }
  }

  lemma {:induction false} PieceAdds(text: string, piece: Piece, rest: string)
    ensures AddPiece(text, piece) + rest == text + PieceText(piece, rest)
  {
    match piece {
      case Bare(c) => Reassociate(text, [c], rest);
      case Escaped(c) => Reassociate(text, [c], rest);
      case InSingle(inner) => TextAdds(text, inner, rest);
      case InDouble(parts) => PartsAdd(text, parts, rest);
      case Live(c) => Reassociate(text, [c], rest);
      case Opened(e) => ExpansionAdds(text, e, rest);
    }
  }

  lemma {:induction false} PiecesAdd(text: string, word: seq<Piece>)
    ensures AddPieces(text, word) == text + WordText(word)
    decreases |word|
  {
    if word == [] {
      assert text + "" == text;
    } else {
      PiecesAdd(AddPiece(text, word[0]), word[1..]);
      PieceAdds(text, word[0], WordText(word[1..]));
    }
  }

  /** Read from the beginning, a word is its text. */
  lemma {:induction false} WordAdds(word: seq<Piece>)
    ensures AddPieces("", word) == WordText(word)
  {
    PiecesAdd("", word);
  }

  lemma {:induction false} TokensAdd(tokens: seq<ScriptToken>, words: Words, at: nat)
    ensures AddTokens(tokens, words, at) == tokens + TokensAt(words, at)
    decreases words
  {
    if words.More? {
      var next := at + Length(WriteWord(words.word)) + 1;
      TokensAdd(tokens + [WordToken(words.word, at)], words.rest, next);
      Joins(tokens, [WordToken(words.word, at)], TokensAt(words.rest, next), TokensAt(words, at));
    }
  }

  lemma {:induction false} LineAdds(words: Words, at: nat)
    ensures AddTokens([], words, at) == TokensAt(words, at)
  {
    TokensAdd([], words, at);
  }

  lemma {:induction false} FirstSegment(script: Script, start: nat, at: nat)
    requires script.Then?
    ensures var end := at + Length(WriteWords(script.words)) + Length(Space(script.separator));
            var next := end + Length(WriteSeparator(script.separator));
            SegmentsAt(script, start, at) ==
              [ScriptSegment(TokensAt(script.words, at), ScriptSpan(start, end))]
              + SegmentsAt(script.rest, next, next + Length(Space(script.separator)))
  {
  }

  lemma {:induction false} SegmentsJoin(segments: seq<ScriptSegment>, script: Script, start: nat, at: nat, end: nat,
                                        next: nat, from: nat)
    requires script.Then? && end == at + Length(WriteWords(script.words)) + Length(Space(script.separator))
    requires next == end + Length(WriteSeparator(script.separator)) && from == next + Length(Space(script.separator))
    ensures (segments + [ScriptSegment(TokensAt(script.words, at), ScriptSpan(start, end))])
              + SegmentsAt(script.rest, next, from)
         == segments + SegmentsAt(script, start, at)
  {
    FirstSegment(script, start, at);
    Joins(segments, [ScriptSegment(TokensAt(script.words, at), ScriptSpan(start, end))],
          SegmentsAt(script.rest, next, from), SegmentsAt(script, start, at));
  }

  lemma {:induction false} SegmentsAdd(segments: seq<ScriptSegment>, script: Script, start: nat, at: nat)
    ensures AddSegments(segments, script, start, at) == segments + SegmentsAt(script, start, at)
    decreases script
  {
    if script.Then? {
      var end := at + Length(WriteWords(script.words)) + Length(Space(script.separator));
      var next := end + Length(WriteSeparator(script.separator));
      var from := next + Length(Space(script.separator));
      SegmentsAdd(segments + [ScriptSegment(TokensAt(script.words, at), ScriptSpan(start, end))], script.rest, next,
                  from);
      SegmentsJoin(segments, script, start, at, end, next, from);
    }
  }

  lemma {:induction false} ScriptAdds(script: Script)
    ensures AddSegments([], script, 0, 0) == SegmentsAt(script, 0, 0)
  {
    SegmentsAdd([], script, 0, 0);
  }

  // ----- the states of reading -----

  /** `length` characters on, with this word and these reports. */
  function Passed(t: State, length: nat, word: string, reports: seq<Unmodeled>): State {
    t.(index := t.index + length, word := word, unmodeled := reports)
  }

  function AfterPart(part: Part, t: State): State {
    Passed(t, Length(WritePart(part)), AddPart(t.word, part), ReportPart(t.unmodeled, part, t.index))
  }

  function AfterParts(parts: seq<Part>, t: State): State
    decreases |parts|
  {
    if parts == [] then t else AfterParts(parts[1..], AfterPart(parts[0], t))
  }

  /** The word is open, and the tokenizer remembers where a quotation began. */
  function Beginning(piece: Piece, t: State): State {
    WithWord(t).(quoteStart := if piece.InSingle? || piece.InDouble? then t.index else t.quoteStart)
  }

  function AfterPiece(piece: Piece, t: State): State {
    Passed(Beginning(piece, t), Length(WritePiece(piece)), AddPiece(t.word, piece),
           ReportPiece(t.unmodeled, piece, t.index))
  }

  function AfterPieces(word: seq<Piece>, t: State): State
    decreases |word|
  {
    if word == [] then t else AfterPieces(word[1..], AfterPiece(word[0], t))
  }

  /** A gap ends the open word. */
  function AfterGap(gap: Gap, t: State): State {
    FinishWord(t).(index := t.index + 1, unmodeled := ReportGap(t.unmodeled, gap, t.index))
  }

  /** The last word is still open. */
  function AfterWords(words: Words, t: State): State {
    match words
    case Last(word) => AfterPieces(word, t)
    case More(word, gap, rest) => AfterWords(rest, AfterGap(gap, AfterPieces(word, t)))
  }

  /** A space ends the open word. */
  function AfterSpace(t: State): State {
    FinishWord(t).(index := t.index + 1)
  }

  /** A separator of `length` characters closes the segment. */
  function Separated(t: State, length: nat): State {
    FinishSegment(t, t.index).(index := t.index + length, segmentStart := t.index + length)
  }

  /** A tight operator ends the open word itself. */
  function AfterSeparator(t: State, separator: Separator): State {
    var length := Length(WriteSeparator(separator));
    if separator.Operator? && separator.tight then Separated(FinishWord(t), length)
    else AfterSpace(Separated(AfterSpace(t), length))
  }

  function AfterScript(script: Script, t: State): State {
    match script
    case End(words) => AfterWords(words, t)
    case Then(words, separator, rest) =>
      AfterScript(rest, AfterSeparator(AfterWords(words, t), separator))
  }

  // ----- reading inside quotations -----

  lemma {:induction false} SingleStep(source: string, t: State, c: char)
    requires t.quote == Single && CharAt(source, t.index, c) && c != '\''
    ensures Step(source, t) == Passed(t, 1, t.word + [c], t.unmodeled)
  {
  }

  lemma {:induction false} ReadsSingle(source: string, t: State, text: Text)
    requires t.quote == Single && StandsAt(source, t.index, Cat(text, One('\''))) && Avoids(text, '\'')
    ensures Leads(source, t, Passed(t, Length(text), AddText(t.word, text), t.unmodeled))
    ensures CharAt(source, t.index + Length(text), '\'')
    decreases text
  {
    if text.Nothing? {
      LeadsNowhere(source, t);
    } else {
      SingleStep(source, t, text.c);
      LeadsByStep(source, t);
      var u := Step(source, t);
      ReadsSingle(source, u, text.rest);
      LeadsTrans(source, t, u, Passed(t, Length(text), AddText(t.word, text), t.unmodeled));
    }
  }

  lemma {:induction false} PlainStep(source: string, t: State, c: char)
    requires t.quote == Double && CharAt(source, t.index, c) && IsPlain(c)
    ensures Step(source, t) == Passed(t, 1, t.word + [c], t.unmodeled)
  {
  }

  lemma {:induction false} BackslashStep(source: string, t: State, c: char)
    requires t.quote == Double && CharAt(source, t.index, '\\') && CharAt(source, t.index + 1, c)
    ensures Step(source, t) == Passed(t, 2, t.word + [c], t.unmodeled)
  {
  }

  /** An expansion is skipped and reported, and nothing joins the word. */
  lemma {:induction false} ExpansionStep(source: string, t: State, marker: char, length: nat)
    requires t.quote != Single && CharAt(source, t.index, marker) && (marker == '$' || marker == '`')
    requires ShellExpansionEnd(source, t.index, marker) == t.index + length
    ensures var o := if t.quote == Double then t else WithWord(t);
            Step(source, t) == Passed(o, length, t.word, Report(t.unmodeled, t.index, length, ShellExpansion))
  {
  }

  lemma {:induction false} ExpansionLength(source: string, at: nat, e: Expansion)
    requires StandsAt(source, at, WriteExpansion(e)) && IsClosed(e) && (e.Variable? ==> e.c != '(')
    ensures CharAt(source, at, if e.Backtick? then '`' else '$')
    ensures ShellExpansionEnd(source, at, source[at]) == at + if e.Variable? then 1 else Length(WriteExpansion(e))
    ensures e.Variable? ==> CharAt(source, at + 1, e.c)
  {
    match e {
      case Variable(c) => StandsTwo(source, at, '$', c);
      case Substitution(text) => SubstitutionLength(source, at, text);
      case Backtick(text) =>
        BehindText(source, '`', at + 1, text, ShellExpansionEnd(source, at, '`'));
    }
  }

  lemma {:induction false} SubstitutionLength(source: string, at: nat, text: Text)
    requires StandsAt(source, at, Char('$', Char('(', Cat(text, One(')'))))) && Avoids(text, ')')
    ensures CharAt(source, at, '$') && ShellExpansionEnd(source, at, '$') == at + Length(text) + 3
  {
    BehindText(source, ')', at + 2, text, ShellExpansionEnd(source, at, '$'));
  }

  lemma {:induction false} ReadsExpansion(source: string, t: State, e: Expansion)
    requires t.quote == Double || (t.quote == Unquoted && t.wordStart.Some?)
    requires IsClosed(e) && StandsAt(source, t.index, WriteExpansion(e))
    requires e.Variable? ==> e.c != '(' && if t.quote == Double then IsPlain(e.c) else IsOrdinary(e.c)
    ensures Leads(source, t, Passed(t, Length(WriteExpansion(e)), AddExpansion(t.word, e),
                                    ReportExpansion(t.unmodeled, e, t.index)))
  {
    var length := if e.Variable? then 1 else Length(WriteExpansion(e));
    ExpansionLength(source, t.index, e);
    ExpansionStep(source, t, source[t.index], length);
    LeadsByStep(source, t);
    if e.Variable? {
      var u := Step(source, t);
      VariableStep(source, u, e.c);
      LeadsByStep(source, u);
      LeadsTrans(source, t, u, Step(source, u));
    }
  }

  lemma {:induction false} VariableStep(source: string, t: State, c: char)
    requires t.quote == Double || (t.quote == Unquoted && t.wordStart.Some?)
    requires CharAt(source, t.index, c) && if t.quote == Double then IsPlain(c) else IsOrdinary(c)
    ensures Step(source, t) == Passed(t, 1, t.word + [c], t.unmodeled)
  {
    if t.quote == Double {
      PlainStep(source, t, c);
    } else {
      BareStep(source, t, c);
    }
  }

  lemma {:induction false} ReadsPart(source: string, t: State, part: Part)
    requires t.quote == Double && CanBePart(part) && StandsAt(source, t.index, WritePart(part))
    ensures Leads(source, t, AfterPart(part, t))
  {
    match part {
      case Plain(c) =>
        PlainStep(source, t, c);
        LeadsByStep(source, t);
      case Backslashed(c) =>
        StandsTwo(source, t.index, '\\', c);
        BackslashStep(source, t, c);
        LeadsByStep(source, t);
      case Shown(e) => ReadsExpansion(source, t, e);
    }
  }

  lemma {:induction false} PartsRest(parts: seq<Part>)
    requires parts != [] && CanBeParts(parts)
    ensures CanBePart(parts[0]) && CanBeParts(parts[1..])
  {
  }

  lemma {:induction false} PartsStand(source: string, at: nat, parts: seq<Part>)
    requires parts != [] && StandsAt(source, at, Cat(WriteParts(parts), One('"')))
    ensures StandsAt(source, at, WritePart(parts[0]))
    ensures StandsAt(source, at + Length(WritePart(parts[0])), Cat(WriteParts(parts[1..]), One('"')))
  {
    CatAssociates(WritePart(parts[0]), WriteParts(parts[1..]), One('"'));
    StandsSplit(source, at, WritePart(parts[0]), Cat(WriteParts(parts[1..]), One('"')));
  }

  lemma {:induction false} ReadsParts(source: string, t: State, parts: seq<Part>)
    requires t.quote == Double && CanBeParts(parts) && StandsAt(source, t.index, Cat(WriteParts(parts), One('"')))
    ensures var u := AfterParts(parts, t); Leads(source, t, u) && u.quote == Double && CharAt(source, u.index, '"')
    decreases |parts|
  {
    if parts == [] {
      LeadsNowhere(source, t);
    } else {
      PartsRest(parts);
      PartsStand(source, t.index, parts);
      ReadsPart(source, t, parts[0]);
      var u := AfterPart(parts[0], t);
      ReadsParts(source, u, parts[1..]);
      LeadsTrans(source, t, u, AfterParts(parts[1..], u));
    }
  }

  lemma {:induction false} PartsMean(parts: seq<Part>, t: State)
    ensures AfterParts(parts, t) ==
      Passed(t, Length(WriteParts(parts)), AddParts(t.word, parts), ReportParts(t.unmodeled, parts, t.index))
    decreases |parts|
  {
    if parts != [] {
      PartsMean(parts[1..], AfterPart(parts[0], t));
    }
  }

  // ----- reading words -----

  lemma {:induction false} BareStep(source: string, t: State, c: char)
    requires t.quote == Unquoted && CharAt(source, t.index, c) && IsOrdinary(c) && (c == '#' ==> t.wordStart.Some?)
    ensures Step(source, t) == AfterPiece(Bare(c), t)
  {
  }

  lemma {:induction false} EscapeStep(source: string, t: State, c: char)
    requires t.quote == Unquoted && CharAt(source, t.index, '\\') && CharAt(source, t.index + 1, c)
    ensures Step(source, t) == AfterPiece(Escaped(c), t)
  {
  }

  lemma {:induction false} LiveStep(source: string, t: State, c: char)
    requires t.quote == Unquoted && CharAt(source, t.index, c) && LiveKind(c).Some?
    ensures Step(source, t) == AfterPiece(Live(c), t)
  {
  }

  lemma {:induction false} QuoteOpens(source: string, t: State, c: char, u: State)
    requires t.quote == Unquoted && CharAt(source, t.index, c) && (c == '\'' || c == '"')
    requires u ==
      WithWord(t).(quote := if c == '"' then Double else Single, quoteStart := t.index, index := t.index + 1)
    ensures Leads(source, t, u)
  {
    LeadsByStep(source, t);
  }

  lemma {:induction false} QuoteCloses(source: string, t: State, u: State)
    requires t.quote != Unquoted && CharAt(source, t.index, if t.quote == Double then '"' else '\'')
    requires u == t.(quote := Unquoted, index := t.index + 1)
    ensures Leads(source, t, u)
  {
    LeadsByStep(source, t);
  }

  lemma {:induction false} LeadsTwice(source: string, t: State, u: State, v: State, w: State)
    requires Leads(source, t, u) && Leads(source, u, v) && Leads(source, v, w)
    ensures Leads(source, t, w)
  {
    LeadsTrans(source, t, u, v);
    LeadsTrans(source, t, v, w);
  }

  /** Inside the quotation that a piece begins. */
  function Inside(piece: Piece, q: Quote, t: State): State {
    Beginning(piece, t).(quote := q, index := t.index + 1)
  }

  lemma {:induction false} ClosesSingle(source: string, text: Text, t: State, v: State)
    requires t.quote == Unquoted && CharAt(source, v.index, '\'')
    requires var u := Inside(InSingle(text), Single, t); v == Passed(u, Length(text), AddText(u.word, text),
                                                                     u.unmodeled)
    ensures Leads(source, v, AfterPiece(InSingle(text), t))
  {
    QuoteCloses(source, v, v.(quote := Unquoted, index := v.index + 1));
  }

  lemma {:induction false} ReadsInSingle(source: string, t: State, text: Text)
    requires t.quote == Unquoted && Avoids(text, '\'')
    requires CharAt(source, t.index, '\'') && StandsAt(source, t.index + 1, Cat(text, One('\'')))
    ensures Leads(source, t, AfterPiece(InSingle(text), t))
  {
    var u := Inside(InSingle(text), Single, t);
    QuoteOpens(source, t, '\'', u);
    ReadsSingle(source, u, text);
    var v := Passed(u, Length(text), AddText(u.word, text), u.unmodeled);
    ClosesSingle(source, text, t, v);
    LeadsTwice(source, t, u, v, AfterPiece(InSingle(text), t));
  }

  lemma {:induction false} DoubleMeans(parts: seq<Part>, t: State)
    requires t.quote == Unquoted
    ensures var v := AfterParts(parts, Inside(InDouble(parts), Double, t));
            v.(quote := Unquoted, index := v.index + 1) == AfterPiece(InDouble(parts), t)
  {
    PartsMean(parts, Inside(InDouble(parts), Double, t));
  }

  lemma {:induction false} ReadsInDouble(source: string, t: State, parts: seq<Part>)
    requires t.quote == Unquoted && CanBeParts(parts)
    requires CharAt(source, t.index, '"') && StandsAt(source, t.index + 1, Cat(WriteParts(parts), One('"')))
    ensures Leads(source, t, AfterPiece(InDouble(parts), t))
  {
    var u := Inside(InDouble(parts), Double, t);
    QuoteOpens(source, t, '"', u);
    ReadsParts(source, u, parts);
    var v := AfterParts(parts, u);
    QuoteCloses(source, v, v.(quote := Unquoted, index := v.index + 1));
    DoubleMeans(parts, t);
    LeadsTwice(source, t, u, v, AfterPiece(InDouble(parts), t));
  }

  /** An expansion opens the word before it is skipped. */
  lemma {:induction false} ReadsOpened(source: string, t: State, e: Expansion)
    requires t.quote == Unquoted && CanBePiece(Opened(e)) && StandsAt(source, t.index, WriteExpansion(e))
    ensures Leads(source, t, AfterPiece(Opened(e), t))
  {
    var o := WithWord(t);
    ReadsExpansion(source, o, e);
    ExpansionLength(source, t.index, e);
    assert Step(source, t) == Step(source, o);
    LeadsAlike(source, t, o, AfterPiece(Opened(e), t));
  }

  /** States with the same next step lead to the same states behind it. */
  lemma {:induction false} LeadsAlike(source: string, t: State, o: State, u: State)
    requires Leads(source, o, u) && o != u && o.index < |source| && t.index < |source|
    requires Step(source, t) == Step(source, o)
    ensures Leads(source, t, u)
  {
    var trace :| IsTrace(source, trace, o, u);
    assert IsStep(source, trace[0], trace[1]);
    var other := [t] + trace[1..];
    forall i | 0 <= i < |other| - 1
      ensures IsStep(source, other[i], other[i + 1])
    {
      assert IsStep(source, trace[i], trace[i + 1]);
    }
    assert IsTrace(source, other, t, u);
  }

  lemma {:induction false} ReadsPiece(source: string, t: State, piece: Piece)
    requires t.quote == Unquoted && CanBePiece(piece) && (piece == Bare('#') ==> t.wordStart.Some?)
    requires StandsAt(source, t.index, WritePiece(piece))
    ensures Leads(source, t, AfterPiece(piece, t))
  {
    match piece {
      case Bare(c) =>
        BareStep(source, t, c);
        LeadsByStep(source, t);
      case Escaped(c) =>
        StandsTwo(source, t.index, '\\', c);
        EscapeStep(source, t, c);
        LeadsByStep(source, t);
      case Live(c) =>
        LiveStep(source, t, c);
        LeadsByStep(source, t);
      case InSingle(text) => ReadsInSingle(source, t, text);
      case InDouble(parts) => ReadsInDouble(source, t, parts);
      case Opened(e) => ReadsOpened(source, t, e);
    }
  }

  lemma {:induction false} PiecesRest(word: seq<Piece>)
    requires word != [] && CanBePieces(word)
    ensures CanBePiece(word[0]) && CanBePieces(word[1..])
  {
  }

  lemma {:induction false} PiecesStand(source: string, at: nat, word: seq<Piece>, next: nat)
    requires word != [] && StandsAt(source, at, WriteWord(word)) && next == at + Length(WritePiece(word[0]))
    ensures StandsAt(source, at, WritePiece(word[0])) && StandsAt(source, next, WriteWord(word[1..]))
  {
    StandsSplit(source, at, WritePiece(word[0]), WriteWord(word[1..]));
  }

  lemma {:induction false} ReadsPieces(source: string, t: State, word: seq<Piece>)
    requires t.quote == Unquoted && CanBePieces(word) && StandsAt(source, t.index, WriteWord(word))
    requires t.wordStart.Some? || (word != [] && word[0] != Bare('#'))
    ensures Leads(source, t, AfterPieces(word, t))
    decreases |word|
  {
    if word == [] {
      LeadsNowhere(source, t);
    } else {
      var u := AfterPiece(word[0], t);
      PiecesRest(word);
      PiecesStand(source, t.index, word, u.index);
      ReadsPiece(source, t, word[0]);
      ReadsPieces(source, u, word[1..]);
      LeadsTrans(source, t, u, AfterPieces(word[1..], u));
    }
  }

  /** Where the last quotation began no longer matters behind it. */
  function Forgetful(t: State): State {
    t.(quoteStart := 0)
  }

  lemma {:induction false} PieceMeans(piece: Piece, t: State)
    requires t.wordStart.Some?
    ensures Forgetful(AfterPiece(piece, t)) ==
      Passed(Forgetful(t), Length(WritePiece(piece)), AddPiece(t.word, piece), ReportPiece(t.unmodeled, piece, t.index))
  {
  }

  lemma {:induction false} PassedTwice(t: State, u: State, v: State, n: nat, m: nat, text: string,
                                       reports: seq<Unmodeled>)
    requires Forgetful(u) == Passed(Forgetful(t), n, u.word, u.unmodeled)
    requires Forgetful(v) == Passed(Forgetful(u), m, text, reports)
    ensures Forgetful(v) == Passed(Forgetful(t), n + m, text, reports)
  {
  }

  lemma {:induction false} PiecesMean(word: seq<Piece>, t: State)
    requires t.wordStart.Some?
    ensures Forgetful(AfterPieces(word, t)) ==
      Passed(Forgetful(t), Length(WriteWord(word)), AddPieces(t.word, word), ReportPieces(t.unmodeled, word, t.index))
    decreases |word|
  {
    if word != [] {
      var u, rest := AfterPiece(word[0], t), word[1..];
      PieceMeans(word[0], t);
      PiecesMean(rest, u);
      PassedTwice(t, u, AfterPieces(rest, u), Length(WritePiece(word[0])), Length(WriteWord(rest)),
                  AddPieces(u.word, rest), ReportPieces(u.unmodeled, rest, u.index));
    }
  }

  /** Between words, outside quotes. */
  predicate Clean(s: State) {
    s.quote == Unquoted && s.wordStart == None && s.word == ""
  }

  lemma {:induction false} WordMeans(word: seq<Piece>, s: State)
    requires Clean(s) && word != []
    ensures Forgetful(AfterPieces(word, s)) == Forgetful(s).(wordStart := Some(s.index), word := WordText(word),
              index := s.index + Length(WriteWord(word)), unmodeled := ReportPieces(s.unmodeled, word, s.index))
  {
    PiecesMean(word, WithWord(s));
    assert AfterPiece(word[0], s) == AfterPiece(word[0], WithWord(s));
    WordAdds(word);
  }

  // ----- reading segments -----

  lemma {:induction false} BlankStep(source: string, t: State, c: char)
    requires t.quote == Unquoted && IsWhitespace(c) && c != '\n' && CharAt(source, t.index, c)
    ensures Step(source, t) == AfterSpace(t)
  {
  }

  lemma {:induction false} RedirectStep(source: string, t: State, c: char)
    requires t.quote == Unquoted && (c == '>' || c == '<') && CharAt(source, t.index, c)
    ensures Step(source, t) == AfterGap(Redirect(c), t)
  {
  }

  lemma {:induction false} GapStep(source: string, t: State, gap: Gap)
    requires t.quote == Unquoted && CanBeGap(gap) && CharAt(source, t.index, gap.c)
    ensures Step(source, t) == AfterGap(gap, t)
  {
    match gap {
      case Blank(c) => BlankStep(source, t, c);
      case Redirect(c) => RedirectStep(source, t, c);
    }
  }

  /** Where a word leaves the tokenizer, and where the gap behind it does. */
  lemma {:induction false} WordEnds(word: seq<Piece>, gap: Gap, s: State, t: State, u: State)
    requires Clean(s) && word != [] && t == AfterPieces(word, s) && u == AfterGap(gap, t)
    ensures t.quote == Unquoted && t.index == s.index + Length(WriteWord(word)) && Clean(u) && u.index == t.index + 1
  {
    WordMeans(word, s);
  }

  lemma {:induction false} ReadsGap(source: string, t: State, gap: Gap, u: State)
    requires t.quote == Unquoted && CanBeGap(gap) && CharAt(source, t.index, gap.c) && u == AfterGap(gap, t)
    ensures Leads(source, t, u)
  {
    GapStep(source, t, gap);
    LeadsByStep(source, t);
  }

  /** A word and the gap behind it. */
  lemma {:induction false} ReadsFirstWord(source: string, s: State, words: Words, t: State, u: State)
    requires Clean(s) && CanBeWords(words) && words.More? && WordsAt(source, s.index, words)
    requires t == AfterPieces(words.word, s) && u == AfterGap(words.gap, t)
    ensures Leads(source, s, u) && Clean(u) && WordsAt(source, u.index, words.rest)
  {
    WordEnds(words.word, words.gap, s, t, u);
    ReadsPieces(source, s, words.word);
    ReadsGap(source, t, words.gap, u);
    LeadsTrans(source, s, t, u);
  }

  lemma {:induction false} ReadsWords(source: string, s: State, words: Words)
    requires Clean(s) && CanBeWords(words) && WordsAt(source, s.index, words)
    ensures Leads(source, s, AfterWords(words, s))
    decreases words
  {
    match words {
      case Last(word) => ReadsPieces(source, s, word);
      case More(word, gap, rest) =>
        var t := AfterPieces(word, s);
        var u := AfterGap(gap, t);
        ReadsFirstWord(source, s, words, t, u);
        ReadsWords(source, u, rest);
        LeadsTrans(source, s, u, AfterWords(rest, u));
    }
  }

  /** Behind words, of which the last is still open. */
  ghost predicate IsBehind(words: Words, s: State, t: State) {
    && t.index == s.index + Length(WriteWords(words)) && t.quote == Unquoted && t.wordStart.Some?
    && t.segments == s.segments && t.segmentStart == s.segmentStart
    && t.unmodeled == ReportWords(s.unmodeled, words, s.index)
    && FinishWord(t).segmentTokens == AddTokens(s.segmentTokens, words, s.index)
  }

  lemma {:induction false} LastMeans(word: seq<Piece>, s: State)
    requires Clean(s) && word != []
    ensures IsBehind(Last(word), s, AfterPieces(word, s))
  {
    WordMeans(word, s);
  }

  /** What a word and the gap behind it make of a state. */
  lemma {:induction false} GapMeans(word: seq<Piece>, gap: Gap, s: State, u: State, end: nat)
    requires Clean(s) && word != [] && u == AfterGap(gap, AfterPieces(word, s)) &&
      end == s.index + Length(WriteWord(word))
    ensures Clean(u) && u.index == end + 1 && u.segments == s.segments && u.segmentStart == s.segmentStart
    ensures u.segmentTokens == s.segmentTokens + [WordToken(word, s.index)]
    ensures u.unmodeled == ReportGap(ReportPieces(s.unmodeled, word, s.index), gap, end)
  {
    WordMeans(word, s);
  }

  lemma {:induction false} TokensUnfold(words: Words, tokens: seq<ScriptToken>, at: nat, end: nat)
    requires words.More? && end == at + Length(WriteWord(words.word))
    ensures AddTokens(tokens + [WordToken(words.word, at)], words.rest, end + 1) == AddTokens(tokens, words, at)
  {
  }

  lemma {:induction false} WordsReportUnfolds(words: Words, reports: seq<Unmodeled>, at: nat, end: nat)
    requires words.More? && end == at + Length(WriteWord(words.word))
    ensures ReportWords(ReportGap(ReportPieces(reports, words.word, at), words.gap, end), words.rest, end + 1)
         == ReportWords(reports, words, at)
  {
  }

  lemma {:induction false} BehindMore(words: Words, s: State, u: State, t: State, end: nat)
    requires words.More? && IsBehind(words.rest, u, t) && end == s.index + Length(WriteWord(words.word))
    requires u.index == end + 1 && u.segments == s.segments && u.segmentStart == s.segmentStart
    requires u.segmentTokens == s.segmentTokens + [WordToken(words.word, s.index)]
    requires u.unmodeled == ReportGap(ReportPieces(s.unmodeled, words.word, s.index), words.gap, end)
    ensures IsBehind(words, s, t)
  {
    TokensUnfold(words, s.segmentTokens, s.index, end);
    WordsReportUnfolds(words, s.unmodeled, s.index, end);
  }

  lemma {:induction false} WordsMean(words: Words, s: State)
    requires Clean(s) && CanBeWords(words)
    ensures IsBehind(words, s, AfterWords(words, s))
    decreases words
  {
    match words {
      case Last(word) => LastMeans(word, s);
      case More(word, gap, rest) =>
        var end := s.index + Length(WriteWord(word));
        var u := AfterGap(gap, AfterPieces(word, s));
        GapMeans(word, gap, s, u, end);
        WordsMean(rest, u);
        BehindMore(words, s, u, AfterWords(rest, u), end);
    }
  }

  lemma {:induction false} OperatorStep(source: string, b: State, c: char, doubled: bool)
    requires b.quote == Unquoted && (c == ';' || c == '|' || c == '&' || c == '\n')
    requires StandsAt(source, b.index, if doubled then Char(c, One(c)) else One(c))
    requires var next := b.index + if doubled then 2 else 1; next < |source| && source[next] != c
    ensures Step(source, b) == Separated(FinishWord(b), if doubled then 2 else 1)
  {
    if doubled {
      StandsTwo(source, b.index, c, c);
    }
  }

  lemma {:induction false} FindBehind(source: string, from: nat, text: Text)
    requires StandsAt(source, from, Cat(text, One('\n'))) && Avoids(text, '\n')
    ensures FindFrom(source, '\n', from) == Some(from + Length(text))
  {
    TextStands(source, '\n', from, text);
    assert source[from..][Length(text)] == '\n';
    NotBefore(source, '\n', from, FindFrom(source, '\n', from).value);
  }

  lemma {:induction false} CommentStep(source: string, b: State, text: Text)
    requires Clean(b) && Avoids(text, '\n') && StandsAt(source, b.index, Char('#', Cat(text, One('\n'))))
    ensures Step(source, b) == Separated(b, Length(text) + 2)
  {
    FindBehind(source, b.index, Char('#', text));
  }

  /** In front of a separator that is set apart. */
  lemma {:induction false} SeparatorStep(source: string, b: State, separator: Separator)
    requires Clean(b) && CanSeparate(separator) && StandsAt(source, b.index, WriteSeparator(separator))
    requires CharAt(source, b.index + Length(WriteSeparator(separator)), ' ')
    ensures Step(source, b) == Separated(b, Length(WriteSeparator(separator)))
  {
    match separator {
      case Operator(c, doubled, tight) => OperatorStep(source, b, c, doubled);
      case Comment(text) => CommentStep(source, b, text);
    }
  }

  lemma {:induction false} ReadsApart(source: string, a: State, separator: Separator)
    requires a.quote == Unquoted && a.wordStart.Some? && CanSeparate(separator) && CharAt(source, a.index, ' ')
    requires StandsAt(source, a.index + 1, WriteSeparator(separator))
    requires CharAt(source, a.index + 1 + Length(WriteSeparator(separator)), ' ')
    ensures Leads(source, a, AfterSpace(Separated(AfterSpace(a), Length(WriteSeparator(separator)))))
  {
    var b := AfterSpace(a);
    var c := Separated(b, Length(WriteSeparator(separator)));
    BlankStep(source, a, ' ');
    LeadsByStep(source, a);
    SeparatorStep(source, b, separator);
    LeadsByStep(source, b);
    BlankStep(source, c, ' ');
    LeadsByStep(source, c);
    LeadsTwice(source, a, b, c, AfterSpace(c));
  }

  /** No word begins with an operator. */
  lemma {:induction false} WordBegins(source: string, at: nat, word: Word)
    requires CanBeWord(word) && StandsAt(source, at, WriteWord(word))
    ensures at < |source|
    ensures source[at] != ';' && source[at] != '|' && source[at] != '&' && source[at] != '\n'
  {
    assert CanBePiece(word[0]);
    PieceBegins(word[0]);
    assert WriteWord(word).c == WritePiece(word[0]).c;
  }

  lemma {:induction false} PieceBegins(piece: Piece)
    requires CanBePiece(piece)
    ensures var c := WritePiece(piece).c; c != ';' && c != '|' && c != '&' && c != '\n'
  {
  }

  lemma {:induction false} ReadsSeparator(source: string, a: State, separator: Separator, next: nat, words: Words)
    requires a.quote == Unquoted && a.wordStart.Some? && CanSeparate(separator)
    requires SeparatorAt(source, a.index, separator, next) && WordsAt(source, next, words) && CanBeWords(words)
    ensures Leads(source, a, AfterSeparator(a, separator))
  {
    if separator.Operator? && separator.tight {
      WordBegins(source, next, words.word);
      OperatorStep(source, a, separator.c, separator.doubled);
      LeadsByStep(source, a);
    } else {
      ReadsApart(source, a, separator);
    }
  }

  /** Behind the words of a segment, of which the last is still open. */
  ghost predicate IsLine(words: Words, s: State, t: State) {
    && t.index == s.index + Length(WriteWords(words)) && t.quote == Unquoted && t.wordStart.Some?
    && t.segments == s.segments && t.segmentStart == s.segmentStart
    && t.unmodeled == ReportWords(s.unmodeled, words, s.index)
    && FinishWord(t).segmentTokens == TokensAt(words, s.index)
  }

  lemma {:induction false} LineEnds(words: Words, s: State)
    requires Clean(s) && s.segmentTokens == [] && CanBeWords(words)
    ensures IsLine(words, s, AfterWords(words, s))
  {
    WordsMean(words, s);
    LineAdds(words, s.index);
  }

  /** A closed segment of these tokens that ends at `end`, and the place behind its separator. */
  function Closed(s: State, tokens: seq<ScriptToken>, reports: seq<Unmodeled>, end: nat, separator: Separator,
                  quoteStart: nat): State {
    var next := end + Length(WriteSeparator(separator));
    s.(segments := s.segments + [ScriptSegment(tokens, ScriptSpan(s.segmentStart, end))], unmodeled := reports,
       index := next + Length(Space(separator)), segmentStart := next, quoteStart := quoteStart)
  }

  /** What a segment and its separator make of a state. */
  function NextSegment(words: Words, separator: Separator, s: State, quoteStart: nat): State {
    Closed(s, TokensAt(words, s.index), ReportWords(s.unmodeled, words, s.index),
           s.index + Length(WriteWords(words)) + Length(Space(separator)), separator, quoteStart)
  }

  lemma {:induction false} LineCloses(s: State, a: State, tokens: seq<ScriptToken>, reports: seq<Unmodeled>, end: nat,
                                      separator: Separator)
    requires Clean(s) && s.segmentTokens == [] && a.quote == Unquoted && a.wordStart.Some?
    requires a.segments == s.segments && a.segmentStart == s.segmentStart && a.unmodeled == reports
    requires FinishWord(a).segmentTokens == tokens && tokens != [] && end == a.index + Length(Space(separator))
    ensures AfterSeparator(a, separator) == Closed(s, tokens, reports, end, separator, a.quoteStart)
  {
  }

  lemma {:induction false} SegmentMeans(words: Words, separator: Separator, s: State, a: State)
    requires Clean(s) && s.segmentTokens == [] && IsLine(words, s, a)
    ensures AfterSeparator(a, separator) == NextSegment(words, separator, s, a.quoteStart)
  {
    LineCloses(s, a, TokensAt(words, s.index), ReportWords(s.unmodeled, words, s.index),
               s.index + Length(WriteWords(words)) + Length(Space(separator)), separator);
  }

  /** Where words leave the tokenizer, and where the separator behind them does. */
  lemma {:induction false} WordsEnd(words: Words, separator: Separator, s: State, a: State, u: State)
    requires Clean(s) && CanBeWords(words) && a == AfterWords(words, s) && u == AfterSeparator(a, separator)
    ensures a.quote == Unquoted && a.wordStart.Some? && a.index == s.index + Length(WriteWords(words))
    ensures u.index == a.index + Length(WriteSeparator(separator)) + 2 * Length(Space(separator))
  {
    WordsMean(words, s);
  }

  lemma {:induction false} ScriptSplits(source: string, at: nat, script: Script, end: nat, next: nat)
    requires script.Then? && ScriptAt(source, at, script) && end == at + Length(WriteWords(script.words))
    requires next == end + Length(WriteSeparator(script.separator)) + 2 * Length(Space(script.separator))
    ensures WordsAt(source, at, script.words) && SeparatorAt(source, end, script.separator, next)
    ensures ScriptAt(source, next, script.rest) && WordsAt(source, next, script.rest.words)
  {
  }

  lemma {:induction false} ReadsSegment(source: string, s: State, script: Script, a: State, u: State)
    requires Clean(s) && CanBeWritten(script) && script.Then? && ScriptAt(source, s.index, script)
    requires a == AfterWords(script.words, s) && u == AfterSeparator(a, script.separator)
    ensures Leads(source, s, u) && ScriptAt(source, u.index, script.rest)
  {
    WordsEnd(script.words, script.separator, s, a, u);
    ScriptSplits(source, s.index, script, a.index, u.index);
    ReadsWords(source, s, script.words);
    RestBegins(script);
    ReadsSeparator(source, a, script.separator, u.index, script.rest.words);
    LeadsTrans(source, s, a, u);
  }

  lemma {:induction false} RestBegins(script: Script)
    requires script.Then? && CanBeWritten(script)
    ensures CanSeparate(script.separator) && CanBeWords(script.rest.words)
  {
  }

  lemma {:induction false} ReadsScript(source: string, s: State, script: Script)
    requires Clean(s) && s.segmentTokens == [] && CanBeWritten(script) && ScriptAt(source, s.index, script)
    ensures Leads(source, s, AfterScript(script, s))
    decreases script
  {
    match script {
      case End(words) => ReadsWords(source, s, words);
      case Then(words, separator, rest) =>
        var a := AfterWords(words, s);
        var u := AfterSeparator(a, separator);
        ReadsSegment(source, s, script, a, u);
        LineEnds(words, s);
        SegmentMeans(words, separator, s, a);
        ReadsScript(source, u, rest);
        LeadsTrans(source, s, u, AfterScript(rest, u));
    }
  }

  /** Behind a whole script, with its last word and segment still open. */
  ghost predicate IsThrough(script: Script, s: State, t: State) {
    && t.index == s.index + Length(Write(script)) && t.quote == Unquoted
    && t.unmodeled == ReportScript(s.unmodeled, script, s.index)
    && FinishSegment(FinishWord(t), t.index).segments == AddSegments(s.segments, script, s.segmentStart, s.index)
  }

  lemma {:induction false} EndMeans(words: Words, s: State)
    requires Clean(s) && s.segmentTokens == [] && CanBeWords(words)
    ensures IsThrough(End(words), s, AfterWords(words, s))
  {
    LineEnds(words, s);
  }

  lemma {:induction false} ScriptLength(script: Script)
    requires script.Then?
    ensures var separator := script.separator;
            Length(Write(script)) == Length(WriteWords(script.words)) + Length(WriteSeparator(separator))
                                     + 2 * Length(Space(separator)) + Length(Write(script.rest))
  {
  }

  lemma {:induction false} SegmentsUnfold(script: Script, s: State, quoteStart: nat)
    requires script.Then?
    ensures var u := NextSegment(script.words, script.separator, s, quoteStart);
            AddSegments(u.segments, script.rest, u.segmentStart, u.index)
            == AddSegments(s.segments, script, s.segmentStart, s.index)
  {
  }

  lemma {:induction false} ReportsUnfold(script: Script, s: State, quoteStart: nat)
    requires script.Then?
    ensures var u := NextSegment(script.words, script.separator, s, quoteStart);
            ReportScript(u.unmodeled, script.rest, u.index) == ReportScript(s.unmodeled, script, s.index)
  {
  }

  lemma {:induction false} ThroughFirst(script: Script, s: State, quoteStart: nat, t: State, u: State)
    requires script.Then? && u == NextSegment(script.words, script.separator, s, quoteStart)
    requires IsThrough(script.rest, u, t)
    ensures IsThrough(script, s, t)
  {
    ScriptLength(script);
    SegmentsUnfold(script, s, quoteStart);
    ReportsUnfold(script, s, quoteStart);
  }

  lemma {:induction false} ScriptMeans(script: Script, s: State)
    requires Clean(s) && s.segmentTokens == [] && CanBeWritten(script)
    ensures IsThrough(script, s, AfterScript(script, s))
    decreases script
  {
    match script {
      case End(words) => EndMeans(words, s);
      case Then(words, separator, rest) =>
        var a := AfterWords(words, s);
        LineEnds(words, s);
        SegmentMeans(words, separator, s, a);
        var u := NextSegment(words, separator, s, a.quoteStart);
        ScriptMeans(rest, u);
        ThroughFirst(script, s, a.quoteStart, AfterScript(rest, u), u);
    }
  }

  /**
   Round trip: whatever is written comes back as the same segments of the same words, each
   word as the text it stands for and with the span in which it is written, and exactly
   the dynamic text in it is reported.
   */
  lemma {:induction false} RoundTrip(script: Script)
    requires CanBeWritten(script)
    ensures Tokenized(Spell(Write(script), "")).segments == SegmentsAt(script, 0, 0)
    ensures forall u :: u in Tokenized(Spell(Write(script), "")).unmodeled <==> u in ReportScript([], script, 0)
  {
    var source, t := Spell(Write(script), ""), AfterScript(script, START);
    SpelledStands(Write(script));
    ScriptStands(source, 0, script);
    ReadsScript(source, START, script);
    ScriptMeans(script, START);
    ScriptAdds(script);
    LeadsRuns(source, START, t);
    RunEnds(source, t);
    FinishedParts(source, t);
    forall u
      ensures u in Finished(source, t).unmodeled <==> u in ReportScript([], script, 0)
    {
      FinishedReports(source, t, u);
    }
  }

  // ----- what the spans show -----

  function WordsOf(words: Words): (r: seq<Word>)
    ensures r != []
  {
    match words
    case Last(word) => [word]
    case More(word, gap, rest) => [word] + WordsOf(rest)
  }

  function LinesOf(script: Script): (r: seq<Words>)
    ensures r != []
  {
    match script
    case End(words) => [words]
    case Then(words, separator, rest) => [words] + LinesOf(rest)
  }

  /** A token that shows a word: its text, and the piece of the source in which it is written. */
  ghost predicate ShowsWord(source: string, token: ScriptToken, word: Word) {
    && token.value == WordText(word) && token.span.start < token.span.end <= |source|
    && source[token.span.start..token.span.end] == Spell(WriteWord(word), "")
  }

  ghost predicate ShowsWords(source: string, tokens: seq<ScriptToken>, words: seq<Word>) {
    |tokens| == |words| && forall k :: 0 <= k < |tokens| ==> ShowsWord(source, tokens[k], words[k])
  }

  ghost predicate ShowsSegments(source: string, segments: seq<ScriptSegment>, lines: seq<Words>) {
    && |segments| == |lines|
    && forall i :: 0 <= i < |segments| ==> ShowsWords(source, segments[i].tokens, WordsOf(lines[i]))
  }

  lemma {:induction false} TokenShows(source: string, word: Word, at: nat)
    requires CanBeWord(word) && StandsAt(source, at, WriteWord(word))
    ensures ShowsWord(source, WordToken(word, at), word)
  {
    StandsMeans(source, at, WriteWord(word));
  }

  lemma {:induction false} WordsJoin(source: string, token: ScriptToken, word: Word, tokens: seq<ScriptToken>,
                                     words: seq<Word>)
    requires ShowsWord(source, token, word) && ShowsWords(source, tokens, words)
    ensures ShowsWords(source, [token] + tokens, [word] + words)
  {
  }

  lemma {:induction false} TokensShow(source: string, words: Words, at: nat)
    requires CanBeWords(words) && WordsAt(source, at, words)
    ensures ShowsWords(source, TokensAt(words, at), WordsOf(words))
    decreases words
  {
    match words {
      case Last(word) => TokenShows(source, word, at);
      case More(word, gap, rest) =>
        var end := at + Length(WriteWord(word));
        TokenShows(source, word, at);
        TokensShow(source, rest, end + 1);
        WordsJoin(source, WordToken(word, at), word, TokensAt(rest, end + 1), WordsOf(rest));
    }
  }

  lemma {:induction false} SegmentsShowJoin(source: string, segment: ScriptSegment, words: Words,
                                            segments: seq<ScriptSegment>, lines: seq<Words>)
    requires ShowsWords(source, segment.tokens, WordsOf(words)) && ShowsSegments(source, segments, lines)
    ensures ShowsSegments(source, [segment] + segments, [words] + lines)
  {
    var all, whole := [segment] + segments, [words] + lines;
    forall i | 0 <= i < |all|
      ensures ShowsWords(source, all[i].tokens, WordsOf(whole[i]))
    {
      if i > 0 {
        assert all[i] == segments[i - 1] && whole[i] == lines[i - 1];
      }
    }
  }

  lemma {:induction false} LastShows(source: string, words: Words, start: nat, at: nat)
    requires ShowsWords(source, TokensAt(words, at), WordsOf(words))
    ensures ShowsSegments(source, SegmentsAt(End(words), start, at), LinesOf(End(words)))
  {
  }

  lemma {:induction false} ThenShows(source: string, script: Script, start: nat, at: nat, end: nat, next: nat,
                                     from: nat)
    requires script.Then? && end == at + Length(WriteWords(script.words)) + Length(Space(script.separator))
    requires next == end + Length(WriteSeparator(script.separator)) && from == next + Length(Space(script.separator))
    requires ShowsWords(source, TokensAt(script.words, at), WordsOf(script.words))
    requires ShowsSegments(source, SegmentsAt(script.rest, next, from), LinesOf(script.rest))
    ensures ShowsSegments(source, SegmentsAt(script, start, at), LinesOf(script))
  {
    FirstSegment(script, start, at);
    SegmentsShowJoin(source, ScriptSegment(TokensAt(script.words, at), ScriptSpan(start, end)), script.words,
                     SegmentsAt(script.rest, next, from), LinesOf(script.rest));
  }

  lemma {:induction false} SegmentsShow(source: string, script: Script, start: nat, at: nat)
    requires CanBeWritten(script) && ScriptAt(source, at, script)
    ensures ShowsSegments(source, SegmentsAt(script, start, at), LinesOf(script))
    decreases script
  {
    match script {
      case End(words) =>
        TokensShow(source, words, at);
        LastShows(source, words, start, at);
      case Then(words, separator, rest) =>
        var space, end := Length(Space(separator)), at + Length(WriteWords(words));
        var next := end + space + Length(WriteSeparator(separator));
        ScriptSplits(source, at, script, end, next + space);
        TokensShow(source, words, at);
        SegmentsShow(source, rest, next, next + space);
        ThenShows(source, script, start, at, end + space, next, next + space);
    }
  }

  /** Every word comes back as one token: its decoded text, and a span that shows how it was written. */
  lemma {:induction false} WordsComeBack(script: Script)
    requires CanBeWritten(script)
    ensures var source := Spell(Write(script), "");
            ShowsSegments(source, Tokenized(source).segments, LinesOf(script))
  {
    var source := Spell(Write(script), "");
    RoundTrip(script);
    SpelledStands(Write(script));
    ScriptStands(source, 0, script);
    SegmentsShow(source, script, 0, 0);
  }
}
