/**
 The file names of the generational cache in cache/store.rs.  A name carries a
 token of three zero-padded numbers, so that sorting names sorts tokens.
 */
module CacheNames {
  import opened Strings

  // ----- zero-padded numbers -----

  function Digit(d: nat): (c: char)
    requires d < 10
    ensures '0' <= c <= '9'
  {
    '0' + d as char
  }

  /** The last `width` decimal digits of `n`. */
  function Pad(n: nat, width: nat): (r: string)
    ensures |r| == width
    ensures forall i :: 0 <= i < |r| ==> '0' <= r[i] <= '9'
  {
    if width == 0 then "" else Pad(n / 10, width - 1) + [Digit(n % 10)]
  }

  function Pow10(e: nat): nat {
    if e == 0 then 1 else 10 * Pow10(e - 1)
  }

  /** With enough digits, the order of the padded names is the order of the numbers. */
  lemma {:induction false} PadOrder(a: nat, b: nat, width: nat)
    requires a < b < Pow10(width)
    ensures StrLess(Pad(a, width), Pad(b, width))
  {
    var p, q := Pad(a / 10, width - 1), Pad(b / 10, width - 1);
    if a / 10 < b / 10 {
      PadOrder(a / 10, b / 10, width - 1);
      StrLessSuffix(p, q, [Digit(a % 10)], [Digit(b % 10)]);
    } else {
      assert a / 10 == b / 10 && a % 10 < b % 10;
      StrLessPrefix(p, [Digit(a % 10)], [Digit(b % 10)]);
    }
  }

  // ----- tokens -----

  /** Clock, process and counter; the bounds are those of the machine integers. */
  datatype Token = Token(time: nat, process: nat, counter: nat)

  ghost predicate Fits(t: Token) {
    t.time < 0x1_00000000_00000000_00000000_00000000 && t.process < 0x1_00000000 && t.counter < 0x1_00000000_00000000
  }

  ghost predicate TokenLess(s: Token, t: Token) {
    s.time < t.time ||
    (s.time == t.time && (s.process < t.process || (s.process == t.process && s.counter < t.counter)))
  }

  function Joined(p: string, x: string): string {
    p + "-" + x
  }

  lemma JoinedOrder(p: string, q: string, x: string, y: string)
    requires |p| == |q| && (StrLess(p, q) || (p == q && StrLess(x, y)))
    ensures StrLess(Joined(p, x), Joined(q, y))
  {
    assert Joined(p, x) == p + ("-" + x) && Joined(q, y) == q + ("-" + y);
    if StrLess(p, q) {
      StrLessSuffix(p, q, "-" + x, "-" + y);
    } else {
      StrLessPrefix("-", x, y);
      StrLessPrefix(p, "-" + x, "-" + y);
    }
  }

  function TokenText(t: Token): (r: string)
    ensures |r| == 71
  {
    Joined(Pad(t.time, 39), Joined(Pad(t.process, 10), Pad(t.counter, 20)))
  }

  lemma MachineBounds()
    ensures 0x1_00000000_00000000_00000000_00000000 <= Pow10(39)
    ensures 0x1_00000000 <= Pow10(10) && 0x1_00000000_00000000 <= Pow10(20)
  {
    assert Pow10(5) == 100_000;
    assert Pow10(10) == 10_000_000_000;
    assert Pow10(15) == 1_000_000_000_000_000;
    assert Pow10(20) == 100_000_000_000_000_000_000;
    assert Pow10(25) == 10_000_000_000_000_000_000_000_000;
    assert Pow10(30) == 1_000_000_000_000_000_000_000_000_000_000;
    assert Pow10(35) == 100_000_000_000_000_000_000_000_000_000_000_000;
    assert Pow10(39) == 1_000_000_000_000_000_000_000_000_000_000_000_000_000;
  }

  /** Name order is token order. */
  lemma TokenOrder(s: Token, t: Token)
    requires Fits(s) && Fits(t) && TokenLess(s, t)
    ensures StrLess(TokenText(s), TokenText(t))
  {
    MachineBounds();
    var p, q := Pad(s.process, 10), Pad(t.process, 10);
    var c, d := Pad(s.counter, 20), Pad(t.counter, 20);
    if s.time < t.time {
      PadOrder(s.time, t.time, 39);
    } else if s.process < t.process {
      PadOrder(s.process, t.process, 10);
      JoinedOrder(p, q, c, d);
    } else {
      PadOrder(s.counter, t.counter, 20);
      JoinedOrder(p, q, c, d);
    }
    JoinedOrder(Pad(s.time, 39), Pad(t.time, 39), Joined(p, c), Joined(q, d));
  }

  // ----- valid names -----

  const GENERATION_PREFIX := "generation-"
  const GENERATION_SUFFIX := ".json"
  const ACTIVE_PREFIX := "active-"
  const ACTIVE_SUFFIX := ".txt"
  const TEMPORARY_PREFIX := ".tmp-"

  predicate IsTokenChar(c: char) {
    '0' <= c <= '9' || c == '-'
  }

  /** A nonempty run of digits and dashes between the prefix and the suffix. */
  predicate ValidName(name: string, prefix: string, suffix: string) {
    && |name| > |prefix| + |suffix|
    && name[..|prefix|] == prefix && name[|name| - |suffix|..] == suffix
    && forall i :: |prefix| <= i < |name| - |suffix| ==> IsTokenChar(name[i])
  }

  predicate ValidGenerationName(name: string) {
    ValidName(name, GENERATION_PREFIX, GENERATION_SUFFIX)
  }

  predicate ValidMarkerName(name: string) {
    ValidName(name, ACTIVE_PREFIX, ACTIVE_SUFFIX)
  }

  function GenerationName(t: Token): string {
    GENERATION_PREFIX + TokenText(t) + GENERATION_SUFFIX
  }

  function MarkerName(t: Token): string {
    ACTIVE_PREFIX + TokenText(t) + ACTIVE_SUFFIX
  }

  function TemporaryName(t: Token): string {
    TEMPORARY_PREFIX + TokenText(t)
  }

  lemma TokenTextChars(t: Token)
    ensures forall i :: 0 <= i < |TokenText(t)| ==> IsTokenChar(TokenText(t)[i])
  {
  }

  lemma NamedIsValid(t: Token, prefix: string, suffix: string)
    ensures ValidName(prefix + TokenText(t) + suffix, prefix, suffix)
  {
    TokenTextChars(t);
    var name := prefix + TokenText(t) + suffix;
    assert name[..|prefix|] == prefix;
    assert name[|name| - |suffix|..] == suffix;
    assert forall i :: |prefix| <= i < |name| - |suffix| ==> name[i] == TokenText(t)[i - |prefix|];
  }

  /** The names a commit creates are valid, except the temporary one, which no listing shows. */
  lemma CommitNamesValid(t: Token)
    ensures ValidGenerationName(GenerationName(t)) && ValidMarkerName(MarkerName(t))
    ensures !ValidGenerationName(TemporaryName(t)) && !ValidMarkerName(TemporaryName(t))
    ensures |GenerationName(t)| == 87
  {
    NamedIsValid(t, GENERATION_PREFIX, GENERATION_SUFFIX);
    NamedIsValid(t, ACTIVE_PREFIX, ACTIVE_SUFFIX);
    assert TemporaryName(t)[0] == '.';
    assert TemporaryName(t)[..11][0] == '.' && TemporaryName(t)[..7][0] == '.';
  }

  lemma GenerationOrder(s: Token, t: Token)
    requires Fits(s) && Fits(t) && TokenLess(s, t)
    ensures StrLess(GenerationName(s), GenerationName(t)) && StrLess(MarkerName(s), MarkerName(t))
  {
    TokenOrder(s, t);
    StrLessPrefix(GENERATION_PREFIX, TokenText(s), TokenText(t));
    StrLessSuffix(GENERATION_PREFIX + TokenText(s), GENERATION_PREFIX + TokenText(t), GENERATION_SUFFIX,
                  GENERATION_SUFFIX);
    StrLessPrefix(ACTIVE_PREFIX, TokenText(s), TokenText(t));
    StrLessSuffix(ACTIVE_PREFIX + TokenText(s), ACTIVE_PREFIX + TokenText(t), ACTIVE_SUFFIX, ACTIVE_SUFFIX);
  }
}
