/** The wildcard patterns of plugins/builtins.rs. */
module Wildcards {

  /** `*` stands for any run of characters, `?` for one, and anything else for itself. */
  predicate TokenFits(token: char, value: string, from: nat, to: nat)
    requires from <= to <= |value|
  {
    if token == '*' then true else to == from + 1 && (token == '?' || token == value[from])
  }

  /** The cuts `i` and `i + 1` enclose a piece that token `i` fits. */
  ghost predicate IsPiece(pattern: string, value: string, cuts: seq<nat>, i: nat)
    requires i < |pattern| && i + 1 < |cuts|
  {
    cuts[i] <= cuts[i + 1] <= |value| && TokenFits(pattern[i], value, cuts[i], cuts[i + 1])
  }

  /** The cuts split the first `j` characters into one piece for each of the first `k` tokens. */
  ghost predicate IsSplit(pattern: string, k: nat, value: string, j: nat, cuts: seq<nat>)
    requires k <= |pattern| && j <= |value|
  {
    && |cuts| == k + 1 && cuts[0] == 0 && cuts[k] == j
    && forall i :: 0 <= i < k ==> IsPiece(pattern, value, cuts, i)
  }

  ghost predicate Matches(pattern: string, value: string) {
    exists cuts :: IsSplit(pattern, |pattern|, value, |value|, cuts)
  }

  /** One entry of the table that the two rows walk through. */
  predicate Entry(pattern: string, k: nat, value: string, j: nat)
    requires k <= |pattern| && j <= |value|
    decreases k, j
  {
    if k == 0 then j == 0
    else if pattern[k - 1] == '*' then Entry(pattern, k - 1, value, j) || (j > 0 && Entry(pattern, k, value, j - 1))
    else j > 0 && (pattern[k - 1] == '?' || pattern[k - 1] == value[j - 1]) && Entry(pattern, k - 1, value, j - 1)
  }

  lemma SplitGrows(pattern: string, k: nat, value: string, j: nat, cuts: seq<nat>, to: nat)
    requires k < |pattern| && j <= to <= |value| && IsSplit(pattern, k, value, j, cuts)
    requires TokenFits(pattern[k], value, j, to)
    ensures IsSplit(pattern, k + 1, value, to, cuts + [to])
  {
    forall i | 0 <= i < k + 1
      ensures IsPiece(pattern, value, cuts + [to], i)
    {
      if i < k {
        assert IsPiece(pattern, value, cuts, i);
      }
    }
  }

  lemma SplitStretches(pattern: string, k: nat, value: string, j: nat, cuts: seq<nat>)
    requires 0 < k <= |pattern| && j < |value| && pattern[k - 1] == '*' && IsSplit(pattern, k, value, j, cuts)
    ensures IsSplit(pattern, k, value, j + 1, cuts[k := j + 1])
  {
    var longer := cuts[k := j + 1];
    forall i | 0 <= i < k
      ensures IsPiece(pattern, value, longer, i)
    {
      assert IsPiece(pattern, value, cuts, i);
    }
  }

  lemma {:induction false} EntrySplits(pattern: string, k: nat, value: string, j: nat) returns (cuts: seq<nat>)
    requires k <= |pattern| && j <= |value| && Entry(pattern, k, value, j)
    ensures IsSplit(pattern, k, value, j, cuts)
    decreases k, j
  {
    if k == 0 {
      cuts := [0];
    } else if pattern[k - 1] == '*' && !Entry(pattern, k - 1, value, j) {
      var shorter := EntrySplits(pattern, k, value, j - 1);
      SplitStretches(pattern, k, value, j - 1, shorter);
      cuts := shorter[k := j];
    } else {
      var from := if pattern[k - 1] == '*' then j else j - 1;
      var shorter := EntrySplits(pattern, k - 1, value, from);
      SplitGrows(pattern, k - 1, value, from, shorter, j);
      cuts := shorter + [j];
    }
  }

  lemma {:induction false} StarRunsOn(pattern: string, k: nat, value: string, from: nat, to: nat)
    requires 0 < k <= |pattern| && from <= to <= |value| && pattern[k - 1] == '*' && Entry(pattern, k, value, from)
    ensures Entry(pattern, k, value, to)
  {
    if from < to {
      StarRunsOn(pattern, k, value, from, to - 1);
    }
  }

  lemma {:induction false} SplitEnters(pattern: string, k: nat, value: string, j: nat, cuts: seq<nat>)
    requires k <= |pattern| && j <= |value| && IsSplit(pattern, k, value, j, cuts)
    ensures Entry(pattern, k, value, j)
    decreases k
  {
    if k > 0 {
      var from := cuts[k - 1];
      assert IsPiece(pattern, value, cuts, k - 1);
      forall i | 0 <= i < k - 1
        ensures IsPiece(pattern, value, cuts[..k], i)
      {
        assert IsPiece(pattern, value, cuts, i);
      }
      SplitEnters(pattern, k - 1, value, from, cuts[..k]);
      if pattern[k - 1] == '*' {
        StarRunsOn(pattern, k, value, from, j);
      }
    }
  }

  lemma TableMeansMatch(pattern: string, value: string)
    ensures Entry(pattern, |pattern|, value, |value|) <==> Matches(pattern, value)
  {
    if Entry(pattern, |pattern|, value, |value|) {
      var cuts := EntrySplits(pattern, |pattern|, value, |value|);
    } else if Matches(pattern, value) {
      var cuts :| IsSplit(pattern, |pattern|, value, |value|, cuts);
      SplitEnters(pattern, |pattern|, value, |value|, cuts);
    }
  }

  /** Two rows of the table are enough to decide the match. */
  method WildcardMatches(pattern: string, value: string) returns (r: bool)
    ensures r <==> Matches(pattern, value)
  {
    var previous := new bool[|value| + 1](_ => false);
    previous[0] := true;
    for k := 0 to |pattern|
      invariant previous.Length == |value| + 1
      invariant forall j :: 0 <= j <= |value| ==> previous[j] == Entry(pattern, k, value, j)
    {
      var token := pattern[k];
      var current := new bool[|value| + 1](_ => false);
      if token == '*' {
        current[0] := previous[0];
      }
      for index := 0 to |value|
        invariant forall j :: 0 <= j <= index ==> current[j] == Entry(pattern, k + 1, value, j)
        invariant forall j :: 0 <= j <= |value| ==> previous[j] == Entry(pattern, k, value, j)
      {
        current[index + 1] :=
          if token == '*' then previous[index + 1] || current[index]
          else if token == '?' then previous[index]
          else token == value[index] && previous[index];
      }
      previous := current;
    }
    r := previous[|value|];
    TableMeansMatch(pattern, value);
  }
}
