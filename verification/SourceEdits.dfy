/**
 Byte-span edits of one file: the order and overlap checks of fixes/plan.rs and
 the right-to-left splicing of fixes/apply.rs.
 */
module SourceEdits {
  import opened Common
  import opened Sorting

  newtype Byte = x: int | 0 <= x < 256

  type Bytes = seq<Byte>

  /** A half-open span. */
  datatype ByteSpan = ByteSpan(start: nat, end: nat)

  datatype SourceEdit = SourceEdit(span: ByteSpan, replacement: Bytes)

  datatype SpanError = SpanOutOfBounds(start: nat, end: nat, length: nat)

  // ----- which edit lists are accepted -----

  predicate EditLeq(a: SourceEdit, b: SourceEdit) {
    a.span.start < b.span.start || (a.span.start == b.span.start && a.span.end <= b.span.end)
  }

  lemma EditOrder()
    ensures TotalPreorder(EditLeq)
  {
  }

  /** Compares neighbours only, as the source does. */
  predicate NonOverlapping(edits: seq<SourceEdit>) {
    && (forall i :: 0 <= i < |edits| ==> edits[i].span.start <= edits[i].span.end)
    && (forall i :: 0 <= i < |edits| - 1 ==>
          edits[i].span.end <= edits[i + 1].span.start && edits[i].span.start < edits[i + 1].span.start)
  }

  lemma {:induction false} EarlierEndsFirst(edits: seq<SourceEdit>, i: nat, j: nat)
    requires NonOverlapping(edits) && i < j < |edits|
    ensures edits[i].span.end <= edits[j].span.start && edits[i].span.start < edits[j].span.start
  {
    if i + 1 < j {
      EarlierEndsFirst(edits, i, j - 1);
    }
  }

  /** Two forward spans with different starts, one of which ends before the other begins. */
  predicate Apart(a: SourceEdit, b: SourceEdit) {
    && a.span.start <= a.span.end && b.span.start <= b.span.end && a.span.start != b.span.start
    && (a.span.end <= b.span.start || b.span.end <= a.span.start)
  }

  /** Says nothing about the order in which the edits are listed. */
  predicate AllApart(edits: seq<SourceEdit>) {
    && (forall i :: 0 <= i < |edits| ==> edits[i].span.start <= edits[i].span.end)
    && (forall i, j :: 0 <= i < j < |edits| ==> Apart(edits[i], edits[j]))
  }

  predicate ApartFrom(x: SourceEdit, s: seq<SourceEdit>) {
    forall y :: y in s ==> Apart(x, y)
  }

  lemma AllApartHead(x: SourceEdit, s: seq<SourceEdit>)
    ensures AllApart([x] + s) <==> x.span.start <= x.span.end && ApartFrom(x, s) && AllApart(s)
  {
    var t := [x] + s;
    assert t[0] == x && forall k :: 0 <= k < |s| ==> t[k + 1] == s[k];
    if x.span.start <= x.span.end && ApartFrom(x, s) && AllApart(s) {
      forall i, j | 0 <= i < j < |t|
        ensures Apart(t[i], t[j])
      {
        assert t[j] == s[j - 1] && (i > 0 ==> t[i] == s[i - 1]);
      }
    }
    if AllApart(t) {
      forall y | y in s
        ensures Apart(x, y)
      {
        var k :| 0 <= k < |s| && s[k] == y;
        assert Apart(t[0], t[k + 1]);
      }
      forall i, j | 0 <= i < j < |s|
        ensures Apart(s[i], s[j])
      {
        assert Apart(t[i + 1], t[j + 1]);
      }
    }
  }

  lemma {:induction false} InsertKeepsApart(x: SourceEdit, s: seq<SourceEdit>)
    ensures AllApart(Insert(EditLeq, x, s)) <==> AllApart([x] + s)
  {
    if s != [] && !EditLeq(x, s[0]) {
      var r := Insert(EditLeq, x, s[1..]);
      assert s == [s[0]] + s[1..] && [x] + s == [x] + s;
      InsertKeepsApart(x, s[1..]);
      AllApartHead(s[0], r);
      AllApartHead(x, s);
      AllApartHead(s[0], s[1..]);
      AllApartHead(x, s[1..]);
      assert ApartFrom(s[0], r) <==> Apart(s[0], x) && ApartFrom(s[0], s[1..]) by {
        assert forall y :: y in r <==> y in multiset(r);
      }
      assert ApartFrom(x, s) <==> Apart(x, s[0]) && ApartFrom(x, s[1..]);
    }
  }

  lemma {:induction false} SortKeepsApart(edits: seq<SourceEdit>)
    ensures AllApart(Sort(EditLeq, edits)) <==> AllApart(edits)
  {
    if edits != [] {
      var rest := Sort(EditLeq, edits[1..]);
      SortKeepsApart(edits[1..]);
      InsertKeepsApart(edits[0], rest);
      AllApartHead(edits[0], rest);
      AllApartHead(edits[0], edits[1..]);
      assert edits == [edits[0]] + edits[1..];
      forall y
        ensures y in rest <==> y in edits[1..]
      {
        SortElements(EditLeq, edits[1..], y);
      }
    }
  }

  /** The neighbour check on the sorted list accepts exactly the pairwise disjoint edits. */
  lemma AcceptedMeansApart(edits: seq<SourceEdit>)
    ensures NonOverlapping(Sort(EditLeq, edits)) <==> AllApart(edits)
  {
    var sorted := Sort(EditLeq, edits);
    EditOrder();
    SortSorted(EditLeq, edits);
    SortKeepsApart(edits);
    if NonOverlapping(sorted) {
      forall i, j | 0 <= i < j < |sorted|
        ensures Apart(sorted[i], sorted[j])
      {
        EarlierEndsFirst(sorted, i, j);
      }
    }
    if AllApart(sorted) {
      forall i | 0 <= i < |sorted| - 1
        ensures sorted[i].span.end <= sorted[i + 1].span.start && sorted[i].span.start < sorted[i + 1].span.start
      {
        assert Apart(sorted[i], sorted[i + 1]) && EditLeq(sorted[i], sorted[i + 1]);
      }
    }
  }

  lemma StartsDistinguish(edits: seq<SourceEdit>)
    requires NonOverlapping(edits)
    ensures forall x, y :: x in edits && y in edits && EditLeq(x, y) && EditLeq(y, x) ==> x == y
  {
    forall x, y | x in edits && y in edits && x.span.start == y.span.start
      ensures x == y
    {
      var i :| 0 <= i < |edits| && edits[i] == x;
      var j :| 0 <= j < |edits| && edits[j] == y;
      if i < j {
        EarlierEndsFirst(edits, i, j);
      } else if j < i {
        EarlierEndsFirst(edits, j, i);
      }
    }
  }

  /** A permutation of the given edits is accepted just the same, and is stored in the same order. */
  lemma PermutationIrrelevant(a: seq<SourceEdit>, b: seq<SourceEdit>)
    requires multiset(a) == multiset(b)
    ensures NonOverlapping(Sort(EditLeq, a)) <==> NonOverlapping(Sort(EditLeq, b))
    ensures NonOverlapping(Sort(EditLeq, a)) ==> Sort(EditLeq, a) == Sort(EditLeq, b)
  {
    EditOrder();
    SortSorted(EditLeq, a);
    SortSorted(EditLeq, b);
    if NonOverlapping(Sort(EditLeq, a)) {
      StartsDistinguish(Sort(EditLeq, a));
      SortedUnique(EditLeq, Sort(EditLeq, a), Sort(EditLeq, b));
    } else if NonOverlapping(Sort(EditLeq, b)) {
      StartsDistinguish(Sort(EditLeq, b));
      SortedUnique(EditLeq, Sort(EditLeq, b), Sort(EditLeq, a));
    }
  }

  // ----- the meaning of an edit list -----

  /** All spans lie in bytes from..length. */
  predicate Fits(edits: seq<SourceEdit>, from: nat, length: nat) {
    && NonOverlapping(edits) && from <= length
    && (edits != [] ==> from <= edits[0].span.start && edits[|edits| - 1].span.end <= length)
  }

  lemma FitsTail(edits: seq<SourceEdit>, from: nat, length: nat)
    requires Fits(edits, from, length) && edits != []
    ensures edits[0].span.start <= edits[0].span.end <= length && Fits(edits[1..], edits[0].span.end, length)
  {
    if |edits| > 1 {
      EarlierEndsFirst(edits, 0, |edits| - 1);
      assert edits[1..][|edits| - 2] == edits[|edits| - 1];
    }
    forall i | 0 <= i < |edits[1..]| - 1
      ensures edits[1..][i].span.end <= edits[1..][i + 1].span.start &&
        edits[1..][i].span.start < edits[1..][i + 1].span.start
    {
      assert edits[1..][i] == edits[i + 1] && edits[1..][i + 1] == edits[i + 2];
    }
  }

  /** The untouched gaps of `original` from `from` on, interleaved with the replacements. */
  function Substitute(original: Bytes, edits: seq<SourceEdit>, from: nat): Bytes
    requires Fits(edits, from, |original|)
    decreases |edits|
  {
    if edits == [] then original[from..]
    else
      FitsTail(edits, from, |original|);
      original[from..edits[0].span.start] + edits[0].replacement + Substitute(original, edits[1..], edits[0].span.end)
  }

  function Removed(edits: seq<SourceEdit>): int {
    if edits == [] then 0 else edits[0].span.end - edits[0].span.start + Removed(edits[1..])
  }

  function Inserted(edits: seq<SourceEdit>): nat {
    if edits == [] then 0 else |edits[0].replacement| + Inserted(edits[1..])
  }

  /** The result has the bytes of the original, less those removed, plus those inserted. */
  lemma {:induction false} SubstituteLength(original: Bytes, edits: seq<SourceEdit>, from: nat)
    requires Fits(edits, from, |original|)
    ensures |Substitute(original, edits, from)| == |original| - from - Removed(edits) + Inserted(edits)
    decreases |edits|
  {
    if edits != [] {
      FitsTail(edits, from, |original|);
      SubstituteLength(original, edits[1..], edits[0].span.end);
    }
  }

  /** Where byte `p` of the original stands after the edits that end before it. */
  function MovedTo(edits: seq<SourceEdit>, p: nat): int {
    if edits == [] || p < edits[0].span.end then p
    else MovedTo(edits[1..], p) - (edits[0].span.end - edits[0].span.start) + |edits[0].replacement|
  }

  predicate Untouched(edits: seq<SourceEdit>, p: nat) {
    forall e :: e in edits ==> !(e.span.start <= p < e.span.end)
  }

  lemma {:induction false} UntouchedByteFrom(original: Bytes, edits: seq<SourceEdit>, from: nat, p: nat)
    requires Fits(edits, from, |original|) && from <= p < |original| && Untouched(edits, p)
    ensures 0 <= MovedTo(edits, p) - from < |Substitute(original, edits, from)|
    ensures Substitute(original, edits, from)[MovedTo(edits, p) - from] == original[p]
    decreases |edits|
  {
    if edits != [] {
      FitsTail(edits, from, |original|);
      var e := edits[0];
      assert e in edits;
      var gap, rest := original[from..e.span.start], Substitute(original, edits[1..], e.span.end);
      assert Substitute(original, edits, from) == gap + e.replacement + rest;
      if p < e.span.end {
        assert MovedTo(edits, p) == p && p < e.span.start;
        assert gap[p - from] == original[p];
        JoinedAt(gap, e.replacement, rest, p - from);
      } else {
        UntouchedByteFrom(original, edits[1..], e.span.end, p);
        var k := |gap| + |e.replacement| + MovedTo(edits[1..], p) - e.span.end;
        assert MovedTo(edits, p) - from == k;
        JoinedAt(gap, e.replacement, rest, k);
      }
    }
  }

  lemma JoinedAt(a: Bytes, b: Bytes, c: Bytes, k: nat)
    requires k < |a| || |a| + |b| <= k < |a| + |b| + |c|
    ensures k < |a| ==> (a + b + c)[k] == a[k]
    ensures |a| + |b| <= k ==> (a + b + c)[k] == c[k - |a| - |b|]
  {
  }

  /** Every byte outside the spans survives, moved by what the edits before it removed and inserted. */
  lemma UntouchedByteSurvives(original: Bytes, edits: seq<SourceEdit>, p: nat)
    requires Fits(edits, 0, |original|) && p < |original| && Untouched(edits, p)
    ensures 0 <= MovedTo(edits, p) < |Substitute(original, edits, 0)|
    ensures Substitute(original, edits, 0)[MovedTo(edits, p)] == original[p]
  {
    UntouchedByteFrom(original, edits, 0, p);
  }

  /** The gap before the first edit can be split off. */
  lemma SubstituteFromLater(original: Bytes, edits: seq<SourceEdit>, from: nat, later: nat)
    requires Fits(edits, from, |original|) && from <= later <= |original|
    requires edits != [] ==> later <= edits[0].span.start
    ensures Fits(edits, later, |original|)
    ensures Substitute(original, edits, from) == original[from..later] + Substitute(original, edits, later)
  {
    if edits == [] {
      assert original[from..] == original[from..later] + original[later..];
    } else {
      FitsTail(edits, from, |original|);
      var start, text := edits[0].span.start, edits[0].replacement;
      var rest := Substitute(original, edits[1..], edits[0].span.end);
      SplitGap(original, from, later, start);
      Reassociate(original[from..later], original[later..start], text);
      Reassociate(original[from..later], original[later..start] + text, rest);
    }
  }

  lemma SplitGap(original: Bytes, from: nat, later: nat, start: nat)
    requires from <= later <= start <= |original|
    ensures original[from..start] == original[from..later] + original[later..start]
  {
  }

  function Splice(buffer: Bytes, span: ByteSpan, replacement: Bytes): Bytes
    requires span.start <= span.end <= |buffer|
  {
    buffer[..span.start] + replacement + buffer[span.end..]
  }

  /** One splice, made after all later ones, adds one edit to the front of the substitution. */
  lemma SpliceAddsEdit(original: Bytes, edits: seq<SourceEdit>)
    requires edits != [] && Fits(edits, 0, |original|)
    ensures Fits(edits[1..], 0, |original|)
    ensures edits[0].span.start <= edits[0].span.end <= |Substitute(original, edits[1..], 0)|
    ensures Splice(Substitute(original, edits[1..], 0), edits[0].span, edits[0].replacement)
         == Substitute(original, edits, 0)
  {
    var end := edits[0].span.end;
    FitsTail(edits, 0, |original|);
    SubstituteFromLater(original, edits[1..], 0, end);
    var rest := Substitute(original, edits[1..], end);
    assert original[0..end] + rest == original[..end] + rest;
    assert (original[..end] + rest)[end..] == rest;
    assert (original[..end] + rest)[..edits[0].span.start] == original[0..edits[0].span.start];
  }

  lemma FitsSuffix(edits: seq<SourceEdit>, i: nat, length: nat)
    requires Fits(edits, 0, length) && i <= |edits|
    ensures Fits(edits[i..], 0, length)
  {
    forall k | 0 <= k < |edits[i..]| - 1
      ensures edits[i..][k].span.end <= edits[i..][k + 1].span.start &&
        edits[i..][k].span.start < edits[i..][k + 1].span.start
    {
      assert edits[i..][k] == edits[i + k] && edits[i..][k + 1] == edits[i + k + 1];
    }
  }

  /**
   Splices from the last edit to the first, so that no splice moves a span still to
   come.  The result is the simultaneous substitution; it fails exactly when the last
   edit ends beyond the file, before anything was spliced.
   */
  method ApplyEdits(original: Bytes, edits: seq<SourceEdit>) returns (r: Result<Bytes, SpanError>)
    requires NonOverlapping(edits)
    ensures r.Ok? <==> edits == [] || edits[|edits| - 1].span.end <= |original|
    ensures r.Ok? ==> Fits(edits, 0, |original|) && r.value == Substitute(original, edits, 0)
    ensures r.Err? ==>
              var last := edits[|edits| - 1].span;
              r.error == SpanOutOfBounds(last.start, last.end, |original|)
  {
    if edits == [] {
      return Ok(original);
    }
    var updated := original;
    for i := |edits| downto 0
      invariant i < |edits| ==> Fits(edits, 0, |original|)
      invariant i == |edits| ==> updated == original
      invariant i < |edits| ==> Fits(edits[i..], 0, |original|) && updated == Substitute(original, edits[i..], 0)
    {
      var span := edits[i].span;
      if i < |edits| - 1 {
        FitsSuffix(edits, i, |original|);
        SpliceAddsEdit(original, edits[i..]);
        assert edits[i..][1..] == edits[i + 1..];
      }
      if span.end > |updated| {
        return Err(SpanOutOfBounds(span.start, span.end, |updated|));
      }
      if i == |edits| - 1 {
        assert edits[i + 1..] == [];
        assert original[0..] == original;
      }
      FitsSuffix(edits, i, |original|);
      SpliceAddsEdit(original, edits[i..]);
      assert edits[i..][1..] == edits[i + 1..];
      updated := Splice(updated, span, edits[i].replacement);
    }
    assert edits[0..] == edits;
    return Ok(updated);
  }
}
