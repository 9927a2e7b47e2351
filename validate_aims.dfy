/**
 * scripts/validate_specific_aims.py: flag every element whose whole stripped
 * text is "specific aim(s)" when none of the next five elements is a
 * non-blank element of a type other than Title or Section.
 */
module ValidateAims {
  import opened Text
  import opened Patterns
  import opened Segment

  /** An element whose whole stripped text matches (?i)^specific\s+aims?$, whatever its type. */
  predicate AimsHeading(e: Element) {
    WholeSpecificAims(Strip(e.text))
  }

  /** A non-blank element whose type is neither "Title" nor "Section". */
  predicate Paragraph(e: Element) {
    e.category !in {"Title", "Section"} && Strip(e.text) != []
  }

  /** The end of the look-ahead window after index i: min(i + 6, len(data)). */
  function WindowEnd(data: seq<Element>, i: nat): (w: nat)
    ensures w <= |data| && w <= i + 6
    ensures w == |data| || w == i + 6
  {
    Min(i + 6, |data|)
  }

  /** No element in data[i+1..min(i+6, len)) is a paragraph. */
  predicate NoParagraphAfter(data: seq<Element>, i: nat) {
    forall j | i + 1 <= j < WindowEnd(data, i) :: !Paragraph(data[j])
  }

  /** Index i is reported: an aims heading with no paragraph in its window. */
  predicate Flagged(data: seq<Element>, i: nat)
    requires i < |data|
  {
    AimsHeading(data[i]) && NoParagraphAfter(data, i)
  }

  /** One flag per element: is it reported? */
  function Flags(data: seq<Element>): (f: seq<bool>)
    ensures |f| == |data|
    ensures forall i | 0 <= i < |data| :: f[i] == Flagged(data, i)
  {
    seq(|data|, i requires 0 <= i < |data| => Flagged(data, i))
  }

  /** The indices below n whose flag is set, in increasing order. */
  function Indices(flags: seq<bool>, n: nat): seq<nat>
    requires n <= |flags|
  {
    if n == 0 then []
    else Indices(flags, n - 1) + (if flags[n - 1] then [n - 1] else [])
  }

  /** The inner look-ahead: the first j in [i+1, min(i+6, len)) holding a paragraph. */
  method LookAhead(data: seq<Element>, i: nat) returns (found: bool)
    requires i < |data|
    ensures found <==> !NoParagraphAfter(data, i)
  {
    for j := i + 1 to WindowEnd(data, i)
      invariant forall k | i + 1 <= k < j :: !Paragraph(data[k])
    {
      if Paragraph(data[j]) {
        return true;
      }
    }
    return false;
  }

  /** The outer loop building `missing`. */
  method FindMissing(data: seq<Element>) returns (missing: seq<nat>)
    ensures missing == Indices(Flags(data), |data|)
  {
    missing := [];
    ghost var flags := Flags(data);
    for i := 0 to |data|
      invariant missing == Indices(flags, i)
    {
      if AimsHeading(data[i]) {
        var found := LookAhead(data, i);
        FlagAt(data, i, true, found);
        if !found {
          missing := missing + [i];
        }
      } else {
        FlagAt(data, i, false, false);
      }
    }
  }

  /** What one iteration of FindMissing learns about index i. */
  lemma FlagAt(data: seq<Element>, i: nat, heading: bool, found: bool)
    requires i < |data| && heading == AimsHeading(data[i])
    requires heading ==> (found <==> !NoParagraphAfter(data, i))
    ensures Indices(Flags(data), i + 1) == Indices(Flags(data), i) + (if heading && !found then [i] else [])
  {
    assert Flags(data)[i] == Flagged(data, i);
  }

  /** An index is selected exactly when its flag is set. */
  lemma {:induction false} IndicesHas(flags: seq<bool>, n: nat, i: int)
    requires n <= |flags|
    ensures i in Indices(flags, n) <==> 0 <= i < n && flags[i]
  {
    if n > 0 {
      IndicesHas(flags, n - 1, i);
    }
  }

  /** The selected indices are strictly increasing and below n. */
  lemma {:induction false} IndicesIncreasing(flags: seq<bool>, n: nat)
    requires n <= |flags|
    ensures forall a, b | 0 <= a < b < |Indices(flags, n)| :: Indices(flags, n)[a] < Indices(flags, n)[b]
    ensures forall a | 0 <= a < |Indices(flags, n)| :: Indices(flags, n)[a] < n
  {
    if n > 0 {
      IndicesIncreasing(flags, n - 1);
    }
  }

  /** `missing` holds exactly the flagged indices, in strictly increasing order. */
  lemma MissingSpec(data: seq<Element>)
    ensures var missing := Indices(Flags(data), |data|);
      (forall i :: i in missing <==> 0 <= i < |data| && Flagged(data, i))
      && forall a, b | 0 <= a < b < |missing| :: missing[a] < missing[b]
  {
    forall i ensures i in Indices(Flags(data), |data|) <==> 0 <= i < |data| && Flagged(data, i) {
      IndicesHas(Flags(data), |data|, i);
    }
    IndicesIncreasing(Flags(data), |data|);
  }

  /** An aims heading at the last index is always reported: its window is empty. */
  lemma LastHeadingFlagged(data: seq<Element>)
    requires data != [] && AimsHeading(data[|data| - 1])
    ensures |data| - 1 in Indices(Flags(data), |data|)
  {
    IndicesHas(Flags(data), |data|, |data| - 1);
  }

  /** Only the five elements after i matter: cutting the list after the window leaves the verdict on i unchanged. */
  lemma WindowOfFive(data: seq<Element>, i: nat)
    requires i < |data|
    ensures WindowEnd(data, i) - (i + 1) <= 5
    ensures Flagged(data, i) <==> Flagged(data[..WindowEnd(data, i)], i)
  {
    var cut := data[..WindowEnd(data, i)];
    assert WindowEnd(cut, i) == WindowEnd(data, i);
    assert forall j | i <= j < WindowEnd(data, i) :: cut[j] == data[j];
  }

  /** The script's verdict: success, or the headings without text. */
  datatype Verdict = Followed | HeadingsWithoutText(indices: seq<nat>)

  method Validate(data: seq<Element>) returns (v: Verdict)
    ensures v.Followed? <==> forall i | 0 <= i < |data| :: !Flagged(data, i)
    ensures v.HeadingsWithoutText? ==> v.indices == Indices(Flags(data), |data|)
  {
    var missing := FindMissing(data);
    if missing != [] {
      IndicesHas(Flags(data), |data|, missing[0]);
      return HeadingsWithoutText(missing);
    }
    forall i | 0 <= i < |data| ensures !Flagged(data, i) {
      IndicesHas(Flags(data), |data|, i);
    }
    return Followed;
  }
}
