/** Masking spans of a text: the sort-and-merge pass, and the one-pass reading it refines. */
module Spans {
  import opened Text
  import opened Values

  /** A part of a text that is replaced. */
  datatype Cut = Cut(start: nat, end: nat, mask: string)

  /** Non-empty, in order, without overlap, within a text of length `n`. */
  predicate InOrder(cuts: seq<Cut>, n: nat) {
    && (forall k :: 0 <= k < |cuts| ==> cuts[k].start < cuts[k].end <= n)
    && (forall j, k :: 0 <= j < k < |cuts| ==> cuts[j].end <= cuts[k].start)
  }

  /** `text` up to `upto`, each cut replaced by its mask, everything else copied in order. */
  function Splice(text: string, cuts: seq<Cut>, upto: nat): string
    requires upto <= |text| && InOrder(cuts, upto)
    decreases |cuts|
  {
    if cuts == [] then text[..upto]
    else
      var last := cuts[|cuts| - 1];
      Splice(text, cuts[..|cuts| - 1], last.start) + last.mask + text[last.end..upto]
  }

  /** A character that is not masked at the end is copied at the end. */
  lemma SpliceExtends(text: string, cuts: seq<Cut>, upto: nat, end: nat)
    requires upto <= end <= |text| && InOrder(cuts, upto)
    ensures Splice(text, cuts, end) == Splice(text, cuts, upto) + text[upto..end]
  {
    if cuts == [] {
      assert text[..end] == text[..upto] + text[upto..end];
    } else {
      var last := cuts[|cuts| - 1];
      var before := Splice(text, cuts[..|cuts| - 1], last.start) + last.mask;
      assert Splice(text, cuts, upto) == before + text[last.end..upto];
      assert Splice(text, cuts, end) == before + text[last.end..end];
      hide Splice;
      assert text[last.end..end] == text[last.end..upto] + text[upto..end];
      assert before + text[last.end..upto] + text[upto..end] == before + (text[last.end..upto] + text[upto..end]);
    }
  }

  /** A further cut at the end. */
  lemma SpliceCut(text: string, cuts: seq<Cut>, cut: Cut)
    requires cut.start < cut.end <= |text| && InOrder(cuts, cut.start)
    ensures InOrder(cuts + [cut], cut.end)
    ensures Splice(text, cuts + [cut], cut.end) == Splice(text, cuts, cut.start) + cut.mask
  {
    assert (cuts + [cut])[..|cuts|] == cuts;
    assert text[cut.end..cut.end] == "";
  }

  // ---------------------------------------------------------------- the reading

  predicate Inside(s: (nat, nat), i: nat) {
    s.0 <= i < s.1
  }

  function Positions(s: (nat, nat)): set<nat> {
    set i: nat | s.0 <= i < s.1 && Inside(s, i)
  }

  predicate InAny(spans: seq<(nat, nat)>, i: nat) {
    exists k :: 0 <= k < |spans| && Inside(spans[k], i)
  }

  /** The positions a list of spans covers. */
  function Cover(spans: seq<(nat, nat)>): set<nat> {
    if spans == [] then {}
    else
      var last := spans[|spans| - 1];
      Cover(spans[..|spans| - 1]) + Positions(last)
  }

  /** One mask for every maximal run of covered positions, every other character copied. */
  function MaskRuns(text: string, cover: set<nat>, upto: nat): string
    requires upto <= |text|
  {
    if upto == 0 then ""
    else
      var before := MaskRuns(text, cover, upto - 1);
      if upto - 1 !in cover then before + [text[upto - 1]]
      else if upto >= 2 && upto - 2 in cover then before
      else before + REDACTED
  }

  lemma {:induction false} RunCopied(text: string, cover: set<nat>, from: nat, end: nat)
    requires from <= end <= |text|
    requires forall i :: from <= i < end ==> i !in cover
    ensures MaskRuns(text, cover, end) == MaskRuns(text, cover, from) + text[from..end]
    decreases end
  {
    if from < end {
      RunCopied(text, cover, from, end - 1);
      assert text[from..end] == text[from..end - 1] + [text[end - 1]];
    }
  }

  lemma {:induction false} RunMasked(text: string, cover: set<nat>, from: nat, end: nat)
    requires from < end <= |text|
    requires forall i :: from <= i < end ==> i in cover
    requires from > 0 ==> from - 1 !in cover
    ensures MaskRuns(text, cover, end) == MaskRuns(text, cover, from) + REDACTED
    decreases end
  {
    if from + 1 < end {
      RunMasked(text, cover, from, end - 1);
    }
  }

  lemma CoverSnoc(spans: seq<(nat, nat)>, s: (nat, nat))
    ensures Cover(spans + [s]) == Cover(spans) + Positions(s)
  {
    assert (spans + [s])[..|spans|] == spans;
  }

  lemma {:induction false} InCover(spans: seq<(nat, nat)>, i: nat)
    ensures i in Cover(spans) <==> InAny(spans, i)
  {
    if spans != [] {
      var front := spans[..|spans| - 1];
      InCover(front, i);
      assert Inside(spans[|front|], i) ==> InAny(spans, i);
      assert forall k :: 0 <= k < |front| ==> spans[k] == front[k];
    }
  }

  // ---------------------------------------------------------------- sorting

  predicate Before(a: (nat, nat), b: (nat, nat)) {
    a.0 < b.0 || (a.0 == b.0 && a.1 < b.1)
  }

  /** `spans.sort()`. */
  function Sorted(spans: seq<(nat, nat)>): (r: seq<(nat, nat)>)
    ensures |r| == |spans|
  {
    if spans == [] then [] else Insert(spans[|spans| - 1], Sorted(spans[..|spans| - 1]))
  }

  function Insert(s: (nat, nat), spans: seq<(nat, nat)>): (r: seq<(nat, nat)>)
    ensures |r| == |spans| + 1
  {
    if spans == [] || !Before(s, spans[|spans| - 1]) then spans + [s]
    else Insert(s, spans[..|spans| - 1]) + [spans[|spans| - 1]]
  }

  predicate ByStart(spans: seq<(nat, nat)>) {
    forall i, j :: 0 <= i < j < |spans| ==> spans[i].0 <= spans[j].0
  }

  lemma {:induction false} InsertKeeps(s: (nat, nat), spans: seq<(nat, nat)>)
    requires ByStart(spans)
    ensures ByStart(Insert(s, spans))
    ensures Cover(Insert(s, spans)) == Cover(spans) + Positions(s)
    ensures multiset(Insert(s, spans)) == multiset(spans) + multiset{s}
  {
    if spans == [] || !Before(s, spans[|spans| - 1]) {
      CoverSnoc(spans, s);
    } else {
      var front, last := spans[..|spans| - 1], spans[|spans| - 1];
      assert spans == front + [last];
      assert ByStart(front);
      InsertKeeps(s, front);
      CoverSnoc(Insert(s, front), last);
      CoverSnoc(front, last);
      hide Cover, Insert, Positions;
      assert Cover(Insert(s, spans)) == Cover(spans) + Positions(s);
      forall i | 0 <= i < |front| + 1 ensures Insert(s, front)[i].0 <= last.0 {
        assert Insert(s, front)[i] in multiset(Insert(s, front));
      }
    }
  }

  lemma {:induction false} SortedKeeps(spans: seq<(nat, nat)>)
    ensures ByStart(Sorted(spans)) && Cover(Sorted(spans)) == Cover(spans)
    ensures multiset(Sorted(spans)) == multiset(spans)
  {
    if spans != [] {
      var front, last := spans[..|spans| - 1], spans[|spans| - 1];
      assert spans == front + [last];
      SortedKeeps(front);
      InsertKeeps(last, Sorted(front));
    }
  }

  // ---------------------------------------------------------------- the pass

  /** Spans of which every non-empty one lies within the text. */
  predicate Within(spans: seq<(nat, nat)>, n: nat) {
    forall k :: 0 <= k < |spans| && spans[k].0 < spans[k].1 ==> spans[k].1 <= n
  }

  /** Merged spans: non-empty and separated by at least one position. */
  predicate Separate(merged: seq<(nat, nat)>, n: nat) {
    && (forall k :: 0 <= k < |merged| ==> merged[k].0 < merged[k].1 <= n)
    && (forall j, k :: 0 <= j < k < |merged| ==> merged[j].1 < merged[k].0)
  }

  /** Growing the last span by one that starts within it, or right behind it, covers both. */
  lemma GrowLast(front: seq<(nat, nat)>, last: (nat, nat), s: (nat, nat))
    requires last.0 <= s.0 <= last.1
    ensures Cover(front + [(last.0, Max(last.1, s.1))]) == Cover(front + [last]) + Positions(s)
  {
    CoverSnoc(front, last);
    CoverSnoc(front, (last.0, Max(last.1, s.1)));
  }

  method Merge(sorted: seq<(nat, nat)>, n: nat) returns (merged: seq<(nat, nat)>)
    requires ByStart(sorted) && Within(sorted, n)
    ensures Separate(merged, n) && Cover(merged) == Cover(sorted)
  {
    hide Cover;
    merged := [];
    NothingCovered();
    for i := 0 to |sorted|
      invariant Separate(merged, n)
      invariant Cover(merged) == Cover(sorted[..i])
      invariant merged != [] ==> forall k :: i <= k < |sorted| ==> merged[|merged| - 1].0 <= sorted[k].0
    {
      var (start, end) := sorted[i];
      assert sorted[..i + 1] == sorted[..i] + [sorted[i]];
      CoverSnoc(sorted[..i], sorted[i]);
      if end <= start {
        assert Positions(sorted[i]) == {};
      } else if merged != [] && start <= merged[|merged| - 1].1 {
        var front, last := merged[..|merged| - 1], merged[|merged| - 1];
        assert merged == front + [last];
        GrowLast(front, last, sorted[i]);
        merged := front + [(last.0, Max(last.1, end))];
      } else {
        CoverSnoc(merged, sorted[i]);
        merged := merged + [(start, end)];
      }
    }
    assert sorted[..|sorted|] == sorted;
  }

  lemma NothingCovered()
    ensures Cover([]) == {}
  {
  }

  /** The positions between merged spans are not covered, those inside are. */
  lemma SeparateCover(merged: seq<(nat, nat)>, n: nat, k: nat)
    requires Separate(merged, n) && k < |merged|
    ensures forall i :: merged[k].0 <= i < merged[k].1 ==> i in Cover(merged)
    ensures forall i :: (if k == 0 then 0 else merged[k - 1].1) <= i < merged[k].0 ==> i !in Cover(merged)
  {
    forall i: nat ensures i in Cover(merged) <==> InAny(merged, i) {
      InCover(merged, i);
    }
    forall i | merged[k].0 <= i < merged[k].1 ensures i in Cover(merged) {
      assert Inside(merged[k], i);
    }
  }

  /** `_replace_spans`: what is masked depends on nothing but the positions the spans cover. */
  method ReplaceSpans(text: string, spans: seq<(nat, nat)>) returns (out: string, ghost cuts: seq<Cut>)
    requires Within(spans, |text|)
    ensures out == MaskRuns(text, Cover(spans), |text|)
    ensures InOrder(cuts, |text|) && out == Splice(text, cuts, |text|)
    ensures forall k :: 0 <= k < |cuts| ==> cuts[k].mask == REDACTED
  {
    hide Cover, MaskRuns, Sorted;
    if spans == [] {
      NothingCovered();
      NothingMasked(text);
      return text, [];
    }
    SortedKeeps(spans);
    var sorted := Sorted(spans);
    forall k | 0 <= k < |sorted| && sorted[k].0 < sorted[k].1 ensures sorted[k].1 <= |text| {
      assert sorted[k] in multiset(sorted);
      assert sorted[k] in spans;
    }
    var merged := Merge(sorted, |text|);
    out, cuts := CopyAround(text, merged);
  }

  lemma NothingMasked(text: string)
    ensures MaskRuns(text, {}, |text|) == text == Splice(text, [], |text|)
  {
    RunCopied(text, {}, 0, |text|);
    assert text[0..|text|] == text == text[..|text|];
  }

  /** What has been put out once the text is copied up to `copied`. */
  ghost predicate Copied(text: string, cover: set<nat>, out: string, cuts: seq<Cut>, copied: nat) {
    && copied <= |text|
    && InOrder(cuts, copied)
    && out == MaskRuns(text, cover, copied) == Splice(text, cuts, copied)
    && forall k :: 0 <= k < |cuts| ==> cuts[k].mask == REDACTED
  }

  lemma CopyStep(text: string, merged: seq<(nat, nat)>, i: nat, out: string, cuts: seq<Cut>, copied: nat)
    requires Separate(merged, |text|) && i < |merged|
    requires copied == if i == 0 then 0 else merged[i - 1].1
    requires Copied(text, Cover(merged), out, cuts, copied)
    ensures copied <= merged[i].0
    ensures var (start, end) := merged[i];
      Copied(text, Cover(merged), out + text[copied..start] + REDACTED, cuts + [Cut(start, end, REDACTED)], end)
  {
    hide Cover, MaskRuns, Splice;
    var (start, end) := merged[i];
    SeparateCover(merged, |text|, i);
    RunCopied(text, Cover(merged), copied, start);
    RunMasked(text, Cover(merged), start, end);
    SpliceExtends(text, cuts, copied, start);
    SpliceCut(text, cuts, Cut(start, end, REDACTED));
  }

  /** The merged spans replaced, everything between them copied. */
  method CopyAround(text: string, merged: seq<(nat, nat)>) returns (out: string, ghost cuts: seq<Cut>)
    requires Separate(merged, |text|)
    ensures Copied(text, Cover(merged), out, cuts, |text|)
  {
    hide Cover, Copied;
    cuts := [];
    out := "";
    var copied := 0;
    NothingCopied(text, Cover(merged));
    for i := 0 to |merged|
      invariant copied == if i == 0 then 0 else merged[i - 1].1
      invariant Copied(text, Cover(merged), out, cuts, copied)
    {
      var (start, end) := merged[i];
      CopyStep(text, merged, i, out, cuts, copied);
      out := out + text[copied..start] + REDACTED;
      cuts := cuts + [Cut(start, end, REDACTED)];
      copied := end;
    }
    CopyTail(text, merged, out, cuts, copied);
    out := out + text[copied..];
  }

  lemma NothingCopied(text: string, cover: set<nat>)
    ensures Copied(text, cover, "", [], 0)
  {
  }

  lemma CopyTail(text: string, merged: seq<(nat, nat)>, out: string, cuts: seq<Cut>, copied: nat)
    requires Separate(merged, |text|) && copied == if merged == [] then 0 else merged[|merged| - 1].1
    requires Copied(text, Cover(merged), out, cuts, copied)
    ensures copied <= |text| && Copied(text, Cover(merged), out + text[copied..], cuts, |text|)
  {
    hide Cover, MaskRuns, Splice;
    UncoveredTail(merged, |text|);
    RunCopied(text, Cover(merged), copied, |text|);
    SpliceExtends(text, cuts, copied, |text|);
    assert text[copied..|text|] == text[copied..];
  }

  lemma UncoveredTail(merged: seq<(nat, nat)>, n: nat)
    requires Separate(merged, n)
    ensures forall i :: (if merged == [] then 0 else merged[|merged| - 1].1) <= i ==> i !in Cover(merged)
  {
    forall i: nat | (if merged == [] then 0 else merged[|merged| - 1].1) <= i ensures i !in Cover(merged) {
      InCover(merged, i);
    }
  }

  /** No masked character remains and no other is lost: what is left of a text is its uncovered characters, in order. */
  function Unmasked(text: string, cover: set<nat>, upto: nat): string
    requires upto <= |text|
  {
    if upto == 0 then ""
    else if upto - 1 in cover then Unmasked(text, cover, upto - 1)
    else Unmasked(text, cover, upto - 1) + [text[upto - 1]]
  }

  /** The runs of covered positions. */
  function Runs(cover: set<nat>, upto: nat): nat {
    if upto == 0 then 0
    else if upto - 1 in cover && (upto == 1 || upto - 2 !in cover) then 1 + Runs(cover, upto - 1)
    else Runs(cover, upto - 1)
  }

  /** The output is the uncovered characters and one mask for each run: nothing else is added or dropped. */
  lemma {:induction false} MaskedLength(text: string, cover: set<nat>, upto: nat)
    requires upto <= |text|
    ensures |MaskRuns(text, cover, upto)| == |Unmasked(text, cover, upto)| + |REDACTED| * Runs(cover, upto)
  {
    if upto > 0 {
      MaskedLength(text, cover, upto - 1);
    }
  }

  /** Order, overlap, adjacency and empty spans make no difference: only which positions some span contains. */
  lemma OnlyPositionsMatter(text: string, spans: seq<(nat, nat)>, others: seq<(nat, nat)>)
    requires forall i: nat :: InAny(spans, i) <==> InAny(others, i)
    ensures MaskRuns(text, Cover(spans), |text|) == MaskRuns(text, Cover(others), |text|)
  {
    forall i: nat ensures i in Cover(spans) <==> i in Cover(others) {
      InCover(spans, i);
      InCover(others, i);
    }
    assert Cover(spans) == Cover(others);
  }
}
