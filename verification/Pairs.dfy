/** Masking the value behind every sensitive key: the loops of the scanners, and what the scan as a whole guarantees. */
module Pairs {
  import opened Text
  import opened Values
  import opened Spans
  import opened Scanning
  import Fragments

  const MAX_SWALLOWED_KEYS := 8

  // ---------------------------------------------------------------- the scanners as they run

  method SkipBackslashes(text: string, i: nat, limit: nat) returns (r: nat)
    requires i <= limit <= |text|
    ensures r == Backslashes(text, i, limit)
  {
    r := i;
    while r < limit && text[r] == '\\'
      invariant i <= r <= limit && Backslashes(text, r, limit) == Backslashes(text, i, limit)
    {
      r := r + 1;
    }
  }

  method FindClosingQuote(text: string, opening: nat, limit: nat) returns (r: Option<nat>)
    requires opening < |text| && limit <= |text|
    ensures r == ClosingQuote(text, opening, opening + 1, limit)
  {
    var quote := text[opening];
    var index := opening + 1;
    while index < limit
      invariant opening < index
      invariant ClosingQuote(text, opening, index, limit) == ClosingQuote(text, opening, opening + 1, limit)
      decreases limit - index
    {
      if text[index] == '\\' {
        var run := SkipBackslashes(text, index, limit);
        if run - index > 1 && StartsWith(text, quote, run) { return None; }
        index := run + 1;
      } else if text[index] == quote {
        if !(index > opening + 1 && StartsWith(text, quote, index + 1)) { return Some(index); }
        index := index + 2;
      } else {
        index := index + 1;
      }
    }
    return None;
  }

  method FindUnquotedEnd(text: string, start: nat, toEndOfLine: bool, inQuery: bool) returns (r: nat)
    requires start < |text|
    ensures r == UnquotedEnd(text, start, toEndOfLine, inQuery)
  {
    hide ClosingQuote, Backslashes;
    var lineEnd := LineEnd(text, start);
    var spansLines := IsOpening(text[start]);
    var depth, index := 0, start;
    while index < |text|
      invariant start <= index && depth >= 0
      invariant UnquotedFrom(text, start, index, depth, toEndOfLine, inQuery)
             == UnquotedEnd(text, start, toEndOfLine, inQuery)
      decreases |text| - index
    {
      var here := text[index];
      if IsNewline(here) && !(spansLines && depth > 0) { break; }
      if here == '\\' {
        index := SkipBackslashes(text, index, |text|);
        index := index + 1;
        continue;
      }
      if IsQuote(here) && (depth > 0 || !toEndOfLine) {
        var limit := if spansLines && depth > 0 then |text| else lineEnd;
        var closing := FindClosingQuote(text, index, limit);
        if closing.None? { return limit; }
        index := closing.value + 1;
        continue;
      }
      if IsOpening(here) {
        depth := depth + 1;
      } else if IsClosing(here) {
        depth := Max(0, depth - 1);
      } else if depth == 0 && EndsValue(here, toEndOfLine, inQuery) {
        break;
      }
      index := index + 1;
    }
    return Min(index, |text|);
  }

  method FindBlockEnd(text: string, lineEnd: nat, keyIndent: nat) returns (end: nat)
    requires lineEnd <= |text|
    ensures end == BlockEnd(text, lineEnd, keyIndent)
  {
    end := lineEnd;
    while end < |text|
      invariant lineEnd <= end <= |text|
      invariant BlockEnd(text, end, keyIndent) == BlockEnd(text, lineEnd, keyIndent)
      decreases |text| - end
    {
      var following := if text[end] == '\r' && StartsWith(text, '\n', end + 1) then end + 2 else end + 1;
      var indent := following;
      while indent < |text| && IsBlank(text[indent])
        invariant following <= indent <= |text|
        invariant Run(text, indent, |text|, IsBlank) == Run(text, following, |text|, IsBlank)
      {
        indent := indent + 1;
      }
      if indent >= |text| || IsNewline(text[indent]) || indent - following <= keyIndent { break; }
      end := LineEnd(text, indent);
    }
  }

  method FindBlockSpan(r: Reader, text: string, newlineAt: nat, keyStart: nat) returns (span: (nat, nat))
    requires newlineAt <= |text| && keyStart <= |text|
    ensures span == BlockSpan(r, text, newlineAt, keyStart)
  {
    hide BlockEnd;
    var start := newlineAt;
    while start < |text| && IsSpace(r, text[start])
      invariant newlineAt <= start <= |text|
      invariant Run(text, start, |text|, c => IsSpace(r, c)) == Run(text, newlineAt, |text|, c => IsSpace(r, c))
    {
      start := start + 1;
    }
    if start >= |text| { return (start, start); }
    var end := FindBlockEnd(text, LineEnd(text, start), KeyIndent(text, keyStart));
    return (start, end);
  }

  /** The first loop of `_locate_value`. */
  method FindTrailersEnd(r: Reader, text: string, keyEnd: nat) returns (s: (nat, bool))
    requires keyEnd <= |text|
    ensures s == SkipTrailers(r, text, keyEnd, false)
  {
    hide EscapedSpace, Backslashes, Seek;
    var index, closedQuote := keyEnd, false;
    while index < |text|
      invariant keyEnd <= index <= |text|
      invariant SkipTrailers(r, text, index, closedQuote) == SkipTrailers(r, text, keyEnd, false)
    {
      var here := text[index];
      if here == '\\' {
        if EscapedSpace(r, text, index) > 0 { break; }
        index := SkipBackslashes(text, index, |text|);
      } else if IsTrailer(here) {
        closedQuote := closedQuote || IsQuote(here);
        index := index + 1;
      } else if here == '[' || here == '\U{E000}' {
        var closer := if here == '[' then ']' else '\U{E001}';
        var limit := Min(index + 1 + MAX_SUBSCRIPT_LENGTH, |text|);
        var closing := Seek(text, index + 1, limit, c => c == closer);
        if closing == limit { break; }
        index := closing + 1;
      } else {
        break;
      }
    }
    return (index, closedQuote);
  }

  /** The second loop of `_locate_value`. */
  method FindSpaceEnd(r: Reader, text: string, index: nat) returns (after: nat)
    requires index <= |text|
    ensures after == SkipSpace(r, text, index)
  {
    hide EscapedSpace;
    after := index;
    while after < |text|
      invariant index <= after <= |text|
      invariant SkipSpace(r, text, after) == SkipSpace(r, text, index)
    {
      if IsSpace(r, text[after]) {
        after := after + 1;
      } else if EscapedSpace(r, text, after) > 0 {
        after := after + EscapedSpace(r, text, after);
      } else {
        break;
      }
    }
  }

  method Locate(r: Reader, text: string, keyStart: nat, keyEnd: nat) returns (v: Option<(nat, Kind)>)
    requires keyStart < keyEnd <= |text|
    ensures v == LocateValue(r, text, keyStart, keyEnd)
  {
    hide SkipTrailers, SkipSpace, OpensQuote;
    var trailers := FindTrailersEnd(r, text, keyEnd);
    var (index, closedQuote) := trailers;
    var after := FindSpaceEnd(r, text, index);
    if after >= |text| { return None; }
    var here := text[after];
    if here == '=' {
      return Some((if StartsWith(text, '>', after + 1) then after + 2 else after + 1, Equals));
    }
    if here == ':' {
      return if StartsWith(text, '=', after + 1) then Some((after + 2, Equals)) else Some((after + 1, Colon));
    }
    if here == '>' && after == index { return Some((after + 1, Tag)); }
    if here == ',' && closedQuote {
      var value := after + 1;
      while value < |text| && IsSpace(r, text[value])
        invariant after < value <= |text|
        invariant Run(text, value, |text|, c => IsSpace(r, c)) == Run(text, after + 1, |text|, c => IsSpace(r, c))
      {
        value := value + 1;
      }
      return if OpensQuote(text, value) then Some((value, Quoted)) else None;
    }
    if after > index {
      if OpensQuote(text, after) { return Some((after, Quoted)); }
      if text[keyStart] == '-' { return Some((after, Equals)); }
    }
    return None;
  }

  method FindQuotedValue(text: string, quoteAt: nat, m: Manner) returns (f: Found)
    requires quoteAt < |text|
    ensures f == QuotedValue(text, quoteAt, m)
  {
    hide UnquotedFrom, ClosingQuote, Backslashes;
    var quote := text[quoteAt];
    var closing := FindClosingQuote(text, quoteAt, |text|);
    if closing.None? { return Span(quoteAt, |text|, [quote] + REDACTED); }
    var after := closing.value + 1;
    var following := after;
    while following < |text| && IsBlank(text[following])
      invariant after <= following <= |text|
      invariant Run(text, following, |text|, IsBlank) == Run(text, after, |text|, IsBlank)
    {
      following := following + 1;
    }
    if following >= |text| || ClosesValue(text[following], m.header) {
      return Span(quoteAt, after, [quote] + REDACTED + [quote]);
    }
    if following == after || m.toEndOfLine {
      var end := FindUnquotedEnd(text, after, m.toEndOfLine, m.inQuery);
      return Span(quoteAt, end, REDACTED);
    }
    return Span(quoteAt, after, [quote] + REDACTED + [quote]);
  }

  method FindValueAt(text: string, index: nat, m: Manner) returns (f: Found)
    requires index < |text|
    ensures f == ValueAt(text, index, m)
  {
    hide UnquotedFrom, ClosingQuote, Backslashes, QuotedValue;
    var quoteAt := index;
    if IsPrefix(text[index]) && (index + 1 == |text| || IsQuote(text[index + 1])) { quoteAt := index + 1; }
    if quoteAt == |text| { return Broken; }
    if IsQuote(text[quoteAt]) {
      f := FindQuotedValue(text, quoteAt, m);
      return;
    }
    if text[index] == '\\' {
      var escapes := SkipBackslashes(text, index, |text|);
      if escapes < |text| && IsQuote(text[escapes]) { return Span(index, |text|, REDACTED); }
    }
    var end := FindUnquotedEnd(text, index, m.toEndOfLine, m.inQuery);
    return Span(index, end, REDACTED);
  }

  method FindValue(r: Reader, text: string, start: nat, kind: Kind, m: Manner) returns (f: Found)
    requires start <= |text| && m.keyStart <= |text|
    ensures f == ValueSpan(r, text, start, kind, m)
  {
    hide ValueAt, BlockSpan, EscapedSpace;
    if kind.Tag? { return Span(start, Seek(text, start, |text|, c => c == '<'), REDACTED); }
    var index := start;
    if kind.Colon? {
      while index < |text| && IsSpace(r, text[index]) && !IsNewline(text[index])
        invariant start <= index <= |text| && SkipInLine(r, text, index) == SkipInLine(r, text, start)
      {
        index := index + 1;
      }
      if index < |text| && IsNewline(text[index]) {
        var span := FindBlockSpan(r, text, index, m.keyStart);
        return Span(span.0, span.1, REDACTED);
      }
    } else {
      var escape := None;
      while index < |text|
        invariant start <= index <= |text| && (escape.Some? ==> start <= escape.value < index)
        invariant SkipLead(r, text, index, escape) == SkipLead(r, text, start, None)
      {
        if IsSpace(r, text[index]) {
          index := index + 1;
        } else if EscapedSpace(r, text, index) > 0 {
          escape := if escape.None? then Some(index) else escape;
          index := index + EscapedSpace(r, text, index);
        } else {
          break;
        }
      }
      if escape.Some? {
        if index >= |text| { return Span(escape.value, |text|, REDACTED); }
        // The recursive call of the source: at `index` there is neither whitespace nor an escape left to skip.
        var value := FindValueAt(text, index, m);
        return if value.Span? then Span(escape.value, Max(value.end, index), REDACTED) else value;
      }
    }
    if index >= |text| { return Span(index, index, ""); }
    f := FindValueAt(text, index, m);
  }

  method FindPair(r: Reader, text: string, keyStart: nat, keyEnd: nat) returns (f: Found)
    requires keyStart < keyEnd <= |text|
    ensures f == PairSpan(r, text, keyStart, keyEnd)
  {
    hide LocateValue, ValueSpan, InQueryString;
    var key := text[keyStart..keyEnd];
    if !r.sensitive(key) { return NoValue; }
    var located := Locate(r, text, keyStart, keyEnd);
    if located.None? { return NoValue; }
    var (start, kind) := located.value;
    var header := r.header(key);
    f := FindValue(r, text, start, kind,
                   Manner(keyStart, header, kind.Colon? || (header && kind.Equals?),
                          kind.Equals? && InQueryString(text, keyStart)));
  }

  // ---------------------------------------------------------------- the scan

  /** A maximal run of key characters of the text between `lo` and `hi`. */
  predicate IsRun(r: Reader, text: string, lo: nat, hi: nat, a: nat, b: nat) {
    && lo <= a < b <= hi <= |text|
    && (forall k :: a <= k < b ==> IsKeyChar(r, text[k]))
    && (a == lo || !IsKeyChar(r, text[a - 1]))
    && (b == hi || !IsKeyChar(r, text[b]))
  }

  function NextKey(r: Reader, text: string, position: nat, limit: nat): (a: nat)
    requires position <= limit <= |text|
    ensures position <= a <= limit
    ensures forall k :: position <= k < a ==> !IsKeyChar(r, text[k])
    ensures a < limit ==> IsKeyChar(r, text[a])
  {
    Seek(text, position, limit, c => IsKeyChar(r, c))
  }

  function KeyEnd(r: Reader, text: string, a: nat, limit: nat): (b: nat)
    requires a < limit <= |text| && IsKeyChar(r, text[a])
    ensures a < b <= limit
    ensures forall k :: a <= k < b ==> IsKeyChar(r, text[k])
    ensures b < limit ==> !IsKeyChar(r, text[b])
  {
    Run(text, a, limit, c => IsKeyChar(r, c))
  }

  datatype Verdict = Swallows | Contains | Fails

  /** `_swallows_a_value` from `position` on, with `examined` values already found inside the span. */
  function Swallowed(r: Reader, text: string, position: nat, end: nat, examined: nat): Verdict
    requires position <= end <= |text|
    decreases end - position
  {
    var a := NextKey(r, text, position, end);
    if a == end then Contains
    else
      var b := KeyEnd(r, text, a, end);
      match PairSpan(r, text, a, b)
      case NoValue => Swallowed(r, text, b, end, examined)
      case Broken => Fails
      case Span(_, inner, _) =>
        if examined + 1 > MAX_SWALLOWED_KEYS || inner > end then Swallows
        else Swallowed(r, text, b, end, examined + 1)
  }

  /** No key inside the span has a value that reaches beyond it. */
  ghost predicate Closed(r: Reader, text: string, start: nat, end: nat) {
    forall a: nat, b: nat :: IsRun(r, text, start, end, a, b) ==>
      var f := PairSpan(r, text, a, b);
      !f.Broken? && (f.Span? ==> f.end <= end)
  }

  lemma {:induction false} ContainsIsClosed(r: Reader, text: string, start: nat, position: nat, end: nat, examined: nat)
    requires start <= position <= end <= |text|
    requires position == start || (position < end ==> !IsKeyChar(r, text[position]))
    requires Swallowed(r, text, position, end, examined) == Contains
    ensures forall a: nat, b: nat :: IsRun(r, text, start, end, a, b) && position <= a ==>
      var f := PairSpan(r, text, a, b);
      !f.Broken? && (f.Span? ==> f.end <= end)
    decreases end - position
  {
    hide PairSpan;
    var first := NextKey(r, text, position, end);
    if first < end {
      var next := KeyEnd(r, text, first, end);
      var more := if PairSpan(r, text, first, next).Span? then examined + 1 else examined;
      ContainsIsClosed(r, text, start, next, end, more);
      forall a: nat, b: nat | IsRun(r, text, start, end, a, b) && position <= a < next
        ensures a == first && b == next
      {
        assert IsKeyChar(r, text[a]);
        assert a == start || !IsKeyChar(r, text[a - 1]);
        assert b == end || !IsKeyChar(r, text[b]);
      }
    } else {
      forall a: nat, b: nat ensures !(IsRun(r, text, start, end, a, b) && position <= a) {
        assert IsRun(r, text, start, end, a, b) ==> IsKeyChar(r, text[a]);
      }
    }
  }

  method FindSwallowed(r: Reader, text: string, start: nat, end: nat) returns (v: Verdict)
    requires start <= end <= |text|
    ensures v == Swallowed(r, text, start, end, 0)
    ensures v == Contains ==> Closed(r, text, start, end)
  {
    hide PairSpan;
    var examined := 0;
    var position := NextKey(r, text, start, end);
    ghost var searched := start;
    while position < end
      invariant start <= searched <= position <= end && position == NextKey(r, text, searched, end)
      invariant Swallowed(r, text, searched, end, examined) == Swallowed(r, text, start, end, 0)
      decreases end - searched
    {
      var next := KeyEnd(r, text, position, end);
      var inner := FindPair(r, text, position, next);
      if inner.Broken? { return Fails; }
      if inner.Span? {
        examined := examined + 1;
        if examined > MAX_SWALLOWED_KEYS || inner.end > end { return Swallows; }
      }
      searched := next;
      position := NextKey(r, text, next, end);
    }
    ContainsIsClosed(r, text, start, start, end, 0);
    return Contains;
  }

  /** What the scan makes of the value at `f`: nothing, or a cut; a span that swallows a value is masked to the end. */
  function CutFor(r: Reader, text: string, f: Found): Option<Cut>
    requires f.Span? && f.start < f.end <= |text|
  {
    if f.end == |text| then Some(Cut(f.start, f.end, f.mask))
    else
      match Swallowed(r, text, f.start, f.end, 0)
      case Contains => Some(Cut(f.start, f.end, f.mask))
      case Swallows => Some(Cut(f.start, |text|, REDACTED))
      case Fails => None
  }

  /** The cuts the scan makes from `position` on; `None` when it raises. */
  function ScanPairs(r: Reader, text: string, position: nat): Option<seq<Cut>>
    requires position <= |text|
    decreases |text| - position
  {
    var a := NextKey(r, text, position, |text|);
    if a == |text| then Some([])
    else
      var b := KeyEnd(r, text, a, |text|);
      var f := PairSpan(r, text, a, b);
      if f.Broken? then None
      else if f.NoValue? || f.end <= f.start then ScanPairs(r, text, b)
      else
        match CutFor(r, text, f)
        case None => None
        case Some(cut) => Behind(cut, ScanPairs(r, text, cut.end))
  }

  function Behind(cut: Cut, rest: Option<seq<Cut>>): Option<seq<Cut>> {
    if rest.None? then None else Some([cut] + rest.value)
  }

  /** `_scrub_pairs`; `None` when a scanner raises. */
  method ScrubPairs(r: Reader, text: string) returns (out: Option<string>, ghost cuts: seq<Cut>)
    ensures out.None? <==> ScanPairs(r, text, 0).None?
    ensures out.Some? ==> ScanPairs(r, text, 0) == Some(cuts)
    ensures out.Some? ==> InOrder(cuts, |text|) && out.value == Splice(text, cuts, |text|)
  {
    hide PairSpan, Splice, Swallowed, InOrder;
    var parts := "";
    cuts := [];
    var copied, position := 0, 0;
    NothingSpliced(text);
    var key := NextKey(r, text, 0, |text|);
    while key < |text|
      invariant 0 <= copied <= position <= key <= |text| && key == NextKey(r, text, position, |text|)
      invariant Assembled(text, cuts, copied, parts)
      invariant ScanPairs(r, text, 0) == After(cuts, ScanPairs(r, text, position))
      decreases |text| - position
    {
      position := KeyEnd(r, text, key, |text|);
      var f := FindPair(r, text, key, position);
      if f.Broken? { return None, []; }
      if f.Span? && f.start < f.end {
        var (start, end, replacement) := (f.start, f.end, f.mask);
        if end < |text| {
          var verdict := FindSwallowed(r, text, start, end);
          if verdict.Fails? { return None, []; }
          if verdict.Swallows? { end, replacement := |text|, REDACTED; }
        }
        ghost var c := Cut(start, end, replacement);
        assert CutFor(r, text, f) == Some(c);
        AssembledCut(text, cuts, copied, parts, c);
        AfterBehind(cuts, c, ScanPairs(r, text, end));
        parts := parts + text[copied..start] + replacement;
        cuts := cuts + [c];
        copied, position := end, end;
      }
      key := NextKey(r, text, position, |text|);
    }
    SpliceExtends(text, cuts, copied, |text|);
    LaterBound(cuts, copied, |text|);
    assert cuts + [] == cuts;
    out := Some(parts + text[copied..|text|]);
  }

  ghost predicate Assembled(text: string, cuts: seq<Cut>, copied: nat, parts: string) {
    copied <= |text| && InOrder(cuts, copied) && parts == Splice(text, cuts, copied)
  }

  lemma AssembledCut(text: string, cuts: seq<Cut>, copied: nat, parts: string, c: Cut)
    requires Assembled(text, cuts, copied, parts) && copied <= c.start < c.end <= |text|
    ensures Assembled(text, cuts + [c], c.end, parts + text[copied..c.start] + c.mask)
  {
    hide Splice;
    SpliceExtends(text, cuts, copied, c.start);
    SpliceCut(text, cuts, c);
  }

  lemma LaterBound(cuts: seq<Cut>, copied: nat, n: nat)
    requires InOrder(cuts, copied) && copied <= n
    ensures InOrder(cuts, n)
  {
  }

  function After(cuts: seq<Cut>, rest: Option<seq<Cut>>): Option<seq<Cut>> {
    if rest.None? then None else Some(cuts + rest.value)
  }

  lemma AfterBehind(cuts: seq<Cut>, cut: Cut, rest: Option<seq<Cut>>)
    ensures After(cuts, Behind(cut, rest)) == After(cuts + [cut], rest)
  {
    if rest.Some? {
      assert cuts + ([cut] + rest.value) == cuts + [cut] + rest.value;
    }
  }

  lemma NothingSpliced(text: string)
    ensures InOrder([], 0) && Splice(text, [], 0) == ""
    ensures forall rest :: After([], rest) == rest
  {
    forall rest: Option<seq<Cut>> | rest.Some? ensures After([], rest) == rest {
      assert [] + rest.value == rest.value;
    }
  }

  // ---------------------------------------------------------------- what the scan guarantees

  /** The cut starts where the value of the key from `a` to `b` starts and hides all of it. */
  predicate Masks(r: Reader, text: string, c: Cut, a: nat, b: nat) {
    && a < b <= c.start && c.start <= |text|
    && PairSpan(r, text, a, b).Span?
    && PairSpan(r, text, a, b).start == c.start && PairSpan(r, text, a, b).end <= c.end
  }

  /** A cut is there because of a sensitive key in front of it. */
  ghost predicate Keyed(r: Reader, text: string, c: Cut) {
    exists a: nat, b: nat :: Masks(r, text, c, a, b) && r.sensitive(text[a..b])
  }

  /** The position lies behind the key of a cut and before the end of the cut. */
  ghost predicate PassedOver(r: Reader, text: string, c: Cut, i: nat) {
    i < c.end && exists a: nat, b: nat :: Masks(r, text, c, a, b) && b <= i
  }

  /** The value of the key from `a` to `b`, if there is one, is hidden by a cut, or the key itself was passed over. */
  ghost predicate Handled(r: Reader, text: string, cuts: seq<Cut>, a: nat, b: nat)
    requires a < b <= |text|
  {
    var f := PairSpan(r, text, a, b);
    || (!f.Broken? && (f.Span? && f.start < f.end ==> exists c :: c in cuts && Masks(r, text, c, a, b)))
    || exists c :: c in cuts && PassedOver(r, text, c, a)
  }

  /** What every cut is: keyed, closed, ended where a value ends, and replaced by text no placeholder can grow from. */
  ghost predicate Proper(r: Reader, text: string, c: Cut) {
    && c.start < c.end <= |text|
    && Keyed(r, text, c)
    && (c.end == |text| || Closed(r, text, c.start, c.end))
    && AtBoundary(text, c.end)
    && Fragments.Inert(c.mask)
  }

  lemma ValueMaskIsInert(text: string, index: nat, m: Manner)
    requires index < |text| && ValueAt(text, index, m).Span?
    ensures Fragments.Inert(ValueAt(text, index, m).mask)
  {
    hide UnquotedFrom, ClosingQuote, Backslashes;
    assert forall quote: char :: IsQuote(quote) ==>
      Fragments.Inert([quote] + REDACTED) && Fragments.Inert([quote] + REDACTED + [quote]);
  }

  lemma MaskIsInert(r: Reader, text: string, keyStart: nat, keyEnd: nat)
    requires keyStart < keyEnd <= |text|
    ensures var f := PairSpan(r, text, keyStart, keyEnd);
      f.Span? && f.start < f.end ==> Fragments.Inert(f.mask)
  {
    hide ValueAt, BlockSpan, LocateValue, Fragments.Inert;
    assert Fragments.Inert(REDACTED) by { RedactedIsInert(); }
    forall index: nat, m | index < |text| && ValueAt(text, index, m).Span?
      ensures Fragments.Inert(ValueAt(text, index, m).mask)
    {
      ValueMaskIsInert(text, index, m);
    }
  }

  lemma RedactedIsInert()
    ensures Fragments.Inert(REDACTED)
  {
  }

  /** A cut of the scan is proper. */
  lemma CutIsProper(r: Reader, text: string, a: nat, b: nat)
    requires a < b <= |text|
    requires var f := PairSpan(r, text, a, b); f.Span? && f.start < f.end && CutFor(r, text, f).Some?
    ensures var c := CutFor(r, text, PairSpan(r, text, a, b)).value;
      Proper(r, text, c) && Masks(r, text, c, a, b)
  {
    hide LocateValue, ValueSpan, Fragments.Inert, Closed;
    var f := PairSpan(r, text, a, b);
    MaskIsInert(r, text, a, b);
    RedactedIsInert();
    MasksEndAtBoundaries(r, text, a, b);
    if f.end < |text| && Swallowed(r, text, f.start, f.end, 0) == Contains {
      SpanIsClosed(r, text, f.start, f.end);
    }
    var c := CutFor(r, text, f).value;
    assert Masks(r, text, c, a, b) && r.sensitive(text[a..b]);
  }

  lemma SpanIsClosed(r: Reader, text: string, start: nat, end: nat)
    requires start <= end <= |text| && Swallowed(r, text, start, end, 0) == Contains
    ensures Closed(r, text, start, end)
  {
    hide PairSpan, Swallowed;
    ContainsIsClosed(r, text, start, start, end, 0);
  }

  lemma {:induction false} CutsAreProper(r: Reader, text: string, position: nat)
    requires position <= |text| && ScanPairs(r, text, position).Some?
    ensures var cuts := ScanPairs(r, text, position).value;
      && InOrder(cuts, |text|)
      && forall c :: c in cuts ==> position <= c.start && Proper(r, text, c)
    decreases |text| - position
  {
    hide PairSpan, Proper, Swallowed;
    var a := NextKey(r, text, position, |text|);
    if a < |text| {
      var b := KeyEnd(r, text, a, |text|);
      var f := PairSpan(r, text, a, b);
      if f.NoValue? || f.end <= f.start {
        CutsAreProper(r, text, b);
      } else {
        CutIsProper(r, text, a, b);
        var c := CutFor(r, text, f).value;
        CutsAreProper(r, text, c.end);
        CutInFront(c, ScanPairs(r, text, c.end).value, |text|);
      }
    }
  }

  lemma CutInFront(c: Cut, rest: seq<Cut>, n: nat)
    requires c.start < c.end <= n && InOrder(rest, n) && forall d :: d in rest ==> c.end <= d.start
    ensures InOrder([c] + rest, n)
  {
  }

  lemma HandledByMore(r: Reader, text: string, cuts: seq<Cut>, more: seq<Cut>, a: nat, b: nat)
    requires a < b <= |text| && Handled(r, text, cuts, a, b) && forall c :: c in cuts ==> c in more
    ensures Handled(r, text, more, a, b)
  {
    hide PairSpan, Masks, PassedOver;
  }

  lemma HandledHere(r: Reader, text: string, cuts: seq<Cut>, c: Cut, a: nat, b: nat)
    requires a < b <= |text| && c in cuts && Masks(r, text, c, a, b)
    ensures Handled(r, text, cuts, a, b)
  {
    hide PairSpan, PassedOver;
  }

  lemma PassedOverHere(r: Reader, text: string, cuts: seq<Cut>, c: Cut, a: nat, b: nat, i: nat, j: nat)
    requires c in cuts && Masks(r, text, c, a, b) && b <= i < c.end && i < j <= |text|
    ensures Handled(r, text, cuts, i, j)
  {
    hide PairSpan, Masks;
    assert PassedOver(r, text, c, i);
  }

  /** Two maximal runs that overlap are one. */
  lemma SameRun(r: Reader, text: string, position: nat, first: nat, next: nat, a: nat, b: nat)
    requires position <= |text| && first == NextKey(r, text, position, |text|) < |text|
    requires next == KeyEnd(r, text, first, |text|) && position <= a && IsRun(r, text, 0, |text|, a, b)
    ensures (a == first && b == next) || next <= a
  {
    assert IsKeyChar(r, text[a]);
    assert a == 0 || !IsKeyChar(r, text[a - 1]);
    assert b == |text| || !IsKeyChar(r, text[b]);
  }

  /** No sensitive key is missed: every run of key characters from `position` on is handled. */
  lemma {:induction false} EveryKeyIsHandled(r: Reader, text: string, position: nat, i: nat, j: nat)
    requires position <= |text| && ScanPairs(r, text, position).Some?
    requires IsRun(r, text, 0, |text|, i, j) && position <= i
    ensures Handled(r, text, ScanPairs(r, text, position).value, i, j)
    decreases |text| - position
  {
    hide PairSpan, Handled, IsKeyChar, Swallowed, Masks;
    var cuts := ScanPairs(r, text, position).value;
    var a := NextKey(r, text, position, |text|);
    assert IsKeyChar(r, text[i]);
    var b := KeyEnd(r, text, a, |text|);
    SameRun(r, text, position, a, b, i, j);
    var f := PairSpan(r, text, a, b);
    if f.NoValue? || f.end <= f.start {
      if i == a { NothingToMask(r, text, cuts, a, b); } else { EveryKeyIsHandled(r, text, b, i, j); }
    } else {
      CutIsProper(r, text, a, b);
      var c := CutFor(r, text, f).value;
      if i == a {
        HandledHere(r, text, cuts, c, a, b);
      } else if i < c.end {
        PassedOverHere(r, text, cuts, c, a, b, i, j);
      } else {
        EveryKeyIsHandled(r, text, c.end, i, j);
        HandledByMore(r, text, ScanPairs(r, text, c.end).value, cuts, i, j);
      }
    }
  }

  lemma NothingToMask(r: Reader, text: string, cuts: seq<Cut>, a: nat, b: nat)
    requires a < b <= |text|
    requires var f := PairSpan(r, text, a, b); f.NoValue? || (f.Span? && f.end <= f.start)
    ensures Handled(r, text, cuts, a, b)
  {
    hide PairSpan;
  }

  /**
   * Pair masking is closed. The masked parts stand in order without overlap, each because of a sensitive key in front
   * of it; none ends inside a value, and no key inside one has a value that reaches beyond it. Every sensitive key of
   * the text has its whole value masked, or stands itself behind the key of a masked part and before that part's end.
   */
  lemma PairMaskingIsClosed(r: Reader, text: string, cuts: seq<Cut>)
    requires ScanPairs(r, text, 0) == Some(cuts)
    ensures InOrder(cuts, |text|)
    ensures forall c :: c in cuts ==> Proper(r, text, c)
    ensures forall a: nat, b: nat :: IsRun(r, text, 0, |text|, a, b) ==> Handled(r, text, cuts, a, b)
  {
    hide ScanPairs, Proper, Handled;
    CutsAreProper(r, text, 0);
    forall a: nat, b: nat | IsRun(r, text, 0, |text|, a, b) ensures Handled(r, text, cuts, a, b) {
      EveryKeyIsHandled(r, text, 0, a, b);
    }
  }

  /** Held fragments survive pair masking: each placeholder left is still one of this call, each at most once. */
  lemma PlaceholdersSurvivePairs(r: Reader, text: string, cuts: seq<Cut>, n: nat)
    requires ScanPairs(r, text, 0) == Some(cuts) && Fragments.Sound(text, n)
    ensures InOrder(cuts, |text|) && Fragments.Sound(Splice(text, cuts, |text|), n)
  {
    hide ScanPairs, Fragments.Sound, Fragments.Inert, Splice, Closed, Keyed;
    CutsAreProper(r, text, 0);
    forall k | 0 <= k < |cuts| ensures Fragments.Inert(cuts[k].mask) {
      assert Proper(r, text, cuts[k]);
    }
    Fragments.MaskingIsSound(text, cuts, n);
  }

  // ---------------------------------------------------------------- when the scan raises

  /** The key from `a` to `b` names sensitive data, and its value is a letter that could prefix a string literal. */
  predicate Breaks(r: Reader, text: string, a: nat, b: nat)
    requires a < b <= |text|
  {
    && r.sensitive(text[a..b])
    && LocateValue(r, text, a, b).Some?
    && var (start, kind) := LocateValue(r, text, a, b).value;
    && !kind.Tag?
    && EndsWithPrefix(text, if kind.Colon? then SkipInLine(r, text, start) else SkipLead(r, text, start, None).0)
  }

  lemma BreaksIffBroken(r: Reader, text: string, a: nat, b: nat)
    requires a < b <= |text|
    ensures PairSpan(r, text, a, b).Broken? <==> Breaks(r, text, a, b)
  {
    hide ValueSpan, LocateValue, SkipLead, SkipInLine, EndsWithPrefix;
    if r.sensitive(text[a..b]) && LocateValue(r, text, a, b).Some? {
      var (start, kind) := LocateValue(r, text, a, b).value;
      var header := r.header(text[a..b]);
      var toEndOfLine := kind.Colon? || (header && kind.Equals?);
      BrokenIffFinalPrefix(r, text, start, kind,
                           Manner(a, header, toEndOfLine, kind.Equals? && InQueryString(text, a)));
    }
  }

  /** The key from `i` to `j` is looked at inside a span: few values stand before it, and none reaches out. */
  predicate MeetsInside(r: Reader, text: string, position: nat, end: nat, examined: nat, i: nat, j: nat)
    requires position <= end <= |text|
    decreases end - position
  {
    var a := NextKey(r, text, position, end);
    a < end &&
    var b := KeyEnd(r, text, a, end);
    var f := PairSpan(r, text, a, b);
    || (i, j) == (a, b)
    || (f.NoValue? && MeetsInside(r, text, b, end, examined, i, j))
    || (f.Span? && f.end <= end && examined < MAX_SWALLOWED_KEYS && MeetsInside(r, text, b, end, examined + 1, i, j))
  }

  /** The key from `i` to `j` is one that the scan comes to: it stands in nothing that is masked before. */
  predicate Meets(r: Reader, text: string, position: nat, i: nat, j: nat)
    requires position <= |text|
    decreases |text| - position
  {
    var a := NextKey(r, text, position, |text|);
    a < |text| &&
    var b := KeyEnd(r, text, a, |text|);
    var f := PairSpan(r, text, a, b);
    || (i, j) == (a, b)
    || ((f.NoValue? || (f.Span? && f.end <= f.start)) && Meets(r, text, b, i, j))
    || (f.Span? && f.start < f.end && CutFor(r, text, f).Some? && Meets(r, text, CutFor(r, text, f).value.end, i, j))
  }

  /** Some key that is looked at inside the span breaks. */
  ghost predicate BreaksInside(r: Reader, text: string, position: nat, end: nat, examined: nat)
    requires position <= end <= |text|
  {
    exists i: nat, j: nat :: i < j <= |text|
      && MeetsInside(r, text, position, end, examined, i, j) && Breaks(r, text, i, j)
  }

  /** The key breaks, or one inside the span of its value does. */
  ghost predicate Fatal(r: Reader, text: string, a: nat, b: nat)
    requires a < b <= |text|
  {
    || Breaks(r, text, a, b)
    || (var f := PairSpan(r, text, a, b);
        f.Span? && f.start < f.end < |text| && BreaksInside(r, text, f.start, f.end, 0))
  }

  ghost predicate MeetsFatal(r: Reader, text: string, position: nat)
    requires position <= |text|
  {
    exists i: nat, j: nat :: i < j <= |text| && Meets(r, text, position, i, j) && Fatal(r, text, i, j)
  }

  lemma {:induction false} FailsIffBreaksInside(r: Reader, text: string, position: nat, end: nat, examined: nat)
    requires position <= end <= |text|
    ensures Swallowed(r, text, position, end, examined) == Fails <==> BreaksInside(r, text, position, end, examined)
    decreases end - position
  {
    hide PairSpan, Breaks;
    var a := NextKey(r, text, position, end);
    if a < end {
      var b := KeyEnd(r, text, a, end);
      BreaksIffBroken(r, text, a, b);
      var f := PairSpan(r, text, a, b);
      if !f.Broken? {
        var more := if f.Span? then examined + 1 else examined;
        FailsIffBreaksInside(r, text, b, end, more);
        if f.NoValue? || (f.end <= end && examined < MAX_SWALLOWED_KEYS) {
          InsideGoesOn(r, text, position, end, examined, b, more);
        }
      } else {
        assert MeetsInside(r, text, position, end, examined, a, b);
      }
    }
  }

  lemma InsideGoesOn(r: Reader, text: string, position: nat, end: nat, examined: nat, next: nat, more: nat)
    requires position <= next <= end <= |text|
    requires forall i: nat, j: nat :: i < j <= |text| && Breaks(r, text, i, j) ==>
      (MeetsInside(r, text, position, end, examined, i, j) <==> MeetsInside(r, text, next, end, more, i, j))
    ensures BreaksInside(r, text, position, end, examined) <==> BreaksInside(r, text, next, end, more)
  {
    hide Breaks, MeetsInside;
  }

  /**
   * The scan raises exactly if it comes to a key whose value is a final prefix letter, or masks a span in which it
   * looks at such a key.
   */
  lemma {:induction false} RaisesIffFatal(r: Reader, text: string, position: nat)
    requires position <= |text|
    ensures ScanPairs(r, text, position).None? <==> MeetsFatal(r, text, position)
    decreases |text| - position
  {
    hide PairSpan, Breaks, Swallowed, BreaksInside;
    var a := NextKey(r, text, position, |text|);
    if a < |text| {
      var b := KeyEnd(r, text, a, |text|);
      BreaksIffBroken(r, text, a, b);
      var f := PairSpan(r, text, a, b);
      assert Meets(r, text, position, a, b);
      if f.Span? && f.start < f.end < |text| { FailsIffBreaksInside(r, text, f.start, f.end, 0); }
      if !Fatal(r, text, a, b) {
        var next := if f.NoValue? || f.end <= f.start then b else CutFor(r, text, f).value.end;
        RaisesIffFatal(r, text, next);
        ScanGoesOn(r, text, position, a, b, next);
      }
    }
  }

  lemma ScanGoesOn(r: Reader, text: string, position: nat, a: nat, b: nat, next: nat)
    requires position <= a < b <= |text| && next <= |text| && !Fatal(r, text, a, b)
    requires forall i: nat, j: nat :: i < j <= |text| ==>
      (Meets(r, text, position, i, j) <==> (i, j) == (a, b) || Meets(r, text, next, i, j))
    ensures MeetsFatal(r, text, position) <==> MeetsFatal(r, text, next)
  {
    hide Fatal, Meets;
  }

  /** So it can raise only on a text that ends with a letter that could prefix a string literal. */
  lemma RaisesOnlyAtAPrefix(r: Reader, text: string)
    requires ScanPairs(r, text, 0).None?
    ensures |text| > 0 && EndsWithPrefix(text, |text| - 1)
  {
    hide Meets, MeetsInside, PairSpan, LocateValue, SkipLead, SkipInLine;
    RaisesIffFatal(r, text, 0);
  }

  /** The scan of `password=b` raises. */
  lemma PasswordOfOneLetterRaises(r: Reader)
    requires r.sensitive("password") && !r.space('b' as nat)
    requires !r.word('=') && forall c :: c in "password" ==> r.word(c)
    ensures ScanPairs(r, "password=b", 0).None?
  {
    hide PairSpan;
    var text := "password=b";
    PasswordOfOneLetter(r);
    assert forall k :: 0 <= k < 8 ==> text[k] in "password";
    assert IsKeyChar(r, text[0]) && !IsKeyChar(r, text[8]);
    assert NextKey(r, text, 0, |text|) == 0 && KeyEnd(r, text, 0, |text|) == 8;
  }
}
