/** The character scanners of the text rules, as functions of an index. */
module Scanning {
  import opened Text
  import opened Values

  /** Character classes and key classification the scanners rely on. */
  datatype Reader = Reader(word: char -> bool, space: nat -> bool, sensitive: string -> bool, header: string -> bool)

  predicate IsQuote(c: char) { c == '"' || c == '\'' }
  predicate IsOpening(c: char) { c == '(' || c == '[' || c == '{' }
  predicate IsClosing(c: char) { c == ')' || c == ']' || c == '}' }
  predicate IsNewline(c: char) { c == '\r' || c == '\n' }
  predicate IsBlank(c: char) { c == ' ' || c == '\t' }
  predicate IsDelimiter(c: char) { IsBlank(c) || IsNewline(c) || c == '\U{0B}' || c == '\U{0C}' }
  predicate IsPrefix(c: char) { c in "bBuUrReE" }
  predicate IsTrailer(c: char) { c in "\\\"'])}+" }

  predicate IsSpace(r: Reader, c: char) {
    r.space(c as nat)
  }

  predicate IsKeyChar(r: Reader, c: char) {
    r.word(c) || c == '.' || c == '-' || c == '%'
  }

  /** `text.startswith(c, i)`. */
  predicate StartsWith(text: string, c: char, i: nat) {
    i < |text| && text[i] == c
  }

  /** The first position from `i` on, before `limit`, at which `stops` holds; `limit` if there is none. */
  function Seek(text: string, i: nat, limit: nat, stops: char -> bool): (r: nat)
    requires i <= limit <= |text|
    ensures i <= r <= limit
    ensures forall k :: i <= k < r ==> !stops(text[k])
    ensures r < limit ==> stops(text[r])
    decreases limit - i
  {
    if i == limit || stops(text[i]) then i else Seek(text, i + 1, limit, stops)
  }

  /** The end of the run of characters from `i` on, before `limit`, for which `goes` holds. */
  function Run(text: string, i: nat, limit: nat, goes: char -> bool): (r: nat)
    requires i <= limit <= |text|
    ensures i <= r <= limit
    ensures forall k :: i <= k < r ==> goes(text[k])
    ensures r < limit ==> !goes(text[r])
    decreases limit - i
  {
    if i == limit || !goes(text[i]) then i else Run(text, i + 1, limit, goes)
  }

  function Backslashes(text: string, i: nat, limit: nat): (r: nat)
    requires i <= limit <= |text|
    ensures i <= r <= limit
    ensures forall k :: i <= k < r ==> text[k] == '\\'
    ensures r < limit ==> text[r] != '\\'
    decreases limit - i
  {
    if i == limit || text[i] != '\\' then i else Backslashes(text, i + 1, limit)
  }

  // ---------------------------------------------------------------- quoted values

  /** `_closing_quote` from `index` on. */
  function ClosingQuote(text: string, opening: nat, index: nat, limit: nat): (r: Option<nat>)
    requires opening < index && opening < |text| && limit <= |text|
    ensures r.Some? ==> index <= r.value < limit && text[r.value] == text[opening]
    decreases limit - index
  {
    var quote := text[opening];
    if index >= limit then None
    else if text[index] == '\\' then
      var run := Backslashes(text, index, limit);
      if run - index > 1 && StartsWith(text, quote, run) then None
      else ClosingQuote(text, opening, run + 1, limit)
    else if text[index] == quote then
      if index > opening + 1 && StartsWith(text, quote, index + 1) then ClosingQuote(text, opening, index + 2, limit)
      else Some(index)
    else ClosingQuote(text, opening, index + 1, limit)
  }

  // ---------------------------------------------------------------- unquoted values

  function LineEnd(text: string, start: nat): (r: nat)
    requires start <= |text|
    ensures start <= r <= |text|
    ensures forall k :: start <= k < r ==> !IsNewline(text[k])
    ensures r < |text| ==> IsNewline(text[r])
  {
    Seek(text, start, |text|, IsNewline)
  }

  /** The characters that end an unquoted value outside brackets. */
  predicate EndsValue(c: char, toEndOfLine: bool, inQuery: bool) {
    !toEndOfLine && (IsDelimiter(c) || (inQuery && c == '&'))
  }

  /** `_unquoted_end` from `index` on, inside `depth` brackets. */
  function UnquotedFrom(text: string, start: nat, index: nat, depth: nat, toEndOfLine: bool, inQuery: bool): (r: nat)
    requires start < |text| && start <= index
    ensures start <= r <= |text|
    decreases Max(|text| - index, 0)
  {
    if index >= |text| then |text|
    else
      var here := text[index];
      var spansLines := IsOpening(text[start]);
      if IsNewline(here) && !(spansLines && depth > 0) then index
      else if here == '\\' then
        UnquotedFrom(text, start, Backslashes(text, index, |text|) + 1, depth, toEndOfLine, inQuery)
      else if IsQuote(here) && (depth > 0 || !toEndOfLine) then
        var limit := if spansLines && depth > 0 then |text| else LineEnd(text, start);
        (match ClosingQuote(text, index, index + 1, limit)
         case None => limit
         case Some(closing) => UnquotedFrom(text, start, closing + 1, depth, toEndOfLine, inQuery))
      else if IsOpening(here) then UnquotedFrom(text, start, index + 1, depth + 1, toEndOfLine, inQuery)
      else if IsClosing(here) then UnquotedFrom(text, start, index + 1, Max(0, depth - 1), toEndOfLine, inQuery)
      else if depth == 0 && EndsValue(here, toEndOfLine, inQuery) then index
      else UnquotedFrom(text, start, index + 1, depth, toEndOfLine, inQuery)
  }

  function UnquotedEnd(text: string, start: nat, toEndOfLine: bool, inQuery: bool): nat
    requires start < |text|
  {
    UnquotedFrom(text, start, start, 0, toEndOfLine, inQuery)
  }

  // ---------------------------------------------------------------- block values

  /** One past the last newline before `i`. */
  function LineStart(text: string, i: nat): (r: nat)
    requires i <= |text|
    ensures r <= i
  {
    if i == 0 || IsNewline(text[i - 1]) then i else LineStart(text, i - 1)
  }

  /** Where the lines that belong to a block value end: those indented below its key. */
  function BlockEnd(text: string, end: nat, keyIndent: nat): (r: nat)
    requires end <= |text|
    ensures end <= r <= |text|
    ensures end < |text| && IsNewline(text[end]) && r < |text| ==> IsNewline(text[r])
    decreases |text| - end
  {
    if end == |text| then end
    else
      var following := if text[end] == '\r' && StartsWith(text, '\n', end + 1) then end + 2 else end + 1;
      var indent := Run(text, following, |text|, IsBlank);
      if indent == |text| || IsNewline(text[indent]) || indent - following <= keyIndent then end
      else BlockEnd(text, LineEnd(text, indent), keyIndent)
  }

  function KeyIndent(text: string, keyStart: nat): nat
    requires keyStart <= |text|
  {
    var lineStart := LineStart(text, keyStart);
    Run(text, lineStart, keyStart, IsBlank) - lineStart
  }

  /** `_block_span`. */
  function BlockSpan(r: Reader, text: string, newlineAt: nat, keyStart: nat): (span: (nat, nat))
    requires newlineAt <= |text| && keyStart <= |text|
    ensures newlineAt <= span.0 <= span.1 <= |text|
  {
    var start := Run(text, newlineAt, |text|, c => IsSpace(r, c));
    if start == |text| then (start, start) else (start, BlockEnd(text, LineEnd(text, start), KeyIndent(text, keyStart)))
  }

  // ---------------------------------------------------------------- keys and what follows them

  const QUERY_LOOKBACK := 4_096
  const MAX_SUBSCRIPT_LENGTH := 64

  /** `_in_query_string`. */
  function InQueryString(text: string, keyStart: nat): bool
    requires keyStart <= |text|
  {
    if keyStart > 0 && (text[keyStart - 1] == '&' || text[keyStart - 1] == '?') then true
    else
      var window := if keyStart < QUERY_LOOKBACK then 0 else keyStart - QUERY_LOOKBACK;
      '?' in text[TokenStart(text, window, keyStart)..keyStart]
  }

  /** One past the last space, tab or newline before `i`, not before `window`. */
  function TokenStart(text: string, window: nat, i: nat): (r: nat)
    requires window <= i <= |text|
    ensures window <= r <= i
    decreases i
  {
    if i == window || IsBlank(text[i - 1]) || IsNewline(text[i - 1]) then i else TokenStart(text, window, i - 1)
  }

  predicate IsHex(c: char) {
    IsDigit(c) || 'a' <= c <= 'f' || 'A' <= c <= 'F'
  }

  function HexValue(c: char): nat
    requires IsHex(c)
  {
    if IsDigit(c) then c as int - '0' as int
    else if 'a' <= c <= 'f' then c as int - 'a' as int + 10
    else c as int - 'A' as int + 10
  }

  /** `int(code, 16)`. */
  function HexNumber(code: string): nat
    requires forall i :: 0 <= i < |code| ==> IsHex(code[i])
  {
    if code == "" then 0 else 16 * HexNumber(code[..|code| - 1]) + HexValue(code[|code| - 1])
  }

  /** `_escaped_space`: the length of an escaped whitespace sequence at `index`, 0 if there is none. */
  function EscapedSpace(r: Reader, text: string, index: nat): (n: nat)
    requires index <= |text|
    ensures index + n <= |text|
    ensures n > 0 ==> text[index] == '\\'
  {
    var end := Backslashes(text, index, |text|);
    if end == index || end == |text| then 0
    else
      var here := text[end];
      if here in "ntrfv" then end + 1 - index
      else
        var digits := if here == 'x' then 2 else if here == 'u' then 4 else 0;
        if digits > 0 && end + 1 + digits <= |text| && (forall k :: end < k <= end + digits ==> IsHex(text[k]))
           && r.space(HexNumber(text[end + 1..end + 1 + digits]))
        then end + 1 + digits - index
        else 0
  }

  /** `_opens_quote`: at or past the last character the slices are empty, and an empty string is in any string. */
  predicate OpensQuote(text: string, index: nat)
    requires index <= |text|
  {
    if index == |text| then true
    else if IsPrefix(text[index]) && (index + 1 == |text| || IsQuote(text[index + 1])) then true
    else
      var end := Backslashes(text, index, |text|);
      end < |text| && IsQuote(text[end])
  }

  /** How a value is introduced. */
  datatype Kind = Equals | Colon | Tag | Quoted

  /** The first loop of `_locate_value`: what may sit between a key and its separator. */
  function SkipTrailers(r: Reader, text: string, index: nat, closedQuote: bool): (s: (nat, bool))
    requires index <= |text|
    ensures index <= s.0 <= |text|
    decreases |text| - index
  {
    if index == |text| then (index, closedQuote)
    else
      var here := text[index];
      if here == '\\' then
        if EscapedSpace(r, text, index) > 0 then (index, closedQuote)
        else SkipTrailers(r, text, Backslashes(text, index, |text|), closedQuote)
      else if IsTrailer(here) then SkipTrailers(r, text, index + 1, closedQuote || IsQuote(here))
      else if here == '[' || here == '\U{E000}' then
        var closer := if here == '[' then ']' else '\U{E001}';
        var limit := Min(index + 1 + MAX_SUBSCRIPT_LENGTH, |text|);
        var closing := Seek(text, index + 1, limit, c => c == closer);
        if closing == limit then (index, closedQuote) else SkipTrailers(r, text, closing + 1, closedQuote)
      else (index, closedQuote)
  }

  /** Whitespace, written as it is or escaped. */
  function SkipSpace(r: Reader, text: string, index: nat): (s: nat)
    requires index <= |text|
    ensures index <= s <= |text|
    ensures s < |text| ==> !IsSpace(r, text[s]) && EscapedSpace(r, text, s) == 0
    decreases |text| - index
  {
    if index == |text| then index
    else if IsSpace(r, text[index]) then SkipSpace(r, text, index + 1)
    else if EscapedSpace(r, text, index) > 0 then SkipSpace(r, text, index + EscapedSpace(r, text, index))
    else index
  }

  /** `_locate_value`. */
  function LocateValue(r: Reader, text: string, keyStart: nat, keyEnd: nat): (v: Option<(nat, Kind)>)
    requires keyStart < keyEnd <= |text|
    ensures v.Some? ==> keyEnd <= v.value.0 <= |text|
  {
    var (index, closedQuote) := SkipTrailers(r, text, keyEnd, false);
    var after := SkipSpace(r, text, index);
    if after == |text| then None
    else
      var here := text[after];
      if here == '=' then Some((if StartsWith(text, '>', after + 1) then after + 2 else after + 1, Equals))
      else if here == ':' then
        if StartsWith(text, '=', after + 1) then Some((after + 2, Equals)) else Some((after + 1, Colon))
      else if here == '>' && after == index then Some((after + 1, Tag))
      else if here == ',' && closedQuote then
        var value := Run(text, after + 1, |text|, c => IsSpace(r, c));
        if OpensQuote(text, value) then Some((value, Quoted)) else None
      else if after > index then
        if OpensQuote(text, after) then Some((after, Quoted))
        else if text[keyStart] == '-' then Some((after, Equals))
        else None
      else None
  }

  // ---------------------------------------------------------------- values

  /** What the scan of a value finds; `Broken` when it reads past the end of the text and raises. */
  datatype Found = NoValue | Span(start: nat, end: nat, mask: string) | Broken

  /** How the key of a value was written. */
  datatype Manner = Manner(keyStart: nat, header: bool, toEndOfLine: bool, inQuery: bool)

  /** The value that starts at `index`, whitespace skipped. */
  function ValueAt(text: string, index: nat, m: Manner): (f: Found)
    requires index < |text|
    ensures f.Span? ==> index <= f.start < f.end <= |text| || (f.start == f.end == index)
    ensures !f.NoValue?
  {
    var prefixed := IsPrefix(text[index]) && (index + 1 == |text| || IsQuote(text[index + 1]));
    var quoteAt := if prefixed then index + 1 else index;
    if quoteAt == |text| then Broken
    else if IsQuote(text[quoteAt]) then QuotedValue(text, quoteAt, m)
    else if text[index] == '\\' && OpensEscaped(text, index) then Span(index, |text|, REDACTED)
    else Span(index, UnquotedEnd(text, index, m.toEndOfLine, m.inQuery), REDACTED)
  }

  /** An escaped quote: its depth is unknown. */
  predicate OpensEscaped(text: string, index: nat)
    requires index <= |text|
  {
    var end := Backslashes(text, index, |text|);
    end < |text| && IsQuote(text[end])
  }

  /** Characters behind a closing quote that show the quoted part to be the whole value. */
  predicate ClosesValue(c: char, header: bool) {
    IsNewline(c) || c == ',' || IsClosing(c) || (!header && (c == ';' || c == '&'))
  }

  function QuotedValue(text: string, quoteAt: nat, m: Manner): (f: Found)
    requires quoteAt < |text|
    ensures f.Span? && quoteAt <= f.start < f.end <= |text|
  {
    var quote := text[quoteAt];
    match ClosingQuote(text, quoteAt, quoteAt + 1, |text|)
    case None => Span(quoteAt, |text|, [quote] + REDACTED)
    case Some(closing) =>
      var after := closing + 1;
      var following := Run(text, after, |text|, IsBlank);
      if following == |text| || ClosesValue(text[following], m.header) then
        Span(quoteAt, after, [quote] + REDACTED + [quote])
      else if following == after || m.toEndOfLine then
        Span(quoteAt, UnquotedEnd(text, after, m.toEndOfLine, m.inQuery), REDACTED)
      else Span(quoteAt, after, [quote] + REDACTED + [quote])
  }

  /** The second loop of `_value_span`: whitespace before a value, and the first escape in it. */
  function SkipLead(r: Reader, text: string, index: nat, escape: Option<nat>): (s: (nat, Option<nat>))
    requires index <= |text| && (escape.Some? ==> escape.value < index)
    ensures index <= s.0 <= |text|
    ensures escape.Some? ==> s.1 == escape
    ensures s.1.Some? ==> s.1.value < s.0 && (escape.None? ==> index <= s.1.value)
    ensures s.0 < |text| ==> !IsSpace(r, text[s.0]) && EscapedSpace(r, text, s.0) == 0
    decreases |text| - index
  {
    if index == |text| then (index, escape)
    else if IsSpace(r, text[index]) then SkipLead(r, text, index + 1, escape)
    else
      var n := EscapedSpace(r, text, index);
      if n > 0 then SkipLead(r, text, index + n, if escape.None? then Some(index) else escape)
      else (index, escape)
  }

  /** Whitespace that is no newline. */
  function SkipInLine(r: Reader, text: string, index: nat): (s: nat)
    requires index <= |text|
    ensures index <= s <= |text|
  {
    Run(text, index, |text|, c => IsSpace(r, c) && !IsNewline(c))
  }

  /** `_value_span`. */
  function ValueSpan(r: Reader, text: string, start: nat, kind: Kind, m: Manner): (f: Found)
    requires start <= |text| && m.keyStart <= |text|
    ensures f.Span? ==> start <= f.start <= f.end <= |text|
    ensures !f.NoValue?
  {
    match kind
    case Tag => Span(start, Seek(text, start, |text|, c => c == '<'), REDACTED)
    case Colon =>
      var index := SkipInLine(r, text, start);
      if index == |text| then Span(index, index, "")
      else if IsNewline(text[index]) then
        var (from, end) := BlockSpan(r, text, index, m.keyStart);
        Span(from, end, REDACTED)
      else ValueAt(text, index, m)
    case _ =>
      var (index, escape) := SkipLead(r, text, start, None);
      if escape.None? then if index == |text| then Span(index, index, "") else ValueAt(text, index, m)
      else if index == |text| then Span(escape.value, |text|, REDACTED)
      else
        var f := ValueAt(text, index, m);
        if f.Span? then Span(escape.value, Max(f.end, index), REDACTED) else f
  }

  /** `_pair_span`: the value of the key run from `keyStart` to `keyEnd`. */
  function PairSpan(r: Reader, text: string, keyStart: nat, keyEnd: nat): (f: Found)
    requires keyStart < keyEnd <= |text|
    ensures f.Span? ==> keyEnd <= f.start <= f.end <= |text|
  {
    var key := text[keyStart..keyEnd];
    if !r.sensitive(key) then NoValue
    else
      match LocateValue(r, text, keyStart, keyEnd)
      case None => NoValue
      case Some((start, kind)) =>
        var header := r.header(key);
        ValueSpan(r, text, start, kind,
                  Manner(keyStart, header, kind.Colon? || (header && kind.Equals?),
                         kind.Equals? && InQueryString(text, keyStart)))
  }

  // ---------------------------------------------------------------- what the scanners find

  /** A quote between the two ends of a quoted value is escaped by a backslash or written twice. */
  predicate Escapes(text: string, opening: nat, k: nat)
    requires opening < k < |text|
  {
    text[k] == text[opening] ==>
      || text[k - 1] == '\\'
      || (k - 1 > opening && text[k - 1] == text[opening])
      || StartsWith(text, text[opening], k + 1)
  }

  /** The closing quote is neither escaped nor doubled, and every quote before it is one or the other. */
  lemma {:induction false} ClosingQuoteCloses(text: string, opening: nat, index: nat, limit: nat)
    requires opening < index && opening < |text| && limit <= |text| && IsQuote(text[opening])
    requires index < limit ==> text[index - 1] != '\\'
    ensures var r := ClosingQuote(text, opening, index, limit);
      r.Some? ==>
        && (forall k :: index <= k < r.value ==> Escapes(text, opening, k))
        && text[r.value - 1] != '\\'
        && (r.value == opening + 1 || !StartsWith(text, text[opening], r.value + 1))
    decreases limit - index
  {
    if index < limit {
      if text[index] == '\\' {
        var run := Backslashes(text, index, limit);
        if !(run - index > 1 && StartsWith(text, text[opening], run)) {
          ClosingQuoteCloses(text, opening, run + 1, limit);
        }
      } else if text[index] == text[opening] {
        if index > opening + 1 && StartsWith(text, text[opening], index + 1) {
          ClosingQuoteCloses(text, opening, index + 2, limit);
        }
      } else {
        ClosingQuoteCloses(text, opening, index + 1, limit);
      }
    }
  }

  /** An unquoted value ends with the text, with its line, or at a character that ends values. */
  lemma {:induction false} UnquotedStops(text: string, start: nat, index: nat, depth: nat, toEndOfLine: bool,
                                         inQuery: bool)
    requires start < |text| && start <= index
    ensures var r := UnquotedFrom(text, start, index, depth, toEndOfLine, inQuery);
      r == |text| || IsNewline(text[r]) || EndsValue(text[r], toEndOfLine, inQuery)
    decreases Max(|text| - index, 0)
  {
    if index < |text| {
      var here := text[index];
      var spansLines := IsOpening(text[start]);
      if IsNewline(here) && !(spansLines && depth > 0) {
      } else if here == '\\' {
        UnquotedStops(text, start, Backslashes(text, index, |text|) + 1, depth, toEndOfLine, inQuery);
      } else if IsQuote(here) && (depth > 0 || !toEndOfLine) {
        var limit := if spansLines && depth > 0 then |text| else LineEnd(text, start);
        match ClosingQuote(text, index, index + 1, limit) {
          case None =>
          case Some(closing) => UnquotedStops(text, start, closing + 1, depth, toEndOfLine, inQuery);
        }
      } else if IsOpening(here) {
        UnquotedStops(text, start, index + 1, depth + 1, toEndOfLine, inQuery);
      } else if IsClosing(here) {
        UnquotedStops(text, start, index + 1, Max(0, depth - 1), toEndOfLine, inQuery);
      } else if !(depth == 0 && EndsValue(here, toEndOfLine, inQuery)) {
        UnquotedStops(text, start, index + 1, depth, toEndOfLine, inQuery);
      }
    }
  }

  /** Where a value may end: nothing of it can stand on the other side. */
  predicate AtBoundary(text: string, i: nat)
    requires i <= |text|
  {
    i == |text| || IsDelimiter(text[i]) || IsClosing(text[i]) || text[i] in "&,;<"
  }

  lemma ValueAtBoundary(text: string, index: nat, m: Manner)
    requires index < |text| && ValueAt(text, index, m).Span?
    ensures AtBoundary(text, ValueAt(text, index, m).end)
  {
    hide UnquotedFrom, ClosingQuote;
    UnquotedStops(text, index, index, 0, m.toEndOfLine, m.inQuery);
    var prefixed := IsPrefix(text[index]) && (index + 1 == |text| || IsQuote(text[index + 1]));
    var quoteAt := if prefixed then index + 1 else index;
    if quoteAt < |text| && IsQuote(text[quoteAt]) {
      match ClosingQuote(text, quoteAt, quoteAt + 1, |text|) {
        case None =>
        case Some(closing) =>
          if closing + 1 < |text| {
            UnquotedStops(text, closing + 1, closing + 1, 0, m.toEndOfLine, m.inQuery);
          }
      }
    }
  }

  /** No mask ends in the middle of a value: behind it stands the end of the text or a character that ends values. */
  lemma MasksEndAtBoundaries(r: Reader, text: string, keyStart: nat, keyEnd: nat)
    requires keyStart < keyEnd <= |text|
    ensures var f := PairSpan(r, text, keyStart, keyEnd);
      f.Span? && f.start < f.end ==> AtBoundary(text, f.end)
  {
    hide ValueAt, BlockEnd, LocateValue, UnquotedFrom;
    match LocateValue(r, text, keyStart, keyEnd) {
      case None =>
      case Some((start, kind)) =>
        forall index: nat, m | index < |text| && ValueAt(text, index, m).Span?
          ensures AtBoundary(text, ValueAt(text, index, m).end)
        {
          ValueAtBoundary(text, index, m);
        }
        if kind.Colon? {
          BlockBoundary(r, text, SkipInLine(r, text, start), keyStart);
        }
    }
  }

  lemma BlockBoundary(r: Reader, text: string, newlineAt: nat, keyStart: nat)
    requires newlineAt <= |text| && keyStart <= |text|
    ensures AtBoundary(text, BlockSpan(r, text, newlineAt, keyStart).1)
  {
    var start := Run(text, newlineAt, |text|, c => IsSpace(r, c));
    if start < |text| {
      BlockEndStops(text, LineEnd(text, start), KeyIndent(text, keyStart));
    }
  }

  lemma {:induction false} BlockEndStops(text: string, end: nat, keyIndent: nat)
    requires end <= |text| && (end == |text| || IsNewline(text[end]))
    ensures var r := BlockEnd(text, end, keyIndent);
      r == |text| || IsNewline(text[r])
    decreases |text| - end
  {
    if end < |text| {
      var following := if text[end] == '\r' && StartsWith(text, '\n', end + 1) then end + 2 else end + 1;
      var indent := Run(text, following, |text|, IsBlank);
      if indent < |text| && !IsNewline(text[indent]) && indent - following > keyIndent {
        BlockEndStops(text, LineEnd(text, indent), keyIndent);
      }
    }
  }

  // ---------------------------------------------------------------- when the scan raises

  /** The value is one letter that could prefix a string literal, and the text ends with it. */
  predicate EndsWithPrefix(text: string, index: nat) {
    index + 1 == |text| && IsPrefix(text[index])
  }

  /** The scan of a value raises exactly if the value is a final prefix letter. */
  lemma BrokenIffFinalPrefix(r: Reader, text: string, start: nat, kind: Kind, m: Manner)
    requires start <= |text| && m.keyStart <= |text|
    ensures ValueSpan(r, text, start, kind, m).Broken? <==>
      match kind
      case Tag => false
      case Colon => EndsWithPrefix(text, SkipInLine(r, text, start))
      case _ => EndsWithPrefix(text, SkipLead(r, text, start, None).0)
  {
    hide UnquotedFrom, ClosingQuote;
  }

  /** Reading `b` as the prefix of a quote that is not there: the value of `password=b` is not delimited, it raises. */
  lemma PasswordOfOneLetter(r: Reader)
    requires r.sensitive("password") && !r.space('b' as nat)
    ensures PairSpan(r, "password=b", 0, 8).Broken?
  {
    var text := "password=b";
    assert text[0..8] == "password";
    assert SkipTrailers(r, text, 8, false) == (8, false);
    assert EscapedSpace(r, text, 9) == 0 && EscapedSpace(r, text, 8) == 0;
    assert Backslashes(text, 8, |text|) == 8;
  }
}
