/** The work and output allowance shared by every value of one sanitisation, as a value. */
module Ledgers {
  import opened Text
  import opened Json
  import opened Values

  /**
   * The fields of the budget object. `expanded` and `cycles` are history: the containers whose content was
   * read, in order, and those reported as cycles. Nothing is ever decided by them.
   */
  datatype Ledger = Ledger(
    nodes: int, scan: int, output: int, active: set<Id>, seen: set<Id>, expanded: seq<Id>, cycles: set<Id>)
  {
    predicate Exhausted() {
      nodes <= 0 || output <= 0
    }
  }

  const FRESH := Ledger(MAX_EVENT_NODES, MAX_EVENT_SCAN, MAX_EVENT_OUTPUT, {}, {}, [], {})

  datatype Outcome<+T> = Done(value: T, left: Ledger) | Raised(left: Ledger)

  /** `_Budget.charge`. */
  function Charge(length: nat, l: Ledger, nesting: nat): (r: (bool, Ledger)) {
    if nesting > 0 then (true, l)
    else
      var cost := length + SEPARATOR_COST;
      if cost > l.output then (false, l.(output := 0)) else (true, l.(output := l.output - cost))
  }

  /** `_emit`: an already safe string, shortened to what is left of the output. */
  function Emit(text: string, l: Ledger, nesting: nat): (r: (string, Ledger)) {
    if nesting > 0 then (text, l)
    else
      var cost := |Quote(text)| + SEPARATOR_COST;
      if cost <= l.output then (text, l.(output := l.output - cost))
      else
        var keep := Max(0, l.output - |TRUNCATED| - 5) / (if IsAscii(text) then 6 else 12);
        (if keep > 0 then Take(text, keep) + " " + TRUNCATED else TRUNCATED, l.(output := 0))
  }

  /** `_marker`. */
  function Marker(text: string, l: Ledger, nesting: nat): (r: (string, Ledger)) {
    var (fits, left) := Charge(|text| + 2, l, nesting);
    (if fits then text else TRUNCATED, left)
  }

  /** A cut text and the marker behind it, at `width` characters for each one kept. */
  lemma ShortenedLength(kept: string, width: nat)
    requires forall i :: 0 <= i < |kept| ==> |Escape(kept[i])| <= width
    ensures |Quote(kept + " " + TRUNCATED)| <= width * |kept| + 14
  {
    hide Escape;
    var tail := " " + TRUNCATED;
    assert kept + " " + TRUNCATED == kept + tail;
    EscapeConcat(kept, tail);
    EscapeWidth(kept, width);
    PlainQuote(tail);
    assert |Quote(tail)| == 2 + |EscapeAll(tail)| == 14;
  }

  /** What `_emit` returns is paid for, or it is the bare marker and the output is spent. */
  lemma EmitPays(text: string, l: Ledger)
    requires l.output >= 0
    ensures var (s, left) := Emit(text, l, 0);
      && left == l.(output := left.output)
      && 0 <= left.output <= l.output
      && (|Quote(s)| + 2 <= l.output - left.output || (s == TRUNCATED && left.output == 0))
  {
    hide Quote;
    var cut := Max(0, l.output - |TRUNCATED| - 5);
    if |Quote(text)| + SEPARATOR_COST > l.output {
      if IsAscii(text) {
        ShortenedLength(Take(text, cut / 6), 6);
      } else {
        ShortenedLength(Take(text, cut / 12), 12);
      }
    }
  }

  lemma TruncatedWeight()
    ensures |Quote(TRUNCATED)| == 13
  {
    PlainQuote(TRUNCATED);
  }
}
