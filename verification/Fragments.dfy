/** Embedded JSON: found and sanitised, held aside as placeholders while the text rules run, put back afterwards. */
module Fragments {
  import opened Text
  import opened Values
  import opened Spans

  const OPEN: char := '\U{E000}'
  const CLOSE: char := '\U{E001}'
  const SUBSTITUTE: char := '\U{FFFD}'
  const JSON_WORK_FACTOR := 8

  predicate IsMark(c: char) {
    c == OPEN || c == CLOSE
  }

  predicate Unmarked(s: string) {
    forall i :: 0 <= i < |s| ==> !IsMark(s[i])
  }

  /** `text.translate(_NO_FRAGMENT_MARKS)`. */
  function WithoutMarks(text: string): (r: string)
    ensures |r| == |text| && Unmarked(r)
    ensures forall i :: 0 <= i < |text| && !IsMark(text[i]) ==> r[i] == text[i]
  {
    seq(|text|, i requires 0 <= i < |text| => if IsMark(text[i]) then SUBSTITUTE else text[i])
  }

  function Placeholder(n: nat): string {
    [OPEN] + Digits(n) + [CLOSE]
  }

  // ---------------------------------------------------------------- finding JSON

  /** What the decoder says of the text from one opener on. */
  datatype Decode = Decoded(end: nat, empty: bool) | Undecodable(position: Option<nat>)

  predicate IsOpener(c: char) {
    c == '{' || c == '['
  }

  /** A decoder that reads at least the opener and stays within the text. */
  ghost predicate Reads(decode: nat -> Decode, n: nat) {
    forall start :: 0 <= start < n ==>
      match decode(start)
      case Decoded(end, _) => start < end <= n
      case Undecodable(position) => position.Some? ==> position.value <= n
  }

  /** `_JSON_OPENER.search(text, position)`; the length of the text if there is none. */
  function NextOpener(text: string, position: nat): (r: nat)
    requires position <= |text|
    ensures position <= r <= |text|
    ensures forall i :: position <= i < r ==> !IsOpener(text[i])
    ensures r < |text| ==> IsOpener(text[r])
    decreases |text| - position
  {
    if position == |text| || IsOpener(text[position]) then position else NextOpener(text, position + 1)
  }

  /** A part of the text and what stands for it while the rules run. */
  datatype Piece = Kept(start: nat, end: nat) | Held(start: nat, end: nat, number: nat) | Masked(start: nat, end: nat)

  /** The pieces cover the text up to `upto`, without gap or overlap. */
  predicate Tiles(pieces: seq<Piece>, upto: nat) {
    if pieces == [] then upto == 0
    else
      var last := pieces[|pieces| - 1];
      last.end == upto && last.start <= last.end && Tiles(pieces[..|pieces| - 1], last.start)
  }

  function HeldCount(pieces: seq<Piece>): nat {
    if pieces == [] then 0
    else HeldCount(pieces[..|pieces| - 1]) + if pieces[|pieces| - 1].Held? then 1 else 0
  }

  /** The held pieces are numbered in the order in which they stand. */
  predicate Numbered(pieces: seq<Piece>) {
    forall k :: 0 <= k < |pieces| && pieces[k].Held? ==> pieces[k].number == HeldCount(pieces[..k])
  }

  function Shown(text: string, p: Piece): string
    requires p.start <= p.end <= |text|
  {
    match p
    case Kept(start, end) => text[start..end]
    case Held(_, _, number) => Placeholder(number)
    case Masked(_, _) => REDACTED
  }

  /** The text with each piece laid out as it is shown. */
  function Layout(text: string, pieces: seq<Piece>, upto: nat): string
    requires upto <= |text| && Tiles(pieces, upto)
  {
    if pieces == [] then ""
    else
      var last := pieces[|pieces| - 1];
      Layout(text, pieces[..|pieces| - 1], last.start) + Shown(text, last)
  }

  lemma TilesSnoc(pieces: seq<Piece>, upto: nat, p: Piece)
    requires Tiles(pieces, upto) && p.start == upto && p.start <= p.end
    ensures Tiles(pieces + [p], p.end)
    ensures HeldCount(pieces + [p]) == HeldCount(pieces) + if p.Held? then 1 else 0
    ensures Numbered(pieces) && (p.Held? ==> p.number == HeldCount(pieces)) ==> Numbered(pieces + [p])
  {
    assert (pieces + [p])[..|pieces|] == pieces;
    forall k | 0 <= k < |pieces| ensures (pieces + [p])[..k] == pieces[..k] {}
  }

  lemma LayoutSnoc(text: string, pieces: seq<Piece>, upto: nat, p: Piece)
    requires Tiles(pieces, upto) && p.start == upto && p.start <= p.end <= |text|
    ensures Tiles(pieces + [p], p.end)
    ensures Layout(text, pieces + [p], p.end) == Layout(text, pieces, upto) + Shown(text, p)
  {
    assert (pieces + [p])[..|pieces|] == pieces;
  }

  // ---------------------------------------------------------------- the scan

  /** The work a scan of a text may take before it gives up. */
  function Allowance(text: string): nat {
    JSON_WORK_FACTOR * |text| + 1_024
  }

  /** What an attempt at the opener `start` costs: the characters up to where it ended or failed, at least one. */
  function Cost(text: string, decode: nat -> Decode, start: nat): (r: int) {
    match decode(start)
    case Decoded(end, _) => end - start
    case Undecodable(failed) => Max(1, (if failed.Some? then failed.value else |text|) - start)
  }

  function Total(text: string, decode: nat -> Decode, attempts: seq<nat>): int {
    if attempts == [] then 0
    else
      var last := |attempts| - 1;
      Total(text, decode, attempts[..last]) + Cost(text, decode, attempts[last])
  }

  /** Where the search for the next opener goes on. */
  function Reached(decode: nat -> Decode, attempts: seq<nat>): nat {
    if attempts == [] then 0
    else
      var start := attempts[|attempts| - 1];
      match decode(start)
      case Decoded(end, _) => end
      case Undecodable(_) => start + 1
  }

  /** The loop's variables: `pieces` up to `copied`, and the openers at which decoding was attempted. */
  datatype Scan = Scan(copied: nat, position: nat, work: int, pieces: seq<Piece>, attempts: seq<nat>)

  /** One attempt. */
  function Tried(text: string, decode: nat -> Decode, nesting: nat, s: Scan, start: nat): Scan {
    var after := s.(
      position := Reached(decode, [start]),
      work := s.work - Cost(text, decode, start),
      attempts := s.attempts + [start]);
    match decode(start)
    case Undecodable(_) => after
    case Decoded(end, empty) =>
      if empty then after
      else
        var p := Read(nesting, start, end, HeldCount(s.pieces));
        after.(copied := end, pieces := s.pieces + [Kept(s.copied, start), p])
  }

  /** A container that was read: held under the next number, or masked where nothing more may be unwrapped. */
  function Read(nesting: nat, start: nat, end: nat, number: nat): Piece {
    if nesting >= MAX_JSON_NESTING then Masked(start, end) else Held(start, end, number)
  }

  /** `_scrub_json_fragments` from where the scan stands. */
  function Extract(text: string, decode: nat -> Decode, nesting: nat, s: Scan): Scan
    requires Reads(decode, |text|) && s.position <= |text|
    decreases |text| - s.position
  {
    var start := NextOpener(text, s.position);
    if start == |text| then s.(copied := |text|, pieces := s.pieces + [Kept(s.copied, |text|)])
    else if s.work <= 0 then
      var given := [Kept(s.copied, start), Masked(start, |text|), Kept(|text|, |text|)];
      s.(copied := |text|, pieces := s.pieces + given)
    else Extract(text, decode, nesting, Tried(text, decode, nesting, s, start))
  }

  function Extracted(text: string, decode: nat -> Decode, nesting: nat): Scan
    requires Reads(decode, |text|)
  {
    Extract(text, decode, nesting, Scan(0, 0, Allowance(text), [], []))
  }

  /** The sanitised forms of the held pieces. */
  function Dumps(dump: nat -> string, pieces: seq<Piece>): (r: seq<string>)
    ensures |r| == HeldCount(pieces)
  {
    if pieces == [] then []
    else
      var last := pieces[|pieces| - 1];
      Dumps(dump, pieces[..|pieces| - 1]) + if last.Held? then [dump(last.start)] else []
  }

  lemma DumpsSnoc(dump: nat -> string, pieces: seq<Piece>, p: Piece)
    ensures Dumps(dump, pieces + [p]) == Dumps(dump, pieces) + if p.Held? then [dump(p.start)] else []
  {
    assert (pieces + [p])[..|pieces|] == pieces;
  }

  /** What is held so far, and what is to be put in its place later. */
  ghost predicate Laid(text: string, dump: nat -> string, pieces: seq<Piece>, upto: nat, held: string,
                       fragments: seq<string>)
  {
    && upto <= |text| && Tiles(pieces, upto)
    && held == Layout(text, pieces, upto) && fragments == Dumps(dump, pieces)
  }

  lemma LaidSnoc(text: string, dump: nat -> string, pieces: seq<Piece>, upto: nat, held: string,
                 fragments: seq<string>, p: Piece)
    requires Laid(text, dump, pieces, upto, held, fragments) && p.start == upto && p.start <= p.end <= |text|
    ensures var more := if p.Held? then [dump(p.start)] else [];
      Laid(text, dump, pieces + [p], p.end, held + Shown(text, p), fragments + more)
  {
    LayoutSnoc(text, pieces, upto, p);
    DumpsSnoc(dump, pieces, p);
  }

  lemma ExtractsFurther(text: string, decode: nat -> Decode, nesting: nat, s: Scan)
    requires Reads(decode, |text|) && s.position <= |text|
    ensures var start, r := NextOpener(text, s.position), Extract(text, decode, nesting, s);
      if start == |text| then r == s.(copied := |text|, pieces := s.pieces + [Kept(s.copied, |text|)])
      else if s.work <= 0 then
        var given := [Kept(s.copied, start), Masked(start, |text|), Kept(|text|, |text|)];
        r == s.(copied := |text|, pieces := s.pieces + given)
      else
        var tried := Tried(text, decode, nesting, s, start);
        start < tried.position <= |text| && r == Extract(text, decode, nesting, tried)
  {
    hide HeldCount;
  }

  /** What stands before a part of the text, and what replaces it. */
  method Replace(text: string, dump: nat -> string, nesting: nat, before: string, known: seq<string>, copied: nat,
                 start: nat, end: nat, ghost pieces: seq<Piece>) returns (held: string, fragments: seq<string>)
    requires Laid(text, dump, pieces, copied, before, known) && copied <= start <= end <= |text|
    ensures var p := Read(nesting, start, end, HeldCount(pieces));
      Laid(text, dump, pieces + [Kept(copied, start), p], end, held, fragments)
  {
    hide Tiles, Layout, HeldCount;
    held, fragments := before + text[copied..start], known;
    LaidSnoc(text, dump, pieces, copied, before, known, Kept(copied, start));
    ghost var kept := pieces + [Kept(copied, start)];
    ghost var p := Read(nesting, start, end, HeldCount(pieces));
    LaidSnoc(text, dump, kept, start, held, fragments, p);
    assert kept + [p] == pieces + [Kept(copied, start), p];
    if nesting >= MAX_JSON_NESTING {
      held := held + REDACTED;
      assert fragments + [] == fragments;
    } else {
      held, fragments := held + Placeholder(|fragments|), fragments + [dump(start)];
    }
  }

  /** `_scrub_json_fragments`. */
  method ScrubJsonFragments(text: string, decode: nat -> Decode, dump: nat -> string, nesting: nat)
      returns (held: string, fragments: seq<string>)
    requires Reads(decode, |text|)
    ensures Laid(text, dump, Extracted(text, decode, nesting).pieces, |text|, held, fragments)
  {
    hide Laid, Extract, HeldCount, Reached, NextOpener;
    held, fragments := "", [];
    var length := |text|;
    var work: int := JSON_WORK_FACTOR * length + 1_024;
    var copied, position := 0, 0;
    ghost var s := Scan(0, 0, work, [], []);
    ghost var pieces: seq<Piece> := [];
    NothingLaid(text, dump);
    var start := NextOpener(text, 0);
    ExtractsFurther(text, decode, nesting, s);
    while start < length
      invariant copied <= position <= start <= length
      invariant start == NextOpener(text, position)
      invariant (s.copied, s.position, s.work, s.pieces) == (copied, position, work, pieces)
      invariant Extract(text, decode, nesting, s) == Extracted(text, decode, nesting)
      invariant Laid(text, dump, pieces, copied, held, fragments)
      decreases length - position
    {
      ExtractsFurther(text, decode, nesting, s);
      if work <= 0 {
        held := GiveUp(text, dump, held, fragments, copied, start, pieces);
        pieces := pieces + [Kept(copied, start), Masked(start, length)];
        copied := length;
        assert pieces + [Kept(length, length)] == Extracted(text, decode, nesting).pieces;
        break;
      }
      s := Tried(text, decode, nesting, s, start);
      AfterTried(text, decode, nesting, start);
      match decode(start) {
        case Undecodable(failed) =>
          work := work - Max(1, (if failed.Some? then failed.value else length) - start);
          position := start + 1;
        case Decoded(end, empty) =>
          work := work - (end - start);
          if !empty {
            held, fragments := Replace(text, dump, nesting, held, fragments, copied, start, end, pieces);
            pieces := s.pieces;
            copied := end;
          }
          position := end;
      }
      start := NextOpener(text, position);
    }
    if start == length { ExtractsFurther(text, decode, nesting, s); }
    LaidSnoc(text, dump, pieces, copied, held, fragments, Kept(copied, length));
    assert fragments + [] == fragments && text[copied..] == text[copied..length];
    held := held + text[copied..];
  }

  /** The allowance is spent and unexamined JSON may follow. */
  method GiveUp(text: string, dump: nat -> string, before: string, fragments: seq<string>, copied: nat, start: nat,
                ghost pieces: seq<Piece>) returns (held: string)
    requires Laid(text, dump, pieces, copied, before, fragments) && copied <= start <= |text|
    ensures Laid(text, dump, pieces + [Kept(copied, start), Masked(start, |text|)], |text|, held, fragments)
  {
    hide Tiles, Layout;
    held := before + text[copied..start];
    LaidSnoc(text, dump, pieces, copied, before, fragments, Kept(copied, start));
    LaidSnoc(text, dump, pieces + [Kept(copied, start)], start, held, fragments, Masked(start, |text|));
    held := held + REDACTED;
    ghost var last := Masked(start, |text|);
    assert pieces + [Kept(copied, start)] + [last] == pieces + [Kept(copied, start), last];
    assert fragments + [] == fragments;
  }

  lemma AfterTried(text: string, decode: nat -> Decode, nesting: nat, start: nat)
    ensures Reached(decode, [start]) == match decode(start) case Decoded(end, _) => end case Undecodable(_) => start + 1
  {
  }

  lemma NothingLaid(text: string, dump: nat -> string)
    ensures Laid(text, dump, [], 0, "", [])
  {
  }

  // ---------------------------------------------------------------- what the scan promises

  /** An opener at which decoding failed, or one inside an empty container that was decoded. */
  ghost predicate Passed(decode: nat -> Decode, attempts: seq<nat>, p: nat) {
    || (p in attempts && decode(p).Undecodable?)
    || exists q :: q in attempts && q <= p && decode(q).Decoded? && decode(q).empty && p < decode(q).end
  }

  /** Why a piece of the text stands as it does. */
  ghost predicate Justified(text: string, decode: nat -> Decode, nesting: nat, attempts: seq<nat>, p: Piece) {
    && p.start <= p.end <= |text|
    && match p
       case Kept(start, end) => forall i :: start <= i < end && IsOpener(text[i]) ==> Passed(decode, attempts, i)
       case Held(start, end, _) =>
         start in attempts && decode(start) == Decoded(end, false) && nesting < MAX_JSON_NESTING
       case Masked(start, end) =>
         start in attempts && decode(start) == Decoded(end, false) && nesting >= MAX_JSON_NESTING
  }

  /**
   * Which openers are attempted, whatever comes of it: each is the first behind what the attempts before it read, and
   * the allowance was not spent by them.
   */
  ghost predicate InTurn(text: string, decode: nat -> Decode, attempts: seq<nat>) {
    attempts != [] ==>
      var before, last := attempts[..|attempts| - 1], attempts[|attempts| - 1];
      && InTurn(text, decode, before)
      && Reached(decode, before) <= |text| && last == NextOpener(text, Reached(decode, before)) < |text|
      && Total(text, decode, before) < Allowance(text)
  }

  /** Where a scan stands, and what it spent. */
  ghost predicate Counted(text: string, decode: nat -> Decode, s: Scan) {
    && s.position == Reached(decode, s.attempts) <= |text|
    && s.work == Allowance(text) - Total(text, decode, s.attempts)
    && InTurn(text, decode, s.attempts)
    && (forall q :: q in s.attempts ==> q < s.position)
  }

  /** The pieces cover the text up to `upto`, each for a reason. */
  ghost predicate Covered(text: string, decode: nat -> Decode, nesting: nat, attempts: seq<nat>, pieces: seq<Piece>,
                          upto: nat)
  {
    && Tiles(pieces, upto) && Numbered(pieces)
    && forall p :: p in pieces ==> Justified(text, decode, nesting, attempts, p)
  }

  lemma CoveredSnoc(text: string, decode: nat -> Decode, nesting: nat, attempts: seq<nat>, pieces: seq<Piece>,
                    upto: nat, p: Piece)
    requires Covered(text, decode, nesting, attempts, pieces, upto) && Justified(text, decode, nesting, attempts, p)
    requires p.start == upto && (p.Held? ==> p.number == HeldCount(pieces))
    ensures Covered(text, decode, nesting, attempts, pieces + [p], p.end)
    ensures HeldCount(pieces + [p]) == HeldCount(pieces) + if p.Held? then 1 else 0
  {
    hide Tiles, Numbered, HeldCount, Passed;
    TilesSnoc(pieces, upto, p);
  }

  /** What became of the text up to `copied`, and of the openers behind it. */
  ghost predicate Accounted(text: string, decode: nat -> Decode, nesting: nat, s: Scan) {
    && s.copied <= s.position <= |text|
    && Covered(text, decode, nesting, s.attempts, s.pieces, s.copied)
    && (forall i :: s.copied <= i < s.position && IsOpener(text[i]) ==> Passed(decode, s.attempts, i))
  }

  lemma MoreAttempts(text: string, decode: nat -> Decode, nesting: nat, attempts: seq<nat>, start: nat, p: Piece)
    requires Justified(text, decode, nesting, attempts, p)
    ensures Justified(text, decode, nesting, attempts + [start], p)
  {
    forall i | Passed(decode, attempts, i) ensures Passed(decode, attempts + [start], i) {
      StillPassed(decode, attempts, start, i);
    }
  }

  lemma StillPassed(decode: nat -> Decode, attempts: seq<nat>, start: nat, i: nat)
    requires Passed(decode, attempts, i)
    ensures Passed(decode, attempts + [start], i)
  {
    assert forall q :: q in attempts ==> q in attempts + [start];
  }

  lemma AttemptInTurn(text: string, decode: nat -> Decode, attempts: seq<nat>, start: nat)
    requires Reads(decode, |text|) && InTurn(text, decode, attempts) && Reached(decode, attempts) <= |text|
    requires start == NextOpener(text, Reached(decode, attempts)) < |text|
    requires Total(text, decode, attempts) < Allowance(text)
    ensures var more := attempts + [start];
      && InTurn(text, decode, more)
      && Total(text, decode, more) == Total(text, decode, attempts) + Cost(text, decode, start)
      && Reached(decode, more) == Reached(decode, [start])
      && start < Reached(decode, more) <= |text|
  {
    hide NextOpener, Cost;
    var more := attempts + [start];
    assert more[..|more| - 1] == attempts;
  }

  lemma TriedCounts(text: string, decode: nat -> Decode, nesting: nat, s: Scan, start: nat)
    requires Reads(decode, |text|) && Counted(text, decode, s) && s.work > 0
    requires start == NextOpener(text, s.position) < |text|
    ensures Counted(text, decode, Tried(text, decode, nesting, s, start))
    ensures start < Tried(text, decode, nesting, s, start).position
  {
    hide InTurn, Total, Reached;
    AttemptInTurn(text, decode, s.attempts, start);
  }

  lemma StillCovered(text: string, decode: nat -> Decode, nesting: nat, s: Scan, start: nat)
    requires Covered(text, decode, nesting, s.attempts, s.pieces, s.copied)
    ensures Covered(text, decode, nesting, s.attempts + [start], s.pieces, s.copied)
  {
    hide Tiles, Numbered, Passed, Justified;
    forall p | p in s.pieces ensures Justified(text, decode, nesting, s.attempts + [start], p) {
      MoreAttempts(text, decode, nesting, s.attempts, start, p);
    }
  }

  /** What was accounted for stays so when one more opener is attempted. */
  lemma StillAccounted(text: string, decode: nat -> Decode, nesting: nat, s: Scan, start: nat, t: Scan)
    requires Accounted(text, decode, nesting, s)
    requires t == s.(position := t.position, attempts := s.attempts + [start], work := t.work)
    requires s.position <= start < t.position <= |text|
    requires forall i :: s.position <= i < t.position && IsOpener(text[i]) ==> Passed(decode, t.attempts, i)
    ensures Accounted(text, decode, nesting, t)
  {
    hide Covered, Passed;
    StillCovered(text, decode, nesting, s, start);
    forall i | s.copied <= i < s.position && IsOpener(text[i]) ensures Passed(decode, t.attempts, i) {
      StillPassed(decode, s.attempts, start, i);
    }
  }

  lemma TriedAccounts(text: string, decode: nat -> Decode, nesting: nat, s: Scan, start: nat)
    requires Reads(decode, |text|) && Accounted(text, decode, nesting, s)
    requires start == NextOpener(text, s.position) < |text|
    ensures Accounted(text, decode, nesting, Tried(text, decode, nesting, s, start))
  {
    hide Tiles, Numbered, Passed, Justified, Accounted, Reached, HeldCount;
    var t := Tried(text, decode, nesting, s, start);
    Attempted(text, decode, s.attempts, start);
    BoundsOf(text, decode, nesting, s);
    match decode(start) {
      case Undecodable(_) => StillAccounted(text, decode, nesting, s, start, t);
      case Decoded(end, empty) =>
        if empty {
          StillAccounted(text, decode, nesting, s, start, t);
        } else {
          ReadAccounts(text, decode, nesting, s, start);
        }
    }
  }

  lemma BoundsOf(text: string, decode: nat -> Decode, nesting: nat, s: Scan)
    requires Accounted(text, decode, nesting, s)
    ensures s.copied <= s.position <= |text|
  {
  }

  lemma ReadAccounts(text: string, decode: nat -> Decode, nesting: nat, s: Scan, start: nat)
    requires Reads(decode, |text|) && Accounted(text, decode, nesting, s)
    requires start == NextOpener(text, s.position) < |text| && decode(start).Decoded? && !decode(start).empty
    ensures Accounted(text, decode, nesting, Tried(text, decode, nesting, s, start))
  {
    hide Covered, Passed, Justified, HeldCount, Reached;
    var t := Tried(text, decode, nesting, s, start);
    var end := decode(start).end;
    Attempted(text, decode, s.attempts, start);
    StillCovered(text, decode, nesting, s, start);
    forall i | s.copied <= i < start && IsOpener(text[i]) ensures Passed(decode, t.attempts, i) {
      assert i < s.position;
      StillPassed(decode, s.attempts, start, i);
    }
    var kept := Kept(s.copied, start);
    KeptIsJustified(text, decode, nesting, t.attempts, s.copied, start);
    CoveredSnoc(text, decode, nesting, t.attempts, s.pieces, s.copied, kept);
    var p := Read(nesting, start, end, HeldCount(s.pieces));
    ReadIsJustified(text, decode, nesting, t.attempts, p);
    CoveredSnoc(text, decode, nesting, t.attempts, s.pieces + [kept], start, p);
    assert t.pieces == s.pieces + [kept] + [p];
  }

  lemma KeptIsJustified(text: string, decode: nat -> Decode, nesting: nat, attempts: seq<nat>, start: nat, end: nat)
    requires start <= end <= |text|
    requires forall i :: start <= i < end && IsOpener(text[i]) ==> Passed(decode, attempts, i)
    ensures Justified(text, decode, nesting, attempts, Kept(start, end))
  {
  }

  lemma ReadIsJustified(text: string, decode: nat -> Decode, nesting: nat, attempts: seq<nat>, p: Piece)
    requires p.start <= p.end <= |text| && p.start in attempts && decode(p.start) == Decoded(p.end, false)
    requires if nesting >= MAX_JSON_NESTING then p.Masked? else p.Held?
    ensures Justified(text, decode, nesting, attempts, p)
  {
  }

  /** What an attempt settles about the openers it read. */
  lemma Attempted(text: string, decode: nat -> Decode, attempts: seq<nat>, start: nat)
    requires Reads(decode, |text|) && start < |text|
    ensures var more := attempts + [start];
      && start in more
      && (decode(start).Undecodable? ==> Passed(decode, more, start) && Reached(decode, [start]) == start + 1)
      && (decode(start).Decoded? ==> start < Reached(decode, [start]) == decode(start).end <= |text|)
      && (decode(start).Decoded? && decode(start).empty ==>
            forall i :: start <= i < decode(start).end ==> Passed(decode, more, i))
  {
    assert start in attempts + [start];
  }

  /** The first opener the scan has not read. */
  function Unread(text: string, decode: nat -> Decode, attempts: seq<nat>): (r: nat)
    requires Reached(decode, attempts) <= |text|
    ensures r <= |text|
  {
    NextOpener(text, Reached(decode, attempts))
  }

  /** How a scan ends. */
  ghost predicate Ended(text: string, decode: nat -> Decode, nesting: nat, f: Scan) {
    && Reached(decode, f.attempts) <= |text| && InTurn(text, decode, f.attempts)
    && Tiles(f.pieces, |text|) && Numbered(f.pieces)
    && var next := Unread(text, decode, f.attempts);
    && (next < |text| ==> Total(text, decode, f.attempts) >= Allowance(text) && Masked(next, |text|) in f.pieces)
    && next !in f.attempts
    && forall p :: p in f.pieces ==>
         Justified(text, decode, nesting, f.attempts, p) || (next < |text| && p == Masked(next, |text|))
  }

  lemma {:induction false} ExtractEnds(text: string, decode: nat -> Decode, nesting: nat, s: Scan)
    requires Reads(decode, |text|) && Counted(text, decode, s) && Accounted(text, decode, nesting, s)
    ensures Ended(text, decode, nesting, Extract(text, decode, nesting, s))
    decreases |text| - s.position
  {
    hide Counted, Accounted, Ended, Tried;
    assert s.position <= |text| by { BoundsOf(text, decode, nesting, s); }
    var start := NextOpener(text, s.position);
    if start == |text| {
      EndsRead(text, decode, nesting, s);
    } else if s.work <= 0 {
      EndsMasked(text, decode, nesting, s);
    } else {
      TriedCounts(text, decode, nesting, s, start);
      TriedAccounts(text, decode, nesting, s, start);
      BoundsOf(text, decode, nesting, Tried(text, decode, nesting, s, start));
      ExtractEnds(text, decode, nesting, Tried(text, decode, nesting, s, start));
    }
  }

  lemma EndsRead(text: string, decode: nat -> Decode, nesting: nat, s: Scan)
    requires Reads(decode, |text|) && Counted(text, decode, s) && Accounted(text, decode, nesting, s)
    requires NextOpener(text, s.position) == |text|
    ensures Ended(text, decode, nesting, Extract(text, decode, nesting, s))
  {
    hide Tiles, Numbered, Passed, Justified, InTurn, Total, Reached, Extract, HeldCount;
    ExtractsFurther(text, decode, nesting, s);
    KeptIsJustified(text, decode, nesting, s.attempts, s.copied, |text|);
    CoveredSnoc(text, decode, nesting, s.attempts, s.pieces, s.copied, Kept(s.copied, |text|));
  }

  lemma EndsMasked(text: string, decode: nat -> Decode, nesting: nat, s: Scan)
    requires Reads(decode, |text|) && Counted(text, decode, s) && Accounted(text, decode, nesting, s)
    requires NextOpener(text, s.position) < |text| && s.work <= 0
    ensures Ended(text, decode, nesting, Extract(text, decode, nesting, s))
  {
    hide Tiles, Numbered, Passed, Justified, InTurn, Total, Reached, Extract, HeldCount;
    ExtractsFurther(text, decode, nesting, s);
    var start := NextOpener(text, s.position);
    var kept, masked, rest := Kept(s.copied, start), Masked(start, |text|), Kept(|text|, |text|);
    KeptIsJustified(text, decode, nesting, s.attempts, s.copied, start);
    CoveredSnoc(text, decode, nesting, s.attempts, s.pieces, s.copied, kept);
    var before := s.pieces + [kept];
    TilesSnoc(before, start, masked);
    KeptIsJustified(text, decode, nesting, s.attempts, |text|, |text|);
    TilesSnoc(before + [masked], |text|, rest);
    assert s.pieces + [kept, masked, rest] == before + [masked] + [rest];
  }

  /**
   * The scan on any text and any decoder. Every opener in kept text was attempted in vain or lies inside an empty
   * container that was read; what is held or masked is a container that was read, except for one mask: from the first
   * opener that was not read to the end, and that one stands there exactly if such an opener is left, which is so only
   * once the allowance is spent. The openers attempted are determined by the decoder, and their work is linear.
   */
  lemma TheScanIsExact(text: string, decode: nat -> Decode, nesting: nat)
    requires Reads(decode, |text|)
    ensures var f := Extracted(text, decode, nesting);
      && Ended(text, decode, nesting, f)
      && Total(text, decode, f.attempts) < (JSON_WORK_FACTOR + 1) * |text| + 1_024
      && ((exists p :: p in f.pieces && p.Masked? && p.start !in f.attempts) <==>
            Unread(text, decode, f.attempts) < |text|)
  {
    hide Tiles, Numbered, InTurn, Total, Reached, Extract, Passed, NextOpener;
    var f := Extracted(text, decode, nesting);
    NothingScanned(text, decode, nesting);
    ExtractEnds(text, decode, nesting, Scan(0, 0, Allowance(text), [], []));
    WorkIsLinear(text, decode, f.attempts);
  }

  lemma NothingScanned(text: string, decode: nat -> Decode, nesting: nat)
    ensures var s := Scan(0, 0, Allowance(text), [], []);
      Counted(text, decode, s) && Accounted(text, decode, nesting, s)
  {
    NothingNumbered();
  }

  lemma WorkIsLinear(text: string, decode: nat -> Decode, attempts: seq<nat>)
    requires Reads(decode, |text|) && InTurn(text, decode, attempts)
    ensures Total(text, decode, attempts) < (JSON_WORK_FACTOR + 1) * |text| + 1_024
  {
    hide NextOpener;
    if attempts != [] {
      assert Cost(text, decode, attempts[|attempts| - 1]) <= |text|;
    }
  }

  lemma NothingNumbered()
    ensures Tiles([], 0) && Numbered([])
  {
  }

  // ---------------------------------------------------------------- placeholders

  /** `_FRAGMENT` matches `t` from `i` to `j`. */
  predicate IsMatch(t: string, i: nat, j: nat) {
    i + 3 <= j <= |t| && t[i] == OPEN && t[j - 1] == CLOSE && forall k :: i < k < j - 1 ==> IsDigit(t[k])
  }

  function NumberAt(t: string, i: nat, j: nat): nat
    requires IsMatch(t, i, j)
  {
    Number(t[i + 1..j - 1])
  }

  /** Every complete placeholder names one of the first `n` fragments, and they stand in the order of the fragments. */
  ghost predicate Sound(t: string, n: nat) {
    && (forall i: nat, j: nat :: IsMatch(t, i, j) ==> NumberAt(t, i, j) < n)
    && (forall i: nat, j: nat, i': nat, j': nat :: IsMatch(t, i, j) && IsMatch(t, i', j') && i < i' ==>
          NumberAt(t, i, j) < NumberAt(t, i', j'))
  }

  lemma PlaceholderNumber(n: nat)
    ensures var p := Placeholder(n);
      IsMatch(p, 0, |p|) && NumberAt(p, 0, |p|) == n
  {
    NumberOfDigits(n);
    var p := Placeholder(n);
    assert p[1..|p| - 1] == Digits(n);
  }

  /** A match that ends within the first part lies in it. */
  lemma MatchInFirst(a: string, b: string, i: nat, j: nat)
    requires IsMatch(a + b, i, j) && j <= |a|
    ensures IsMatch(a, i, j) && NumberAt(a, i, j) == NumberAt(a + b, i, j)
  {
    assert forall k :: 0 <= k < |a| ==> (a + b)[k] == a[k];
    assert (a + b)[i + 1..j - 1] == a[i + 1..j - 1];
  }

  lemma SliceOfSlice(t: string, start: nat, end: nat, i: nat, j: nat)
    requires start <= end <= |t| && i <= j <= end - start
    ensures t[start..end][i..j] == t[start + i..start + j]
  {
    var a, b := t[start..end][i..j], t[start + i..start + j];
    assert |a| == |b| && forall k :: 0 <= k < |a| ==> a[k] == b[k];
  }

  /** A part of a text matches where the text does. */
  lemma MatchInSlice(t: string, start: nat, end: nat, i: nat, j: nat)
    requires start <= end <= |t| && i <= j <= end - start
    ensures IsMatch(t[start..end], i, j) <==> IsMatch(t, start + i, start + j)
    ensures IsMatch(t, start + i, start + j) ==>
      NumberAt(t[start..end], i, j) == NumberAt(t, start + i, start + j)
  {
    var s := t[start..end];
    if IsMatch(s, i, j) {
      forall k | start + i < k < start + j - 1 ensures IsDigit(t[k]) { assert t[k] == s[k - start]; }
    }
    if IsMatch(t, start + i, start + j) {
      forall k | i < k < j - 1 ensures IsDigit(s[k]) { assert s[k] == t[start + k]; }
      SliceOfSlice(t, start, end, i + 1, j - 1);
    }
  }

  /** A placeholder ends where its digits do. */
  lemma MatchEnd(t: string, i: nat, j: nat, j': nat)
    requires IsMatch(t, i, j) && IsMatch(t, i, j')
    ensures j == j'
  {
    assert !IsDigit(t[j - 1]) && !IsDigit(t[j' - 1]);
  }

  /** A match that starts within the second part lies in it. */
  lemma MatchInSecond(a: string, b: string, i: nat, j: nat)
    requires IsMatch(a + b, i, j) && |a| <= i
    ensures IsMatch(b, i - |a|, j - |a|) && NumberAt(b, i - |a|, j - |a|) == NumberAt(a + b, i, j)
  {
    assert (a + b)[|a|..|a + b|] == b;
    MatchInSlice(a + b, |a|, |a + b|, i - |a|, j - |a|);
  }

  /** Text without marks behind sound text adds no placeholder. */
  lemma SoundThenUnmarked(a: string, b: string, n: nat)
    requires Sound(a, n) && Unmarked(b)
    ensures Sound(a + b, n)
  {
    forall i: nat, j: nat | IsMatch(a + b, i, j)
      ensures IsMatch(a, i, j) && NumberAt(a, i, j) == NumberAt(a + b, i, j)
    {
      assert (a + b)[j - 1] == CLOSE;
      if j > |a| { assert IsMark(b[j - 1 - |a|]); }
      MatchInFirst(a, b, i, j);
    }
  }

  /** The next placeholder behind sound text is its only new match. */
  lemma SoundThenPlaceholder(a: string, n: nat)
    requires Sound(a, n)
    ensures Sound(a + Placeholder(n), n + 1)
  {
    var b := Placeholder(n);
    PlaceholderNumber(n);
    forall i: nat, j: nat | IsMatch(a + b, i, j)
      ensures j <= |a| || (i == |a| && j == |a + b| && NumberAt(a + b, i, j) == n)
      ensures j <= |a| ==> IsMatch(a, i, j) && NumberAt(a, i, j) == NumberAt(a + b, i, j)
    {
      if j <= |a| {
        MatchInFirst(a, b, i, j);
      } else {
        assert (a + b)[|a|] == OPEN && (a + b)[j - 1] == CLOSE;
        assert forall k :: 0 <= k < |b| - 1 ==> b[k] != CLOSE;
        assert j - 1 - |a| == |b| - 1;
        assert forall k :: |a| < k < |a + b| ==> (a + b)[k] != OPEN;
        MatchInSecond(a, b, i, j);
      }
    }
  }

  /** Laying out pieces of a text without marks makes exactly their placeholders: nothing in the text forges one. */
  lemma {:induction false} LayoutIsSound(text: string, pieces: seq<Piece>, upto: nat)
    requires upto <= |text| && Tiles(pieces, upto) && Unmarked(text) && Numbered(pieces)
    ensures Sound(Layout(text, pieces, upto), HeldCount(pieces))
    decreases |pieces|
  {
    if pieces != [] {
      var front, last := pieces[..|pieces| - 1], pieces[|pieces| - 1];
      forall k | 0 <= k < |front| ensures front[..k] == pieces[..k] {}
      LayoutIsSound(text, front, last.start);
      var before := Layout(text, front, last.start);
      if last.Held? {
        assert last.number == HeldCount(pieces[..|pieces| - 1]);
        SoundThenPlaceholder(before, last.number);
      } else {
        SoundThenUnmarked(before, Shown(text, last), HeldCount(pieces));
      }
    }
  }

  // ---------------------------------------------------------------- masking

  /** Text a rule puts in the place of what it masks: without marks, and not starting with a digit. */
  predicate Inert(mask: string) {
    mask != "" && Unmarked(mask) && !IsDigit(mask[0])
  }

  /** The position of the text a copied position of the output comes from. */
  function Origin(text: string, cuts: seq<Cut>, upto: nat, i: nat): Option<nat>
    requires upto <= |text| && InOrder(cuts, upto) && i < |Splice(text, cuts, upto)|
    decreases |cuts|
  {
    if cuts == [] then Some(i)
    else
      var front, last := cuts[..|cuts| - 1], cuts[|cuts| - 1];
      var copied := |Splice(text, front, last.start)|;
      if i < copied then Origin(text, front, last.start, i)
      else if i < copied + |last.mask| then None
      else Some(last.end + (i - copied - |last.mask|))
  }

  lemma {:induction false} OriginOrder(text: string, cuts: seq<Cut>, upto: nat, i: nat, i': nat)
    requires upto <= |text| && InOrder(cuts, upto) && i < i' < |Splice(text, cuts, upto)|
    requires Origin(text, cuts, upto, i).Some? && Origin(text, cuts, upto, i').Some?
    ensures Origin(text, cuts, upto, i).value < Origin(text, cuts, upto, i').value
    decreases |cuts|
  {
    if cuts != [] {
      var front, last := cuts[..|cuts| - 1], cuts[|cuts| - 1];
      var copied := |Splice(text, front, last.start)|;
      if i' < copied {
        OriginOrder(text, front, last.start, i, i');
      } else if i < copied {
        OriginBound(text, front, last.start, i);
      }
    }
  }

  lemma {:induction false} OriginBound(text: string, cuts: seq<Cut>, upto: nat, i: nat)
    requires upto <= |text| && InOrder(cuts, upto) && i < |Splice(text, cuts, upto)|
    ensures Origin(text, cuts, upto, i).Some? ==> Origin(text, cuts, upto, i).value < upto
    decreases |cuts|
  {
    if cuts != [] {
      var front, last := cuts[..|cuts| - 1], cuts[|cuts| - 1];
      if i < |Splice(text, front, last.start)| {
        OriginBound(text, front, last.start, i);
      }
    }
  }

  /** A complete placeholder of the masked text is one of the text: no cut can make one or change one. */
  lemma {:induction false} MatchSurvives(text: string, cuts: seq<Cut>, upto: nat, i: nat, j: nat)
    requires upto <= |text| && InOrder(cuts, upto) && forall k :: 0 <= k < |cuts| ==> Inert(cuts[k].mask)
    requires IsMatch(Splice(text, cuts, upto), i, j)
    ensures var o := Origin(text, cuts, upto, i);
      && o.Some? && o.value + (j - i) <= upto
      && IsMatch(text, o.value, o.value + (j - i))
      && NumberAt(text, o.value, o.value + (j - i)) == NumberAt(Splice(text, cuts, upto), i, j)
    decreases |cuts|
  {
    hide NumberAt, Inert;
    var out := Splice(text, cuts, upto);
    if cuts == [] {
      MatchInSlice(text, 0, upto, i, j);
      assert text[0..upto] == out;
    } else {
      var front, last := cuts[..|cuts| - 1], cuts[|cuts| - 1];
      var a := Splice(text, front, last.start);
      MatchAtCut(a, last.mask, text, last.end, upto, i, j);
      if j <= |a| {
        MatchSurvives(text, front, last.start, i, j);
      }
    }
  }

  /** A match beside a mask lies before it, or in the text behind it. */
  lemma MatchAtCut(a: string, m: string, text: string, end: nat, upto: nat, i: nat, j: nat)
    requires Inert(m) && end <= upto <= |text| && IsMatch(a + m + text[end..upto], i, j)
    ensures var out := a + m + text[end..upto];
      && i < j <= |out|
      && (j <= |a| ==> IsMatch(a, i, j) && NumberAt(a, i, j) == NumberAt(out, i, j))
      && (j > |a| ==>
            var o := end + (i - |a| - |m|);
            && i >= |a| + |m| && o + (j - i) <= upto
            && IsMatch(text, o, o + (j - i)) && NumberAt(text, o, o + (j - i)) == NumberAt(out, i, j))
  {
    var b := text[end..upto];
    MatchAround(a, m, b, i, j);
    if j <= |a| {
      assert a + m + b == a + (m + b);
      MatchInFirst(a, m + b, i, j);
    } else {
      MatchInSecond(a + m, b, i, j);
      MatchInSlice(text, end, upto, i - |a| - |m|, j - |a| - |m|);
    }
  }

  /** No placeholder reaches into a mask. */
  lemma MatchAround(a: string, m: string, b: string, i: nat, j: nat)
    requires Inert(m) && IsMatch(a + m + b, i, j)
    ensures j <= |a| || i >= |a| + |m|
  {
    var out := a + m + b;
    assert out[|a|] == m[0];
    forall k | |a| <= k < |a| + |m| ensures !IsMark(out[k]) {
      assert out[k] == m[k - |a|];
    }
  }

  /**
   * Held placeholders survive masking: after any text rule has replaced spans, every complete placeholder is still
   * one of the fragments of this call, and they still stand in order, so each fragment is put back at most once.
   */
  lemma MaskingIsSound(text: string, cuts: seq<Cut>, n: nat)
    requires InOrder(cuts, |text|) && forall k :: 0 <= k < |cuts| ==> Inert(cuts[k].mask)
    requires Sound(text, n)
    ensures Sound(Splice(text, cuts, |text|), n)
  {
    SpliceIsSound(text, cuts, |text|, n);
  }

  lemma SpliceIsSound(text: string, cuts: seq<Cut>, upto: nat, n: nat)
    requires upto <= |text| && InOrder(cuts, upto) && forall k :: 0 <= k < |cuts| ==> Inert(cuts[k].mask)
    requires Sound(text, n)
    ensures Sound(Splice(text, cuts, upto), n)
  {
    hide Splice, Origin;
    var out := Splice(text, cuts, upto);
    forall i: nat, j: nat | IsMatch(out, i, j) ensures NumberAt(out, i, j) < n {
      MatchSurvives(text, cuts, upto, i, j);
    }
    forall i: nat, j: nat, i': nat, j': nat | IsMatch(out, i, j) && IsMatch(out, i', j') && i < i'
      ensures NumberAt(out, i, j) < NumberAt(out, i', j')
    {
      MatchSurvives(text, cuts, upto, i, j);
      MatchSurvives(text, cuts, upto, i', j');
      OriginOrder(text, cuts, upto, i, i');
    }
  }

  // ---------------------------------------------------------------- restoring

  /** The length of the digits at the start of `t`. */
  function DigitRun(t: string): (n: nat)
    ensures n <= |t| && (forall k :: 0 <= k < n ==> IsDigit(t[k])) && (n < |t| ==> !IsDigit(t[n]))
  {
    if t == "" || !IsDigit(t[0]) then 0
    else
      var rest := DigitRun(t[1..]);
      assert forall k :: 1 <= k < rest + 1 ==> t[k] == t[1..][k - 1];
      1 + rest
  }

  /** The length of the placeholder at the start of `t`, if there is one. */
  function MatchLength(t: string): (n: nat)
    ensures n > 0 ==> IsMatch(t, 0, n)
    ensures n == 0 ==> forall j: nat :: !IsMatch(t, 0, j)
  {
    if t == "" || t[0] != OPEN then 0
    else
      var digits := DigitRun(t[1..]);
      assert forall k :: 1 <= k < |t| ==> t[k] == t[1..][k - 1];
      if digits > 0 && digits + 1 < |t| && t[digits + 1] == CLOSE then digits + 2
      else
        assert forall j: nat :: IsMatch(t, 0, j) ==> j - 2 <= digits;
        0
  }

  lemma SoundSuffix(t: string, k: nat, n: nat)
    requires Sound(t, n) && k <= |t|
    ensures Sound(t[k..], n)
  {
    var s := t[k..|t|];
    assert s == t[k..];
    forall i: nat, j: nat | IsMatch(s, i, j)
      ensures IsMatch(t, k + i, k + j) && NumberAt(t, k + i, k + j) == NumberAt(s, i, j)
    {
      MatchInSlice(t, k, |t|, i, j);
    }
  }

  /** `_FRAGMENT.sub(lambda match: fragments[int(match.group(1))], t)`: every index is in range. */
  function Restore(t: string, fragments: seq<string>): string
    requires Sound(t, |fragments|)
  {
    if t == "" then ""
    else
      var n := MatchLength(t);
      if n > 0 then
        SoundSuffix(t, n, |fragments|);
        fragments[NumberAt(t, 0, n)] + Restore(t[n..], fragments)
      else
        SoundSuffix(t, 1, |fragments|);
        [t[0]] + Restore(t[1..], fragments)
  }

  lemma {:induction false} RestoreUnmarked(a: string, t: string, fragments: seq<string>)
    requires Unmarked(a) && Sound(a + t, |fragments|) && Sound(t, |fragments|)
    ensures Restore(a + t, fragments) == a + Restore(t, fragments)
    decreases |a|
  {
    if a == "" {
      assert a + t == t;
    } else {
      var whole := a + t;
      assert whole[0] == a[0] && !IsMark(a[0]);
      assert whole[1..] == a[1..] + t;
      SoundSuffix(whole, 1, |fragments|);
      RestoreUnmarked(a[1..], t, fragments);
      assert a == [a[0]] + a[1..];
    }
  }

  lemma RestorePlaceholder(k: nat, t: string, fragments: seq<string>)
    requires k < |fragments| && Sound(Placeholder(k) + t, |fragments|) && Sound(t, |fragments|)
    ensures Restore(Placeholder(k) + t, fragments) == fragments[k] + Restore(t, fragments)
  {
    var p := Placeholder(k);
    var whole := p + t;
    PlaceholderNumber(k);
    assert forall q :: 0 <= q < |p| ==> whole[q] == p[q];
    assert IsMatch(whole, 0, |p|);
    var n := MatchLength(whole);
    MatchEnd(whole, 0, n, |p|);
    assert whole[1..n - 1] == p[1..|p| - 1] && whole[n..] == t;
  }

  /** A piece as it is put back. */
  function Restored(text: string, p: Piece, fragments: seq<string>): string
    requires p.start <= p.end <= |text| && (p.Held? ==> p.number < |fragments|)
  {
    match p
    case Kept(start, end) => text[start..end]
    case Held(_, _, number) => fragments[number]
    case Masked(_, _) => REDACTED
  }

  ghost predicate Restorable(text: string, pieces: seq<Piece>, fragments: seq<string>) {
    forall p :: p in pieces ==> p.start <= p.end <= |text| && (p.Held? ==> p.number < |fragments|)
  }

  function LayoutFrom(text: string, pieces: seq<Piece>): string
    requires forall p :: p in pieces ==> p.start <= p.end <= |text|
  {
    if pieces == [] then "" else Shown(text, pieces[0]) + LayoutFrom(text, pieces[1..])
  }

  function RestoredFrom(text: string, pieces: seq<Piece>, fragments: seq<string>): string
    requires Restorable(text, pieces, fragments)
  {
    if pieces == [] then "" else Restored(text, pieces[0], fragments) + RestoredFrom(text, pieces[1..], fragments)
  }

  lemma {:induction false} LayoutFromStart(text: string, pieces: seq<Piece>, upto: nat)
    requires upto <= |text| && Tiles(pieces, upto)
    requires forall p :: p in pieces ==> p.start <= p.end <= |text|
    ensures LayoutFrom(text, pieces) == Layout(text, pieces, upto)
    decreases |pieces|
  {
    hide Shown;
    if pieces != [] {
      var front, last := pieces[..|pieces| - 1], pieces[|pieces| - 1];
      assert forall p :: p in front ==> p in pieces;
      LayoutFromStart(text, front, last.start);
      LayoutFromSnoc(text, front, last);
      assert pieces == front + [last];
    }
  }

  lemma {:induction false} LayoutFromSnoc(text: string, pieces: seq<Piece>, last: Piece)
    requires forall p :: p in pieces + [last] ==> p.start <= p.end <= |text|
    ensures LayoutFrom(text, pieces + [last]) == LayoutFrom(text, pieces) + Shown(text, last)
  {
    var whole := pieces + [last];
    if pieces != [] {
      assert whole[0] == pieces[0] && whole[1..] == pieces[1..] + [last];
      LayoutFromSnoc(text, pieces[1..], last);
    } else {
      assert whole[1..] == [];
    }
  }

  lemma {:induction false} RestoreLayout(text: string, pieces: seq<Piece>, fragments: seq<string>)
    requires Unmarked(text) && Restorable(text, pieces, fragments)
    requires Sound(LayoutFrom(text, pieces), |fragments|)
    ensures Restore(LayoutFrom(text, pieces), fragments) == RestoredFrom(text, pieces, fragments)
    decreases |pieces|
  {
    if pieces != [] {
      hide Sound, Restore, Placeholder, IsMatch;
      var p, rest := pieces[0], LayoutFrom(text, pieces[1..]);
      assert forall q :: q in pieces[1..] ==> q in pieces;
      SoundRest(Shown(text, p), rest, |fragments|);
      RestoreLayout(text, pieces[1..], fragments);
      RestorePiece(text, p, rest, fragments);
    }
  }

  lemma SoundRest(a: string, b: string, n: nat)
    requires Sound(a + b, n)
    ensures Sound(b, n)
  {
    assert (a + b)[|a|..] == b;
    SoundSuffix(a + b, |a|, n);
  }

  lemma RestorePiece(text: string, p: Piece, rest: string, fragments: seq<string>)
    requires Unmarked(text) && p.start <= p.end <= |text| && (p.Held? ==> p.number < |fragments|)
    requires Sound(Shown(text, p) + rest, |fragments|) && Sound(rest, |fragments|)
    ensures Restore(Shown(text, p) + rest, fragments) == Restored(text, p, fragments) + Restore(rest, fragments)
  {
    hide Sound, Restore, Placeholder, IsMatch;
    if p.Held? {
      RestorePlaceholder(p.number, rest, fragments);
    } else {
      RestoreUnmarked(Shown(text, p), rest, fragments);
    }
  }

  lemma {:induction false} HeldIsNumbered(dump: nat -> string, pieces: seq<Piece>, k: nat)
    requires Numbered(pieces) && k < |pieces| && pieces[k].Held?
    ensures pieces[k].number < HeldCount(pieces) && Dumps(dump, pieces)[pieces[k].number] == dump(pieces[k].start)
    decreases |pieces|
  {
    var front := pieces[..|pieces| - 1];
    forall i | 0 <= i < |front| ensures front[..i] == pieces[..i] {}
    if k < |front| {
      HeldIsNumbered(dump, front, k);
    } else {
      assert pieces[..k] == front;
    }
  }

  lemma HeldIsRestorable(text: string, dump: nat -> string, pieces: seq<Piece>)
    requires Numbered(pieces) && forall p :: p in pieces ==> p.start <= p.end <= |text|
    ensures Restorable(text, pieces, Dumps(dump, pieces))
  {
    forall p | p in pieces ensures p.Held? ==> p.number < HeldCount(pieces) {
      var k :| 0 <= k < |pieces| && pieces[k] == p;
      if p.Held? { HeldIsNumbered(dump, pieces, k); }
    }
  }

  /**
   * If no rule masks anything, what is put back is the text with each sanitised fragment exactly where its JSON was,
   * whatever marks the input held.
   */
  lemma HeldTextIsRestored(input: string, decode: nat -> Decode, dump: nat -> string, nesting: nat)
    requires Reads(decode, |input|)
    ensures var text := WithoutMarks(input);
      var pieces := Extracted(text, decode, nesting).pieces;
      var fragments := Dumps(dump, pieces);
      && Tiles(pieces, |text|) && Sound(Layout(text, pieces, |text|), |fragments|)
      && Restorable(text, pieces, fragments)
      && Restore(Layout(text, pieces, |text|), fragments) == RestoredFrom(text, pieces, fragments)
  {
    hide Tiles, Numbered, Layout, Sound, Restore, RestoredFrom;
    var text := WithoutMarks(input);
    var pieces := Extracted(text, decode, nesting).pieces;
    TheScanIsExact(text, decode, nesting);
    LayoutIsSound(text, pieces, |text|);
    forall p | p in pieces ensures p.start <= p.end <= |text| {}
    HeldIsRestorable(text, dump, pieces);
    LayoutFromStart(text, pieces, |text|);
    RestoreLayout(text, pieces, Dumps(dump, pieces));
  }

  // ---------------------------------------------------------------- restoring what the rules left

  /** No placeholder reaches across position `k`. */
  ghost predicate SplitAt(t: string, k: nat) {
    forall i: nat, j: nat :: IsMatch(t, i, j) ==> j <= k || k <= i
  }

  /** Both sides of a position that no placeholder reaches across are restored by themselves. */
  lemma {:induction false} RestoreSplit(a: string, b: string, fragments: seq<string>)
    requires Sound(a + b, |fragments|) && Sound(a, |fragments|) && Sound(b, |fragments|) && SplitAt(a + b, |a|)
    ensures Restore(a + b, fragments) == Restore(a, fragments) + Restore(b, fragments)
    decreases |a|
  {
    var whole := a + b;
    if a == "" {
      assert whole == b;
    } else {
      var n := MatchLength(whole);
      SameMatch(a, b);
      var k := if n > 0 then n else 1;
      assert whole[k..] == a[k..] + b;
      SoundSuffix(whole, k, |fragments|);
      SoundSuffix(a, k, |fragments|);
      SplitFurther(a, b, k);
      RestoreSplit(a[k..], b, fragments);
      if n > 0 { MatchInFirst(a, b, 0, n); }
    }
  }

  lemma SameMatch(a: string, b: string)
    requires a != "" && SplitAt(a + b, |a|)
    ensures MatchLength(a + b) == MatchLength(a)
  {
    var n, m := MatchLength(a + b), MatchLength(a);
    if n > 0 {
      MatchInFirst(a, b, 0, n);
      MatchEnd(a, 0, n, m);
    } else if m > 0 {
      assert (a + b)[0..|a|] == a;
      MatchInSlice(a + b, 0, |a|, 0, m);
    }
  }

  lemma SplitFurther(a: string, b: string, k: nat)
    requires k <= |a| && SplitAt(a + b, |a|)
    ensures SplitAt(a[k..] + b, |a| - k)
  {
    var t, s := a + b, a[k..] + b;
    assert t[k..|t|] == s;
    forall i: nat, j: nat | IsMatch(s, i, j) ensures IsMatch(t, k + i, k + j) { MatchInSlice(t, k, |t|, i, j); }
  }

  /** What is put back when some spans were masked: the parts between them restored, and the masks as they are. */
  function RestoredAround(t: string, cuts: seq<Cut>, upto: nat, fragments: seq<string>): string
    requires upto <= |t| && InOrder(cuts, upto) && Sound(t, |fragments|)
    decreases |cuts|
  {
    if cuts == [] then
      SoundSlice(t, 0, upto, |fragments|);
      Restore(t[0..upto], fragments)
    else
      var last := cuts[|cuts| - 1];
      SoundSlice(t, last.end, upto, |fragments|);
      RestoredAround(t, cuts[..|cuts| - 1], last.start, fragments) + last.mask + Restore(t[last.end..upto], fragments)
  }

  lemma SoundSlice(t: string, start: nat, end: nat, n: nat)
    requires start <= end <= |t| && Sound(t, n)
    ensures Sound(t[start..end], n)
  {
    var s := t[start..end];
    forall i: nat, j: nat | IsMatch(s, i, j)
      ensures IsMatch(t, start + i, start + j) && NumberAt(t, start + i, start + j) == NumberAt(s, i, j)
    {
      MatchInSlice(t, start, end, i, j);
    }
  }

  /**
   * After any text rules: every complete placeholder they left is replaced by its own fragment, each part of the text
   * between two masks is restored by itself, and what was masked, a held fragment or part of one, stays masked.
   */
  lemma {:induction false} MaskedTextIsRestored(t: string, cuts: seq<Cut>, upto: nat, fragments: seq<string>)
    requires upto <= |t| && InOrder(cuts, upto) && Sound(t, |fragments|)
    requires forall k :: 0 <= k < |cuts| ==> Inert(cuts[k].mask)
    ensures Sound(Splice(t, cuts, upto), |fragments|)
    ensures Restore(Splice(t, cuts, upto), fragments) == RestoredAround(t, cuts, upto, fragments)
    decreases |cuts|
  {
    hide Sound, IsMatch, NumberAt, Restore, Inert;
    if cuts == [] {
      SoundSlice(t, 0, upto, |fragments|);
      assert t[0..upto] == t[..upto];
    } else {
      var front, last := cuts[..|cuts| - 1], cuts[|cuts| - 1];
      MaskedTextIsRestored(t, front, last.start, fragments);
      SoundSlice(t, last.end, upto, |fragments|);
      SpliceIsSound(t, cuts, upto, |fragments|);
      RestoreMask(Splice(t, front, last.start), last.mask, t[last.end..upto], fragments);
    }
  }

  lemma RestoreMask(a: string, m: string, b: string, fragments: seq<string>)
    requires Inert(m) && Sound(a + m + b, |fragments|) && Sound(a, |fragments|) && Sound(b, |fragments|)
    ensures Restore(a + m + b, fragments) == Restore(a, fragments) + m + Restore(b, fragments)
  {
    hide Sound, IsMatch, NumberAt, Restore;
    assert a + (m + b) == a + m + b;
    SoundRest(a, m + b, |fragments|);
    assert SplitAt(a + (m + b), |a|) by {
      forall i: nat, j: nat | IsMatch(a + m + b, i, j) ensures j <= |a| || |a| <= i { MatchAround(a, m, b, i, j); }
    }
    RestoreSplit(a, m + b, fragments);
    RestoreUnmarked(m, b, fragments);
  }
}
