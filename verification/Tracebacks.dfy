/** Tracebacks: the exceptions and frames that are shown, their bounds, and the text the scrubber leaves unchanged. */
module Tracebacks {
  import opened Values
  import Assembly

  const MAX_EXCEPTION_CHAIN := 10
  const MAX_TRACEBACK_FRAMES := 32
  const MAX_TRACEBACK_WALK := 4_096
  const MAX_TRACEBACK_LINES := 192
  const MAX_TRACEBACK_LENGTH := MAX_STRING_LENGTH - 64
  const MAX_DESCRIPTION_LENGTH := 8_192
  const TRUNCATED_SENSITIVE := "[TRUNCATED_SENSITIVE_VALUE]"
  const TRACEBACK_HEADER := "Traceback (most recent call last):"
  const CAUSE_LINK := "The above exception was the direct cause of the following exception:"
  const CONTEXT_LINK := "During handling of the above exception, another exception occurred:"

  /** An exception: what it was raised from or while handling, its trace, and the name of its class. */
  datatype Raisable = Raisable(
    cause: Option<Id>, context: Option<Id>, suppressed: bool, trace: Option<Id>, typeName: string)

  /**
   * The exceptions and trace links of a process (any functions of identities: shared or cyclic), and the code not
   * modelled here: what a frame and an exception are rendered as, with what is left of the budget.
   */
  datatype Traces = Traces(
    exceptions: Id -> Raisable,
    after: Id -> Option<Id>,
    frameLine: (Id, int, int) -> Scrubbed,
    describe: (Id, int, int) -> Scrubbed,
    scrub: (string, int, int, nat) -> Scrubbed)

  /** What is left of the budget. */
  datatype Allowance = Allowance(scan: int, nodes: int)

  const WHOLE := Allowance(MAX_EVENT_SCAN, MAX_EVENT_NODES)

  datatype Outcome<+T> = Done(value: T, left: Allowance) | Raised

  // ---------------------------------------------------------------- the chain

  datatype Via = Cause | Context

  /** An exception of the chain, and how the one before it leads to it. */
  datatype Link = Link(exc: Id, via: Option<Via>)

  /** The exception an exception was raised from, or while handling. */
  function Older(e: Raisable): Option<(Id, Via)> {
    if e.cause.Some? then Some((e.cause.value, Cause))
    else if e.context.Some? && !e.suppressed then Some((e.context.value, Context))
    else None
  }

  function Chain(t: Traces, current: Option<Id>, via: Option<Via>, seen: set<Id>, room: nat): (chain: seq<Link>)
    ensures |chain| <= room
    ensures chain == [] <==> current.None? || current.value in seen || room == 0
    ensures chain != [] ==> chain[0] == Link(current.value, via)
    decreases room
  {
    if current.None? || current.value in seen || room == 0 then []
    else
      var next := Older(t.exceptions(current.value));
      var older := if next.Some? then Some(next.value.0) else None;
      var how := if next.Some? then Some(next.value.1) else None;
      [Link(current.value, via)] + Chain(t, older, how, seen + {current.value}, room - 1)
  }

  lemma ChainStep(t: Traces, chain: seq<Link>, id: Id, via: Option<Via>, seen: set<Id>, room: nat)
    requires id !in seen && room > 0
    ensures var next := Older(t.exceptions(id));
      chain + Chain(t, Some(id), via, seen, room) ==
        chain + [Link(id, via)] +
          if next.Some? then Chain(t, Some(next.value.0), Some(next.value.1), seen + {id}, room - 1)
          else Chain(t, None, None, seen + {id}, room - 1)
  {
    var next := Older(t.exceptions(id));
    var older := if next.Some? then Some(next.value.0) else None;
    var rest := Chain(t, older, if next.Some? then Some(next.value.1) else None, seen + {id}, room - 1);
    assert chain + ([Link(id, via)] + rest) == chain + [Link(id, via)] + rest;
  }

  /** The chain walk of `_traceback_units`. */
  method FindChain(t: Traces, exc: Id) returns (chain: seq<Link>)
    ensures chain == Chain(t, Some(exc), None, {}, MAX_EXCEPTION_CHAIN)
  {
    hide Chain;
    chain := [];
    var seen: set<Id> := {};
    var current, via := Some(exc), None;
    while current.Some? && current.value !in seen && |chain| < MAX_EXCEPTION_CHAIN
      invariant |chain| <= MAX_EXCEPTION_CHAIN
      invariant chain + Chain(t, current, via, seen, MAX_EXCEPTION_CHAIN - |chain|)
             == Chain(t, Some(exc), None, {}, MAX_EXCEPTION_CHAIN)
      decreases MAX_EXCEPTION_CHAIN - |chain|
    {
      var id := current.value;
      ChainStep(t, chain, id, via, seen, MAX_EXCEPTION_CHAIN - |chain|);
      seen := seen + {id};
      chain := chain + [Link(id, via)];
      var e := t.exceptions(id);
      if e.cause.Some? {
        current, via := e.cause, Some(Cause);
      } else if e.context.Some? && !e.suppressed {
        current, via := e.context, Some(Context);
      } else {
        current, via := None, None;
      }
    }
    assert chain + [] == chain;
  }

  /** Each exception of the chain is the older one of the one before it. */
  ghost predicate Linked(t: Traces, chain: seq<Link>) {
    forall i :: 0 < i < |chain| ==>
      chain[i].via.Some? && Older(t.exceptions(chain[i - 1].exc)) == Some((chain[i].exc, chain[i].via.value))
  }

  ghost predicate Different(chain: seq<Link>, seen: set<Id>) {
    && (forall i :: 0 <= i < |chain| ==> chain[i].exc !in seen)
    && (forall i, j :: 0 <= i < j < |chain| ==> chain[i].exc != chain[j].exc)
  }

  predicate Ends(older: Option<(Id, Via)>, chain: seq<Link>, seen: set<Id>) {
    older.None? || older.value.0 in seen || Visits(chain, older.value.0)
  }

  predicate Visits(chain: seq<Link>, id: Id) {
    exists i :: 0 <= i < |chain| && chain[i].exc == id
  }

  /** The walk stops at the limit, at an exception with no older one, or where the chain comes back to itself. */
  ghost predicate StopsRightly(t: Traces, chain: seq<Link>, seen: set<Id>, room: nat) {
    chain != [] && (|chain| == room || Ends(Older(t.exceptions(chain[|chain| - 1].exc)), chain, seen))
  }

  /**
   * The walk over a chain of exceptions ends, cyclic or not, after at most ten of them: each is the cause of the one
   * before it, or else its context unless that is suppressed; none stands twice; and none is left out before the limit.
   */
  lemma {:induction false} ChainIsSound(t: Traces, exc: Id, via: Option<Via>, seen: set<Id>, room: nat)
    requires exc !in seen && room > 0
    ensures var chain := Chain(t, Some(exc), via, seen, room);
      && |chain| <= room && chain[0] == Link(exc, via)
      && Linked(t, chain) && Different(chain, seen) && StopsRightly(t, chain, seen, room)
    decreases room
  {
    var chain := Chain(t, Some(exc), via, seen, room);
    var next := Older(t.exceptions(exc));
    var rest := chain[1..];
    if next.Some? && next.value.0 !in seen + {exc} && room > 1 {
      ChainIsSound(t, next.value.0, Some(next.value.1), seen + {exc}, room - 1);
      InFront(t, Link(exc, via), rest, seen, room);
    } else {
      assert rest == [];
    }
  }

  lemma InFront(t: Traces, first: Link, rest: seq<Link>, seen: set<Id>, room: nat)
    requires room > 1 && rest != [] && rest[0].via.Some? && first.exc !in seen
    requires Older(t.exceptions(first.exc)) == Some((rest[0].exc, rest[0].via.value))
    requires Linked(t, rest) && Different(rest, seen + {first.exc})
    requires StopsRightly(t, rest, seen + {first.exc}, room - 1)
    ensures var chain := [first] + rest;
      Linked(t, chain) && Different(chain, seen) && StopsRightly(t, chain, seen, room)
  {
    var chain := [first] + rest;
    assert forall i :: 0 < i < |chain| ==> chain[i] == rest[i - 1];
    assert chain[|chain| - 1] == rest[|rest| - 1];
    var older := Older(t.exceptions(chain[|chain| - 1].exc));
    if older.Some? && Visits(rest, older.value.0) {
      var i :| 0 <= i < |rest| && rest[i].exc == older.value.0;
      assert chain[i + 1].exc == older.value.0;
    }
    assert chain[0].exc == first.exc;
  }

  // ---------------------------------------------------------------- the frames

  /** The first trace links from `node` on, at most `limit`. */
  function Walked(t: Traces, node: Option<Id>, limit: nat): (nodes: seq<Id>)
    ensures |nodes| <= limit
    decreases limit
  {
    if node.None? || limit == 0 then [] else [node.value] + Walked(t, t.after(node.value), limit - 1)
  }

  /** What lies behind the first `limit` links. */
  function Beyond(t: Traces, node: Option<Id>, limit: nat): Option<Id>
    decreases limit
  {
    if node.None? || limit == 0 then node else Beyond(t, t.after(node.value), limit - 1)
  }

  function Last<T>(list: seq<T>, n: nat): seq<T> {
    if |list| <= n then list else list[|list| - n..]
  }

  /** The walk of `_traceback_frames`: the last 32 of the first 4,096 links, in order, and whether there are more. */
  method KeepFrames(t: Traces, trace: Id) returns (kept: seq<Id>, more: bool)
    ensures kept == Last(Walked(t, Some(trace), MAX_TRACEBACK_WALK), MAX_TRACEBACK_FRAMES)
    ensures more <==> Beyond(t, Some(trace), MAX_TRACEBACK_WALK).Some?
  {
    hide Walked, Beyond, Last;
    kept := [];
    ghost var walked := [];
    LastOfNothing<Id>(MAX_TRACEBACK_FRAMES);
    var node, steps := Some(trace), 0;
    while node.Some? && steps < MAX_TRACEBACK_WALK
      invariant steps == |walked| <= MAX_TRACEBACK_WALK
      invariant kept == Last(walked, MAX_TRACEBACK_FRAMES)
      invariant walked + Walked(t, node, MAX_TRACEBACK_WALK - steps) == Walked(t, Some(trace), MAX_TRACEBACK_WALK)
      invariant Beyond(t, node, MAX_TRACEBACK_WALK - steps) == Beyond(t, Some(trace), MAX_TRACEBACK_WALK)
      decreases MAX_TRACEBACK_WALK - steps
    {
      KeepOneMore(walked, node.value, MAX_TRACEBACK_FRAMES);
      WalkStep(t, walked, node.value, MAX_TRACEBACK_WALK - steps);
      walked := walked + [node.value];
      kept := kept + [node.value];
      if |kept| > MAX_TRACEBACK_FRAMES { kept := kept[1..]; }
      node := t.after(node.value);
      steps := steps + 1;
    }
    WalkEnd(t, walked, node, MAX_TRACEBACK_WALK - steps);
    more := node.Some?;
  }

  lemma LastOfNothing<T>(n: nat)
    ensures Last<T>([], n) == []
  {
  }

  lemma WalkStep(t: Traces, walked: seq<Id>, node: Id, limit: nat)
    requires limit > 0
    ensures walked + Walked(t, Some(node), limit) == walked + [node] + Walked(t, t.after(node), limit - 1)
    ensures Beyond(t, Some(node), limit) == Beyond(t, t.after(node), limit - 1)
  {
    var rest := Walked(t, t.after(node), limit - 1);
    assert walked + ([node] + rest) == walked + [node] + rest;
  }

  lemma WalkEnd(t: Traces, walked: seq<Id>, node: Option<Id>, limit: nat)
    requires node.None? || limit == 0
    ensures walked + Walked(t, node, limit) == walked && Beyond(t, node, limit) == node
  {
  }

  /** A queue of bounded length drops its oldest element. */
  lemma KeepOneMore<T>(list: seq<T>, x: T, n: nat)
    requires n > 0
    ensures var longer := Last(list, n) + [x];
      Last(list + [x], n) == if |longer| > n then longer[1..] else longer
  {
  }

  // ---------------------------------------------------------------- lines

  /** A line of a traceback: fixed text and validated metadata, or a message and what replaces it when withheld. */
  datatype Unit = Fixed(text: string) | Message(text: string, withheld: string)

  function FrameLines(t: Traces, nodes: seq<Id>, left: Allowance): (o: Outcome<seq<Unit>>)
    ensures o.Done? ==> |o.value| == |nodes| && forall u :: u in o.value ==> u.Fixed?
  {
    if nodes == [] then Done([], left)
    else
      match t.frameLine(nodes[0], left.scan, left.nodes)
      case Failed(_, _) => Raised
      case Clean(line, scan, count) =>
        match FrameLines(t, nodes[1..], Allowance(scan, count))
        case Raised => Raised
        case Done(lines, after) => Done([Unit.Fixed(line)] + lines, after)
  }

  /** `_traceback_frames`. */
  function Frames(t: Traces, trace: Id, left: Allowance): (o: Outcome<seq<Unit>>)
    ensures o.Done? ==> |o.value| <= MAX_TRACEBACK_FRAMES + 1 && forall u :: u in o.value ==> u.Fixed?
  {
    match FrameLines(t, Last(Walked(t, Some(trace), MAX_TRACEBACK_WALK), MAX_TRACEBACK_FRAMES), left)
    case Raised => Raised
    case Done(lines, after) =>
      var more := Beyond(t, Some(trace), MAX_TRACEBACK_WALK).Some?;
      Done(if more then lines + [Unit.Fixed("  " + TRUNCATED)] else lines, after)
  }

  method BuildFrames(t: Traces, trace: Id, left: Allowance) returns (o: Outcome<seq<Unit>>)
    ensures o == Frames(t, trace, left)
  {
    var kept, more := KeepFrames(t, trace);
    var lines: seq<Unit> := [];
    var allowance := left;
    BeforeNothing(FrameLines(t, kept, left));
    assert kept[0..] == kept;
    for i := 0 to |kept|
      invariant FrameLines(t, kept, left) == Before(lines, FrameLines(t, kept[i..], allowance))
    {
      var line := t.frameLine(kept[i], allowance.scan, allowance.nodes);
      assert kept[i..][0] == kept[i] && kept[i..][1..] == kept[i + 1..];
      if line.Failed? { return Raised; }
      allowance := Allowance(line.scan, line.nodes);
      BeforeOneMore(lines, Unit.Fixed(line.text), FrameLines(t, kept[i + 1..], allowance));
      lines := lines + [Unit.Fixed(line.text)];
    }
    assert lines + [] == lines;
    return Done(if more then lines + [Unit.Fixed("  " + TRUNCATED)] else lines, allowance);
  }

  function Before<T>(lines: seq<T>, o: Outcome<seq<T>>): Outcome<seq<T>> {
    if o.Raised? then Raised else Done(lines + o.value, o.left)
  }

  lemma BeforeNothing<T>(o: Outcome<seq<T>>)
    ensures Before([], o) == o
  {
    if o.Done? { assert [] + o.value == o.value; }
  }

  lemma BeforeOneMore<T>(lines: seq<T>, line: T, o: Outcome<seq<T>>)
    ensures Before(lines, Before([line], o)) == Before(lines + [line], o)
  {
    if o.Done? { assert lines + ([line] + o.value) == lines + [line] + o.value; }
  }

  /** A description, shortened to its limit. */
  function Shortened(text: string): (s: string) {
    if |text| > MAX_DESCRIPTION_LENGTH then text[..MAX_DESCRIPTION_LENGTH] + " " + TRUNCATED else text
  }

  /** The link that is printed above the exception at `position`, if an older one is shown before it. */
  function LinkLines(chain: seq<Link>, position: nat): (lines: seq<Unit>)
    requires position < |chain|
    ensures |lines| <= 3 && forall u :: u in lines ==> u.Fixed?
  {
    if position + 1 == |chain| then []
    else
      var link := if chain[position + 1].via == Some(Cause) then CAUSE_LINK else CONTEXT_LINK;
      [Unit.Fixed(""), Unit.Fixed(link), Unit.Fixed("")]
  }

  /** The lines of one exception: its link, its frames, its description last. */
  function Block(t: Traces, chain: seq<Link>, position: nat, left: Allowance): (o: Outcome<seq<Unit>>)
    requires position < |chain|
    ensures o.Done? ==> o.value != [] && |o.value| <= MAX_TRACEBACK_FRAMES + 6
    ensures o.Done? ==> LinkLines(chain, position) <= o.value
    ensures o.Done? ==> forall i :: 0 <= i < |o.value| - 1 ==> o.value[i].Fixed?
    ensures o.Done? ==> o.value[|o.value| - 1].Message?
  {
    var exc := chain[position].exc;
    var e := t.exceptions(exc);
    var framed :=
      if e.trace.None? then Done([], left)
      else Before([Unit.Fixed(TRACEBACK_HEADER)], Frames(t, e.trace.value, left));
    match framed
    case Raised => Raised
    case Done(frames, after) =>
      match t.describe(exc, after.scan, after.nodes)
      case Failed(_, _) => Raised
      case Clean(text, scan, nodes) =>
        var message := Message(Shortened(text), e.typeName + ": " + REDACTED);
        Done(LinkLines(chain, position) + frames + [message], Allowance(scan, nodes))
  }

  /** The characters of the lines, with a newline for each. */
  function Length(block: seq<Unit>): nat {
    if block == [] then 0 else Length(block[..|block| - 1]) + |block[|block| - 1].text| + 1
  }

  /** The blocks that fit, from the newest exception on, and whether all of them do. */
  datatype Fitting = Fitting(blocks: seq<seq<Unit>>, complete: bool)

  function Blocks(t: Traces, chain: seq<Link>, position: nat, lines: int, length: int, left: Allowance):
      (o: Outcome<Fitting>)
    requires position <= |chain|
    decreases |chain| - position
  {
    if position == |chain| then Done(Fitting([], true), left)
    else
      match Block(t, chain, position, left)
      case Raised => Raised
      case Done(block, after) =>
        if |block| > lines || Length(block) > length then Done(Fitting([], false), after)
        else InFrontOf(block, Blocks(t, chain, position + 1, lines - |block|, length - Length(block), after))
  }

  function InFrontOf(block: seq<Unit>, o: Outcome<Fitting>): Outcome<Fitting> {
    match o
    case Raised => Raised
    case Done(f, left) => Done(Fitting([block] + f.blocks, f.complete), left)
  }

  /** The blocks oldest first, as one list of lines. */
  function Reversed(blocks: seq<seq<Unit>>): seq<Unit> {
    if blocks == [] then [] else Reversed(blocks[1..]) + blocks[0]
  }

  function UnitsOf(f: Fitting): seq<Unit> {
    (if f.complete then [] else [Unit.Fixed(TRUNCATED)]) + Reversed(f.blocks)
  }

  /** `_traceback_units`; `None` when it raises. */
  function Units(t: Traces, exc: Id): Option<seq<Unit>> {
    var chain := Chain(t, Some(exc), None, {}, MAX_EXCEPTION_CHAIN);
    match Blocks(t, chain, 0, MAX_TRACEBACK_LINES, MAX_TRACEBACK_LENGTH, WHOLE)
    case Raised => None
    case Done(f, _) => Some(UnitsOf(f))
  }

  method BuildBlock(t: Traces, chain: seq<Link>, position: nat, left: Allowance) returns (o: Outcome<seq<Unit>>)
    requires position < |chain|
    ensures o == Block(t, chain, position, left)
  {
    hide Frames;
    var block := LinkLines(chain, position);
    var allowance := left;
    var item := chain[position].exc;
    var trace := t.exceptions(item).trace;
    if trace.Some? {
      var frames := BuildFrames(t, trace.value, allowance);
      if frames.Raised? { return Raised; }
      block := block + ([Unit.Fixed(TRACEBACK_HEADER)] + frames.value);
      allowance := frames.left;
    }
    var description := t.describe(item, allowance.scan, allowance.nodes);
    if description.Failed? { return Raised; }
    block := block + [Message(Shortened(description.text), t.exceptions(item).typeName + ": " + REDACTED)];
    assert LinkLines(chain, position) + [] == LinkLines(chain, position);
    return Done(block, Allowance(description.scan, description.nodes));
  }

  method BuildUnits(t: Traces, exc: Id) returns (units: Option<seq<Unit>>)
    ensures units == Units(t, exc)
  {
    hide Block, Chain, Length, Blocks, AllInFront, InFrontOf;
    var chain := FindChain(t, exc);
    var blocks: seq<seq<Unit>> := [];
    var lines, length := MAX_TRACEBACK_LINES, MAX_TRACEBACK_LENGTH;
    var allowance := WHOLE;
    var position := 0;
    ghost var whole := Blocks(t, chain, 0, MAX_TRACEBACK_LINES, MAX_TRACEBACK_LENGTH, WHOLE);
    NothingInFront(whole);
    while position < |chain|
      invariant position <= |chain|
      invariant whole == AllInFront(blocks, Blocks(t, chain, position, lines, length, allowance))
    {
      var block := BuildBlock(t, chain, position, allowance);
      BlocksStep(t, chain, position, lines, length, allowance);
      if block.Raised? {
        RaisedInFront(blocks);
        return None;
      }
      allowance := block.left;
      var size := Length(block.value);
      if |block.value| > lines || size > length {
        AllOfThem(blocks, false, allowance);
        return Some(UnitsOf(Fitting(blocks, false)));
      }
      AllInFrontOneMore(blocks, block.value,
                        Blocks(t, chain, position + 1, lines - |block.value|, length - size, allowance));
      lines, length := lines - |block.value|, length - size;
      blocks := blocks + [block.value];
      position := position + 1;
    }
    BlocksEnd(t, chain, lines, length, allowance);
    AllOfThem(blocks, true, allowance);
    return Some(UnitsOf(Fitting(blocks, true)));
  }

  lemma BlocksStep(t: Traces, chain: seq<Link>, position: nat, lines: int, length: int, left: Allowance)
    requires position < |chain|
    ensures var block := Block(t, chain, position, left);
      Blocks(t, chain, position, lines, length, left) ==
        if block.Raised? then Raised
        else if |block.value| > lines || Length(block.value) > length then Done(Fitting([], false), block.left)
        else
          InFrontOf(block.value,
                    Blocks(t, chain, position + 1, lines - |block.value|, length - Length(block.value), block.left))
  {
    hide Block, Length;
  }

  lemma BlocksEnd(t: Traces, chain: seq<Link>, lines: int, length: int, left: Allowance)
    ensures Blocks(t, chain, |chain|, lines, length, left) == Done(Fitting([], true), left)
  {
  }

  lemma RaisedInFront(blocks: seq<seq<Unit>>)
    ensures AllInFront(blocks, Raised).Raised?
  {
  }

  lemma AllOfThem(blocks: seq<seq<Unit>>, complete: bool, left: Allowance)
    ensures AllInFront(blocks, Done(Fitting([], complete), left)) == Done(Fitting(blocks, complete), left)
  {
    assert blocks + [] == blocks;
  }

  function AllInFront(blocks: seq<seq<Unit>>, o: Outcome<Fitting>): Outcome<Fitting> {
    match o
    case Raised => Raised
    case Done(f, left) => Done(Fitting(blocks + f.blocks, f.complete), left)
  }

  lemma NothingInFront(o: Outcome<Fitting>)
    ensures AllInFront([], o) == o
  {
    if o.Done? { assert [] + o.value.blocks == o.value.blocks; }
  }

  lemma AllInFrontOneMore(blocks: seq<seq<Unit>>, block: seq<Unit>, o: Outcome<Fitting>)
    ensures AllInFront(blocks, InFrontOf(block, o)) == AllInFront(blocks + [block], o)
  {
    if o.Done? { assert blocks + ([block] + o.value.blocks) == blocks + [block] + o.value.blocks; }
  }

  // ---------------------------------------------------------------- what is shown

  /** The block of the exception at a position of the chain: its link first, its description last. */
  ghost predicate Shows(t: Traces, chain: seq<Link>, position: nat, block: seq<Unit>)
    requires position < |chain|
  {
    && block != [] && LinkLines(chain, position) <= block
    && (forall i :: 0 <= i < |block| - 1 ==> block[i].Fixed?)
    && exists left :: Block(t, chain, position, left).Done? && Block(t, chain, position, left).value == block
  }

  function LinesIn(blocks: seq<seq<Unit>>): nat {
    if blocks == [] then 0 else |blocks[0]| + LinesIn(blocks[1..])
  }

  function LengthOf(blocks: seq<seq<Unit>>): nat {
    if blocks == [] then 0 else Length(blocks[0]) + LengthOf(blocks[1..])
  }

  /** The block of the exception at a position of the chain is longer than the room that is left. */
  ghost predicate DoesNotFit(t: Traces, chain: seq<Link>, position: nat, lines: int, length: int)
    requires position < |chain|
  {
    exists left :: Block(t, chain, position, left).Done?
      && var block := Block(t, chain, position, left).value;
      (|block| > lines || Length(block) > length)
  }

  /** What the blocks from `position` on are: they fit, and the first one left out does not fit behind them. */
  ghost predicate FitsFrom(t: Traces, chain: seq<Link>, position: nat, lines: int, length: int, f: Fitting) {
    && |f.blocks| <= |chain| - position
    && (f.complete <==> |f.blocks| == |chain| - position)
    && (forall i :: 0 <= i < |f.blocks| ==> Shows(t, chain, position + i, f.blocks[i]))
    && LinesIn(f.blocks) <= lines && LengthOf(f.blocks) <= length
    && (!f.complete ==>
          DoesNotFit(t, chain, position + |f.blocks|, lines - LinesIn(f.blocks), length - LengthOf(f.blocks)))
  }

  lemma OneBlockMore(t: Traces, chain: seq<Link>, position: nat, lines: int, length: int, block: seq<Unit>, f: Fitting)
    requires position < |chain| && Shows(t, chain, position, block)
    requires FitsFrom(t, chain, position + 1, lines - |block|, length - Length(block), f)
    ensures FitsFrom(t, chain, position, lines, length, Fitting([block] + f.blocks, f.complete))
  {
    hide Shows, Length, DoesNotFit;
    var blocks := [block] + f.blocks;
    assert blocks[1..] == f.blocks;
    forall i | 0 <= i < |blocks| ensures Shows(t, chain, position + i, blocks[i]) {
      if i > 0 { assert blocks[i] == f.blocks[i - 1] && position + i == (position + 1) + (i - 1); }
    }
  }

  lemma IsShown(t: Traces, chain: seq<Link>, position: nat, left: Allowance)
    requires position < |chain| && Block(t, chain, position, left).Done?
    ensures Shows(t, chain, position, Block(t, chain, position, left).value)
  {
    hide Block;
  }

  /** The blocks shown are those of the newest exceptions, in order, all of them exactly if nothing was left out. */
  lemma {:induction false} NewestFirst(t: Traces, chain: seq<Link>, position: nat, lines: int, length: int,
                                       left: Allowance)
    requires position <= |chain| && lines >= 0 && length >= 0
    requires Blocks(t, chain, position, lines, length, left).Done?
    ensures FitsFrom(t, chain, position, lines, length, Blocks(t, chain, position, lines, length, left).value)
    decreases |chain| - position
  {
    hide Block, Length, FitsFrom, Shows;
    var f := Blocks(t, chain, position, lines, length, left).value;
    if position == |chain| {
      NoneFit(t, chain, position, lines, length, true);
    } else {
      var block, after := Block(t, chain, position, left).value, Block(t, chain, position, left).left;
      if |block| <= lines && Length(block) <= length {
        NewestFirst(t, chain, position + 1, lines - |block|, length - Length(block), after);
        IsShown(t, chain, position, left);
        OneBlockMore(t, chain, position, lines, length, block,
                     Blocks(t, chain, position + 1, lines - |block|, length - Length(block), after).value);
      } else {
        IsTooLong(t, chain, position, lines, length, left);
        NoneFit(t, chain, position, lines, length, false);
      }
    }
  }

  lemma IsTooLong(t: Traces, chain: seq<Link>, position: nat, lines: int, length: int, left: Allowance)
    requires position < |chain| && Block(t, chain, position, left).Done?
    requires var block := Block(t, chain, position, left).value; |block| > lines || Length(block) > length
    ensures DoesNotFit(t, chain, position, lines, length)
  {
    hide Block, Length;
  }

  lemma NoneFit(t: Traces, chain: seq<Link>, position: nat, lines: int, length: int, complete: bool)
    requires position <= |chain| && lines >= 0 && length >= 0 && (complete <==> position == |chain|)
    requires position < |chain| ==> DoesNotFit(t, chain, position, lines, length)
    ensures FitsFrom(t, chain, position, lines, length, Fitting([], complete))
  {
  }

  /** The newest exception is shown exactly if its own lines fit. */
  lemma NewestIsShownIffItFits(t: Traces, exc: Id)
    requires Units(t, exc).Some?
    ensures var chain := Chain(t, Some(exc), None, {}, MAX_EXCEPTION_CHAIN);
      var newest := Block(t, chain, 0, WHOLE);
      newest.Done? && (Units(t, exc) == Some([Unit.Fixed(TRUNCATED)]) <==> Length(newest.value) > MAX_TRACEBACK_LENGTH)
  {
    hide Block, Length, Chain, Blocks;
    var chain := Chain(t, Some(exc), None, {}, MAX_EXCEPTION_CHAIN);
    BlocksStep(t, chain, 0, MAX_TRACEBACK_LINES, MAX_TRACEBACK_LENGTH, WHOLE);
    var newest := Block(t, chain, 0, WHOLE).value;
    var f := Blocks(t, chain, 0, MAX_TRACEBACK_LINES, MAX_TRACEBACK_LENGTH, WHOLE).value;
    if Length(newest) <= MAX_TRACEBACK_LENGTH {
      LastUnit(f, newest);
    } else {
      assert UnitsOf(f) == [Unit.Fixed(TRUNCATED)] + [] == [Unit.Fixed(TRUNCATED)];
    }
  }

  /** Frames whose lines are all long. */
  ghost predicate LongLines(t: Traces, width: nat) {
    forall node, scan, nodes :: t.frameLine(node, scan, nodes).Clean? ==> |t.frameLine(node, scan, nodes).text| >= width
  }

  lemma {:induction false} FrameLinesAreLong(t: Traces, nodes: seq<Id>, left: Allowance, width: nat)
    requires LongLines(t, width) && FrameLines(t, nodes, left).Done?
    ensures Length(FrameLines(t, nodes, left).value) >= (width + 1) * |nodes|
    decreases |nodes|
  {
    if nodes != [] {
      var line := t.frameLine(nodes[0], left.scan, left.nodes);
      var rest := FrameLines(t, nodes[1..], Allowance(line.scan, line.nodes)).value;
      FrameLinesAreLong(t, nodes[1..], Allowance(line.scan, line.nodes), width);
      LengthSum([Unit.Fixed(line.text)], rest);
      assert [Unit.Fixed(line.text)][..0] == [];
      assert (width + 1) * |nodes| == (width + 1) * (|nodes| - 1) + width + 1;
    }
  }

  /** Thirty-two frames whose lines have 510 characters leave nothing but the marker: not even the message is shown. */
  lemma LongFramesHideEverything(t: Traces, exc: Id, trace: Id)
    requires Units(t, exc).Some? && t.exceptions(exc).trace == Some(trace)
    requires |Walked(t, Some(trace), MAX_TRACEBACK_WALK)| >= MAX_TRACEBACK_FRAMES && LongLines(t, 510)
    ensures Units(t, exc) == Some([Unit.Fixed(TRUNCATED)])
  {
    hide Length, Chain, Blocks, Walked, FrameLines, Shortened, Units;
    var chain := Chain(t, Some(exc), None, {}, MAX_EXCEPTION_CHAIN);
    NewestIsShownIffItFits(t, exc);
    var block := Block(t, chain, 0, WHOLE).value;
    var nodes := Last(Walked(t, Some(trace), MAX_TRACEBACK_WALK), MAX_TRACEBACK_FRAMES);
    FrameLinesAreLong(t, nodes, WHOLE, 510);
    var lines, frames := FrameLines(t, nodes, WHOLE).value, Frames(t, trace, WHOLE).value;
    LengthSum(lines, frames[|lines|..]);
    assert frames == lines + frames[|lines|..];
    var before := LinkLines(chain, 0) + [Unit.Fixed(TRACEBACK_HEADER)];
    var message := [block[|block| - 1]];
    assert block == before + frames + message;
    LengthSum(before + frames, message);
    LengthSum(before, frames);
  }

  /** The last line of a traceback is the last of its newest block. */
  lemma LastUnit(f: Fitting, newest: seq<Unit>)
    requires f.blocks != [] && f.blocks[0] == newest && newest != []
    ensures UnitsOf(f) != [] && UnitsOf(f)[|UnitsOf(f)| - 1] == newest[|newest| - 1]
  {
  }

  // ---------------------------------------------------------------- the length

  function Texts(units: seq<Unit>): (texts: seq<string>)
    ensures |texts| == |units| && forall i :: 0 <= i < |units| ==> texts[i] == units[i].text
  {
    seq(|units|, i requires 0 <= i < |units| => units[i].text)
  }

  lemma {:induction false} LengthSum(a: seq<Unit>, b: seq<Unit>)
    ensures Length(a + b) == Length(a) + Length(b)
  {
    if b == [] {
      assert a + b == a;
    } else {
      assert (a + b)[..|a + b| - 1] == a + b[..|b| - 1];
      LengthSum(a, b[..|b| - 1]);
    }
  }

  lemma {:induction false} ReversedLength(blocks: seq<seq<Unit>>)
    ensures Length(Reversed(blocks)) == LengthOf(blocks) && |Reversed(blocks)| == LinesIn(blocks)
  {
    if blocks != [] {
      ReversedLength(blocks[1..]);
      LengthSum(Reversed(blocks[1..]), blocks[0]);
    }
  }

  lemma {:induction false} JoinedLength(units: seq<Unit>)
    ensures |Assembly.Join(Texts(units))| == if units == [] then 0 else Length(units) - 1
  {
    if |units| > 1 {
      var front := units[..|units| - 1];
      JoinedLength(front);
      assert Texts(units)[..|units| - 1] == Texts(front);
    } else if |units| == 1 {
      assert units[..0] == [];
    }
  }

  /** The complete form of a traceback is never longer than a text the scrubber examines in full. */
  lemma TracebackFits(t: Traces, exc: Id)
    requires Units(t, exc).Some?
    ensures var units := Units(t, exc).value;
      |units| <= MAX_TRACEBACK_LINES + 1 && |Assembly.Join(Texts(units))| <= MAX_STRING_LENGTH
  {
    hide Block, Length, Chain, LengthOf, LinesIn, Reversed;
    var chain := Chain(t, Some(exc), None, {}, MAX_EXCEPTION_CHAIN);
    NewestFirst(t, chain, 0, MAX_TRACEBACK_LINES, MAX_TRACEBACK_LENGTH, WHOLE);
    var f := Blocks(t, chain, 0, MAX_TRACEBACK_LINES, MAX_TRACEBACK_LENGTH, WHOLE).value;
    ReversedLength(f.blocks);
    assert LinesIn(f.blocks) <= MAX_TRACEBACK_LINES && LengthOf(f.blocks) <= MAX_TRACEBACK_LENGTH;
    var marker := if f.complete then [] else [Unit.Fixed(TRUNCATED)];
    LengthSum(marker, Reversed(f.blocks));
    assert Length(marker) <= 12 by { MarkerLength(); }
    JoinedLength(UnitsOf(f));
  }

  lemma MarkerLength()
    ensures Length([]) == 0 && Length([Unit.Fixed(TRUNCATED)]) == 12
  {
    assert [Unit.Fixed(TRUNCATED)][..0] == [];
  }

  // ---------------------------------------------------------------- the text

  predicate Holds(text: string, part: string) {
    exists i :: 0 <= i <= |text| && part <= text[i..]
  }

  /** A message in which something was masked. */
  predicate Masked(u: Unit) {
    u.Message? && (Holds(u.text, REDACTED) || Holds(u.text, TRUNCATED_SENSITIVE))
  }

  /** A line in the `k`-th form: as it is, ended with a space, withheld if masked, withheld. */
  function LineIn(units: seq<Unit>, i: nat, k: nat): string
    requires i < |units|
  {
    var u := units[i];
    if k == 0 || u.Fixed? then u.text
    else if k == 1 then if Masked(u) && i < |units| - 1 then u.text + " " else u.text
    else if k == 2 then if Masked(u) && u.withheld != "" then u.withheld else u.text
    else u.withheld
  }

  function Candidate(units: seq<Unit>, k: nat): (lines: seq<string>)
    ensures |lines| == |units| && forall i :: 0 <= i < |units| ==> lines[i] == LineIn(units, i, k)
  {
    seq(|units|, i requires 0 <= i < |units| => LineIn(units, i, k))
  }

  datatype Reading = Unchanged | Changed | Broke

  /** `_is_emitted_unchanged`, which may raise. */
  function Read(t: Traces, text: string): Reading {
    if |text| > MAX_STRING_LENGTH then Changed
    else
      match t.scrub(text, MAX_EVENT_SCAN, MAX_EVENT_NODES, 0)
      case Failed(_, _) => Broke
      case Clean(scrubbed, _, _) => if scrubbed == text then Unchanged else Changed
  }

  function FirstUnchanged(t: Traces, units: seq<Unit>, k: nat): string
    decreases 4 - k
  {
    if k >= 4 then REDACTED
    else
      var text := Assembly.Join(Candidate(units, k));
      match Read(t, text)
      case Unchanged => text
      case Changed => FirstUnchanged(t, units, k + 1)
      case Broke => UNREADABLE
  }

  /** `traceback_text`. */
  method TracebackText(t: Traces, exc: Id) returns (text: string)
    ensures text == if Units(t, exc).None? then UNREADABLE else FirstUnchanged(t, Units(t, exc).value, 0)
  {
    hide Units, Candidate;
    var units := BuildUnits(t, exc);
    if units.None? { return UNREADABLE; }
    for k := 0 to 4
      invariant FirstUnchanged(t, units.value, k) == FirstUnchanged(t, units.value, 0)
    {
      var candidate := Assembly.Join(Candidate(units.value, k));
      var reading := Read(t, candidate);
      if reading.Broke? { return UNREADABLE; }
      if reading.Unchanged? { return candidate; }
    }
    return REDACTED;
  }

  /** A text the scrubber, reading it whole, emits as it is. */
  predicate EmittedUnchanged(t: Traces, text: string) {
    Read(t, text).Unchanged?
  }

  /** A form of the traceback: every frame, header and link line in its place, every message whole, or withheld. */
  ghost predicate IsForm(units: seq<Unit>, lines: seq<string>) {
    && |lines| == |units|
    && forall i :: 0 <= i < |units| ==>
         match units[i]
         case Fixed(line) => lines[i] == line
         case Message(message, withheld) => lines[i] == message || lines[i] == message + " " || lines[i] == withheld
  }

  /** The text is a form of the traceback the scrubber leaves unchanged. */
  ghost predicate Complete(t: Traces, units: seq<Unit>, text: string) {
    EmittedUnchanged(t, text) && exists lines :: IsForm(units, lines) && text == Assembly.Join(lines)
  }

  lemma {:induction false} TheFirstUnchanged(t: Traces, units: seq<Unit>, k: nat)
    requires k <= 4
    ensures var text := FirstUnchanged(t, units, k);
      && (text == REDACTED || text == UNREADABLE || Complete(t, units, text))
      && ((exists j: nat :: k <= j < 4 && EmittedUnchanged(t, Assembly.Join(Candidate(units, j)))
                            && forall i: nat :: k <= i < j ==> !Read(t, Assembly.Join(Candidate(units, i))).Broke?) ==>
            Complete(t, units, text))
    decreases 4 - k
  {
    hide Read;
    if k < 4 {
      var text := Assembly.Join(Candidate(units, k));
      match Read(t, text) {
        case Unchanged => assert IsForm(units, Candidate(units, k));
        case Changed => TheFirstUnchanged(t, units, k + 1);
        case Broke =>
      }
    }
  }

  /** The scrubber leaves none of the four forms as it is. */
  ghost predicate AllChanged(t: Traces, units: seq<Unit>) {
    forall k: nat :: k < 4 ==> !EmittedUnchanged(t, Assembly.Join(Candidate(units, k)))
  }

  /**
   * A traceback that is shown is one the scrubber was shown whole and leaves as it is, with every line built from
   * frames, headers and links in it and in order; only messages are ever given up. It is replaced whole only if every
   * form of it would be changed or the scrubber raised, and as built it is never too long to be examined.
   */
  lemma ShownTracebacksAreComplete(t: Traces, exc: Id, text: string)
    requires text == if Units(t, exc).None? then UNREADABLE else FirstUnchanged(t, Units(t, exc).value, 0)
    ensures text == REDACTED || text == UNREADABLE || (Units(t, exc).Some? && Complete(t, Units(t, exc).value, text))
    ensures Units(t, exc).Some? ==>
      var whole := Assembly.Join(Texts(Units(t, exc).value));
      && |whole| <= MAX_STRING_LENGTH
      && (EmittedUnchanged(t, whole) ==> text == whole)
      && (text == REDACTED && !EmittedUnchanged(t, REDACTED) ==> AllChanged(t, Units(t, exc).value))
  {
    hide Units, Read;
    if Units(t, exc).Some? {
      var units := Units(t, exc).value;
      TracebackFits(t, exc);
      TheFirstUnchanged(t, units, 0);
      assert Candidate(units, 0) == Texts(units);
    }
  }
}
