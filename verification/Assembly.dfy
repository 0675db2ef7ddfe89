/** Fields laid out as one text: their fragments are joined before anything is sanitised. */
module Assembly {
  import opened Text
  import opened Values

  /** What collecting has produced, and the characters and values it may still take. */
  datatype Room = Room(chars: int, values: int, fragments: seq<string>)

  const FULL_ROOM := Room(MAX_STRING_LENGTH + 1, MAX_ITEMS, [])

  function RemoveNewline(s: string): (t: string)
    ensures |t| <= |s|
  {
    if s != "" && s[|s| - 1] == '\n' then s[..|s| - 1] else s
  }

  function Add(room: Room, text: string, cost: nat): Room {
    room.(chars := room.chars - cost, fragments := room.fragments + [text])
  }

  /** `_collect_fragments`; `None` when an iteration raises. */
  function Collected(objects: Id -> Object, v: Value, depth: nat, room: Room): (r: Option<Room>)
    ensures r.Some? ==> r.value.values <= room.values
    decreases Max(room.values, 0), 0, 0
  {
    if room.chars <= 0 || room.values <= 0 then Some(room)
    else
      var spent := room.(values := room.values - 1);
      match v
      case Text(text) =>
        var kept := Take(text, room.chars);
        Some(Add(spent, RemoveNewline(kept), |kept| + 1))
      case Ref(id) =>
        var o := objects(id);
        if o.Sequence? && !o.unordered && depth < MAX_DEPTH then
          CollectedItems(objects, o.items, 0, o.ends, depth + 1, spent)
        else Some(Add(spent, UNSUPPORTED, |UNSUPPORTED| + 1))
      case _ => Some(Add(spent, UNSUPPORTED, |UNSUPPORTED| + 1))
  }

  function CollectedItems(objects: Id -> Object, items: seq<Value>, i: nat, ends: Ending, depth: nat, room: Room):
      (r: Option<Room>)
    requires i <= |items|
    ensures r.Some? ==> r.value.values <= room.values
    decreases Max(room.values, 0), 1, |items| - i
  {
    if i >= MAX_ITEMS then Some(room)
    else if i == |items| then if ends.Raises? then None else Some(room)
    else
      match Collected(objects, items[i], depth, room)
      case None => None
      case Some(left) => CollectedItems(objects, items, i + 1, ends, depth, left)
  }

  function Join(lines: seq<string>): string {
    if lines == [] then ""
    else if |lines| == 1 then lines[0]
    else Join(lines[..|lines| - 1]) + "\n" + lines[|lines| - 1]
  }

  /** `_assembled_text`. */
  function AssembledText(objects: Id -> Object, v: Value): string {
    if v.Text? then v.text
    else
      match Collected(objects, v, 0, FULL_ROOM)
      case None => UNREADABLE
      case Some(room) => Join(if room.values <= 0 then room.fragments + [TRUNCATED] else room.fragments)
  }

  /** The collector as it runs: both lists are updated in place. */
  class Collector {
    var chars: int
    var values: int
    var fragments: seq<string>

    function Left(): Room
      reads this
    {
      Room(chars, values, fragments)
    }

    constructor ()
      ensures Left() == FULL_ROOM
    {
      chars, values, fragments := MAX_STRING_LENGTH + 1, MAX_ITEMS, [];
    }

    method Collect(objects: Id -> Object, v: Value, depth: nat) returns (raised: bool)
      modifies this
      ensures raised == Collected(objects, v, depth, old(Left())).None?
      ensures !raised ==> Some(Left()) == Collected(objects, v, depth, old(Left()))
      decreases Max(values, 0), 0
    {
      if chars <= 0 || values <= 0 { return false; }
      values := values - 1;
      if v.Text? {
        var kept := Take(v.text, chars);
        chars := chars - (|kept| + 1);
        fragments := fragments + [RemoveNewline(kept)];
        return false;
      }
      if v.Ref? && depth < MAX_DEPTH {
        var o := objects(v.id);
        if o.Sequence? && !o.unordered {
          ghost var start := Left();
          var i := 0;
          while i < |o.items| && i < MAX_ITEMS
            invariant i <= |o.items|
            invariant values <= start.values
            invariant CollectedItems(objects, o.items, i, o.ends, depth + 1, Left())
                   == CollectedItems(objects, o.items, 0, o.ends, depth + 1, start)
          {
            raised := this.Collect(objects, o.items[i], depth + 1);
            if raised { return; }
            i := i + 1;
          }
          return i < MAX_ITEMS && o.ends.Raises?;
        }
      }
      chars := chars - (|UNSUPPORTED| + 1);
      fragments := fragments + [UNSUPPORTED];
      return false;
    }
  }

  method Assemble(objects: Id -> Object, v: Value) returns (text: string)
    ensures text == AssembledText(objects, v)
  {
    if v.Text? { return v.text; }
    var collector := new Collector();
    var raised := collector.Collect(objects, v, 0);
    if raised { return UNREADABLE; }
    if collector.values <= 0 { collector.fragments := collector.fragments + [TRUNCATED]; }
    return Join(collector.fragments);
  }

  // ---------------------------------------------------------------- work and length are bounded

  /** The characters a list of lines takes when each is followed by a newline. */
  function Footprint(lines: seq<string>): nat {
    if lines == [] then 0 else Footprint(lines[..|lines| - 1]) + |lines[|lines| - 1]| + 1
  }

  lemma FootprintSnoc(lines: seq<string>, line: string)
    ensures Footprint(lines + [line]) == Footprint(lines) + |line| + 1
  {
    assert (lines + [line])[..|lines|] == lines;
  }

  lemma {:induction false} JoinLength(lines: seq<string>)
    ensures |Join(lines)| == if lines == [] then 0 else Footprint(lines) - 1
  {
    if |lines| > 1 {
      JoinLength(lines[..|lines| - 1]);
    } else if |lines| == 1 {
      assert lines[..0] == [];
    }
  }

  /** Collecting never copies more than the room it was given, one marker aside. */
  ghost predicate Bounded(room: Room) {
    && |room.fragments| <= MAX_ITEMS - room.values
    && 0 <= room.values
    && Footprint(room.fragments) + room.chars <= MAX_STRING_LENGTH + 1
    && -(|UNSUPPORTED| as int) <= room.chars
  }

  lemma {:induction false} CollectBounded(objects: Id -> Object, v: Value, depth: nat, room: Room)
    requires Bounded(room)
    ensures Collected(objects, v, depth, room).Some? ==> Bounded(Collected(objects, v, depth, room).value)
    decreases Max(room.values, 0), 0, 0
  {
    if room.chars > 0 && room.values > 0 {
      var spent := room.(values := room.values - 1);
      FootprintSnoc(room.fragments, UNSUPPORTED);
      if v.Text? {
        FootprintSnoc(room.fragments, RemoveNewline(Take(v.text, room.chars)));
      } else if v.Ref? && objects(v.id).Sequence? {
        CollectItemsBounded(objects, objects(v.id).items, 0, objects(v.id).ends, depth + 1, spent);
      }
    }
  }

  lemma {:induction false} CollectItemsBounded(
      objects: Id -> Object, items: seq<Value>, i: nat, ends: Ending, depth: nat, room: Room)
    requires i <= |items| && Bounded(room)
    ensures CollectedItems(objects, items, i, ends, depth, room).Some? ==>
              Bounded(CollectedItems(objects, items, i, ends, depth, room).value)
    decreases Max(room.values, 0), 1, |items| - i
  {
    if i < MAX_ITEMS && i < |items| {
      CollectBounded(objects, items[i], depth, room);
      match Collected(objects, items[i], depth, room) {
        case None =>
        case Some(left) => CollectItemsBounded(objects, items, i + 1, ends, depth, left);
      }
    }
  }

  /**
   * Whatever the value is, also a list that contains itself: at most `MAX_ITEMS` values are looked at, each gives at
   * most one fragment, and the text is of bounded length.
   */
  lemma {:induction false} AssemblyIsBounded(objects: Id -> Object, v: Value)
    requires !v.Text?
    ensures match Collected(objects, v, 0, FULL_ROOM)
      case None => true
      case Some(room) => var taken := MAX_ITEMS - room.values; |room.fragments| <= taken <= MAX_ITEMS
    ensures |AssembledText(objects, v)| <= MAX_STRING_LENGTH + 1 + |UNSUPPORTED| + |TRUNCATED|
  {
    assert Footprint([]) == 0;
    CollectBounded(objects, v, 0, FULL_ROOM);
    match Collected(objects, v, 0, FULL_ROOM) {
      case None =>
      case Some(room) =>
        FootprintSnoc(room.fragments, TRUNCATED);
        JoinLength(room.fragments);
        JoinLength(room.fragments + [TRUNCATED]);
    }
  }

  // ---------------------------------------------------------------- what is assembled

  /** A finite nest of lists, independently of how it is stored. */
  datatype Nest = Line(text: string) | Block(parts: seq<Nest>) | Odd

  /** `v` is stored as the nest `n`. */
  ghost predicate Stores(objects: Id -> Object, v: Value, n: Nest)
    decreases n
  {
    match n
    case Line(text) => v == Text(text)
    case Odd => !v.Text? && (v.Ref? ==> !(objects(v.id).Sequence? && !objects(v.id).unordered))
    case Block(parts) =>
      && v.Ref?
      && var o := objects(v.id);
      && o.Sequence? && !o.unordered && o.ends.Stops?
      && |o.items| == |parts|
      && forall i :: 0 <= i < |parts| ==> Stores(objects, o.items[i], parts[i])
  }

  function Levels(n: Nest): nat {
    match n
    case Block(parts) => 1 + LevelsOf(parts)
    case _ => 0
  }

  function LevelsOf(parts: seq<Nest>): nat {
    if parts == [] then 0 else Max(Levels(parts[0]), LevelsOf(parts[1..]))
  }

  function Count(n: Nest): nat {
    match n
    case Block(parts) => 1 + CountOf(parts)
    case _ => 1
  }

  function CountOf(parts: seq<Nest>): nat {
    if parts == [] then 0 else Count(parts[0]) + CountOf(parts[1..])
  }

  /** The lines of a nest, left to right and depth first. */
  function Lines(n: Nest): seq<string> {
    match n
    case Line(text) => [RemoveNewline(text)]
    case Odd => [UNSUPPORTED]
    case Block(parts) => LinesOf(parts)
  }

  function LinesOf(parts: seq<Nest>): seq<string> {
    if parts == [] then [] else Lines(parts[0]) + LinesOf(parts[1..])
  }

  /** The characters of a nest as they are counted: before the final newline of a line is dropped. */
  function Characters(n: Nest): nat {
    match n
    case Line(text) => |text| + 1
    case Odd => |UNSUPPORTED| + 1
    case Block(parts) => CharactersOf(parts)
  }

  function CharactersOf(parts: seq<Nest>): nat {
    if parts == [] then 0 else Characters(parts[0]) + CharactersOf(parts[1..])
  }

  /** What one collected value leaves, while it fits. */
  ghost predicate Took(room: Room, lines: seq<string>, count: nat, characters: nat, left: Room) {
    && left.fragments == room.fragments + lines
    && room.values - count <= left.values
    && left.chars == room.chars - characters
  }

  lemma {:induction false} CollectsLines(objects: Id -> Object, v: Value, n: Nest, depth: nat, room: Room)
    requires Stores(objects, v, n)
    requires depth + Levels(n) <= MAX_DEPTH
    requires Count(n) < room.values <= MAX_ITEMS
    requires Characters(n) <= room.chars
    ensures Collected(objects, v, depth, room).Some?
    ensures Took(room, Lines(n), Count(n), Characters(n), Collected(objects, v, depth, room).value)
    decreases n, 0
  {
    match n {
      case Line(text) => assert Take(text, room.chars) == text;
      case Odd =>
      case Block(parts) =>
        if room.chars > 0 {
          var o := objects(v.id);
          assert parts[0..] == parts;
          FewParts(parts);
          CollectsBlock(objects, o.items, parts, 0, depth + 1, room.(values := room.values - 1));
        } else {
          NoCharacters(parts);
        }
    }
  }

  lemma {:induction false} CollectsBlock(
      objects: Id -> Object, items: seq<Value>, parts: seq<Nest>, i: nat, depth: nat, room: Room)
    requires i <= |items| == |parts| < MAX_ITEMS
    requires forall k :: 0 <= k < |parts| ==> Stores(objects, items[k], parts[k])
    requires depth + LevelsOf(parts[i..]) <= MAX_DEPTH
    requires CountOf(parts[i..]) < room.values <= MAX_ITEMS
    requires CharactersOf(parts[i..]) <= room.chars
    ensures CollectedItems(objects, items, i, Stops, depth, room).Some?
    ensures Took(room, LinesOf(parts[i..]), CountOf(parts[i..]), CharactersOf(parts[i..]),
                 CollectedItems(objects, items, i, Stops, depth, room).value)
    decreases parts, |parts| - i
  {
    if i < |items| {
      var rest := parts[i..];
      assert rest[0] == parts[i] && rest[1..] == parts[i + 1..];
      CollectsLines(objects, items[i], parts[i], depth, room);
      var left := Collected(objects, items[i], depth, room).value;
      CollectsBlock(objects, items, parts, i + 1, depth, left);
    }
  }

  /** A nest that takes no characters has no lines. */
  lemma {:induction false} NoCharacters(parts: seq<Nest>)
    requires CharactersOf(parts) == 0
    ensures LinesOf(parts) == []
    decreases parts
  {
    if parts != [] {
      match parts[0] {
        case Line(_) =>
        case Odd =>
        case Block(inner) => NoCharacters(inner);
      }
      NoCharacters(parts[1..]);
    }
  }

  lemma {:induction false} FewParts(parts: seq<Nest>)
    ensures |parts| <= CountOf(parts)
  {
    if parts != [] {
      FewParts(parts[1..]);
    }
  }

  /** Within the limits, the assembled text is every line of the nest, in order. */
  lemma AssembledTextIsTheFlattening(objects: Id -> Object, v: Value, n: Nest)
    requires Stores(objects, v, n) && !v.Text?
    requires Levels(n) <= MAX_DEPTH && Count(n) < MAX_ITEMS && Characters(n) <= MAX_STRING_LENGTH + 1
    ensures AssembledText(objects, v) == Join(Lines(n))
  {
    CollectsLines(objects, v, n, 0, FULL_ROOM);
    assert FULL_ROOM.fragments + Lines(n) == Lines(n);
  }
}
