/** The object graph a caller hands to the sanitiser, and the foreign code it relies on. */
module Values {
  import opened Text
  import opened Json

  const REDACTED := "[REDACTED]"
  const TRUNCATED := "[TRUNCATED]"
  const CYCLE := "[CYCLE]"
  const REPEATED := "[REPEATED]"
  const UNREADABLE := "[UNREADABLE]"
  const UNSUPPORTED := "[UNSUPPORTED]"

  const MAX_DEPTH := 8
  const MAX_ITEMS := 200
  const MAX_EVENT_FIELDS := MAX_ITEMS
  const MAX_STRING_LENGTH := 16_384
  const MAX_EVENT_NODES := 2_048
  const MAX_EVENT_SCAN := 524_288
  const MAX_EVENT_OUTPUT := 65_536
  const MAX_KEY_LENGTH := 256
  const MAX_JSON_NESTING := 16
  const SEPARATOR_COST := 2
  const BUDGET_NOTE := "event budget exhausted"
  const FIELDS_NOTE := "event field limit reached"

  datatype Option<+T> = None | Some(value: T)

  /** `id()` of an object of the graph. */
  type Id = nat

  /** What `len()` may return. */
  type Length = n: nat | n < 0x8000_0000_0000_0000

  /** An integer of at most `_MAX_INT_BITS` bits. */
  type SmallInt = n: int |
    -0x1_0000_0000_0000_0000_0000_0000_0000_0000 < n < 0x1_0000_0000_0000_0000_0000_0000_0000_0000

  /** The bit length of a longer integer: all that is ever read of it. */
  type BitCount = n: nat | 128 < n < 0x8_0000_0000_0000_0000 witness 129

  /** A value by its real type. Paths are text; every other fixed renderer yields plain ASCII. */
  datatype Value =
    | Text(text: string)
    | Nothing
    | Truth(b: bool)
    | Small(n: SmallInt)
    | Big(bits: BitCount)
    | Fraction(f: Float)
    | Secret
    | Failure(id: Id)
    | Fixed(plain: Plain)
    | Other
    | Ref(id: Id)

  /** How an iteration ends once it has yielded what the model lists. */
  datatype Ending = Stops | Raises

  /** An object that holds values: `size` is what `len()` says, `None` if it raises. */
  datatype Object =
    | Mapping(size: Option<Length>, pairs: seq<(Value, Value)>, ends: Ending)
    | Sequence(size: Option<Length>, items: seq<Value>, ends: Ending, unordered: bool)
    | Member(stored: Value)

  /** `_scrub` of a text, or the description of an exception: its result and what it left of the budget. */
  datatype Scrubbed = Clean(text: string, scan: int, nodes: int) | Failed(scan: int, nodes: int)

  /** How many visits a text at this nesting may take beyond the allowance: one for each level left to unwrap. */
  function Overdraft(nesting: nat): int {
    Max(0, MAX_JSON_NESTING - nesting)
  }

  /** No visit is given back, none is taken from a spent allowance, and the last ones may overdraw it. */
  predicate WithinAllowance(nodes: int, left: int, nesting: nat) {
    if nodes <= 0 then left == nodes else -Overdraft(nesting) <= left <= nodes
  }

  /** The object graph (any function of identities: shared, cyclic, unbounded) and the code not modelled here. */
  datatype Host = Host(
    objects: Id -> Object,
    scrub: (string, int, int, nat) -> Scrubbed,
    describe: (Id, int, int) -> Scrubbed,
    sensitive: string -> bool,
    before: (Json, Json) -> bool)
  {
    /**
     * Scrubbing a text at this nesting and describing an exception may visit nested values, but never more than the
     * allowance and one mask a level.
     */
    ghost predicate Lawful(nesting: nat) {
      && (forall text, scan, nodes :: WithinAllowance(nodes, scrub(text, scan, nodes, nesting).nodes, nesting))
      && (forall id, scan, nodes :: WithinAllowance(nodes, describe(id, scan, nodes).nodes, 0))
    }
  }
}
