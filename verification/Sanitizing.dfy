/** The structured sanitiser as functions of a budget value: what the methods of `Sanitizer` compute. */
module Sanitizing {
  import opened Text
  import opened Json
  import opened Values
  import opened Ledgers
  import Assembly

  /** How the entries of one mapping are read. */
  datatype Walk = Walk(limit: nat, skip: set<string>, note: string, assembled: set<string>)

  /** A key as it is shown, and whether it names sensitive data. */
  datatype SafeKey = SafeKey(sensitive: bool, text: string)

  function Pos(n: int): nat {
    Max(n, 0)
  }

  /** `_sanitize`. */
  function Sanitize(h: Host, v: Value, depth: nat, l: Ledger, nesting: nat): (o: Outcome<Json>)
    requires h.Lawful(nesting)
    ensures o.left.nodes <= l.nodes
    decreases Pos(l.nodes), 0, 0
  {
    if l.Exhausted() then Done(Str(TRUNCATED), l)
    else SanitizeVisited(h, v, depth, l.(nodes := l.nodes - 1), nesting)
  }

  /** `_sanitize` once the visit is paid for. */
  function SanitizeVisited(h: Host, v: Value, depth: nat, l: Ledger, nesting: nat): (o: Outcome<Json>)
    requires h.Lawful(nesting)
    requires l.nodes >= 0
    ensures o.left.nodes <= l.nodes
    decreases Pos(l.nodes), 3, 0
  {
    match v
    case Text(text) => Described(h.scrub(text, l.scan, l.nodes, nesting), l, nesting)
    case Nothing => Scalar(Null, 5, l, nesting)
    case Truth(b) => Scalar(Flag(b), 5, l, nesting)
    case Small(n) => Scalar(Whole(n), |Decimal(n)|, l, nesting)
    case Big(bits) => Marked(BigText(bits), l, nesting)
    case Fraction(f) => Scalar(Real(f), |f.Repr()|, l, nesting)
    case Secret => Marked(REDACTED, l, nesting)
    case Failure(id) => Described(h.describe(id, l.scan, l.nodes), l, nesting)
    case Fixed(plain) => Marked(plain, l, nesting)
    case Other => Marked(UNSUPPORTED, l, nesting)
    case Ref(id) =>
      match h.objects(id)
      case Member(stored) => Sanitize(h, stored, depth, l, nesting)
      case _ => SanitizeContainer(h, id, depth, l, nesting)
  }

  /** A scalar that is rendered as it is, if its text fits. */
  function Scalar(j: Json, length: nat, l: Ledger, nesting: nat): Outcome<Json> {
    var (fits, left) := Charge(length, l, nesting);
    Done(if fits then j else Str(TRUNCATED), left)
  }

  function Marked(text: string, l: Ledger, nesting: nat): Outcome<Json> {
    var (marker, left) := Marker(text, l, nesting);
    Done(Str(marker), left)
  }

  /** Scrubbed text, charged and shortened to fit. */
  function Described(s: Scrubbed, l: Ledger, nesting: nat): Outcome<Json> {
    var spent := l.(scan := s.scan, nodes := s.nodes);
    match s
    case Failed(_, _) => Raised(spent)
    case Clean(text, _, _) =>
      var (emitted, left) := Emit(text, spent, nesting);
      Done(Str(emitted), left)
  }

  /** `_sanitize_container`: never raises. */
  function SanitizeContainer(h: Host, id: Id, depth: nat, l: Ledger, nesting: nat): (o: Outcome<Json>)
    requires h.Lawful(nesting) && !h.objects(id).Member?
    ensures o.left.nodes <= l.nodes && o.Done?
    decreases Pos(l.nodes), 2, 1
  {
    var o := h.objects(id);
    if id in l.active then Done(Str(CYCLE), l.(cycles := l.cycles + {id}))
    else if depth >= MAX_DEPTH then Done(Str(TRUNCATED), l)
    else
      var charged := Charge(SEPARATOR_COST, l, nesting).1;
      if o.size.None? then Done(Str(UNREADABLE), charged)
      else if o.size.value == 0 then Done(if o.Mapping? then Dict([]) else List([]), charged)
      else if id in l.seen then Done(Str(REPEATED), charged)
      else
        var read := SanitizeContent(h, id, depth, Enter(charged, id), nesting);
        Done(if read.Done? then read.value else Str(UNREADABLE), Leave(read.left, id))
  }

  function Enter(l: Ledger, id: Id): Ledger {
    l.(seen := l.seen + {id}, active := l.active + {id}, expanded := l.expanded + [id])
  }

  function Leave(l: Ledger, id: Id): Ledger {
    l.(active := l.active - {id})
  }

  /** The content of a container, read to its limit. */
  function SanitizeContent(h: Host, id: Id, depth: nat, l: Ledger, nesting: nat): (o: Outcome<Json>)
    requires h.Lawful(nesting) && !h.objects(id).Member? && h.objects(id).size.Some?
    ensures o.left.nodes <= l.nodes
    decreases Pos(l.nodes), 2, 0
  {
    match h.objects(id)
    case Mapping(size, pairs, ends) =>
      var w := Walk(MAX_ITEMS, {}, Decimal(size.value - MAX_ITEMS) + " more entries", {});
      (match SanitizeEntries(h, pairs, 0, 0, ends, w, depth, l, nesting, [])
       case Raised(left) => Raised(left)
       case Done(entries, left) => Done(Dict(entries), left))
    case Sequence(size, items, ends, unordered) =>
      (match Ordered(h, unordered, SanitizeSequence(h, items, 0, ends, size.value, depth, l, nesting, []))
       case Raised(left) => Raised(left)
       case Done(found, left) => Done(List(found), left))
  }

  /** The items of a sequence as the list they become: sorted if they came from a set, the note last. */
  function Ordered(h: Host, unordered: bool, o: Outcome<(seq<Json>, Option<string>)>): (r: Outcome<seq<Json>>)
    ensures r.left == o.left
  {
    match o
    case Raised(left) => Raised(left)
    case Done((found, note), left) =>
      var ordered := if unordered then Sort(found, h.before) else found;
      Done(if note.Some? then ordered + [Str(note.value)] else ordered, left)
  }

  /** `_is_named_in`. */
  predicate NamedIn(key: Value, names: set<string>) {
    key.Text? && |key.text| <= MAX_KEY_LENGTH && key.text in names
  }

  /** `_sanitize_key`: whether the key names sensitive data, and its safe rendering. */
  function SanitizeKey(h: Host, key: Value, l: Ledger, nesting: nat): (o: Outcome<SafeKey>)
    requires h.Lawful(nesting)
    ensures o.left.nodes <= l.nodes
  {
    if key.Text? then
      var affordable := |key.text| <= Min(MAX_STRING_LENGTH, l.scan);
      var sensitive := !affordable || h.sensitive(key.text);
      var scan := if affordable then l.scan - |key.text| else l.scan;
      var s := h.scrub(key.text, scan, l.nodes, nesting);
      var spent := l.(scan := s.scan, nodes := s.nodes);
      match s
      case Failed(_, _) => Raised(spent)
      case Clean(text, _, _) =>
        var (safe, left) := Emit(Take(text, MAX_KEY_LENGTH), spent, nesting);
        Done(SafeKey(sensitive || h.sensitive(safe), safe), left)
    else
      var safe := PlainKey(key);
      Done(SafeKey(false, safe), Charge(|safe| + 2, l, nesting).1)
  }

  /** The rendering of a key that is not text. */
  function PlainKey(key: Value): (s: Plain) {
    match key
    case Nothing => "None"
    case Truth(b) => if b then "True" else "False"
    case Small(n) => Decimal(n)
    case Big(bits) => BigText(bits)
    case Fraction(f) => f.Repr()
    case _ => UNSUPPORTED
  }

  function BigText(bits: BitCount): (s: Plain) {
    "<int: " + Decimal(bits) + " bits>"
  }

  /** The loop of `_sanitize_entries` from entry `i`, with `admitted` entries already in `result`. */
  function SanitizeEntries(h: Host, pairs: seq<(Value, Value)>, i: nat, admitted: nat, ends: Ending, w: Walk,
                           depth: nat, l: Ledger, nesting: nat, result: seq<Entry>): (o: Outcome<seq<Entry>>)
    requires h.Lawful(nesting) && i <= |pairs|
    ensures o.left.nodes <= l.nodes
    decreases Pos(l.nodes), 1, |pairs| - i
  {
    if i >= w.limit + |w.skip| + 1 then Done(result, l)
    else if i == |pairs| then if ends.Raises? then Raised(l) else Done(result, l)
    else
      var (key, item) := pairs[i];
      if NamedIn(key, w.skip) then
        SanitizeEntries(h, pairs, i + 1, admitted, ends, w, depth, l, nesting, result)
      else if admitted >= w.limit then LimitEntry(h, key, item, w, depth, l, nesting, result)
      else if l.Exhausted() then Done(Put(result, TRUNCATED, Str(BUDGET_NOTE)), l)
      else
        match SanitizeEntry(h, key, item, w, depth, l, nesting)
        case Raised(left) => Raised(left)
        case Done(e, left) =>
          SanitizeEntries(h, pairs, i + 1, admitted + 1, ends, w, depth, left, nesting, Put(result, e.key, e.value))
  }

  /** The entry beyond the limit: the marker of an earlier pass is kept, anything else is counted. */
  function LimitEntry(h: Host, key: Value, item: Value, w: Walk, depth: nat, l: Ledger, nesting: nat,
                      result: seq<Entry>): (o: Outcome<seq<Entry>>)
    requires h.Lawful(nesting)
    ensures o.left.nodes <= l.nodes
    decreases Pos(l.nodes), 0, 1
  {
    if key != Text(TRUNCATED) then Done(Put(result, TRUNCATED, Str(w.note)), l)
    else
      match Sanitize(h, item, depth + 1, l, nesting)
      case Raised(left) => Raised(left)
      case Done(j, left) => Done(Put(result, TRUNCATED, j), left)
  }

  /** One admitted entry: the value of a name of sensitive data is not looked at. */
  function SanitizeEntry(h: Host, key: Value, item: Value, w: Walk, depth: nat, l: Ledger, nesting: nat):
      (o: Outcome<Entry>)
    requires h.Lawful(nesting)
    ensures o.left.nodes <= l.nodes
    decreases Pos(l.nodes), 0, 1
  {
    match SanitizeKey(h, key, l, nesting)
    case Raised(left) => Raised(left)
    case Done(SafeKey(sensitive, safe), named) =>
      if sensitive then MaskedEntry(safe, named, nesting)
      else Shown(safe, Sanitize(h, Content(h, key, item, w), depth + 1, named, nesting))
  }

  function Shown(safe: string, value: Outcome<Json>): (o: Outcome<Entry>)
    ensures o.left == value.left
  {
    match value
    case Raised(left) => Raised(left)
    case Done(j, left) => Done(Entry(safe, j), left)
  }

  /** The mask of a sensitive value takes a visit and is charged like the value. */
  function MaskedEntry(safe: string, l: Ledger, nesting: nat): (o: Outcome<Entry>)
    ensures o.left.nodes <= l.nodes && o.Done?
  {
    var (mask, left) := Marker(REDACTED, l.(nodes := l.nodes - 1), nesting);
    Done(Entry(safe, Str(mask)), left)
  }

  /** The value that is sanitised under `key`: assembled into one text first if the field is laid out as one. */
  function Content(h: Host, key: Value, item: Value, w: Walk): Value {
    if NamedIn(key, w.assembled) then Text(Assembly.AssembledText(h.objects, item)) else item
  }

  /** The loop of `_sanitize_sequence` from item `i`. */
  function SanitizeSequence(h: Host, items: seq<Value>, i: nat, ends: Ending, size: Length, depth: nat, l: Ledger,
                            nesting: nat, result: seq<Json>): (o: Outcome<(seq<Json>, Option<string>)>)
    requires h.Lawful(nesting) && i <= |items|
    ensures o.left.nodes <= l.nodes
    decreases Pos(l.nodes), 1, |items| - i
  {
    if i == |items| then if ends.Raises? then Raised(l) else Done((result, None), l)
    else if i >= MAX_ITEMS && !IsMarkerItem(items[i]) then
      Done((result, Some(TRUNCATED + " " + Decimal(size - MAX_ITEMS) + " more items")), l)
    else if i < MAX_ITEMS && l.Exhausted() then Done((result, Some(TRUNCATED)), l)
    else
      match Sanitize(h, items[i], depth + 1, l, nesting)
      case Raised(left) => Raised(left)
      case Done(j, left) =>
        if i >= MAX_ITEMS then Done((result + [j], None), left)
        else SanitizeSequence(h, items, i + 1, ends, size, depth, left, nesting, result + [j])
  }

  /** Text that starts as the marker of an earlier pass does. */
  predicate IsMarkerItem(v: Value) {
    v.Text? && TRUNCATED <= v.text
  }

  /** The fields of an event: `leading` first and outside the limit, then the rest up to it. */
  function SanitizeEvent(h: Host, pairs: seq<(Value, Value)>, ends: Ending, skip: set<string>, leading: seq<string>,
                         assembled: set<string>, l: Ledger): Outcome<seq<Entry>>
    requires h.Lawful(0)
  {
    match SanitizeLeading(h, pairs, leading, assembled, l, [])
    case Raised(left) => Raised(left)
    case Done(result, left) =>
      var w := Walk(MAX_EVENT_FIELDS, skip + (set k | k in leading), FIELDS_NOTE, assembled);
      SanitizeEntries(h, pairs, 0, 0, ends, w, 0, left, 0, result)
  }

  /** `event.get(key)`: the value of the entry with this name, if there is one. */
  function Lookup(pairs: seq<(Value, Value)>, key: string): Option<Value> {
    if pairs == [] then None
    else if pairs[0].0 == Text(key) then Some(pairs[0].1)
    else Lookup(pairs[1..], key)
  }

  function SanitizeLeading(h: Host, pairs: seq<(Value, Value)>, leading: seq<string>, assembled: set<string>,
                           l: Ledger, result: seq<Entry>): Outcome<seq<Entry>>
    requires h.Lawful(0)
    decreases |leading|
  {
    if leading == [] then Done(result, l)
    else
      match Lookup(pairs, leading[0])
      case None => SanitizeLeading(h, pairs, leading[1..], assembled, l, result)
      case Some(item) =>
        var content := if leading[0] in assembled then Text(Assembly.AssembledText(h.objects, item)) else item;
        match Sanitize(h, content, 1, l, 0)
        case Raised(left) => Raised(left)
        case Done(j, left) =>
          SanitizeLeading(h, pairs, leading[1..], assembled, left, Put(result, leading[0], j))
  }
}
