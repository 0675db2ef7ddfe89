/** The rendered size of what the sanitiser returns: what is not charged is bounded by what was visited. */
module OutputBound {
  import opened Text
  import opened Json
  import opened Values
  import opened Ledgers
  import opened Sanitizing
  import Allowance
  import Expansion
  import Assembly

  /** What one visited value may add without being charged for it: the longest marker and its separator. */
  const NODE := 16
  /** What one open container may add once the budget is exhausted. */
  const LEVEL := 192
  /** What a container may add beyond its limit: a key, a note and their separators. */
  const NOTE := 66
  const MAX_RENDERED_EVENT_LENGTH := 131_072

  /** What the containers still open may add: nothing unless the budget is exhausted. */
  function Tail(depth: nat, left: Ledger): nat
    requires depth <= MAX_DEPTH
  {
    if left.Exhausted() then LEVEL * (MAX_DEPTH + 1 - depth) else 0
  }

  /** What a sanitisation was charged, its visits included. */
  function Spent(l: Ledger, left: Ledger): int {
    l.output - left.output + NODE * (l.nodes - left.nodes)
  }

  // ---------------------------------------------------------------- fixed texts

  lemma PlainWeight(s: Plain)
    ensures |Quote(s)| == |s| + 2 && Weight(Str(s)) == |s| + 4
  {
    PlainQuote(s);
  }

  lemma DecimalLength(n: int)
    ensures 0 <= n < 0x10_0000_0000_0000_0000 ==> |Decimal(n)| <= 21
    ensures -200 <= n < 0x8000_0000_0000_0000 ==> |Decimal(n)| <= 20
    ensures -0x1_0000_0000_0000_0000_0000_0000_0000_0000 < n < 0x1_0000_0000_0000_0000_0000_0000_0000_0000 ==>
      |Decimal(n)| <= 40
  {
    PowersOfTen();
    var m := if n < 0 then -n else n;
    if m < Pow10(21) { DigitsLength(m, 21); }
    if m < Pow10(19) { DigitsLength(m, 19); }
    if m < Pow10(39) { DigitsLength(m, 39); }
  }

  lemma PowersOfTen()
    ensures Pow10(19) == 10_000_000_000_000_000_000
    ensures Pow10(21) == 1_000_000_000_000_000_000_000
    ensures Pow10(39) == 1_000_000_000_000_000_000_000_000_000_000_000_000_000
  {
    assert Pow10(5) == 100_000;
    assert Pow10(10) == 10_000_000_000;
    assert Pow10(15) == 1_000_000_000_000_000;
    assert Pow10(25) == 10_000_000_000_000_000_000_000_000 by { assert Pow10(20) == 100_000_000_000_000_000_000; }
    assert Pow10(35) == 100_000_000_000_000_000_000_000_000_000_000_000 by {
      assert Pow10(30) == 1_000_000_000_000_000_000_000_000_000_000;
    }
  }

  lemma PlainKeyLength(key: Value)
    ensures |PlainKey(key)| <= 64
  {
    match key {
      case Small(n) => DecimalLength(n);
      case Big(bits) => DecimalLength(bits);
      case _ =>
    }
  }

  // ---------------------------------------------------------------- values

  /** A scalar is paid for, or it is a marker that one visit covers. */
  lemma ScalarSize(v: Value, h: Host, l: Ledger)
    requires h.Lawful(0) && !v.Ref? && l.output >= 0 && l.nodes >= 0
    ensures var o := SanitizeVisited(h, v, 0, l, 0);
      && Expansion.Keeps(l, o.left)
      && (o.Done? ==> Weight(o.value) + 1 <= Spent(l, o.left) + NODE)
  {
    hide Quote, RenderItems, RenderEntries, Digits, Described, Marked;
    TruncatedWeight();
    match v {
      case Text(text) => DescribedSize(h.scrub(text, l.scan, l.nodes, 0), l);
      case Failure(id) => DescribedSize(h.describe(id, l.scan, l.nodes), l);
      case Big(bits) => MarkedSize(BigText(bits), l);
      case Secret => MarkedSize(REDACTED, l);
      case Fixed(plain) => MarkedSize(plain, l);
      case Other => MarkedSize(UNSUPPORTED, l);
      case _ =>
    }
  }

  lemma MarkedSize(text: Plain, l: Ledger)
    requires l.output >= 0
    ensures var o := Marked(text, l, 0);
      && Expansion.Keeps(l, o.left)
      && o.Done? && Weight(o.value) + 1 <= Spent(l, o.left) + NODE
  {
    hide Quote;
    TruncatedWeight();
    PlainWeight(text);
  }

  lemma DescribedSize(s: Scrubbed, l: Ledger)
    requires l.output >= 0 && s.nodes <= l.nodes
    ensures var o := Described(s, l, 0);
      && Expansion.Keeps(l, o.left)
      && (o.Done? ==> Weight(o.value) + 1 <= Spent(l, o.left) + NODE)
  {
    hide Quote, Emit;
    TruncatedWeight();
    if s.Clean? {
      EmitPays(s.text, l.(scan := s.scan, nodes := s.nodes));
    }
  }

  /** The rendered size of a value: what was charged, `NODE` per visit, and the markers of the open containers. */
  lemma {:induction false} SanitizeSize(h: Host, v: Value, depth: nat, l: Ledger)
    requires h.Lawful(0) && depth <= MAX_DEPTH && l.output >= 0
    ensures var o := Sanitize(h, v, depth, l, 0);
      o.Done? ==> Weight(o.value) + (if l.Exhausted() then 0 else 1) <= Spent(l, o.left) + Tail(depth, o.left)
    decreases Pos(l.nodes), 0, 0
  {
    hide Quote, Render, SanitizeContainer;
    if l.Exhausted() {
      PlainWeight(TRUNCATED);
    } else {
      var paid := l.(nodes := l.nodes - 1);
      if v.Ref? {
        match h.objects(v.id) {
          case Member(stored) => SanitizeSize(h, stored, depth, paid);
          case _ => ContainerSize(h, v.id, depth, paid);
        }
      } else {
        ScalarSize(v, h, paid);
      }
    }
  }

  lemma {:induction false} ContainerSize(h: Host, id: Id, depth: nat, l: Ledger)
    requires h.Lawful(0) && !h.objects(id).Member? && depth <= MAX_DEPTH && l.output >= 0
    ensures var o := SanitizeContainer(h, id, depth, l, 0);
      Weight(o.value) <= Spent(l, o.left) + NODE - 1 + Tail(depth, o.left)
    decreases Pos(l.nodes), 2, 1
  {
    hide Quote, Render, SanitizeContent;
    PlainWeight(CYCLE);
    PlainWeight(TRUNCATED);
    PlainWeight(UNREADABLE);
    PlainWeight(REPEATED);
    EmptyWeight();
    var charged := Charge(SEPARATOR_COST, l, 0).1;
    if id !in l.active && depth < MAX_DEPTH && id !in l.seen && h.objects(id).size.Some? {
      ContentSize(h, id, depth, Enter(charged, id));
      Expansion.ContentKeeps(h, id, depth, Enter(charged, id), 0);
    }
  }

  lemma NothingWeighs()
    ensures ItemsWeight([]) == EntriesWeight([]) == 0
  {
  }

  lemma EmptyWeight()
    ensures Weight(List([])) == Weight(Dict([])) == 4
  {
    assert Render(List([])) == "[]" && Render(Dict([])) == "{}";
  }

  lemma {:induction false} ContentSize(h: Host, id: Id, depth: nat, l: Ledger)
    requires h.Lawful(0) && !h.objects(id).Member? && h.objects(id).size.Some? && depth < MAX_DEPTH && l.output >= 0
    ensures var o := SanitizeContent(h, id, depth, l, 0);
      o.Done? ==> Weight(o.value) <= 4 + Spent(l, o.left) + InnerTail(depth, o.left)
    decreases Pos(l.nodes), 2, 0
  {
    hide Quote, Render, EntriesWeight, ItemsWeight, SanitizeEntries, SanitizeSequence, Sort, Expansion.ExpandedOnce;
    NothingWeighs();
    match h.objects(id) {
      case Mapping(size, pairs, ends) =>
        var note := Decimal(size.value - MAX_ITEMS) + " more entries";
        var w := Walk(MAX_ITEMS, {}, note, {});
        DecimalLength(size.value - MAX_ITEMS);
        assert IsNote(note);
        EntriesSize(h, pairs, 0, 0, ends, w, depth, l, []);
        Expansion.EntriesKeep(h, pairs, 0, 0, ends, w, depth, l, 0, []);
        match SanitizeEntries(h, pairs, 0, 0, ends, w, depth, l, 0, []) {
          case Done(entries, left) => DictWeight(entries);
          case Raised(_) =>
        }
      case Sequence(size, items, ends, unordered) =>
        SequenceSize(h, items, 0, ends, size.value, depth, l, []);
        Expansion.SequenceKeeps(h, items, 0, ends, size.value, depth, l, 0, []);
        match SanitizeSequence(h, items, 0, ends, size.value, depth, l, 0, []) {
          case Done((found, note), left) =>
            SortWeight(found, h.before);
            var ordered := if unordered then Sort(found, h.before) else found;
            if note.Some? {
              ItemsWeightSnoc(ordered, Str(note.value));
              ListWeight(ordered + [Str(note.value)]);
            }
            ListWeight(ordered);
          case Raised(_) =>
        }
    }
  }

  /** `Tail` of an open container, less its own brackets and separator. */
  function InnerTail(depth: nat, left: Ledger): nat
    requires depth < MAX_DEPTH
  {
    if left.Exhausted() then LEVEL * (MAX_DEPTH + 1 - depth) - 32 else 0
  }

  /** A note that stands for what was left out. */
  ghost predicate IsNote(s: string) {
    |s| <= 33 && forall i :: 0 <= i < |s| ==> IsPlain(s[i])
  }

  /** What a loop may still add when it reaches its limit: each value it admitted has saved one character for it. */
  function Saved(limit: nat, admitted: nat): nat {
    Max(0, NOTE - (limit - admitted))
  }

  lemma {:induction false} EntriesSize(h: Host, pairs: seq<(Value, Value)>, i: nat, admitted: nat, ends: Ending,
                                       w: Walk, depth: nat, l: Ledger, result: seq<Entry>)
    requires h.Lawful(0) && i <= |pairs| && depth < MAX_DEPTH && l.output >= 0
    requires admitted <= w.limit && IsNote(w.note)
    ensures var o := SanitizeEntries(h, pairs, i, admitted, ends, w, depth, l, 0, result);
      var extra := if l.Exhausted() then NOTE else Saved(w.limit, admitted) + InnerTail(depth, o.left);
      o.Done? ==> EntriesWeight(o.value) <= EntriesWeight(result) + Spent(l, o.left) + extra
    decreases Pos(l.nodes), 1, |pairs| - i
  {
    hide Quote, Render, EntriesWeight, Put, Sanitize, SanitizeEntry, LimitEntry, Expansion.ExpandedOnce;
    if i < w.limit + |w.skip| + 1 && i < |pairs| {
      var (key, item) := pairs[i];
      if NamedIn(key, w.skip) {
        EntriesSize(h, pairs, i + 1, admitted, ends, w, depth, l, result);
      } else if admitted >= w.limit {
        LimitEntrySize(h, key, item, w, depth, l, result);
      } else if l.Exhausted() {
        PlainWeight(TRUNCATED);
        PlainWeight(BUDGET_NOTE);
        PutWeight(result, TRUNCATED, Str(BUDGET_NOTE));
      } else {
        EntrySize(h, key, item, w, depth, l);
        Expansion.EntryKeeps(h, key, item, w, depth, l, 0);
        match SanitizeEntry(h, key, item, w, depth, l, 0) {
          case Raised(_) =>
          case Done(e, left) =>
            var rest := Put(result, e.key, e.value);
            PutWeight(result, e.key, e.value);
            EntriesSize(h, pairs, i + 1, admitted + 1, ends, w, depth, left, rest);
            Expansion.EntriesKeep(h, pairs, i + 1, admitted + 1, ends, w, depth, left, 0, rest);
        }
      }
    }
  }

  lemma {:induction false} LimitEntrySize(h: Host, key: Value, item: Value, w: Walk, depth: nat, l: Ledger,
                                          result: seq<Entry>)
    requires h.Lawful(0) && depth < MAX_DEPTH && l.output >= 0 && IsNote(w.note)
    ensures var o := LimitEntry(h, key, item, w, depth, l, 0, result);
      var extra := if l.Exhausted() then NOTE else NOTE + InnerTail(depth, o.left);
      o.Done? ==> EntriesWeight(o.value) <= EntriesWeight(result) + Spent(l, o.left) + extra
    decreases Pos(l.nodes), 0, 1
  {
    hide Quote, Render, EntriesWeight, Put, SanitizeVisited;
    PlainWeight(TRUNCATED);
    PlainWeight(w.note);
    PutWeight(result, TRUNCATED, Str(w.note));
    SanitizeSize(h, item, depth + 1, l);
    match Sanitize(h, item, depth + 1, l, 0) {
      case Raised(_) =>
      case Done(j, left) => PutWeight(result, TRUNCATED, j);
    }
  }

  /** One admitted entry saves a character, or exhausts the budget. */
  lemma {:induction false} EntrySize(h: Host, key: Value, item: Value, w: Walk, depth: nat, l: Ledger)
    requires h.Lawful(0) && depth < MAX_DEPTH && !l.Exhausted()
    ensures var o := SanitizeEntry(h, key, item, w, depth, l, 0);
      var extra := if o.left.Exhausted() then 70 + LEVEL * (MAX_DEPTH - depth) else 0;
      o.Done? ==> EntryWeight(o.value.key, o.value.value) + 1 <= Spent(l, o.left) + extra
    decreases Pos(l.nodes), 0, 1
  {
    hide Quote, Render, Sanitize, Content, SanitizeKey;
    KeySize(h, key, l);
    PlainWeight(TRUNCATED);
    PlainWeight(REDACTED);
    match SanitizeKey(h, key, l, 0) {
      case Raised(_) =>
      case Done(SafeKey(_, _), named) =>
        SanitizeSize(h, Content(h, key, item, w), depth + 1, named);
        Expansion.SanitizeKeeps(h, Content(h, key, item, w), depth + 1, named, 0);
    }
  }

  /** A key is paid for, or it is short and the output is spent. */
  lemma KeySize(h: Host, key: Value, l: Ledger)
    requires h.Lawful(0) && !l.Exhausted()
    ensures var o := SanitizeKey(h, key, l, 0);
      && o.left.output >= 0 && o.left.nodes <= l.nodes
      && (o.Done? ==>
            |Quote(o.value.text)| + 2 <= l.output - o.left.output + (if o.left.output == 0 then 68 else 0))
  {
    hide Quote;
    PlainWeight(TRUNCATED);
    if key.Text? {
      var scan := if |key.text| <= Min(MAX_STRING_LENGTH, l.scan) then l.scan - |key.text| else l.scan;
      var s := h.scrub(key.text, scan, l.nodes, 0);
      if s.Clean? {
        EmitPays(Take(s.text, MAX_KEY_LENGTH), l.(scan := s.scan, nodes := s.nodes));
      }
    } else {
      PlainKeyLength(key);
      PlainWeight(PlainKey(key));
    }
  }

  function NoteWeight(note: Option<string>): nat {
    if note.Some? then Weight(Str(note.value)) else 0
  }

  lemma {:induction false} SequenceSize(h: Host, items: seq<Value>, i: nat, ends: Ending, size: Length, depth: nat,
                                        l: Ledger, result: seq<Json>)
    requires h.Lawful(0) && i <= |items| && i <= MAX_ITEMS && depth < MAX_DEPTH && l.output >= 0
    ensures var o := SanitizeSequence(h, items, i, ends, size, depth, l, 0, result);
      var extra := if l.Exhausted() then NOTE else Saved(MAX_ITEMS, i) + InnerTail(depth, o.left);
      o.Done? ==> ItemsWeight(o.value.0) + NoteWeight(o.value.1) <= ItemsWeight(result) + Spent(l, o.left) + extra
    decreases Pos(l.nodes), 1, |items| - i
  {
    hide Quote, Render, ItemsWeight, SanitizeVisited, Expansion.ExpandedOnce;
    PlainWeight(TRUNCATED);
    if i < |items| {
      if i >= MAX_ITEMS && !IsMarkerItem(items[i]) {
        DecimalLength(size - MAX_ITEMS);
        PlainWeight(TRUNCATED + " " + Decimal(size - MAX_ITEMS) + " more items");
      } else if i >= MAX_ITEMS || !l.Exhausted() {
        SanitizeSize(h, items[i], depth + 1, l);
        Expansion.SanitizeKeeps(h, items[i], depth + 1, l, 0);
        match Sanitize(h, items[i], depth + 1, l, 0) {
          case Raised(_) =>
          case Done(j, left) =>
            ItemsWeightSnoc(result, j);
            if i < MAX_ITEMS {
              SequenceSize(h, items, i + 1, ends, size, depth, left, result + [j]);
              Expansion.SequenceKeeps(h, items, i + 1, ends, size, depth, left, 0, result + [j]);
            }
        }
      }
    }
  }

  // ---------------------------------------------------------------- one call

  /** How many visits a whole sanitisation may take beyond its allowance. */
  const OVERDRAWN := MAX_JSON_NESTING + 1
  const MAX_SANITIZED_LENGTH := MAX_EVENT_OUTPUT + NODE * (MAX_EVENT_NODES + OVERDRAWN) + LEVEL * (MAX_DEPTH + 1)

  /** Whatever object graph is sanitised, its rendering stays below the bound on one log line. */
  lemma SanitizedIsBounded(h: Host, v: Value)
    requires h.Lawful(0)
    ensures MAX_SANITIZED_LENGTH < MAX_RENDERED_EVENT_LENGTH
    ensures var o := Sanitize(h, v, 0, FRESH, 0);
      |Render(if o.Done? then o.value else Str(UNREADABLE))| <= MAX_SANITIZED_LENGTH
  {
    hide Sanitize, Render;
    SanitizeSize(h, v, 0, FRESH);
    Expansion.SanitizeKeeps(h, v, 0, FRESH, 0);
    Allowance.SanitizeAbove(h, v, 0, FRESH, 0);
    PlainWeight(UNREADABLE);
  }

  /** What the names of the leading fields add: they are laid out but not charged. */
  function NamesWeight(names: seq<string>): nat {
    if names == [] then 0 else |Quote(names[0])| + 2 + NODE + NamesWeight(names[1..])
  }

  lemma {:induction false} LeadingSize(h: Host, pairs: seq<(Value, Value)>, leading: seq<string>,
                                       assembled: set<string>, l: Ledger, result: seq<Entry>)
    requires h.Lawful(0) && l.output >= 0
    ensures var o := SanitizeLeading(h, pairs, leading, assembled, l, result);
      && Expansion.Keeps(l, o.left) && Allowance.Above(l, o.left, 0)
      && var extra := if o.left.Exhausted() && !l.Exhausted() then LEVEL * MAX_DEPTH else 0;
      (o.Done? ==> EntriesWeight(o.value) <= EntriesWeight(result) + Spent(l, o.left) + NamesWeight(leading) + extra)
    decreases |leading|
  {
    hide Quote, Render, RenderEntries, Put, SanitizeVisited, Expansion.ExpandedOnce;
    if leading != [] {
      match Lookup(pairs, leading[0]) {
        case None => LeadingSize(h, pairs, leading[1..], assembled, l, result);
        case Some(item) =>
          var content := if leading[0] in assembled then Text(Assembly.AssembledText(h.objects, item)) else item;
          PlainWeight(TRUNCATED);
          SanitizeSize(h, content, 1, l);
          Expansion.SanitizeKeeps(h, content, 1, l, 0);
          Allowance.SanitizeAbove(h, content, 1, l, 0);
          match Sanitize(h, content, 1, l, 0) {
            case Raised(_) =>
            case Done(j, left) =>
              PutWeight(result, leading[0], j);
              LeadingSize(h, pairs, leading[1..], assembled, left, Put(result, leading[0], j));
          }
      }
    }
  }

  /** The admitted fields of an event, after the leading ones. */
  lemma FieldsSize(h: Host, pairs: seq<(Value, Value)>, ends: Ending, w: Walk, l: Ledger, result: seq<Entry>)
    requires h.Lawful(0) && l.output >= 0 && l.nodes >= -OVERDRAWN
    requires w.limit == MAX_EVENT_FIELDS && w.note == FIELDS_NOTE
    ensures var o := SanitizeEntries(h, pairs, 0, 0, ends, w, 0, l, 0, result);
      && o.left.output >= 0 && o.left.nodes >= -OVERDRAWN
      && var extra := NOTE + LEVEL * (MAX_DEPTH + 1);
      (o.Done? ==> EntriesWeight(o.value) <= EntriesWeight(result) + Spent(l, o.left) + extra)
  {
    hide RenderEntries, SanitizeEntries, Expansion.ExpandedOnce;
    assert IsNote(FIELDS_NOTE);
    EntriesSize(h, pairs, 0, 0, ends, w, 0, l, result);
    Expansion.EntriesKeep(h, pairs, 0, 0, ends, w, 0, l, 0, result);
    Allowance.EntriesAbove(h, pairs, 0, 0, ends, w, 0, l, 0, result);
  }

  /** The fields of one event, whatever their number, names and values. */
  lemma EventIsBounded(h: Host, pairs: seq<(Value, Value)>, ends: Ending, skip: set<string>, leading: seq<string>,
                       assembled: set<string>)
    requires h.Lawful(0)
    ensures var o := SanitizeEvent(h, pairs, ends, skip, leading, assembled, FRESH);
      o.Done? ==> EntriesWeight(o.value) <= MAX_SANITIZED_LENGTH + LEVEL * MAX_DEPTH + NOTE + NamesWeight(leading)
  {
    hide RenderEntries, SanitizeLeading, SanitizeEntries, NamesWeight, Expansion.ExpandedOnce;
    LeadingSize(h, pairs, leading, assembled, FRESH, []);
    match SanitizeLeading(h, pairs, leading, assembled, FRESH, []) {
      case Raised(_) =>
      case Done(result, left) =>
        var w := Walk(MAX_EVENT_FIELDS, skip + (set k | k in leading), FIELDS_NOTE, assembled);
        FieldsSize(h, pairs, ends, w, left, result);
    }
  }
}
