/** Sanitising a result once more: what the second pass returns, and when that is the result itself. */
module Resanitizing {
  import opened Text
  import opened Json
  import opened Values
  import opened Ledgers
  import opened Sanitizing
  import Allowance
  import Emission

  // ---------------------------------------------------------------- a result as the input of a second pass

  /** `v` is a copy of the tree `j`: plain containers that report their size and do not fail. */
  ghost predicate Stored(objects: Id -> Object, v: Value, j: Json)
    decreases j
  {
    match j
    case Null => v == Nothing
    case Flag(b) => v == Truth(b)
    case Whole(n) => v.Small? && v.n == n
    case Real(f) => v == Fraction(f)
    case Str(s) => v == Text(s)
    case List(items) =>
      && v.Ref?
      && var o := objects(v.id);
      && o.Sequence? && o.size == Some(|o.items|) && o.ends.Stops? && !o.unordered
      && |o.items| == |items|
      && forall i :: 0 <= i < |items| ==> Stored(objects, o.items[i], items[i])
    case Dict(entries) =>
      && v.Ref?
      && var o := objects(v.id);
      && o.Mapping? && o.size == Some(|o.pairs|) && o.ends.Stops?
      && |o.pairs| == |entries|
      && forall i :: 0 <= i < |entries| ==>
           o.pairs[i].0 == Text(entries[i].key) && Stored(objects, o.pairs[i].1, entries[i].value)
  }

  /** The containers of the copy, from item `i` on. */
  ghost function Ids(objects: Id -> Object, v: Value, j: Json): set<Id>
    requires Stored(objects, v, j)
    decreases j, 0
  {
    match j
    case List(items) => {v.id} + ItemIds(objects, objects(v.id).items, items, 0)
    case Dict(entries) => {v.id} + EntryIds(objects, objects(v.id).pairs, entries, 0)
    case _ => {}
  }

  ghost function ItemIds(objects: Id -> Object, values: seq<Value>, items: seq<Json>, i: nat): set<Id>
    requires i <= |items| == |values|
    requires forall k :: 0 <= k < |items| ==> Stored(objects, values[k], items[k])
    decreases items, |items| - i
  {
    if i == |items| then {} else Ids(objects, values[i], items[i]) + ItemIds(objects, values, items, i + 1)
  }

  ghost predicate StoredEntries(objects: Id -> Object, pairs: seq<(Value, Value)>, entries: seq<Entry>) {
    && |entries| == |pairs|
    && forall k :: 0 <= k < |entries| ==>
         pairs[k].0 == Text(entries[k].key) && Stored(objects, pairs[k].1, entries[k].value)
  }

  ghost function EntryIds(objects: Id -> Object, pairs: seq<(Value, Value)>, entries: seq<Entry>, i: nat): set<Id>
    requires i <= |entries| && StoredEntries(objects, pairs, entries)
    decreases entries, |entries| - i
  {
    if i == |entries| then {}
    else Ids(objects, pairs[i].1, entries[i].value) + EntryIds(objects, pairs, entries, i + 1)
  }

  /** No container of the copy occurs in it twice. */
  ghost predicate Unshared(objects: Id -> Object, v: Value, j: Json)
    requires Stored(objects, v, j)
    decreases j, 0
  {
    match j
    case List(items) =>
      && v.id !in ItemIds(objects, objects(v.id).items, items, 0)
      && UnsharedItems(objects, objects(v.id).items, items, 0)
    case Dict(entries) =>
      && v.id !in EntryIds(objects, objects(v.id).pairs, entries, 0)
      && UnsharedEntries(objects, objects(v.id).pairs, entries, 0)
    case _ => true
  }

  ghost predicate UnsharedItems(objects: Id -> Object, values: seq<Value>, items: seq<Json>, i: nat)
    requires i <= |items| == |values|
    requires forall k :: 0 <= k < |items| ==> Stored(objects, values[k], items[k])
    decreases items, |items| - i
  {
    i == |items| ||
    (&& Unshared(objects, values[i], items[i])
     && Ids(objects, values[i], items[i]) !! ItemIds(objects, values, items, i + 1)
     && UnsharedItems(objects, values, items, i + 1))
  }

  ghost predicate UnsharedEntries(objects: Id -> Object, pairs: seq<(Value, Value)>, entries: seq<Entry>, i: nat)
    requires i <= |entries| && StoredEntries(objects, pairs, entries)
    decreases entries, |entries| - i
  {
    i == |entries| ||
    (&& Unshared(objects, pairs[i].1, entries[i].value)
     && Ids(objects, pairs[i].1, entries[i].value) !! EntryIds(objects, pairs, entries, i + 1)
     && UnsharedEntries(objects, pairs, entries, i + 1))
  }

  /** The shape of every result: the part of `Emission.Emitted` that says nothing of its strings. */
  ghost predicate Fits(j: Json, depth: nat)
    decreases j
  {
    match j
    case List(items) =>
      && depth < MAX_DEPTH && |items| <= MAX_ITEMS + 1
      && forall i :: 0 <= i < |items| ==> Fits(items[i], depth + 1)
    case Dict(entries) =>
      && depth < MAX_DEPTH && |entries| <= MAX_ITEMS + 1
      && (|entries| == MAX_ITEMS + 1 ==> entries[MAX_ITEMS].key == TRUNCATED)
      && DistinctKeys(entries)
      && forall i :: 0 <= i < |entries| ==> Fits(entries[i].value, depth + 1)
    case _ => true
  }

  lemma {:induction false} EmittedFits(h: Host, g: Emission.Graph, j: Json, depth: nat)
    requires Emission.Emitted(h, g, j, depth)
    ensures Fits(j, depth)
    decreases j
  {
    hide Emission.Safe, Emission.Masked;
    match j {
      case List(items) =>
        forall i | 0 <= i < |items| ensures Fits(items[i], depth + 1) { EmittedFits(h, g, items[i], depth + 1); }
      case Dict(entries) =>
        forall i | 0 <= i < |entries| ensures Fits(entries[i].value, depth + 1) {
          EmittedFits(h, g, entries[i].value, depth + 1);
        }
      case _ =>
    }
  }

  // ---------------------------------------------------------------- the second pass, given enough budget

  /** An item that stands for what an earlier pass left out. */
  predicate IsMarker(j: Json) {
    j.Str? && TRUNCATED <= j.s
  }

  predicate MaskedKey(h: Host, key: string) {
    |key| > MAX_STRING_LENGTH || h.sensitive(key) || h.sensitive(Take(key, MAX_KEY_LENGTH))
  }

  /** What sanitising a copy of `j` returns when no limit of the event is reached. */
  function Again(h: Host, j: Json): Json
    decreases j, 0
  {
    match j
    case List(items) => List(AgainItems(h, items, 0))
    case Dict(entries) => Dict(AgainEntries(h, entries, 0, []))
    case _ => j
  }

  function AgainItems(h: Host, items: seq<Json>, i: nat): seq<Json>
    requires i <= |items|
    decreases items, |items| - i
  {
    if i == |items| then []
    else if i < MAX_ITEMS then [Again(h, items[i])] + AgainItems(h, items, i + 1)
    else if IsMarker(items[i]) then [items[i]]
    else [Str(TRUNCATED + " " + Decimal(|items| - MAX_ITEMS) + " more items")]
  }

  function AgainValue(h: Host, key: string, value: Json): Json
    decreases value, 1
  {
    if MaskedKey(h, key) then Str(REDACTED) else Again(h, value)
  }

  function AgainEntries(h: Host, entries: seq<Entry>, i: nat, result: seq<Entry>): seq<Entry>
    requires i <= |entries|
    decreases entries, |entries| - i
  {
    if i == |entries| then result
    else
      var e := entries[i];
      if i < MAX_ITEMS then
        AgainEntries(h, entries, i + 1, Put(result, Take(e.key, MAX_KEY_LENGTH), AgainValue(h, e.key, e.value)))
      else if e.key == TRUNCATED then Put(result, TRUNCATED, Again(h, e.value))
      else Put(result, TRUNCATED, Str(Decimal(|entries| - MAX_ITEMS) + " more entries"))
  }

  // ---------------------------------------------------------------- enough budget

  datatype Need = Need(output: nat, nodes: nat, scan: nat)

  function Plus(a: Need, b: Need): Need {
    Need(a.output + b.output, a.nodes + b.nodes, a.scan + b.scan)
  }

  /** What examining a string costs: characters scanned, and values visited in the JSON it holds. */
  datatype Effort = Effort(scan: nat, nodes: nat)

  /** The scrubber leaves `s` as it is, at a cost that depends on `s` alone. */
  ghost predicate Steady(h: Host, effort: string -> Effort, s: string) {
    forall scan, nodes :: scan >= effort(s).scan && nodes >= effort(s).nodes ==>
      h.scrub(s, scan, nodes, 0) == Clean(s, scan - effort(s).scan, nodes - effort(s).nodes)
  }

  /** Every key and string of `j` is one the scrubber leaves as it is. */
  ghost predicate SteadyAll(h: Host, effort: string -> Effort, j: Json)
    decreases j
  {
    match j
    case Str(s) => Steady(h, effort, s)
    case List(items) => forall i :: 0 <= i < |items| ==> SteadyAll(h, effort, items[i])
    case Dict(entries) =>
      forall i :: 0 <= i < |entries| ==>
        Steady(h, effort, entries[i].key) && SteadyAll(h, effort, entries[i].value)
    case _ => true
  }

  function NeedOf(effort: string -> Effort, j: Json): Need
    decreases j, 0
  {
    match j
    case Null => Need(7, 1, 0)
    case Flag(_) => Need(7, 1, 0)
    case Whole(n) => Need(|Decimal(n)| + 2, 1, 0)
    case Real(f) => Need(|f.Repr()| + 2, 1, 0)
    case Str(s) => Need(|Quote(s)| + 2, 1 + effort(s).nodes, effort(s).scan)
    case List(items) => Plus(Need(4, 1, 0), NeedItems(effort, items, 0))
    case Dict(entries) => Plus(Need(4, 1, 0), NeedEntries(effort, entries, 0))
  }

  function NeedItems(effort: string -> Effort, items: seq<Json>, i: nat): Need
    requires i <= |items|
    decreases items, |items| - i
  {
    if i == |items| then Need(0, 0, 0) else Plus(NeedOf(effort, items[i]), NeedItems(effort, items, i + 1))
  }

  function NeedKey(effort: string -> Effort, key: string): Need {
    Need(|Quote(key)| + 2, effort(key).nodes, |key| + effort(key).scan)
  }

  /** A key, the visit and the mask of a sensitive field, or the visit of the value. */
  function NeedEntry(effort: string -> Effort, e: Entry): Need
    decreases e.value, 1
  {
    Plus(Plus(NeedKey(effort, e.key), Need(|REDACTED| + 4, 1, 0)), NeedOf(effort, e.value))
  }

  function NeedEntries(effort: string -> Effort, entries: seq<Entry>, i: nat): Need
    requires i <= |entries|
    decreases entries, |entries| - i
  {
    if i == |entries| then Need(0, 0, 0) else Plus(NeedEntry(effort, entries[i]), NeedEntries(effort, entries, i + 1))
  }

  predicate Covers(l: Ledger, need: Need) {
    l.output > need.output && l.nodes > need.nodes && l.scan >= need.scan
  }

  /** A budget after a copy with the containers `ids` was sanitised at a cost of at most `need`. */
  ghost predicate After(l: Ledger, left: Ledger, need: Need, ids: set<Id>) {
    && left.active == l.active
    && left.seen <= l.seen + ids
    && left.output >= l.output - need.output
    && left.nodes >= l.nodes - need.nodes
    && left.scan >= l.scan - need.scan
  }

  /** What a copy needs to be sanitised in full. */
  ghost predicate Ready(h: Host, effort: string -> Effort, v: Value, j: Json, depth: nat, l: Ledger) {
    && h.Lawful(0)
    && Fits(j, depth)
    && Stored(h.objects, v, j) && Unshared(h.objects, v, j)
    && SteadyAll(h, effort, j)
    && Covers(l, NeedOf(effort, j))
    && Ids(h.objects, v, j) !! l.seen && Ids(h.objects, v, j) !! l.active
  }

  lemma QuotePrefix(s: string, n: nat)
    ensures |Quote(Take(s, n))| <= |Quote(s)|
  {
    hide Escape;
    var kept := Take(s, n);
    EscapeConcat(kept, s[|kept|..]);
    assert s == kept + s[|kept|..];
  }

  /** Given enough budget, the second pass returns `Again`. */
  lemma {:induction false} SecondPass(h: Host, effort: string -> Effort, v: Value, j: Json, depth: nat, l: Ledger)
    requires Ready(h, effort, v, j, depth, l)
    ensures var o := Sanitize(h, v, depth, l, 0);
      && o.Done? && o.value == Again(h, j)
      && After(l, o.left, NeedOf(effort, j), Ids(h.objects, v, j))
    decreases j, 0
  {
    hide Quote, SanitizeContainer, AgainEntries, AgainItems, NeedEntries, NeedItems;
    match j {
      case List(items) => SecondList(h, effort, v, items, depth, l.(nodes := l.nodes - 1));
      case Dict(entries) => SecondDict(h, effort, v, entries, depth, l.(nodes := l.nodes - 1));
      case _ =>
    }
  }

  /** The budget once a container is paid for and entered. */
  function Paid(l: Ledger, id: Id): Ledger {
    Enter(l.(output := l.output - 4), id)
  }

  lemma {:induction false} SecondList(h: Host, effort: string -> Effort, v: Value, items: seq<Json>, depth: nat,
                                      l: Ledger)
    requires Ready(h, effort, v, List(items), depth, l.(nodes := l.nodes + 1))
    ensures var o := SanitizeContainer(h, v.id, depth, l, 0);
      && o.value == Again(h, List(items))
      && After(l.(nodes := l.nodes + 1), o.left, NeedOf(effort, List(items)), Ids(h.objects, v, List(items)))
    decreases items, |items| + 1
  {
    hide Quote, SanitizeSequence, AgainItems, NeedItems, ItemIds, UnsharedItems;
    var values := h.objects(v.id).items;
    if items == [] {
      NothingAgain(h);
    } else {
      var paid := Paid(l, v.id);
      SecondItems(h, effort, values, items, 0, depth, paid, []);
      var o := SanitizeSequence(h, values, 0, Stops, |items|, depth, paid, 0, []);
      var (found, note) := o.value;
      assert found + NoteItem(note) == if note.Some? then found + [Str(note.value)] else found;
      assert [] + AgainItems(h, items, 0) == AgainItems(h, items, 0);
      assert Ordered(h, false, o).value == AgainItems(h, items, 0);
      assert SanitizeContent(h, v.id, depth, paid, 0) == Done(List(AgainItems(h, items, 0)), o.left);
    }
  }

  lemma {:induction false} SecondDict(h: Host, effort: string -> Effort, v: Value, entries: seq<Entry>, depth: nat,
                                      l: Ledger)
    requires Ready(h, effort, v, Dict(entries), depth, l.(nodes := l.nodes + 1))
    ensures var o := SanitizeContainer(h, v.id, depth, l, 0);
      && o.value == Again(h, Dict(entries))
      && After(l.(nodes := l.nodes + 1), o.left, NeedOf(effort, Dict(entries)), Ids(h.objects, v, Dict(entries)))
    decreases entries, |entries| + 1
  {
    hide Quote, SanitizeEntries, AgainEntries, NeedEntries, EntryIds, UnsharedEntries;
    var pairs := h.objects(v.id).pairs;
    if entries == [] {
      NothingAgain(h);
    } else {
      var w := Walk(MAX_ITEMS, {}, Decimal(|entries| - MAX_ITEMS) + " more entries", {});
      SecondEntries(h, effort, pairs, entries, 0, w, depth, Paid(l, v.id), []);
    }
  }

  lemma NothingAgain(h: Host)
    ensures AgainItems(h, [], 0) == [] && AgainEntries(h, [], 0, []) == []
  {
  }

  lemma {:induction false} SecondItems(h: Host, effort: string -> Effort, values: seq<Value>, items: seq<Json>, i: nat,
                                       depth: nat, l: Ledger, result: seq<Json>)
    requires h.Lawful(0) && i <= |items| == |values| < 0x8000_0000_0000_0000 && i <= MAX_ITEMS
    requires forall k :: 0 <= k < |items| ==> Fits(items[k], depth + 1)
    requires forall k :: 0 <= k < |items| ==> Stored(h.objects, values[k], items[k])
    requires UnsharedItems(h.objects, values, items, i)
    requires forall k :: 0 <= k < |items| ==> SteadyAll(h, effort, items[k])
    requires Covers(l, NeedItems(effort, items, i))
    requires ItemIds(h.objects, values, items, i) !! l.seen && ItemIds(h.objects, values, items, i) !! l.active
    ensures var o := SanitizeSequence(h, values, i, Stops, |items|, depth, l, 0, result);
      && o.Done?
      && o.value.0 + NoteItem(o.value.1) == result + AgainItems(h, items, i)
      && After(l, o.left, NeedItems(effort, items, i), ItemIds(h.objects, values, items, i))
    decreases items, |items| - i
  {
    hide Quote, Sanitize, Again, Fits, Stored, SteadyAll, NeedOf, Unshared, Ids;
    if i < |items| {
      assert IsMarkerItem(values[i]) <==> IsMarker(items[i]) by { MarkerStored(h.objects, values[i], items[i]); }
      if i < MAX_ITEMS || IsMarker(items[i]) {
        SecondPass(h, effort, values[i], items[i], depth + 1, l);
        var o := Sanitize(h, values[i], depth + 1, l, 0);
        if i < MAX_ITEMS {
          SecondItems(h, effort, values, items, i + 1, depth, o.left, result + [o.value]);
          assert result + [o.value] + AgainItems(h, items, i + 1) == result + AgainItems(h, items, i);
        } else {
          AgainMarker(h, items[i]);
        }
      }
    }
  }

  lemma MarkerStored(objects: Id -> Object, v: Value, j: Json)
    requires Stored(objects, v, j)
    ensures IsMarkerItem(v) <==> IsMarker(j)
  {
  }

  lemma AgainMarker(h: Host, j: Json)
    requires IsMarker(j)
    ensures Again(h, j) == j
  {
  }

  function NoteItem(note: Option<string>): seq<Json> {
    if note.Some? then [Str(note.value)] else []
  }

  /** The entries of a copy, each of which the second pass can read. */
  ghost predicate Readable(h: Host, effort: string -> Effort, pairs: seq<(Value, Value)>, entries: seq<Entry>,
                           depth: nat)
  {
    && StoredEntries(h.objects, pairs, entries)
    && forall k :: 0 <= k < |entries| ==>
      && Fits(entries[k].value, depth + 1)
      && Steady(h, effort, entries[k].key) && SteadyAll(h, effort, entries[k].value)
  }

  lemma {:induction false} SecondEntries(h: Host, effort: string -> Effort, pairs: seq<(Value, Value)>,
                                         entries: seq<Entry>, i: nat, w: Walk, depth: nat, l: Ledger,
                                         result: seq<Entry>)
    requires h.Lawful(0) && i <= |entries| && i <= MAX_ITEMS
    requires |entries| <= MAX_ITEMS + 1 && (|entries| == MAX_ITEMS + 1 ==> entries[MAX_ITEMS].key == TRUNCATED)
    requires w == Walk(MAX_ITEMS, {}, Decimal(|entries| - MAX_ITEMS) + " more entries", {})
    requires Readable(h, effort, pairs, entries, depth)
    requires UnsharedEntries(h.objects, pairs, entries, i)
    requires Covers(l, NeedEntries(effort, entries, i))
    requires EntryIds(h.objects, pairs, entries, i) !! l.seen && EntryIds(h.objects, pairs, entries, i) !! l.active
    ensures var o := SanitizeEntries(h, pairs, i, i, Stops, w, depth, l, 0, result);
      && o.Done?
      && o.value == AgainEntries(h, entries, i, result)
      && After(l, o.left, NeedEntries(effort, entries, i), EntryIds(h.objects, pairs, entries, i))
    decreases entries, |entries| - i
  {
    hide Quote, Sanitize, SanitizeEntry, LimitEntry, Again, AgainValue, Put, Fits, Stored, Steady, SteadyAll, Unshared,
      NeedKey, NeedOf, NeedEntry, Ids, SanitizeEntries;
    if i == |entries| {
      EntriesEnd(h, pairs, w, depth, l, result);
    } else {
      var e := entries[i];
      assert pairs[i].0 == Text(e.key) && Stored(h.objects, pairs[i].1, e.value);
      if i < MAX_ITEMS {
        SecondEntry(h, effort, pairs[i].1, e, w, depth, l);
        EntriesStep(h, pairs, i, w, depth, l, result);
        var left := SanitizeEntry(h, Text(e.key), pairs[i].1, w, depth, l, 0).left;
        var rest := Put(result, Take(e.key, MAX_KEY_LENGTH), AgainValue(h, e.key, e.value));
        SecondEntries(h, effort, pairs, entries, i + 1, w, depth, left, rest);
      } else {
        EntriesLimit(h, pairs, w, depth, l, result);
        SecondLimit(h, effort, pairs[i].1, e, w, depth, l, result);
      }
    }
  }

  lemma EntriesEnd(h: Host, pairs: seq<(Value, Value)>, w: Walk, depth: nat, l: Ledger, result: seq<Entry>)
    requires h.Lawful(0) && w.limit == MAX_ITEMS && |pairs| <= MAX_ITEMS + 1
    ensures forall admitted: nat ::
      SanitizeEntries(h, pairs, |pairs|, admitted, Stops, w, depth, l, 0, result) == Done(result, l)
  {
  }

  lemma EntriesStep(h: Host, pairs: seq<(Value, Value)>, i: nat, w: Walk, depth: nat, l: Ledger, result: seq<Entry>)
    requires h.Lawful(0) && i < |pairs| && i < w.limit && w.skip == {} && !l.Exhausted()
    requires SanitizeEntry(h, pairs[i].0, pairs[i].1, w, depth, l, 0).Done?
    ensures var o := SanitizeEntry(h, pairs[i].0, pairs[i].1, w, depth, l, 0);
      SanitizeEntries(h, pairs, i, i, Stops, w, depth, l, 0, result)
        == SanitizeEntries(h, pairs, i + 1, i + 1, Stops, w, depth, o.left, 0, Put(result, o.value.key, o.value.value))
  {
    hide SanitizeEntry, Put;
  }

  lemma EntriesLimit(h: Host, pairs: seq<(Value, Value)>, w: Walk, depth: nat, l: Ledger, result: seq<Entry>)
    requires h.Lawful(0) && w.limit == MAX_ITEMS < |pairs| && w.skip == {}
    ensures SanitizeEntries(h, pairs, MAX_ITEMS, MAX_ITEMS, Stops, w, depth, l, 0, result)
         == LimitEntry(h, pairs[MAX_ITEMS].0, pairs[MAX_ITEMS].1, w, depth, l, 0, result)
  {
    hide LimitEntry;
  }

  lemma {:induction false} SecondLimit(h: Host, effort: string -> Effort, v: Value, e: Entry, w: Walk, depth: nat,
                                       l: Ledger, result: seq<Entry>)
    requires h.Lawful(0) && Fits(e.value, depth + 1)
    requires Stored(h.objects, v, e.value) && Unshared(h.objects, v, e.value) && SteadyAll(h, effort, e.value)
    requires Covers(l, NeedEntry(effort, e))
    requires Ids(h.objects, v, e.value) !! l.seen && Ids(h.objects, v, e.value) !! l.active
    requires e.key == TRUNCATED
    ensures var o := LimitEntry(h, Text(e.key), v, w, depth, l, 0, result);
      && o.Done?
      && o.value == Put(result, TRUNCATED, Again(h, e.value))
      && After(l, o.left, NeedEntry(effort, e), Ids(h.objects, v, e.value))
    decreases e.value, 1
  {
    hide Quote, Sanitize, Again, Put, Fits, Stored, SteadyAll, Unshared, NeedKey, NeedOf;
    SecondPass(h, effort, v, e.value, depth + 1, l);
  }

  lemma {:induction false} SecondEntry(h: Host, effort: string -> Effort, v: Value, e: Entry, w: Walk, depth: nat,
                                       l: Ledger)
    requires h.Lawful(0) && w.assembled == {} && Fits(e.value, depth + 1)
    requires Stored(h.objects, v, e.value) && Unshared(h.objects, v, e.value)
    requires Steady(h, effort, e.key) && SteadyAll(h, effort, e.value)
    requires Covers(l, NeedEntry(effort, e))
    requires Ids(h.objects, v, e.value) !! l.seen && Ids(h.objects, v, e.value) !! l.active
    ensures var o := SanitizeEntry(h, Text(e.key), v, w, depth, l, 0);
      && o.Done?
      && o.value == Entry(Take(e.key, MAX_KEY_LENGTH), AgainValue(h, e.key, e.value))
      && After(l, o.left, NeedEntry(effort, e), Ids(h.objects, v, e.value))
    decreases e.value, 1
  {
    hide Quote, Sanitize, SanitizeKey, Again, Fits, Stored, Steady, SteadyAll, Unshared, NeedOf;
    SecondKey(h, effort, e.key, l);
    var named := SanitizeKey(h, Text(e.key), l, 0).left;
    if !MaskedKey(h, e.key) {
      SecondPass(h, effort, v, e.value, depth + 1, named);
    }
  }

  lemma SecondKey(h: Host, effort: string -> Effort, key: string, l: Ledger)
    requires h.Lawful(0) && Steady(h, effort, key) && Covers(l, NeedKey(effort, key))
    ensures var o := SanitizeKey(h, Text(key), l, 0);
      && o.Done?
      && o.value == SafeKey(MaskedKey(h, key), Take(key, MAX_KEY_LENGTH))
      && After(l, o.left, NeedKey(effort, key), {})
      && o.left.seen == l.seen
  {
    hide Quote;
    QuotePrefix(key, MAX_KEY_LENGTH);
    var scan := if |key| <= Min(MAX_STRING_LENGTH, l.scan) then l.scan - |key| else l.scan;
    assert h.scrub(key, scan, l.nodes, 0) == Clean(key, scan - effort(key).scan, l.nodes - effort(key).nodes);
  }

  // ---------------------------------------------------------------- when the second pass changes nothing

  /**
   * What can be read off a result: an item beyond the limit still starts as a marker does, a sensitive value is
   * masked in full, and no key is longer than a key is kept.
   */
  ghost predicate Settled(h: Host, j: Json)
    decreases j
  {
    match j
    case List(items) =>
      && (|items| > MAX_ITEMS ==> IsMarker(items[MAX_ITEMS]))
      && forall i :: 0 <= i < |items| ==> Settled(h, items[i])
    case Dict(entries) =>
      forall i :: 0 <= i < |entries| ==>
        && Settled(h, entries[i].value)
        && (i < MAX_ITEMS ==>
              && |entries[i].key| <= MAX_KEY_LENGTH
              && (h.sensitive(entries[i].key) ==> entries[i].value == Str(REDACTED)))
    case _ => true
  }

  lemma {:induction false} AgainIsIdentityIffSettled(h: Host, j: Json, depth: nat)
    requires Fits(j, depth)
    ensures Again(h, j) == j <==> Settled(h, j)
    decreases j, 0
  {
    match j {
      case List(items) => ItemsIdentity(h, items, depth);
      case Dict(entries) => EntriesIdentity(h, entries, depth);
      case _ =>
    }
  }

  /** What the second pass makes of item `k` of a list of at most one item too many. */
  function AgainItem(h: Host, items: seq<Json>, k: nat): Json
    requires k < |items|
  {
    if k < MAX_ITEMS then Again(h, items[k])
    else if IsMarker(items[k]) then items[k]
    else Str(TRUNCATED + " " + Decimal(|items| - MAX_ITEMS) + " more items")
  }

  lemma {:induction false} AgainItemsAt(h: Host, items: seq<Json>, i: nat)
    requires i <= |items| <= MAX_ITEMS + 1
    ensures |AgainItems(h, items, i)| == |items| - i
    ensures forall k :: i <= k < |items| ==> AgainItems(h, items, i)[k - i] == AgainItem(h, items, k)
    decreases |items| - i
  {
    hide Again;
    if i < |items| && i < MAX_ITEMS {
      AgainItemsAt(h, items, i + 1);
    }
  }

  lemma {:induction false} ItemsIdentity(h: Host, items: seq<Json>, depth: nat)
    requires Fits(List(items), depth)
    ensures Again(h, List(items)) == List(items) <==> Settled(h, List(items))
    decreases items, |items| + 1
  {
    var again := AgainItems(h, items, 0);
    AgainItemsAt(h, items, 0);
    forall k | 0 <= k < |items|
      ensures again[k] == items[k] <==> if k < MAX_ITEMS then Settled(h, items[k]) else IsMarker(items[k])
    {
      assert again[k] == AgainItem(h, items, k);
      AgainIsIdentityIffSettled(h, items[k], depth + 1);
      if k == MAX_ITEMS && !IsMarker(items[k]) {
        assert IsMarker(again[k]);
      }
    }
    assert again == items <==> forall k :: 0 <= k < |items| ==> again[k] == items[k];
  }

  /** What the second pass makes of entry `k` of a dict whose keys are short. */
  function AgainEntry(h: Host, entries: seq<Entry>, k: nat): Entry
    requires k < |entries|
  {
    var e := entries[k];
    Entry(e.key, if k < MAX_ITEMS then AgainValue(h, e.key, e.value) else Again(h, e.value))
  }

  lemma PutNew(result: seq<Entry>, key: string, value: Json)
    requires DistinctKeys(result) && forall k :: 0 <= k < |result| ==> result[k].key != key
    ensures Put(result, key, value) == result + [Entry(key, value)]
  {
    PutKeys(result, key, value);
    assert key !in Keys(result);
  }

  lemma {:induction false} ShortKeys(h: Host, entries: seq<Entry>, i: nat, result: seq<Entry>)
    requires i <= |entries| <= MAX_ITEMS + 1 && DistinctKeys(entries)
    requires |entries| == MAX_ITEMS + 1 ==> entries[MAX_ITEMS].key == TRUNCATED
    requires forall k :: 0 <= k < |entries| && k < MAX_ITEMS ==> |entries[k].key| <= MAX_KEY_LENGTH
    requires |result| == i && forall k :: 0 <= k < i ==> result[k].key == entries[k].key
    ensures var again := AgainEntries(h, entries, i, result);
      && |again| == |entries|
      && (forall k :: 0 <= k < i ==> again[k] == result[k])
      && (forall k :: i <= k < |entries| ==> again[k] == AgainEntry(h, entries, k))
    decreases |entries| - i
  {
    hide Again, AgainValue, Put;
    if i < |entries| {
      var e := AgainEntry(h, entries, i);
      PutNew(result, e.key, e.value);
      if i < MAX_ITEMS {
        assert Take(e.key, MAX_KEY_LENGTH) == e.key;
        ShortKeys(h, entries, i + 1, result + [e]);
      }
    }
  }

  /** Whatever the keys were, the second pass writes none that is longer than a key is kept. */
  lemma {:induction false} KeysAreCut(h: Host, entries: seq<Entry>, i: nat, result: seq<Entry>)
    requires i <= |entries|
    requires forall k :: 0 <= k < |result| ==> |result[k].key| <= MAX_KEY_LENGTH
    ensures forall e :: e in AgainEntries(h, entries, i, result) ==> |e.key| <= MAX_KEY_LENGTH
    decreases |entries| - i
  {
    hide Again, AgainValue, Put;
    if i < |entries| && i < MAX_ITEMS {
      var e := entries[i];
      KeysAreCut(h, entries, i + 1, Put(result, Take(e.key, MAX_KEY_LENGTH), AgainValue(h, e.key, e.value)));
    }
  }

  lemma {:induction false} EntriesIdentity(h: Host, entries: seq<Entry>, depth: nat)
    requires Fits(Dict(entries), depth)
    ensures Again(h, Dict(entries)) == Dict(entries) <==> Settled(h, Dict(entries))
    decreases entries, |entries| + 1
  {
    hide Put, AgainEntries;
    var again := AgainEntries(h, entries, 0, []);
    if k :| 0 <= k < |entries| && k < MAX_ITEMS && |entries[k].key| > MAX_KEY_LENGTH {
      KeysAreCut(h, entries, 0, []);
      assert entries[k] in entries && entries[k] !in again;
    } else {
      ShortKeys(h, entries, 0, []);
      forall k | 0 <= k < |entries|
        ensures again[k] == entries[k] <==>
          if k < MAX_ITEMS && h.sensitive(entries[k].key) then entries[k].value == Str(REDACTED)
          else Settled(h, entries[k].value)
      {
        assert again[k] == AgainEntry(h, entries, k);
        AgainIsIdentityIffSettled(h, entries[k].value, depth + 1);
        if k < MAX_ITEMS {
          assert Take(entries[k].key, MAX_KEY_LENGTH) == entries[k].key;
        }
      }
      assert again == entries <==> forall k :: 0 <= k < |entries| ==> again[k] == entries[k];
    }
  }

  /**
   * The result of a first pass, copied into fresh containers and sanitised again with budget enough and a scrubber
   * that leaves its strings alone, comes back unchanged exactly if it is settled.
   */
  lemma ResultIsAFixedPointIffSettled(h: Host, w: Value, objects: Id -> Object, effort: string -> Effort, v: Value,
                                      l: Ledger)
    requires h.Lawful(0) && Sanitize(h, w, 0, FRESH, 0).Done?
    requires var copy := h.(objects := objects);
      var j := Sanitize(h, w, 0, FRESH, 0).value;
      && Stored(objects, v, j) && Unshared(objects, v, j) && SteadyAll(copy, effort, j)
      && Covers(l, NeedOf(effort, j))
      && Ids(objects, v, j) !! l.seen && Ids(objects, v, j) !! l.active
    ensures var copy := h.(objects := objects);
      var j := Sanitize(h, w, 0, FRESH, 0).value;
      && copy.Lawful(0)
      && Sanitize(copy, v, 0, l, 0).Done?
      && (Sanitize(copy, v, 0, l, 0).value == j <==> Settled(h, j))
  {
    hide Sanitize, Again, Stored, Unshared, SteadyAll, NeedOf, Ids, Emission.Emitted, Emission.GraphOf, Fits;
    var copy := h.(objects := objects);
    var j := Sanitize(h, w, 0, FRESH, 0).value;
    assert copy.Lawful(0);
    var g := Emission.GraphOf(h, w);
    Emission.GraphIsClosed(h, w);
    Emission.SanitizeEmitted(h, g, w, 0, FRESH, 0);
    EmittedFits(h, g, j, 0);
    SecondPass(copy, effort, v, j, 0, l);
    AgainIsIdentityIffSettled(copy, j, 0);
    SettledIgnoresObjects(h, objects, j);
  }

  lemma {:induction false} SettledIgnoresObjects(h: Host, objects: Id -> Object, j: Json)
    ensures Settled(h.(objects := objects), j) <==> Settled(h, j)
    decreases j
  {
    match j {
      case List(items) =>
        forall i | 0 <= i < |items| ensures Settled(h.(objects := objects), items[i]) <==> Settled(h, items[i]) {
          SettledIgnoresObjects(h, objects, items[i]);
        }
      case Dict(entries) =>
        forall i | 0 <= i < |entries|
          ensures Settled(h.(objects := objects), entries[i].value) <==> Settled(h, entries[i].value)
        {
          SettledIgnoresObjects(h, objects, entries[i].value);
        }
      case _ =>
    }
  }

  // ---------------------------------------------------------------- a result that is not settled

  const WIDE := seq(10_915, _ => '\U{00E9}')

  /** A text that takes 65,499 characters of output: six for each accented letter. */
  const FILLER := WIDE + "xxxxx"

  /**
   * A list whose first item spends all but 29 characters of the output before it turns out to be unreadable, and
   * whose second holds sensitive data. The scrubber leaves every text as it is.
   */
  function Overflowing(): Host {
    Host(
      id =>
        if id == 0 then Sequence(Some(2), [Ref(1), Ref(2)], Stops, false)
        else if id == 1 then Sequence(Some(2), [Text(FILLER)], Raises, false)
        else Mapping(Some(1), [(Text("password"), Text("x"))], Stops),
      (text, scan, nodes, nesting) => Clean(text, scan, nodes),
      (id, scan, nodes) => Clean("", scan, nodes),
      key => key == "password",
      (a, b) => false)
  }

  /** What the first pass returns, in new containers. */
  function Copied(id: Id): Object {
    if id == 0 then Sequence(Some(2), [Text(UNREADABLE), Ref(1)], Stops, false)
    else Mapping(Some(1), [(Text("password"), Text(TRUNCATED))], Stops)
  }

  const CUT := Dict([Entry("password", Str(TRUNCATED))])

  /**
   * A mask that does not fit is itself cut. The item that took its room is not part of the result, so a second pass
   * with a full budget has room for the mask and returns another tree.
   */
  lemma ACutMaskIsCompleted()
    ensures var h := Overflowing();
      var first := Sanitize(h, Ref(0), 0, FRESH, 0);
      && first.Done? && first.value == List([Str(UNREADABLE), CUT])
      && Stored(Copied, Ref(0), first.value)
      && h.(objects := Copied).Lawful(0)
      && var second := Sanitize(h.(objects := Copied), Ref(0), 0, FRESH, 0);
      && second.Done? && second.value != first.value
  {
    hide Sanitize, Again, NeedOf, Stored, Unshared, SteadyAll, Ids;
    var j := List([Str(UNREADABLE), CUT]);
    FirstPass();
    CopyIsStored();
    CopyIsSteady();
    ResultIsAFixedPointIffSettled(Overflowing(), Ref(0), Copied, Effortless, Ref(0), FRESH);
    assert [Str(UNREADABLE), CUT][1] == CUT;
    assert !Settled(Overflowing(), CUT) by {
      assert [Entry("password", Str(TRUNCATED))][0].value != Str(REDACTED);
    }
  }

  function Effortless(s: string): Effort {
    Effort(0, 0)
  }

  lemma CutIsStored()
    ensures Stored(Copied, Ref(1), CUT) && Unshared(Copied, Ref(1), CUT) && Ids(Copied, Ref(1), CUT) == {1}
  {
    var entries := [Entry("password", Str(TRUNCATED))];
    var pairs := Copied(1).pairs;
    assert Stored(Copied, pairs[0].1, entries[0].value);
    assert StoredEntries(Copied, pairs, entries);
    assert EntryIds(Copied, pairs, entries, 1) == {};
    assert UnsharedEntries(Copied, pairs, entries, 1) && UnsharedEntries(Copied, pairs, entries, 0);
  }

  lemma CutIsSteady(effort: string -> Effort)
    requires effort == Effortless
    ensures SteadyAll(Overflowing().(objects := Copied), effort, CUT) && NeedOf(effort, CUT) == Need(45, 3, 8)
  {
    hide Quote;
    var entries := [Entry("password", Str(TRUNCATED))];
    PlainQuote("password");
    PlainQuote(TRUNCATED);
    assert NeedKey(effort, "password") == Need(12, 0, 8) && NeedOf(effort, Str(TRUNCATED)) == Need(15, 1, 0);
    assert NeedEntry(effort, entries[0]) == Need(41, 2, 8);
    assert NeedEntries(effort, entries, 1) == Need(0, 0, 0);
    assert NeedEntries(effort, entries, 0) == Need(41, 2, 8);
  }

  lemma CopyIsStored()
    ensures var j := List([Str(UNREADABLE), CUT]);
      Stored(Copied, Ref(0), j) && Unshared(Copied, Ref(0), j) && Ids(Copied, Ref(0), j) == {0, 1}
  {
    CutIsStored();
    var items, values := [Str(UNREADABLE), CUT], Copied(0).items;
    hide CUT;
    assert Stored(Copied, values[0], items[0]) && Stored(Copied, values[1], items[1]);
    assert ItemIds(Copied, values, items, 2) == {};
    assert ItemIds(Copied, values, items, 1) == {1};
    assert UnsharedItems(Copied, values, items, 2) && UnsharedItems(Copied, values, items, 1);
    assert UnsharedItems(Copied, values, items, 0);
  }

  lemma CopyIsSteady()
    ensures var j := List([Str(UNREADABLE), CUT]);
      SteadyAll(Overflowing().(objects := Copied), Effortless, j) && Covers(FRESH, NeedOf(Effortless, j))
  {
    hide Quote;
    CutIsSteady(Effortless);
    var items := [Str(UNREADABLE), CUT];
    hide CUT;
    PlainQuote(UNREADABLE);
    assert NeedItems(Effortless, items, 2) == Need(0, 0, 0);
    assert NeedItems(Effortless, items, 1) == Need(45, 3, 8);
    assert NeedOf(Effortless, items[0]) == Need(16, 1, 0);
    assert NeedItems(Effortless, items, 0) == Need(61, 4, 8);
  }

  lemma {:induction false} WideEscape(n: nat)
    ensures |EscapeAll(seq(n, _ => '\U{00E9}'))| == 6 * n
  {
    if n > 0 {
      var s := seq(n, _ => '\U{00E9}');
      assert s[..n - 1] == seq(n - 1, _ => '\U{00E9}');
      WideEscape(n - 1);
    }
  }

  lemma FirstPass()
    ensures Sanitize(Overflowing(), Ref(0), 0, FRESH, 0).Done?
    ensures Sanitize(Overflowing(), Ref(0), 0, FRESH, 0).value == List([Str(UNREADABLE), CUT])
  {
    hide Quote, Sanitize, SanitizeSequence;
    var h := Overflowing();
    var items := h.objects(0).items;
    var l := Paid(FRESH.(nodes := FRESH.nodes - 1), 0);
    SpendsAll(l);
    var spent := Sanitize(h, Ref(1), 1, l, 0).left;
    CutMask(spent);
    var masked := Sanitize(h, Ref(2), 1, spent, 0);
    assert [] + [Str(UNREADABLE)] == [Str(UNREADABLE)] && [Str(UNREADABLE)] + [CUT] == [Str(UNREADABLE), CUT];
    SequenceStep(h, items, 0, Stops, 0, l, []);
    SequenceStep(h, items, 1, Stops, 0, spent, [Str(UNREADABLE)]);
    SequenceEnd(h, items, Stops, 0, masked.left, [Str(UNREADABLE), CUT]);
    ListOf(h, [Str(UNREADABLE), CUT], masked.left);
  }

  lemma SequenceStep(h: Host, items: seq<Value>, i: nat, ends: Ending, depth: nat, l: Ledger, result: seq<Json>)
    requires h.Lawful(0) && i < |items| <= 2 && !l.Exhausted()
    requires Sanitize(h, items[i], depth + 1, l, 0).Done?
    ensures var o := Sanitize(h, items[i], depth + 1, l, 0);
      SanitizeSequence(h, items, i, ends, 2, depth, l, 0, result)
        == SanitizeSequence(h, items, i + 1, ends, 2, depth, o.left, 0, result + [o.value])
  {
    hide Sanitize;
  }

  lemma SequenceEnd(h: Host, items: seq<Value>, ends: Ending, depth: nat, l: Ledger, result: seq<Json>)
    requires h.Lawful(0)
    ensures SanitizeSequence(h, items, |items|, ends, 2, depth, l, 0, result)
         == if ends.Raises? then Raised(l) else Done((result, None), l)
  {
  }

  lemma ListOf(h: Host, found: seq<Json>, left: Ledger)
    requires h.Lawful(0) && h == Overflowing()
    requires SanitizeSequence(h, h.objects(0).items, 0, Stops, 2, 0, Paid(FRESH.(nodes := FRESH.nodes - 1), 0), 0, [])
          == Done((found, None), left)
    ensures Sanitize(h, Ref(0), 0, FRESH, 0).Done? && Sanitize(h, Ref(0), 0, FRESH, 0).value == List(found)
  {
    hide SanitizeSequence;
    var paid := FRESH.(nodes := FRESH.nodes - 1);
    assert SanitizeContent(h, 0, 0, Paid(paid, 0), 0) == Done(List(found), left);
    assert Enter(Charge(SEPARATOR_COST, paid, 0).1, 0) == Paid(paid, 0);
    assert SanitizeContainer(h, 0, 0, paid, 0) == Done(List(found), Leave(left, 0));
  }

  /** The text fits, and then the iteration raises. */
  lemma SpendsAll(l: Ledger)
    requires l == Paid(FRESH.(nodes := FRESH.nodes - 1), 0)
    ensures var o := Sanitize(Overflowing(), Ref(1), 1, l, 0);
      && o.Done? && o.value == Str(UNREADABLE)
      && o.left.output == 29 && o.left.nodes > 10 && o.left.active == {0} && o.left.seen == {0, 1}
  {
    hide Quote, SanitizeSequence, Sanitize;
    var h := Overflowing();
    var items := h.objects(1).items;
    var visited := l.(nodes := l.nodes - 1);
    var entered := Paid(visited, 1);
    FillerFits(h, entered);
    var o := Sanitize(h, items[0], 2, entered, 0);
    SequenceStep(h, items, 0, Raises, 1, entered, []);
    SequenceEnd(h, items, Raises, 1, o.left, [] + [o.value]);
    assert SanitizeContent(h, 1, 1, entered, 0) == Raised(o.left);
    assert Enter(Charge(SEPARATOR_COST, visited, 0).1, 1) == entered;
    assert SanitizeContainer(h, 1, 1, visited, 0) == Done(Str(UNREADABLE), Leave(o.left, 1));
    Allowance.ContainerIsVisited(h, 1, 1, l, 0);
  }

  lemma FillerFits(h: Host, l: Ledger)
    requires h.Lawful(0) && h == Overflowing() && l.nodes > 0 && l.output == 65_528
    ensures Sanitize(h, Text(FILLER), 2, l, 0) == Done(Str(FILLER), l.(nodes := l.nodes - 1, output := 29))
  {
    hide Escape, EscapeAll;
    WideEscape(10_915);
    EscapeConcat(WIDE, "xxxxx");
    PlainQuote("xxxxx");
    assert |Quote(FILLER)| == 65_497;
  }

  /** There is room for the key, but the mask is cut. */
  lemma CutMask(l: Ledger)
    requires l.output == 29 && l.nodes > 10 && 2 !in l.active && 2 !in l.seen
    ensures var o := Sanitize(Overflowing(), Ref(2), 1, l, 0);
      o.Done? && o.value == CUT
  {
    hide Quote;
    var h := Overflowing();
    PlainQuote("password");
    var pairs := h.objects(2).pairs;
    var w := Walk(MAX_ITEMS, {}, Decimal(1 - MAX_ITEMS) + " more entries", {});
    var entered := Paid(l.(nodes := l.nodes - 1), 2);
    assert Take("password", MAX_KEY_LENGTH) == "password";
    var e := SanitizeEntry(h, pairs[0].0, pairs[0].1, w, 1, entered, 0);
    assert e.value == Entry("password", Str(TRUNCATED)) by {
      var key := SanitizeKey(h, Text("password"), entered, 0);
      assert key.Done? && key.value == SafeKey(true, "password") && key.left.output == 13;
    }
    OneEntry(h, pairs, w, entered, e);
    assert SanitizeContent(h, 2, 1, entered, 0).value == CUT;
    Allowance.ContainerIsVisited(h, 2, 1, l, 0);
  }

  lemma OneEntry(h: Host, pairs: seq<(Value, Value)>, w: Walk, l: Ledger, e: Outcome<Entry>)
    requires h.Lawful(0) && |pairs| == 1 && w.skip == {} && w.limit > 0 && !l.Exhausted()
    requires e == SanitizeEntry(h, pairs[0].0, pairs[0].1, w, 1, l, 0) && e.Done?
    ensures SanitizeEntries(h, pairs, 0, 0, Stops, w, 1, l, 0, []) == Done([e.value], e.left)
  {
    hide SanitizeEntry;
    var result := Put([], e.value.key, e.value.value);
    assert result == [e.value];
    assert SanitizeEntries(h, pairs, 1, 1, Stops, w, 1, e.left, 0, result) == Done(result, e.left);
  }
}
