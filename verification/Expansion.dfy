/** What every sanitisation keeps of its budget: containers are expanded once, and cycles are real. */
module Expansion {
  import opened Text
  import opened Json
  import opened Values
  import opened Ledgers
  import opened Sanitizing

  // ---------------------------------------------------------------- the budget

  /** Every container that was expanded is remembered, and none was expanded twice. */
  ghost predicate ExpandedOnce(l: Ledger) {
    && (forall i :: 0 <= i < |l.expanded| ==> l.expanded[i] in l.seen)
    && (forall i, j :: 0 <= i < j < |l.expanded| ==> l.expanded[i] != l.expanded[j])
  }

  /** How a budget may differ after a value was sanitised with it. */
  ghost predicate Keeps(l: Ledger, left: Ledger) {
    && left.active == l.active
    && l.seen <= left.seen
    && l.expanded <= left.expanded
    && left.nodes <= l.nodes
    && (l.output >= 0 ==> 0 <= left.output <= l.output)
    && (ExpandedOnce(l) ==> ExpandedOnce(left))
  }

  lemma KeepsTransitive(a: Ledger, b: Ledger, c: Ledger)
    requires Keeps(a, b) && Keeps(b, c)
    ensures Keeps(a, c)
  {
  }

  lemma KeyKeeps(h: Host, key: Value, l: Ledger, nesting: nat)
    requires h.Lawful(nesting)
    ensures Keeps(l, SanitizeKey(h, key, l, nesting).left)
  {
    hide Quote;
  }

  /** The current path is restored, nothing is forgotten, nothing is given back, nothing is expanded twice. */
  lemma {:induction false} SanitizeKeeps(h: Host, v: Value, depth: nat, l: Ledger, nesting: nat)
    requires h.Lawful(nesting)
    ensures Keeps(l, Sanitize(h, v, depth, l, nesting).left)
    decreases Pos(l.nodes), 0, 0
  {
    hide Quote, SanitizeContainer;
    if !l.Exhausted() && v.Ref? {
      var paid := l.(nodes := l.nodes - 1);
      match h.objects(v.id) {
        case Member(stored) => SanitizeKeeps(h, stored, depth, paid, nesting);
        case _ => ContainerKeeps(h, v.id, depth, paid, nesting);
      }
    }
  }

  lemma {:induction false} ContainerKeeps(h: Host, id: Id, depth: nat, l: Ledger, nesting: nat)
    requires h.Lawful(nesting) && !h.objects(id).Member?
    ensures Keeps(l, SanitizeContainer(h, id, depth, l, nesting).left)
    decreases Pos(l.nodes), 2, 1
  {
    hide SanitizeContent;
    var charged := Charge(SEPARATOR_COST, l, nesting).1;
    if id !in l.active && id !in l.seen && h.objects(id).size.Some? {
      ContentKeeps(h, id, depth, Enter(charged, id), nesting);
    }
  }

  lemma {:induction false} ContentKeeps(h: Host, id: Id, depth: nat, l: Ledger, nesting: nat)
    requires h.Lawful(nesting) && !h.objects(id).Member? && h.objects(id).size.Some?
    ensures Keeps(l, SanitizeContent(h, id, depth, l, nesting).left)
    decreases Pos(l.nodes), 2, 0
  {
    hide Keeps, SanitizeEntries, SanitizeSequence, Sort;
    match h.objects(id) {
      case Mapping(size, pairs, ends) =>
        var w := Walk(MAX_ITEMS, {}, Decimal(size.value - MAX_ITEMS) + " more entries", {});
        EntriesKeep(h, pairs, 0, 0, ends, w, depth, l, nesting, []);
      case Sequence(size, items, ends, unordered) =>
        SequenceKeeps(h, items, 0, ends, size.value, depth, l, nesting, []);
    }
  }

  lemma {:induction false} EntryKeeps(h: Host, key: Value, item: Value, w: Walk, depth: nat, l: Ledger, nesting: nat)
    requires h.Lawful(nesting) && !l.Exhausted()
    ensures Keeps(l, SanitizeEntry(h, key, item, w, depth, l, nesting).left)
    decreases Pos(l.nodes), 0, 1
  {
    hide Sanitize, SanitizeKey, Content;
    KeyKeeps(h, key, l, nesting);
    var named := SanitizeKey(h, key, l, nesting).left;
    SanitizeKeeps(h, Content(h, key, item, w), depth + 1, named, nesting);
    KeepsTransitive(l, named, Sanitize(h, Content(h, key, item, w), depth + 1, named, nesting).left);
  }

  lemma {:induction false} EntriesKeep(h: Host, pairs: seq<(Value, Value)>, i: nat, admitted: nat, ends: Ending,
                                       w: Walk, depth: nat, l: Ledger, nesting: nat, result: seq<Entry>)
    requires h.Lawful(nesting) && i <= |pairs|
    ensures Keeps(l, SanitizeEntries(h, pairs, i, admitted, ends, w, depth, l, nesting, result).left)
    decreases Pos(l.nodes), 1, |pairs| - i
  {
    hide ExpandedOnce, Sanitize, SanitizeEntry, Put;
    if i < w.limit + |w.skip| + 1 && i < |pairs| {
      var (key, item) := pairs[i];
      if NamedIn(key, w.skip) {
        EntriesKeep(h, pairs, i + 1, admitted, ends, w, depth, l, nesting, result);
      } else if admitted >= w.limit {
        SanitizeKeeps(h, item, depth + 1, l, nesting);
      } else if !l.Exhausted() {
        EntryKeeps(h, key, item, w, depth, l, nesting);
        match SanitizeEntry(h, key, item, w, depth, l, nesting) {
          case Raised(_) =>
          case Done(e, left) =>
            var rest := Put(result, e.key, e.value);
            EntriesKeep(h, pairs, i + 1, admitted + 1, ends, w, depth, left, nesting, rest);
            KeepsTransitive(l, left,
              SanitizeEntries(h, pairs, i + 1, admitted + 1, ends, w, depth, left, nesting, rest).left);
        }
      }
    }
  }

  lemma {:induction false} SequenceKeeps(h: Host, items: seq<Value>, i: nat, ends: Ending, size: Length, depth: nat,
                                         l: Ledger, nesting: nat, result: seq<Json>)
    requires h.Lawful(nesting) && i <= |items|
    ensures Keeps(l, SanitizeSequence(h, items, i, ends, size, depth, l, nesting, result).left)
    decreases Pos(l.nodes), 1, |items| - i
  {
    hide ExpandedOnce, Sanitize;
    if i < |items| {
      SanitizeKeeps(h, items[i], depth + 1, l, nesting);
      match Sanitize(h, items[i], depth + 1, l, nesting) {
        case Raised(_) =>
        case Done(j, left) =>
          if i < MAX_ITEMS && !l.Exhausted() {
            SequenceKeeps(h, items, i + 1, ends, size, depth, left, nesting, result + [j]);
            KeepsTransitive(l, left,
              SanitizeSequence(h, items, i + 1, ends, size, depth, left, nesting, result + [j]).left);
          }
      }
    }
  }

  /** A sanitisation from a fresh budget expands each container at most once and ends on no path. */
  lemma EachContainerIsExpandedOnce(h: Host, v: Value)
    requires h.Lawful(0)
    ensures var left := Sanitize(h, v, 0, FRESH, 0).left;
      && (forall i, j :: 0 <= i < j < |left.expanded| ==> left.expanded[i] != left.expanded[j])
      && left.active == {}
  {
    SanitizeKeeps(h, v, 0, FRESH, 0);
  }

  // ---------------------------------------------------------------- cycles

  /** The object `a` holds the value `v`. */
  ghost predicate Holds(h: Host, a: Id, v: Value) {
    match h.objects(a)
    case Mapping(_, pairs, _) => exists i :: 0 <= i < |pairs| && pairs[i].1 == v
    case Sequence(_, items, _, _) => v in items
    case Member(stored) => stored == v
  }

  ghost predicate Chain(h: Host, path: seq<Id>) {
    forall i :: 0 <= i < |path| - 1 ==> Holds(h, path[i], Ref(path[i + 1]))
  }

  /** `b` lies below `a`: some chain of at least one step leads there. */
  ghost predicate Reaches(h: Host, a: Id, b: Id) {
    exists path :: |path| >= 2 && path[0] == a && path[|path| - 1] == b && Chain(h, path)
  }

  lemma ReachesChild(h: Host, a: Id, b: Id)
    requires Holds(h, a, Ref(b))
    ensures Reaches(h, a, b)
    ensures forall c :: Reaches(h, c, a) ==> Reaches(h, c, b)
  {
    assert Chain(h, [a, b]);
    forall c | Reaches(h, c, a) ensures Reaches(h, c, b) {
      var path :| |path| >= 2 && path[0] == c && path[|path| - 1] == a && Chain(h, path);
      assert Chain(h, path + [b]);
      assert (path + [b])[0] == c && (path + [b])[|path|] == b;
    }
  }

  /** Every container of the current path leads to `v`. */
  ghost predicate Below(h: Host, active: set<Id>, v: Value) {
    v.Ref? ==> forall a :: a in active ==> Reaches(h, a, v.id)
  }

  ghost predicate Real(h: Host, cycles: set<Id>) {
    forall c :: c in cycles ==> Reaches(h, c, c)
  }

  lemma BelowChild(h: Host, active: set<Id>, id: Id, v: Value)
    requires Below(h, active, Ref(id)) && Holds(h, id, v)
    ensures Below(h, active, v) && Below(h, active + {id}, v)
  {
    hide Reaches;
    if v.Ref? {
      ReachesChild(h, id, v.id);
    }
  }

  /** What is reported as a cycle contains itself: only an ancestor on the current path is reported. */
  lemma {:induction false} SanitizeCycles(h: Host, v: Value, depth: nat, l: Ledger, nesting: nat)
    requires h.Lawful(nesting)
    requires Below(h, l.active, v) && Real(h, l.cycles)
    ensures Real(h, Sanitize(h, v, depth, l, nesting).left.cycles)
    decreases Pos(l.nodes), 0, 0
  {
    hide Quote, SanitizeContainer, Reaches;
    if !l.Exhausted() && v.Ref? {
      var paid := l.(nodes := l.nodes - 1);
      match h.objects(v.id) {
        case Member(stored) =>
          BelowChild(h, l.active, v.id, stored);
          SanitizeCycles(h, stored, depth, paid, nesting);
        case _ => ContainerCycles(h, v.id, depth, paid, nesting);
      }
    }
  }

  lemma {:induction false} ContainerCycles(h: Host, id: Id, depth: nat, l: Ledger, nesting: nat)
    requires h.Lawful(nesting) && !h.objects(id).Member?
    requires Below(h, l.active, Ref(id)) && Real(h, l.cycles)
    ensures Real(h, SanitizeContainer(h, id, depth, l, nesting).left.cycles)
    decreases Pos(l.nodes), 2, 1
  {
    hide SanitizeContent, Reaches;
    var charged := Charge(SEPARATOR_COST, l, nesting).1;
    if id !in l.active && id !in l.seen && h.objects(id).size.Some? {
      ContentCycles(h, id, depth, Enter(charged, id), nesting);
    }
  }

  lemma {:induction false} ContentCycles(h: Host, id: Id, depth: nat, l: Ledger, nesting: nat)
    requires h.Lawful(nesting) && !h.objects(id).Member? && h.objects(id).size.Some?
    requires Below(h, l.active - {id}, Ref(id)) && id in l.active && Real(h, l.cycles)
    ensures Real(h, SanitizeContent(h, id, depth, l, nesting).left.cycles)
    decreases Pos(l.nodes), 2, 0
  {
    hide SanitizeEntries, SanitizeSequence, Sort, Reaches;
    assert (l.active - {id}) + {id} == l.active;
    match h.objects(id) {
      case Mapping(size, pairs, ends) =>
        var w := Walk(MAX_ITEMS, {}, Decimal(size.value - MAX_ITEMS) + " more entries", {});
        forall k | 0 <= k < |pairs| ensures Below(h, l.active, pairs[k].1) {
          BelowChild(h, l.active - {id}, id, pairs[k].1);
        }
        EntriesCycles(h, pairs, 0, 0, ends, w, depth, l, nesting, []);
      case Sequence(size, items, ends, unordered) =>
        forall k | 0 <= k < |items| ensures Below(h, l.active, items[k]) {
          BelowChild(h, l.active - {id}, id, items[k]);
        }
        SequenceCycles(h, items, 0, ends, size.value, depth, l, nesting, []);
    }
  }

  lemma {:induction false} EntriesCycles(h: Host, pairs: seq<(Value, Value)>, i: nat, admitted: nat, ends: Ending,
                                         w: Walk, depth: nat, l: Ledger, nesting: nat, result: seq<Entry>)
    requires h.Lawful(nesting) && i <= |pairs|
    requires Real(h, l.cycles) && forall k :: 0 <= k < |pairs| ==> Below(h, l.active, pairs[k].1)
    ensures Real(h, SanitizeEntries(h, pairs, i, admitted, ends, w, depth, l, nesting, result).left.cycles)
    decreases Pos(l.nodes), 1, |pairs| - i
  {
    hide ExpandedOnce, Sanitize, Put, Real, Below, Quote, SanitizeKey;
    if i < w.limit + |w.skip| + 1 && i < |pairs| {
      var (key, item) := pairs[i];
      if NamedIn(key, w.skip) {
        EntriesCycles(h, pairs, i + 1, admitted, ends, w, depth, l, nesting, result);
      } else if admitted >= w.limit {
        SanitizeCycles(h, pairs[i].1, depth + 1, l, nesting);
      } else if !l.Exhausted() {
        EntryKeeps(h, key, item, w, depth, l, nesting);
        EntryCycles(h, key, pairs[i].1, w, depth, l, nesting);
        match SanitizeEntry(h, key, item, w, depth, l, nesting) {
          case Raised(_) =>
          case Done(e, left) =>
            EntriesCycles(h, pairs, i + 1, admitted + 1, ends, w, depth, left, nesting, Put(result, e.key, e.value));
        }
      }
    }
  }

  lemma {:induction false} EntryCycles(h: Host, key: Value, item: Value, w: Walk, depth: nat, l: Ledger, nesting: nat)
    requires h.Lawful(nesting) && Real(h, l.cycles) && Below(h, l.active, item)
    ensures Real(h, SanitizeEntry(h, key, item, w, depth, l, nesting).left.cycles)
    decreases Pos(l.nodes), 0, 1
  {
    hide Sanitize, Quote, Reaches;
    var named := SanitizeKey(h, key, l, nesting).left;
    assert named.cycles == l.cycles && named.active == l.active;
    SanitizeCycles(h, Content(h, key, item, w), depth + 1, named, nesting);
  }

  lemma {:induction false} SequenceCycles(h: Host, items: seq<Value>, i: nat, ends: Ending, size: Length, depth: nat,
                                          l: Ledger, nesting: nat, result: seq<Json>)
    requires h.Lawful(nesting) && i <= |items|
    requires Real(h, l.cycles) && forall k :: 0 <= k < |items| ==> Below(h, l.active, items[k])
    ensures Real(h, SanitizeSequence(h, items, i, ends, size, depth, l, nesting, result).left.cycles)
    decreases Pos(l.nodes), 1, |items| - i
  {
    hide ExpandedOnce, Sanitize, Real, Below;
    if i < |items| {
      SanitizeCycles(h, items[i], depth + 1, l, nesting);
      SanitizeKeeps(h, items[i], depth + 1, l, nesting);
      match Sanitize(h, items[i], depth + 1, l, nesting) {
        case Raised(_) =>
        case Done(j, left) =>
          if i < MAX_ITEMS && !l.Exhausted() {
            SequenceCycles(h, items, i + 1, ends, size, depth, left, nesting, result + [j]);
          }
      }
    }
  }

  /** On any graph, a container is reported as a cycle only if it contains itself. */
  lemma CyclesAreReal(h: Host, v: Value)
    requires h.Lawful(0)
    ensures forall c :: c in Sanitize(h, v, 0, FRESH, 0).left.cycles ==> Reaches(h, c, c)
  {
    SanitizeCycles(h, v, 0, FRESH, 0);
  }
}
