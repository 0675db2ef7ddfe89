/** What stands under the name of sensitive data makes no difference, to the result or to what is left of the budget. */
module Secrecy {
  import opened Text
  import opened Json
  import opened Values
  import opened Ledgers
  import opened Sanitizing
  import Assembly
  import Sanitizer

  // ---------------------------------------------------------------- names whose values are masked

  /** However much budget is left, the key is read as the name of sensitive data, if it can be read at all. */
  ghost predicate Hidden(h: Host, key: Value, nesting: nat)
    requires h.Lawful(nesting)
  {
    forall l: Ledger :: SanitizeKey(h, key, l, nesting).Done? ==> SanitizeKey(h, key, l, nesting).value.sensitive
  }

  /** Names that are too long to examine, and names of sensitive data as they are written, whatever is shown of them. */
  lemma SensitiveNamesAreHidden(h: Host, name: string, nesting: nat)
    requires h.Lawful(nesting) && (|name| > MAX_STRING_LENGTH || h.sensitive(name))
    ensures Hidden(h, Text(name), nesting)
  {
    hide Quote;
  }

  /** Names of which every rendering, whole or cut, is a name of sensitive data. */
  lemma SensitiveRenderingsAreHidden(h: Host, name: string, nesting: nat)
    requires h.Lawful(nesting)
    requires forall l: Ledger, nodes, scan ::
      var s := h.scrub(name, scan, nodes, nesting);
      s.Clean? ==> h.sensitive(Emit(Take(s.text, MAX_KEY_LENGTH), l, nesting).0)
    ensures Hidden(h, Text(name), nesting)
  {
    hide Emit;
  }

  /** Under such a name nothing but a mask is shown, also where it is shown as something else. */
  lemma HiddenValuesAreMasked(h: Host, key: Value, item: Value, w: Walk, depth: nat, l: Ledger, nesting: nat)
    requires h.Lawful(nesting) && Hidden(h, key, nesting)
    ensures var o := SanitizeEntry(h, key, item, w, depth, l, nesting);
      o.Done? ==> o.value.value in {Str(REDACTED), Str(TRUNCATED)}
  {
    hide Sanitize, SanitizeKey, Content;
  }

  // ---------------------------------------------------------------- graphs that differ only there

  /** An object the value refers to is one of those compared. */
  predicate Seen(v: Value, visible: iset<Id>) {
    v.Ref? ==> v.id in visible
  }

  /**
   * The same keys in the same order, and the same values, except under names of sensitive data that are none of
   * `given`; the marker of an earlier pass is no name.
   */
  ghost predicate SamePairs(h: Host, p: seq<(Value, Value)>, q: seq<(Value, Value)>, given: set<string>,
                            visible: iset<Id>, nesting: nat)
    requires h.Lawful(nesting)
  {
    && |p| == |q|
    && forall i :: 0 <= i < |p| ==>
         && p[i].0 == q[i].0
         && ((p[i].1 == q[i].1 && Seen(p[i].1, visible))
             || (Hidden(h, p[i].0, nesting) && p[i].0 != Text(TRUNCATED) && !(p[i].0.Text? && p[i].0.text in given)))
  }

  ghost predicate Twins(h: Host, a: Object, b: Object, visible: iset<Id>, nesting: nat)
    requires h.Lawful(nesting)
  {
    match a
    case Mapping(size, pairs, ends) =>
      b.Mapping? && b.size == size && b.ends == ends && SamePairs(h, pairs, b.pairs, {}, visible, nesting)
    case Sequence(_, items, _, _) => a == b && forall v :: v in items ==> Seen(v, visible)
    case Member(stored) => a == b && Seen(stored, visible)
  }

  /** The objects `visible` are the same in both graphs, but for what stands under names of sensitive data. */
  ghost predicate Alike(h: Host, other: Host, visible: iset<Id>, nesting: nat) {
    && h.Lawful(nesting) && other == h.(objects := other.objects)
    && forall id :: id in visible ==> Twins(h, h.objects(id), other.objects(id), visible, nesting)
  }

  lemma AlikeAt(h: Host, other: Host, visible: iset<Id>, nesting: nat, id: Id)
    requires Alike(h, other, visible, nesting) && id in visible
    ensures h.Lawful(nesting) && other.Lawful(nesting)
    ensures Twins(h, h.objects(id), other.objects(id), visible, nesting)
  {
  }

  lemma AlikeIsLawful(h: Host, other: Host, visible: iset<Id>, nesting: nat)
    requires Alike(h, other, visible, nesting)
    ensures h.Lawful(nesting) && other.Lawful(nesting) && other == h.(objects := other.objects)
  {
  }

  // ---------------------------------------------------------------- assembled texts

  lemma {:induction false} CollectedAlike(h: Host, other: Host, visible: iset<Id>, nesting: nat, v: Value, depth: nat,
                                          room: Assembly.Room)
    requires Alike(h, other, visible, nesting) && Seen(v, visible)
    ensures Assembly.Collected(h.objects, v, depth, room) == Assembly.Collected(other.objects, v, depth, room)
    decreases Max(room.values, 0), 0, 0
  {
    hide Alike;
    if room.chars > 0 && room.values > 0 && v.Ref? {
      AlikeAt(h, other, visible, nesting, v.id);
      var o := h.objects(v.id);
      if o.Sequence? {
        var spent := room.(values := room.values - 1);
        CollectedItemsAlike(h, other, visible, nesting, o.items, 0, o.ends, depth + 1, spent);
      }
    }
  }

  lemma {:induction false} CollectedItemsAlike(h: Host, other: Host, visible: iset<Id>, nesting: nat, items: seq<Value>,
                                               i: nat, ends: Ending, depth: nat, room: Assembly.Room)
    requires Alike(h, other, visible, nesting) && i <= |items| && forall v :: v in items ==> Seen(v, visible)
    ensures Assembly.CollectedItems(h.objects, items, i, ends, depth, room)
         == Assembly.CollectedItems(other.objects, items, i, ends, depth, room)
    decreases Max(room.values, 0), 1, |items| - i
  {
    hide Alike;
    if i < MAX_ITEMS && i < |items| {
      CollectedAlike(h, other, visible, nesting, items[i], depth, room);
      match Assembly.Collected(h.objects, items[i], depth, room) {
        case None =>
        case Some(left) => CollectedItemsAlike(h, other, visible, nesting, items, i + 1, ends, depth, left);
      }
    }
  }

  lemma AssembledAlike(h: Host, other: Host, visible: iset<Id>, nesting: nat, v: Value)
    requires Alike(h, other, visible, nesting) && Seen(v, visible)
    ensures Assembly.AssembledText(h.objects, v) == Assembly.AssembledText(other.objects, v)
  {
    hide Alike, Assembly.Collected;
    CollectedAlike(h, other, visible, nesting, v, 0, Assembly.FULL_ROOM);
  }

  // ---------------------------------------------------------------- the sanitiser

  lemma {:induction false} SanitizeAlike(h: Host, other: Host, visible: iset<Id>, v: Value, depth: nat, l: Ledger,
                                         nesting: nat)
    requires Alike(h, other, visible, nesting) && Seen(v, visible)
    ensures h.Lawful(nesting) && other.Lawful(nesting)
    ensures Sanitize(h, v, depth, l, nesting) == Sanitize(other, v, depth, l, nesting)
    decreases Pos(l.nodes), 0, 0
  {
    hide Alike, Quote, SanitizeContainer, Twins;
    AlikeIsLawful(h, other, visible, nesting);
    if !l.Exhausted() && v.Ref? {
      var paid := l.(nodes := l.nodes - 1);
      AlikeAt(h, other, visible, nesting, v.id);
      TwinsAreOfAKind(h, h.objects(v.id), other.objects(v.id), visible, nesting);
      match h.objects(v.id) {
        case Member(stored) => SanitizeAlike(h, other, visible, stored, depth, paid, nesting);
        case _ => ContainerAlike(h, other, visible, v.id, depth, paid, nesting);
      }
    }
  }

  lemma TwinsAreOfAKind(h: Host, a: Object, b: Object, visible: iset<Id>, nesting: nat)
    requires h.Lawful(nesting) && Twins(h, a, b, visible, nesting)
    ensures a.Member? == b.Member? && a.Mapping? == b.Mapping?
    ensures a.Member? ==> a == b && Seen(a.stored, visible)
    ensures !a.Member? ==> a.size == b.size
  {
    hide SamePairs;
  }

  lemma {:induction false} ContainerAlike(h: Host, other: Host, visible: iset<Id>, id: Id, depth: nat, l: Ledger,
                                          nesting: nat)
    requires Alike(h, other, visible, nesting) && id in visible
    ensures h.Lawful(nesting) && other.Lawful(nesting) && h.objects(id).Member? == other.objects(id).Member?
    ensures !h.objects(id).Member? ==>
      SanitizeContainer(h, id, depth, l, nesting) == SanitizeContainer(other, id, depth, l, nesting)
    decreases Pos(l.nodes), 2, 1
  {
    hide Alike, Twins, SanitizeContent;
    AlikeAt(h, other, visible, nesting, id);
    TwinsAreOfAKind(h, h.objects(id), other.objects(id), visible, nesting);
    if !h.objects(id).Member? && h.objects(id).size.Some? {
      var entered := Enter(Charge(SEPARATOR_COST, l, nesting).1, id);
      ContentAlike(h, other, visible, id, depth, entered, nesting);
    }
  }

  lemma {:induction false} ContentAlike(h: Host, other: Host, visible: iset<Id>, id: Id, depth: nat, l: Ledger,
                                        nesting: nat)
    requires Alike(h, other, visible, nesting) && id in visible
    requires !h.objects(id).Member? && h.objects(id).size.Some?
    ensures h.Lawful(nesting) && other.Lawful(nesting) && !other.objects(id).Member? && other.objects(id).size.Some?
    ensures SanitizeContent(h, id, depth, l, nesting) == SanitizeContent(other, id, depth, l, nesting)
    decreases Pos(l.nodes), 2, 0
  {
    hide Alike, SamePairs, SanitizeEntries, SanitizeSequence, Sort;
    AlikeAt(h, other, visible, nesting, id);
    AlikeIsLawful(h, other, visible, nesting);
    match h.objects(id) {
      case Mapping(size, pairs, ends) =>
        var w := Walk(MAX_ITEMS, {}, Decimal(size.value - MAX_ITEMS) + " more entries", {});
        EntriesAlike(h, other, visible, {}, pairs, other.objects(id).pairs, 0, 0, ends, w, depth, l, nesting, []);
      case Sequence(size, items, ends, unordered) =>
        SequenceAlike(h, other, visible, items, 0, ends, size.value, depth, l, nesting, []);
    }
  }

  /** The entry: the value under a hidden name is not looked at. */
  lemma {:induction false} EntryAlike(h: Host, other: Host, visible: iset<Id>, key: Value, item: Value, twin: Value,
                                      w: Walk, depth: nat, l: Ledger, nesting: nat)
    requires Alike(h, other, visible, nesting)
    requires h.Lawful(nesting) && ((item == twin && Seen(item, visible)) || Hidden(h, key, nesting))
    ensures other.Lawful(nesting)
    ensures SanitizeEntry(h, key, item, w, depth, l, nesting) == SanitizeEntry(other, key, twin, w, depth, l, nesting)
    decreases Pos(l.nodes), 0, 1
  {
    hide Alike, Sanitize, SanitizeKey, Content, Assembly.AssembledText;
    AlikeIsLawful(h, other, visible, nesting);
    KeyAlike(h, other, key, l, nesting);
    if !Hidden(h, key, nesting) {
      ContentIsAlike(h, other, visible, nesting, key, item, w);
      var named := SanitizeKey(h, key, l, nesting).left;
      SanitizeAlike(h, other, visible, Content(h, key, item, w), depth + 1, named, nesting);
    }
  }

  lemma KeyAlike(h: Host, other: Host, key: Value, l: Ledger, nesting: nat)
    requires h.Lawful(nesting) && other.Lawful(nesting) && other == h.(objects := other.objects)
    ensures SanitizeKey(h, key, l, nesting) == SanitizeKey(other, key, l, nesting)
  {
    hide Quote;
  }

  lemma ContentIsAlike(h: Host, other: Host, visible: iset<Id>, nesting: nat, key: Value, item: Value, w: Walk)
    requires Alike(h, other, visible, nesting) && Seen(item, visible)
    ensures Content(h, key, item, w) == Content(other, key, item, w) && Seen(Content(h, key, item, w), visible)
  {
    hide Alike, Assembly.AssembledText;
    AssembledAlike(h, other, visible, nesting, item);
  }

  lemma {:induction false} EntriesAlike(h: Host, other: Host, visible: iset<Id>, given: set<string>,
                                        p: seq<(Value, Value)>, q: seq<(Value, Value)>, i: nat, admitted: nat,
                                        ends: Ending, w: Walk, depth: nat, l: Ledger, nesting: nat, result: seq<Entry>)
    requires Alike(h, other, visible, nesting) && i <= |p|
    requires h.Lawful(nesting) && SamePairs(h, p, q, given, visible, nesting)
    ensures other.Lawful(nesting) && |p| == |q|
    ensures SanitizeEntries(h, p, i, admitted, ends, w, depth, l, nesting, result)
         == SanitizeEntries(other, q, i, admitted, ends, w, depth, l, nesting, result)
    decreases Pos(l.nodes), 1, |p| - i
  {
    hide Alike, Sanitize, SanitizeEntry, Put, Hidden;
    AlikeIsLawful(h, other, visible, nesting);
    if i < w.limit + |w.skip| + 1 && i < |p| {
      var key := p[i].0;
      assert q[i].0 == key;
      if NamedIn(key, w.skip) {
        EntriesAlike(h, other, visible, given, p, q, i + 1, admitted, ends, w, depth, l, nesting, result);
      } else if admitted >= w.limit {
        if key == Text(TRUNCATED) { SanitizeAlike(h, other, visible, p[i].1, depth + 1, l, nesting); }
      } else if !l.Exhausted() {
        EntryAlike(h, other, visible, key, p[i].1, q[i].1, w, depth, l, nesting);
        match SanitizeEntry(h, key, p[i].1, w, depth, l, nesting) {
          case Raised(_) =>
          case Done(e, left) =>
            EntriesAlike(h, other, visible, given, p, q, i + 1, admitted + 1, ends, w, depth, left, nesting,
                         Put(result, e.key, e.value));
        }
      }
    }
  }

  lemma {:induction false} SequenceAlike(h: Host, other: Host, visible: iset<Id>, items: seq<Value>, i: nat,
                                         ends: Ending, size: Length, depth: nat, l: Ledger, nesting: nat,
                                         result: seq<Json>)
    requires Alike(h, other, visible, nesting) && i <= |items| && forall v :: v in items ==> Seen(v, visible)
    ensures h.Lawful(nesting) && other.Lawful(nesting)
    ensures SanitizeSequence(h, items, i, ends, size, depth, l, nesting, result)
         == SanitizeSequence(other, items, i, ends, size, depth, l, nesting, result)
    decreases Pos(l.nodes), 1, |items| - i
  {
    hide Alike, Sanitize;
    AlikeIsLawful(h, other, visible, nesting);
    if i < |items| {
      SanitizeAlike(h, other, visible, items[i], depth + 1, l, nesting);
      match Sanitize(h, items[i], depth + 1, l, nesting) {
        case Raised(_) =>
        case Done(j, left) =>
          if i < MAX_ITEMS && !l.Exhausted() {
            SequenceAlike(h, other, visible, items, i + 1, ends, size, depth, left, nesting, result + [j]);
          }
      }
    }
  }

  /**
   * The secrecy property: of two graphs that differ only in what stands under names of sensitive data, whatever is
   * reachable there and however such a name is shown, `sanitize` returns the same and leaves the same budget.
   */
  lemma SensitiveValuesAreNotRead(h: Host, other: Host, visible: iset<Id>, v: Value)
    requires Alike(h, other, visible, 0) && Seen(v, visible)
    ensures h.Lawful(0) && other.Lawful(0)
    ensures Sanitize(h, v, 0, FRESH, 0) == Sanitize(other, v, 0, FRESH, 0)
    ensures Sanitizer.Sanitized(h, v) == Sanitizer.Sanitized(other, v)
  {
    hide Alike, Sanitize;
    SanitizeAlike(h, other, visible, v, 0, FRESH, 0);
  }

  // ---------------------------------------------------------------- events

  lemma {:induction false} LookupAlike(h: Host, p: seq<(Value, Value)>, q: seq<(Value, Value)>, given: set<string>,
                                       visible: iset<Id>, name: string)
    requires h.Lawful(0) && SamePairs(h, p, q, given, visible, 0) && name in given
    ensures Lookup(p, name) == Lookup(q, name)
    ensures Lookup(p, name).Some? ==> Seen(Lookup(p, name).value, visible)
    decreases |p|
  {
    hide Hidden;
    if p != [] && p[0].0 != Text(name) {
      assert SamePairs(h, p[1..], q[1..], given, visible, 0);
      LookupAlike(h, p[1..], q[1..], given, visible, name);
    }
  }

  lemma {:induction false} LeadingAlike(h: Host, other: Host, visible: iset<Id>, given: set<string>,
                                        p: seq<(Value, Value)>, q: seq<(Value, Value)>, leading: seq<string>,
                                        assembled: set<string>, l: Ledger, result: seq<Entry>)
    requires Alike(h, other, visible, 0) && h.Lawful(0) && SamePairs(h, p, q, given, visible, 0)
    requires forall k :: k in leading ==> k in given
    ensures other.Lawful(0)
    ensures SanitizeLeading(h, p, leading, assembled, l, result)
         == SanitizeLeading(other, q, leading, assembled, l, result)
    decreases |leading|
  {
    hide Alike, Sanitize, SamePairs, Put, Lookup, Assembly.AssembledText;
    AlikeIsLawful(h, other, visible, 0);
    if leading != [] {
      assert leading[0] in leading && forall k :: k in leading[1..] ==> k in leading;
      LookupAlike(h, p, q, given, visible, leading[0]);
      match Lookup(p, leading[0]) {
        case None => LeadingAlike(h, other, visible, given, p, q, leading[1..], assembled, l, result);
        case Some(item) =>
          AssembledAlike(h, other, visible, 0, item);
          var content := if leading[0] in assembled then Text(Assembly.AssembledText(h.objects, item)) else item;
          SanitizeAlike(h, other, visible, content, 1, l, 0);
          match Sanitize(h, content, 1, l, 0) {
            case Raised(_) =>
            case Done(j, left) =>
              LeadingAlike(h, other, visible, given, p, q, leading[1..], assembled, left, Put(result, leading[0], j));
          }
      }
    }
  }

  /** The same for the fields of an event, whose leading fields are shown whatever their names. */
  lemma SensitiveFieldsAreNotRead(h: Host, other: Host, visible: iset<Id>, p: seq<(Value, Value)>,
                                  q: seq<(Value, Value)>, ends: Ending, skip: set<string>, leading: seq<string>,
                                  assembled: set<string>)
    requires Alike(h, other, visible, 0) && h.Lawful(0) && SamePairs(h, p, q, (set k | k in leading), visible, 0)
    ensures other.Lawful(0)
    ensures SanitizeEvent(h, p, ends, skip, leading, assembled, FRESH)
         == SanitizeEvent(other, q, ends, skip, leading, assembled, FRESH)
  {
    hide Alike, SamePairs, SanitizeLeading, SanitizeEntries;
    AlikeIsLawful(h, other, visible, 0);
    var given := set k | k in leading;
    LeadingAlike(h, other, visible, given, p, q, leading, assembled, FRESH, []);
    match SanitizeLeading(h, p, leading, assembled, FRESH, []) {
      case Raised(_) =>
      case Done(result, left) =>
        var w := Walk(MAX_EVENT_FIELDS, skip + given, FIELDS_NOTE, assembled);
        EntriesAlike(h, other, visible, given, p, q, 0, 0, ends, w, 0, left, 0, result);
    }
  }
}
