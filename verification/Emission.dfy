/** What the sanitiser can emit: the shape of its results, and where every string in them comes from. */
module Emission {
  import opened Text
  import opened Json
  import opened Values
  import opened Ledgers
  import opened Sanitizing
  import Assembly
  import Sanitizer

  // ---------------------------------------------------------------- what there is to show

  /** The values of an object graph, and the texts among them. */
  datatype Graph = Graph(values: iset<Value>, texts: iset<string>)

  /** The object holds the value, as a key or under one, as an item or as what it stands for. */
  ghost predicate Contains(o: Object, v: Value) {
    match o
    case Mapping(_, pairs, _) => exists i :: 0 <= i < |pairs| && (pairs[i].0 == v || pairs[i].1 == v)
    case Sequence(_, items, _, _) => v in items
    case Member(stored) => stored == v
  }

  ghost predicate Step(h: Host, a: Value, b: Value) {
    a.Ref? && Contains(h.objects(a.id), b)
  }

  ghost predicate Path(h: Host, path: seq<Value>) {
    path != [] && forall i :: 0 <= i < |path| - 1 ==> Step(h, path[i], path[i + 1])
  }

  /** `v` is `root`, or is held by an object that can be reached from it. */
  ghost predicate Occurs(h: Host, root: Value, v: Value) {
    exists path :: Path(h, path) && path[0] == root && path[|path| - 1] == v
  }

  /** The graph below one value. */
  ghost function GraphOf(h: Host, root: Value): Graph {
    Graph(iset v: Value | Occurs(h, root, v), iset t: string | Occurs(h, root, Text(t)))
  }

  ghost predicate OccursInEvent(h: Host, pairs: seq<(Value, Value)>, v: Value) {
    exists i :: 0 <= i < |pairs| && (Occurs(h, pairs[i].0, v) || Occurs(h, pairs[i].1, v))
  }

  /** A text of an event: one of its graph, or what some value of it is assembled into. */
  ghost predicate IsEventText(h: Host, pairs: seq<(Value, Value)>, t: string) {
    || OccursInEvent(h, pairs, Text(t))
    || exists v :: OccursInEvent(h, pairs, v) && t == Assembly.AssembledText(h.objects, v)
  }

  /** The graph below the keys and values of an event. */
  ghost function GraphOfEvent(h: Host, pairs: seq<(Value, Value)>): Graph {
    Graph(iset v: Value | OccursInEvent(h, pairs, v), iset t: string | IsEventText(h, pairs, t))
  }

  /** Whatever an object of the graph holds is in the graph. */
  ghost predicate Closed(h: Host, g: Graph) {
    && (forall t :: Text(t) in g.values ==> t in g.texts)
    && (forall a, b :: a in g.values && Step(h, a, b) ==> b in g.values)
  }

  /** What is assembled from values of the graph is among its texts, if anything is assembled. */
  ghost predicate Assembles(h: Host, g: Graph, assembled: set<string>) {
    assembled == {} || forall v :: v in g.values ==> Assembly.AssembledText(h.objects, v) in g.texts
  }

  lemma OccursFurther(h: Host, root: Value, a: Value, b: Value)
    requires Occurs(h, root, a) && Step(h, a, b)
    ensures Occurs(h, root, b)
  {
    hide Step;
    var path :| Path(h, path) && path[0] == root && path[|path| - 1] == a;
    var longer := path + [b];
    assert Path(h, longer) && longer[0] == root && longer[|longer| - 1] == b;
  }

  lemma OccursAtRoot(h: Host, root: Value)
    ensures Occurs(h, root, root)
  {
    assert Path(h, [root]) && [root][0] == root;
  }

  lemma GraphIsClosed(h: Host, root: Value)
    ensures Closed(h, GraphOf(h, root)) && root in GraphOf(h, root).values
  {
    hide Occurs, Step;
    OccursAtRoot(h, root);
    forall a, b | Occurs(h, root, a) && Step(h, a, b) ensures Occurs(h, root, b) {
      OccursFurther(h, root, a, b);
    }
  }

  /** What is sanitised: a value of the graph, or one of its texts. */
  ghost predicate Offers(g: Graph, v: Value) {
    if v.Text? then v.text in g.texts else v in g.values
  }

  /** The graph an attempt works on is closed, and `v` is part of it. */
  ghost predicate Within(h: Host, g: Graph, v: Value, nesting: nat) {
    h.Lawful(nesting) && Closed(h, g) && Offers(g, v)
  }

  ghost predicate HoldsPairs(g: Graph, pairs: seq<(Value, Value)>) {
    forall i :: 0 <= i < |pairs| ==> pairs[i].0 in g.values && pairs[i].1 in g.values
  }

  lemma EventGraphIsClosed(h: Host, pairs: seq<(Value, Value)>, assembled: set<string>)
    ensures var g := GraphOfEvent(h, pairs);
      Closed(h, g) && Assembles(h, g, assembled) && HoldsPairs(g, pairs)
  {
    hide Occurs, Step;
    forall i | 0 <= i < |pairs| ensures OccursInEvent(h, pairs, pairs[i].0) && OccursInEvent(h, pairs, pairs[i].1) {
      OccursAtRoot(h, pairs[i].0);
      OccursAtRoot(h, pairs[i].1);
    }
    forall a, b | OccursInEvent(h, pairs, a) && Step(h, a, b) ensures OccursInEvent(h, pairs, b) {
      var i :| 0 <= i < |pairs| && (Occurs(h, pairs[i].0, a) || Occurs(h, pairs[i].1, a));
      if Occurs(h, pairs[i].0, a) { OccursFurther(h, pairs[i].0, a, b); } else { OccursFurther(h, pairs[i].1, a, b); }
    }
  }

  lemma PairsOf(h: Host, g: Graph, id: Id)
    requires Closed(h, g) && Ref(id) in g.values && h.objects(id).Mapping?
    ensures HoldsPairs(g, h.objects(id).pairs)
  {
    var pairs := h.objects(id).pairs;
    forall i | 0 <= i < |pairs| ensures pairs[i].0 in g.values && pairs[i].1 in g.values {
      assert Step(h, Ref(id), pairs[i].0) && Step(h, Ref(id), pairs[i].1);
    }
  }

  lemma ItemsOf(h: Host, g: Graph, id: Id)
    requires Closed(h, g) && Ref(id) in g.values && h.objects(id).Sequence?
    ensures forall v :: v in h.objects(id).items ==> v in g.values
  {
    forall v | v in h.objects(id).items ensures v in g.values {
      assert Step(h, Ref(id), v);
    }
  }

  // ---------------------------------------------------------------- strings

  /** What the scrubber returned for a text of the graph, or the description of an exception in it. */
  ghost predicate FromScrubber(h: Host, g: Graph, s: string) {
    || (exists text, scan, nodes, nesting ::
          && text in g.texts
          && h.scrub(text, scan, nodes, nesting).Clean? && h.scrub(text, scan, nodes, nesting).text == s)
    || (exists id, scan, nodes ::
          Failure(id) in g.values && h.describe(id, scan, nodes).Clean? && h.describe(id, scan, nodes).text == s)
  }

  /** Scrubbed text, whole or cut, with or without the marker that says it was cut. */
  ghost predicate ShownText(h: Host, g: Graph, s: string) {
    exists whole, keep: nat :: FromScrubber(h, g, whole)
      && (s == Take(whole, keep) || s == Take(whole, keep) + " " + TRUNCATED)
  }

  /** The rendering of a value that is not text by one of the sanitiser's own renderers. */
  predicate Rendered(v: Value, s: string) {
    !v.Text? && (s == PlainKey(v) || (v.Fixed? && s == v.plain))
  }

  predicate CountNote(n: int, s: string) {
    s == Decimal(n) + " more entries" || s == TRUNCATED + " " + Decimal(n) + " more items"
  }

  /** How much a container of the graph holds beyond the limit. */
  ghost predicate IsExcess(h: Host, g: Graph, n: int) {
    exists id :: Ref(id) in g.values && !h.objects(id).Member?
      && h.objects(id).size.Some? && n == h.objects(id).size.value - MAX_ITEMS
  }

  const MARKERS := {REDACTED, TRUNCATED, CYCLE, REPEATED, UNREADABLE, UNSUPPORTED, BUDGET_NOTE, FIELDS_NOTE}

  /** A marker, the rendering of a value of the graph, how much of a container was left out, or scrubbed text. */
  ghost predicate Safe(h: Host, g: Graph, s: string) {
    || s in MARKERS
    || (exists v :: v in g.values && Rendered(v, s))
    || (exists n :: IsExcess(h, g, n) && CountNote(n, s))
    || ShownText(h, g, s)
  }

  // ---------------------------------------------------------------- trees

  /** A tree of the graph's own scalars and of safe strings, within the limits of depth and width. */
  ghost predicate Emitted(h: Host, g: Graph, j: Json, depth: nat)
    decreases j
  {
    match j
    case Null => true
    case Flag(b) => Truth(b) in g.values
    case Whole(n) => exists small: SmallInt :: small == n && Small(small) in g.values
    case Real(f) => Fraction(f) in g.values
    case Str(s) => Safe(h, g, s)
    case List(items) =>
      && depth < MAX_DEPTH && |items| <= MAX_ITEMS + 1
      && forall i :: 0 <= i < |items| ==> Emitted(h, g, items[i], depth + 1)
    case Dict(entries) =>
      && depth < MAX_DEPTH && |entries| <= MAX_ITEMS + 1
      && (|entries| == MAX_ITEMS + 1 ==> entries[MAX_ITEMS].key == TRUNCATED)
      && EmittedEntries(h, g, entries, depth, {})
  }

  /** Distinct keys, each one of the names `given` or safe and with a mask where it has to be. */
  ghost predicate EmittedEntries(h: Host, g: Graph, entries: seq<Entry>, depth: nat, given: set<string>)
    decreases entries
  {
    && DistinctKeys(entries)
    && forall i :: 0 <= i < |entries| ==>
         && (entries[i].key in given || (Safe(h, g, entries[i].key) && Masked(h, g, entries[i].key, entries[i].value)))
         && Emitted(h, g, entries[i].value, depth + 1)
  }

  /** The name of a key of the graph that is not text: a number, `None`, `True`, `False` or a marker. */
  ghost predicate NotAName(g: Graph, key: string) {
    exists v: Value :: v in g.values && !v.Text? && PlainKey(v) == key
  }

  /** The value under a name of sensitive data is never shown. */
  ghost predicate Masked(h: Host, g: Graph, key: string, value: Json) {
    h.sensitive(key) && key != TRUNCATED && !NotAName(g, key) ==> value in {Str(REDACTED), Str(TRUNCATED)}
  }

  ghost predicate EmittedItems(h: Host, g: Graph, items: seq<Json>, depth: nat) {
    forall i :: 0 <= i < |items| ==> Emitted(h, g, items[i], depth + 1)
  }

  lemma StringIsEmitted(h: Host, g: Graph, s: string, depth: nat)
    requires Safe(h, g, s)
    ensures Emitted(h, g, Str(s), depth)
  {
  }

  lemma ValueIsOffered(h: Host, g: Graph, v: Value, nesting: nat)
    requires h.Lawful(nesting) && Closed(h, g) && v in g.values
    ensures Within(h, g, v, nesting)
  {
  }

  lemma MarkerIsEmitted(h: Host, g: Graph, s: string, depth: nat)
    requires s in MARKERS
    ensures Safe(h, g, s) && Emitted(h, g, Str(s), depth)
  {
  }

  lemma RenderedIsEmitted(h: Host, g: Graph, v: Value, s: string, depth: nat)
    requires v in g.values && Rendered(v, s)
    ensures Safe(h, g, s) && Emitted(h, g, Str(s), depth)
  {
  }

  lemma NoteIsEmitted(h: Host, g: Graph, n: int, s: string, depth: nat)
    requires IsExcess(h, g, n) && CountNote(n, s)
    ensures Safe(h, g, s) && Emitted(h, g, Str(s), depth)
  {
  }

  /** Cutting scrubbed text and charging it leaves scrubbed text, or a marker. */
  lemma EmitIsScrubbed(h: Host, g: Graph, whole: string, limit: nat, l: Ledger, nesting: nat)
    requires FromScrubber(h, g, whole)
    ensures Safe(h, g, Emit(Take(whole, limit), l, nesting).0)
  {
    hide FromScrubber, Quote;
    var text := Take(whole, limit);
    var keep := Max(0, l.output - |TRUNCATED| - 5) / (if IsAscii(text) then 6 else 12);
    assert Take(text, keep) == Take(whole, Min(limit, keep));
    assert Emit(text, l, nesting).0 in {text, Take(whole, Min(limit, keep)) + " " + TRUNCATED, TRUNCATED};
  }

  /** Assigning a safe entry keeps a dict safe. */
  lemma PutEmitted(h: Host, g: Graph, entries: seq<Entry>, key: string, value: Json, depth: nat, given: set<string>)
    requires EmittedEntries(h, g, entries, depth, given) && Emitted(h, g, value, depth + 1)
    requires key in given || (Safe(h, g, key) && Masked(h, g, key, value))
    ensures EmittedEntries(h, g, Put(entries, key, value), depth, given)
  {
    hide Safe, Emitted, Put;
    PutKeys(entries, key, value);
  }

  lemma EmittedSnoc(h: Host, g: Graph, items: seq<Json>, j: Json, depth: nat)
    requires EmittedItems(h, g, items, depth) && Emitted(h, g, j, depth + 1)
    ensures EmittedItems(h, g, items + [j], depth)
  {
    hide Emitted;
  }

  lemma SortEmitted(h: Host, g: Graph, items: seq<Json>, depth: nat)
    requires EmittedItems(h, g, items, depth)
    ensures EmittedItems(h, g, Sort(items, h.before), depth)
  {
    hide Safe, Emitted, Sort;
    var sorted := Sort(items, h.before);
    forall i | 0 <= i < |sorted| ensures Emitted(h, g, sorted[i], depth + 1) {
      assert sorted[i] in items;
    }
  }

  // ---------------------------------------------------------------- the sanitiser

  lemma ScalarEmitted(h: Host, g: Graph, v: Value, depth: nat, l: Ledger, nesting: nat)
    requires Within(h, g, v, nesting) && !v.Ref? && l.nodes >= 0
    ensures var o := SanitizeVisited(h, v, depth, l, nesting);
      o.Done? ==> Emitted(h, g, o.value, depth)
  {
    hide Safe, Quote;
    MarkerIsEmitted(h, g, TRUNCATED, depth);
    match v {
      case Text(text) => DescribedEmitted(h, g, h.scrub(text, l.scan, l.nodes, nesting), depth, l, nesting);
      case Failure(id) => DescribedEmitted(h, g, h.describe(id, l.scan, l.nodes), depth, l, nesting);
      case Big(bits) => RenderedIsEmitted(h, g, v, BigText(bits), depth);
      case Fixed(plain) => RenderedIsEmitted(h, g, v, plain, depth);
      case Secret => MarkerIsEmitted(h, g, REDACTED, depth);
      case Other => MarkerIsEmitted(h, g, UNSUPPORTED, depth);
      case _ =>
    }
  }

  lemma DescribedEmitted(h: Host, g: Graph, s: Scrubbed, depth: nat, l: Ledger, nesting: nat)
    requires s.Clean? ==> FromScrubber(h, g, s.text)
    ensures var o := Described(s, l, nesting);
      o.Done? ==> Emitted(h, g, o.value, depth)
  {
    hide Safe, Quote, FromScrubber;
    if s.Clean? {
      assert Take(s.text, |s.text|) == s.text;
      EmitIsScrubbed(h, g, s.text, |s.text|, l.(scan := s.scan, nodes := s.nodes), nesting);
    }
  }

  /** Whatever the graph, the result is a bounded tree of built-in values, and every string in it is safe. */
  lemma {:induction false} SanitizeEmitted(h: Host, g: Graph, v: Value, depth: nat, l: Ledger, nesting: nat)
    requires Within(h, g, v, nesting)
    ensures var o := Sanitize(h, v, depth, l, nesting);
      o.Done? ==> Emitted(h, g, o.value, depth)
    decreases Pos(l.nodes), 0, 0
  {
    hide Safe, Quote, SanitizeContainer, Emitted;
    if l.Exhausted() {
      MarkerIsEmitted(h, g, TRUNCATED, depth);
    } else {
      var paid := l.(nodes := l.nodes - 1);
      if v.Ref? {
        match h.objects(v.id) {
          case Member(stored) =>
            assert Step(h, v, stored);
            SanitizeEmitted(h, g, stored, depth, paid, nesting);
          case _ => ContainerEmitted(h, g, v.id, depth, paid, nesting);
        }
      } else {
        ScalarEmitted(h, g, v, depth, paid, nesting);
      }
    }
  }

  lemma {:induction false} ContainerEmitted(h: Host, g: Graph, id: Id, depth: nat, l: Ledger, nesting: nat)
    requires Within(h, g, Ref(id), nesting) && !h.objects(id).Member?
    ensures Emitted(h, g, SanitizeContainer(h, id, depth, l, nesting).value, depth)
    decreases Pos(l.nodes), 2, 1
  {
    hide Safe, SanitizeContent;
    MarkerIsEmitted(h, g, CYCLE, depth);
    MarkerIsEmitted(h, g, TRUNCATED, depth);
    MarkerIsEmitted(h, g, UNREADABLE, depth);
    MarkerIsEmitted(h, g, REPEATED, depth);
    if depth < MAX_DEPTH && h.objects(id).size.Some? {
      ContentEmitted(h, g, id, depth, Enter(Charge(SEPARATOR_COST, l, nesting).1, id), nesting);
    }
  }

  lemma {:induction false} ContentEmitted(h: Host, g: Graph, id: Id, depth: nat, l: Ledger, nesting: nat)
    requires Within(h, g, Ref(id), nesting) && !h.objects(id).Member? && h.objects(id).size.Some? && depth < MAX_DEPTH
    ensures var o := SanitizeContent(h, id, depth, l, nesting);
      o.Done? ==> Emitted(h, g, o.value, depth)
    decreases Pos(l.nodes), 2, 0
  {
    hide Safe, SanitizeEntries, SanitizeSequence, EmittedEntries, EmittedItems, Ordered, Sort;
    match h.objects(id) {
      case Mapping(size, pairs, ends) =>
        var note := Decimal(size.value - MAX_ITEMS) + " more entries";
        assert IsExcess(h, g, size.value - MAX_ITEMS);
        NoteIsEmitted(h, g, size.value - MAX_ITEMS, note, depth);
        PairsOf(h, g, id);
        EmptyEntries(h, g, depth, {});
        EntriesEmitted(h, g, pairs, 0, 0, ends, Walk(MAX_ITEMS, {}, note, {}), depth, l, nesting, [], 0, {});
      case Sequence(size, items, ends, unordered) =>
        NoItems(h, g, depth);
        assert IsExcess(h, g, size.value - MAX_ITEMS);
        ItemsOf(h, g, id);
        SequenceEmitted(h, g, items, 0, ends, size.value, depth, l, nesting, []);
        OrderedEmitted(h, g, unordered, SanitizeSequence(h, items, 0, ends, size.value, depth, l, nesting, []), depth);
    }
  }

  lemma OrderedEmitted(h: Host, g: Graph, unordered: bool, o: Outcome<(seq<Json>, Option<string>)>, depth: nat)
    requires depth < MAX_DEPTH
    requires o.Done? ==>
      && EmittedItems(h, g, o.value.0, depth)
      && |o.value.0| + (if o.value.1.Some? then 1 else 0) <= MAX_ITEMS + 1
      && (o.value.1.Some? ==> Safe(h, g, o.value.1.value))
    ensures Ordered(h, unordered, o).Done? == o.Done?
    ensures o.Done? ==> Emitted(h, g, List(Ordered(h, unordered, o).value), depth)
  {
    hide Safe, Sort;
    if o.Done? { SortEmitted(h, g, o.value.0, depth); }
  }

  lemma NoItems(h: Host, g: Graph, depth: nat)
    ensures EmittedItems(h, g, [], depth)
  {
  }

  lemma EmptyEntries(h: Host, g: Graph, depth: nat, given: set<string>)
    ensures EmittedEntries(h, g, [], depth, given)
  {
  }

  /** The entries of a dict: safe, distinct, and one beyond the limit only as the marker. */
  lemma {:induction false} EntriesEmitted(h: Host, g: Graph, pairs: seq<(Value, Value)>, i: nat, admitted: nat,
                                          ends: Ending, w: Walk, depth: nat, l: Ledger, nesting: nat,
                                          result: seq<Entry>, base: nat, given: set<string>)
    requires h.Lawful(nesting) && Closed(h, g) && HoldsPairs(g, pairs) && Assembles(h, g, w.assembled)
    requires i <= |pairs| && Safe(h, g, w.note)
    requires EmittedEntries(h, g, result, depth, given) && |result| <= base + admitted && admitted <= w.limit
    ensures var o := SanitizeEntries(h, pairs, i, admitted, ends, w, depth, l, nesting, result);
      o.Done? ==>
        && EmittedEntries(h, g, o.value, depth, given) && |o.value| <= base + w.limit + 1
        && (|o.value| == base + w.limit + 1 ==> o.value[base + w.limit].key == TRUNCATED)
    decreases Pos(l.nodes), 1, |pairs| - i
  {
    hide Safe, Sanitize, SanitizeEntry, EmittedEntries, Closed, Assembles, Emitted, Put;
    StringIsEmitted(h, g, w.note, depth + 1);
    if i < w.limit + |w.skip| + 1 && i < |pairs| {
      var (key, item) := pairs[i];
      MarkerIsEmitted(h, g, TRUNCATED, depth);
      ValueIsOffered(h, g, key, nesting);
      ValueIsOffered(h, g, item, nesting);
      if NamedIn(key, w.skip) {
        EntriesEmitted(h, g, pairs, i + 1, admitted, ends, w, depth, l, nesting, result, base, given);
      } else if admitted >= w.limit {
        SanitizeEmitted(h, g, item, depth + 1, l, nesting);
        PutEmitted(h, g, result, TRUNCATED, Str(w.note), depth, given);
        match Sanitize(h, item, depth + 1, l, nesting) {
          case Raised(_) =>
          case Done(j, _) => PutEmitted(h, g, result, TRUNCATED, j, depth, given);
        }
      } else if l.Exhausted() {
        MarkerIsEmitted(h, g, BUDGET_NOTE, depth + 1);
        PutEmitted(h, g, result, TRUNCATED, Str(BUDGET_NOTE), depth, given);
      } else {
        EntryEmitted(h, g, key, item, w, depth, l, nesting);
        match SanitizeEntry(h, key, item, w, depth, l, nesting) {
          case Raised(_) =>
          case Done(e, left) =>
            PutEmitted(h, g, result, e.key, e.value, depth, given);
            EntriesEmitted(h, g, pairs, i + 1, admitted + 1, ends, w, depth, left, nesting,
                           Put(result, e.key, e.value), base, given);
        }
      }
    }
  }

  lemma {:induction false} EntryEmitted(h: Host, g: Graph, key: Value, item: Value, w: Walk, depth: nat, l: Ledger,
                                        nesting: nat)
    requires Within(h, g, key, nesting) && item in g.values && Assembles(h, g, w.assembled)
    ensures var o := SanitizeEntry(h, key, item, w, depth, l, nesting);
      o.Done? ==>
        Safe(h, g, o.value.key) && Masked(h, g, o.value.key, o.value.value) && Emitted(h, g, o.value.value, depth + 1)
    decreases Pos(l.nodes), 0, 1
  {
    hide Safe, Sanitize, SanitizeKey, Content;
    ContentIsOffered(h, g, key, item, w);
    KeyEmitted(h, g, key, l, nesting);
    MarkerIsEmitted(h, g, REDACTED, depth + 1);
    MarkerIsEmitted(h, g, TRUNCATED, depth + 1);
    SanitizeEmitted(h, g, Content(h, key, item, w), depth + 1, SanitizeKey(h, key, l, nesting).left, nesting);
  }

  lemma ContentIsOffered(h: Host, g: Graph, key: Value, item: Value, w: Walk)
    requires Closed(h, g) && item in g.values && Assembles(h, g, w.assembled)
    ensures Offers(g, Content(h, key, item, w))
  {
    hide Assembly.AssembledText;
  }

  lemma {:induction false} LookupIsOffered(h: Host, g: Graph, pairs: seq<(Value, Value)>, key: string,
                                           assembled: set<string>)
    requires Closed(h, g) && HoldsPairs(g, pairs) && Assembles(h, g, assembled)
    ensures match Lookup(pairs, key)
      case None => true
      case Some(item) =>
        Offers(g, item) && (key in assembled ==> Offers(g, Text(Assembly.AssembledText(h.objects, item))))
    decreases |pairs|
  {
    hide Assembly.AssembledText;
    if pairs != [] {
      assert pairs[0].1 in g.values;
      assert HoldsPairs(g, pairs[1..]);
      LookupIsOffered(h, g, pairs[1..], key, assembled);
    }
  }

  lemma KeyEmitted(h: Host, g: Graph, key: Value, l: Ledger, nesting: nat)
    requires Within(h, g, key, nesting)
    ensures var o := SanitizeKey(h, key, l, nesting);
      o.Done? ==>
        && Safe(h, g, o.value.text)
        && (h.sensitive(o.value.text) ==> o.value.sensitive || NotAName(g, o.value.text))
  {
    hide Safe, Quote, Emit, FromScrubber;
    if key.Text? {
      var scan := if |key.text| <= Min(MAX_STRING_LENGTH, l.scan) then l.scan - |key.text| else l.scan;
      var s := h.scrub(key.text, scan, l.nodes, nesting);
      if s.Clean? {
        ScrubbedText(h, g, key.text, scan, l.nodes, nesting);
        EmitIsScrubbed(h, g, s.text, MAX_KEY_LENGTH, l.(scan := s.scan, nodes := s.nodes), nesting);
      }
    } else {
      RenderedIsEmitted(h, g, key, PlainKey(key), 0);
    }
  }

  lemma ScrubbedText(h: Host, g: Graph, text: string, scan: int, nodes: int, nesting: nat)
    requires text in g.texts && h.scrub(text, scan, nodes, nesting).Clean?
    ensures FromScrubber(h, g, h.scrub(text, scan, nodes, nesting).text)
  {
  }

  lemma {:induction false} SequenceEmitted(h: Host, g: Graph, items: seq<Value>, i: nat, ends: Ending, size: Length,
                                           depth: nat, l: Ledger, nesting: nat, result: seq<Json>)
    requires h.Lawful(nesting) && Closed(h, g)
    requires IsExcess(h, g, size - MAX_ITEMS) && forall v :: v in items ==> v in g.values
    requires i <= |items| && i <= MAX_ITEMS
    requires EmittedItems(h, g, result, depth) && |result| == i
    ensures var o := SanitizeSequence(h, items, i, ends, size, depth, l, nesting, result);
      o.Done? ==>
        && EmittedItems(h, g, o.value.0, depth)
        && |o.value.0| + (if o.value.1.Some? then 1 else 0) <= MAX_ITEMS + 1
        && (o.value.1.Some? ==> Safe(h, g, o.value.1.value))
    decreases Pos(l.nodes), 1, |items| - i
  {
    hide Safe, Sanitize, EmittedItems, Emitted, IsExcess;
    if i < |items| {
      MarkerIsEmitted(h, g, TRUNCATED, depth);
      NoteIsEmitted(h, g, size - MAX_ITEMS, TRUNCATED + " " + Decimal(size - MAX_ITEMS) + " more items", depth);
      assert items[i] in g.values;
      SanitizeEmitted(h, g, items[i], depth + 1, l, nesting);
      match Sanitize(h, items[i], depth + 1, l, nesting) {
        case Raised(_) =>
        case Done(j, left) =>
          EmittedSnoc(h, g, result, j, depth);
          if i < MAX_ITEMS && !l.Exhausted() {
            SequenceEmitted(h, g, items, i + 1, ends, size, depth, left, nesting, result + [j]);
          }
      }
    }
  }

  /** `sanitize` never shows text the scrubber has not returned, nor the value under a sensitive key. */
  lemma SanitizedIsSafe(h: Host, v: Value)
    requires h.Lawful(0)
    ensures Emitted(h, GraphOf(h, v), Sanitizer.Sanitized(h, v), 0)
  {
    hide Safe, GraphOf;
    var g := GraphOf(h, v);
    GraphIsClosed(h, v);
    MarkerIsEmitted(h, g, UNREADABLE, 0);
    SanitizeEmitted(h, g, v, 0, FRESH, 0);
  }

  /** What the scrubber made of `text`, whole or cut. */
  ghost predicate ShownOf(h: Host, text: string, s: string) {
    exists scan, nodes, nesting, keep: nat ::
      && h.scrub(text, scan, nodes, nesting).Clean?
      && var whole := h.scrub(text, scan, nodes, nesting).text;
      && (s == Take(whole, keep) || s == Take(whole, keep) + " " + TRUNCATED)
  }

  lemma OnlyItself(h: Host, text: string, v: Value)
    requires Occurs(h, Text(text), v)
    ensures v == Text(text)
  {
    var path :| Path(h, path) && path[0] == Text(text) && path[|path| - 1] == v;
    assert |path| > 1 ==> Step(h, path[0], path[1]);
  }

  /** Of a text nothing is safe but the markers and what the scrubber made of it. */
  lemma OnlyScrubbedTextIsSafe(h: Host, text: string, s: string)
    ensures Safe(h, GraphOf(h, Text(text)), s) <==> s in MARKERS || ShownOf(h, text, s)
  {
    hide Occurs;
    var g := GraphOf(h, Text(text));
    OccursAtRoot(h, Text(text));
    forall v | v in g.values ensures v == Text(text) { OnlyItself(h, text, v); }
    forall t | t in g.texts ensures t == text { OnlyItself(h, text, Text(t)); }
    if ShownText(h, g, s) {
      var whole, keep: nat :| FromScrubber(h, g, whole)
        && (s == Take(whole, keep) || s == Take(whole, keep) + " " + TRUNCATED);
      var scan, nodes, nesting :| h.scrub(text, scan, nodes, nesting).Clean?
        && h.scrub(text, scan, nodes, nesting).text == whole;
    }
    if ShownOf(h, text, s) {
      var scan, nodes, nesting, keep: nat :| h.scrub(text, scan, nodes, nesting).Clean?
        && var whole := h.scrub(text, scan, nodes, nesting).text;
        && (s == Take(whole, keep) || s == Take(whole, keep) + " " + TRUNCATED);
      ScrubbedText(h, g, text, scan, nodes, nesting);
    }
  }

  lemma {:induction false} LeadingEmitted(h: Host, g: Graph, pairs: seq<(Value, Value)>, leading: seq<string>,
                                          assembled: set<string>, l: Ledger, result: seq<Entry>, given: set<string>)
    requires h.Lawful(0) && Closed(h, g) && HoldsPairs(g, pairs) && Assembles(h, g, assembled)
    requires EmittedEntries(h, g, result, 0, given) && forall k :: k in leading ==> k in given
    ensures var o := SanitizeLeading(h, pairs, leading, assembled, l, result);
      o.Done? ==> EmittedEntries(h, g, o.value, 0, given) && |o.value| <= |result| + |leading|
    decreases |leading|
  {
    hide Safe, Sanitize, EmittedEntries, Lookup, Closed, HoldsPairs, Assembles;
    if leading != [] {
      assert leading[0] in leading && forall k :: k in leading[1..] ==> k in leading;
      LookupIsOffered(h, g, pairs, leading[0], assembled);
      match Lookup(pairs, leading[0]) {
        case None => LeadingEmitted(h, g, pairs, leading[1..], assembled, l, result, given);
        case Some(item) =>
          var content := if leading[0] in assembled then Text(Assembly.AssembledText(h.objects, item)) else item;
          SanitizeEmitted(h, g, content, 1, l, 0);
          match Sanitize(h, content, 1, l, 0) {
            case Raised(_) =>
            case Done(j, left) =>
              PutEmitted(h, g, result, leading[0], j, 0, given);
              LeadingEmitted(h, g, pairs, leading[1..], assembled, left, Put(result, leading[0], j), given);
          }
      }
    }
  }

  /**
   * The fields of an event are safe as well, whatever fields it has: the names are distinct, each is one of the names
   * of the leading fields or safe, with nothing but a mask under a sensitive one, and there are at most 200 fields
   * besides the leading ones and the marker.
   */
  lemma EventIsSafe(h: Host, pairs: seq<(Value, Value)>, ends: Ending, skip: set<string>, leading: seq<string>,
                    assembled: set<string>)
    requires h.Lawful(0)
    ensures var g, o := GraphOfEvent(h, pairs), SanitizeEvent(h, pairs, ends, skip, leading, assembled, FRESH);
      o.Done? ==>
        && EmittedEntries(h, g, o.value, 0, set k | k in leading)
        && |o.value| <= |leading| + MAX_EVENT_FIELDS + 1
  {
    hide Safe, EmittedEntries, GraphOfEvent;
    var g, given := GraphOfEvent(h, pairs), set k | k in leading;
    EventGraphIsClosed(h, pairs, assembled);
    EmptyEntries(h, g, 0, given);
    LeadingEmitted(h, g, pairs, leading, assembled, FRESH, [], given);
    match SanitizeLeading(h, pairs, leading, assembled, FRESH, []) {
      case Raised(_) =>
      case Done(result, left) =>
        var w := Walk(MAX_EVENT_FIELDS, skip + (set k | k in leading), FIELDS_NOTE, assembled);
        MarkerIsEmitted(h, g, FIELDS_NOTE, 0);
        EntriesEmitted(h, g, pairs, 0, 0, ends, w, 0, left, 0, result, |result|, given);
    }
  }
}
