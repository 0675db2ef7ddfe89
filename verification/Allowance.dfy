/** How far the allowance of visits can be overdrawn: what the sanitiser keeps is the law its own scrubber is under. */
module Allowance {
  import opened Text
  import opened Json
  import opened Values
  import opened Ledgers
  import opened Sanitizing

  /** A spent allowance stays as it is; any other is overdrawn by at most one mask more than a text may overdraw it. */
  ghost predicate Above(l: Ledger, left: Ledger, nesting: nat) {
    && left.nodes >= Min(l.nodes, -Overdraft(nesting) - 1)
    && (l.nodes <= 0 ==> left.nodes == l.nodes)
  }

  /** No object holds an exception, as none does that was decoded from JSON. */
  ghost predicate NoExceptions(h: Host) {
    forall id ::
      match h.objects(id)
      case Mapping(_, pairs, _) => forall i :: 0 <= i < |pairs| ==> !pairs[i].1.Failure?
      case Sequence(_, items, _, _) => forall i :: 0 <= i < |items| ==> !items[i].Failure?
      case Member(stored) => !stored.Failure?
  }

  /** Values inside JSON are no exceptions. */
  ghost predicate Fit(h: Host, v: Value, nesting: nat) {
    nesting > 0 ==> NoExceptions(h) && !v.Failure?
  }

  lemma {:induction false} SanitizeAbove(h: Host, v: Value, depth: nat, l: Ledger, nesting: nat)
    requires h.Lawful(nesting) && Fit(h, v, nesting)
    ensures Above(l, Sanitize(h, v, depth, l, nesting).left, nesting)
    decreases Pos(l.nodes), 0, 0
  {
    hide Quote, SanitizeContainer;
    if !l.Exhausted() && v.Ref? {
      var paid := l.(nodes := l.nodes - 1);
      match h.objects(v.id) {
        case Member(stored) => SanitizeAbove(h, stored, depth, paid, nesting);
        case _ => ContainerAbove(h, v.id, depth, paid, nesting);
      }
    }
  }

  lemma {:induction false} ContainerAbove(h: Host, id: Id, depth: nat, l: Ledger, nesting: nat)
    requires h.Lawful(nesting) && !h.objects(id).Member? && Fit(h, Ref(id), nesting)
    ensures Above(l, SanitizeContainer(h, id, depth, l, nesting).left, nesting)
    decreases Pos(l.nodes), 2, 1
  {
    hide SanitizeEntries, SanitizeSequence, Sort;
    var entered := Enter(Charge(SEPARATOR_COST, l, nesting).1, id);
    match h.objects(id) {
      case Mapping(Some(size), pairs, ends) =>
        var w := Walk(MAX_ITEMS, {}, Decimal(size - MAX_ITEMS) + " more entries", {});
        EntriesAbove(h, pairs, 0, 0, ends, w, depth, entered, nesting, []);
      case Sequence(Some(size), items, ends, _) =>
        SequenceAbove(h, items, 0, ends, size, depth, entered, nesting, []);
      case _ =>
    }
  }

  lemma {:induction false} EntryAbove(h: Host, key: Value, item: Value, w: Walk, depth: nat, l: Ledger, nesting: nat)
    requires h.Lawful(nesting) && !l.Exhausted() && Fit(h, item, nesting)
    ensures Above(l, SanitizeEntry(h, key, item, w, depth, l, nesting).left, nesting)
    decreases Pos(l.nodes), 0, 1
  {
    hide Sanitize, Quote;
    SanitizeAbove(h, Content(h, key, item, w), depth + 1, SanitizeKey(h, key, l, nesting).left, nesting);
  }

  lemma {:induction false} EntriesAbove(h: Host, pairs: seq<(Value, Value)>, i: nat, admitted: nat, ends: Ending,
                                        w: Walk, depth: nat, l: Ledger, nesting: nat, result: seq<Entry>)
    requires h.Lawful(nesting) && i <= |pairs| && forall k :: 0 <= k < |pairs| ==> Fit(h, pairs[k].1, nesting)
    ensures Above(l, SanitizeEntries(h, pairs, i, admitted, ends, w, depth, l, nesting, result).left, nesting)
    decreases Pos(l.nodes), 1, |pairs| - i
  {
    hide Sanitize, SanitizeEntry, Put, Fit;
    if i < w.limit + |w.skip| + 1 && i < |pairs| {
      var (key, item) := pairs[i];
      if NamedIn(key, w.skip) {
        EntriesAbove(h, pairs, i + 1, admitted, ends, w, depth, l, nesting, result);
      } else if admitted >= w.limit {
        SanitizeAbove(h, item, depth + 1, l, nesting);
      } else if !l.Exhausted() {
        EntryAbove(h, key, item, w, depth, l, nesting);
        match SanitizeEntry(h, key, item, w, depth, l, nesting) {
          case Raised(_) =>
          case Done(e, left) =>
            EntriesAbove(h, pairs, i + 1, admitted + 1, ends, w, depth, left, nesting, Put(result, e.key, e.value));
        }
      }
    }
  }

  lemma {:induction false} SequenceAbove(h: Host, items: seq<Value>, i: nat, ends: Ending, size: Length, depth: nat,
                                         l: Ledger, nesting: nat, result: seq<Json>)
    requires h.Lawful(nesting) && i <= |items| && forall k :: 0 <= k < |items| ==> Fit(h, items[k], nesting)
    ensures Above(l, SanitizeSequence(h, items, i, ends, size, depth, l, nesting, result).left, nesting)
    decreases Pos(l.nodes), 1, |items| - i
  {
    hide Sanitize, Fit;
    if i < |items| {
      SanitizeAbove(h, items[i], depth + 1, l, nesting);
      match Sanitize(h, items[i], depth + 1, l, nesting) {
        case Raised(_) =>
        case Done(j, left) =>
          if i < MAX_ITEMS && !l.Exhausted() {
            SequenceAbove(h, items, i + 1, ends, size, depth, left, nesting, result + [j]);
          }
      }
    }
  }

  /**
   * The law of the scrubber is one the code meets: what scrubbing a text at some nesting does with the allowance is
   * sanitising values decoded from it one level deeper, and if the texts of that level keep the law, so does that.
   */
  lemma TheLawIsKept(h: Host, v: Value, l: Ledger, nesting: nat)
    requires h.Lawful(nesting + 1) && NoExceptions(h) && !v.Failure? && nesting < MAX_JSON_NESTING
    ensures WithinAllowance(l.nodes, Sanitize(h, v, 0, l, nesting + 1).left.nodes, nesting)
  {
    SanitizeAbove(h, v, 0, l, nesting + 1);
  }

  // ---------------------------------------------------------------- when the allowance is overdrawn

  /** No text and no exception takes visits it does not have. */
  ghost predicate TextsKeepWithin(h: Host, nesting: nat) {
    && (forall text, scan, nodes :: nodes >= 0 ==> h.scrub(text, scan, nodes, nesting).nodes >= 0)
    && (forall id, scan, nodes :: nodes >= 0 ==> h.describe(id, scan, nodes).nodes >= 0)
  }

  /** Reading the name of sensitive data never takes the last visit: such names hold no JSON. */
  ghost predicate NamesLeaveAVisit(h: Host, nesting: nat)
    requires h.Lawful(nesting)
  {
    forall key, l: Ledger :: !l.Exhausted() && Named(h, key, l, nesting) ==>
      SanitizeKey(h, key, l, nesting).left.nodes > 0
  }

  predicate Named(h: Host, key: Value, l: Ledger, nesting: nat)
    requires h.Lawful(nesting)
  {
    SanitizeKey(h, key, l, nesting).Done? && SanitizeKey(h, key, l, nesting).value.sensitive
  }

  /** Whatever the graph, no allowance ends below zero. */
  ghost predicate NeverOverdrawn(h: Host, nesting: nat)
    requires h.Lawful(nesting)
  {
    forall objects: Id -> Object, v: Value, depth: nat, l: Ledger :: l.nodes >= 0 ==>
      Sanitize(h.(objects := objects), v, depth, l, nesting).left.nodes >= 0
  }

  ghost predicate Careful(h: Host, nesting: nat) {
    h.Lawful(nesting) && TextsKeepWithin(h, nesting) && NamesLeaveAVisit(h, nesting)
  }

  lemma {:induction false} SanitizeStays(h: Host, v: Value, depth: nat, l: Ledger, nesting: nat)
    requires Careful(h, nesting) && l.nodes >= 0
    ensures Sanitize(h, v, depth, l, nesting).left.nodes >= 0
    decreases Pos(l.nodes), 0, 0
  {
    hide Quote, SanitizeContainer, NamesLeaveAVisit;
    if !l.Exhausted() && v.Ref? {
      var paid := l.(nodes := l.nodes - 1);
      match h.objects(v.id) {
        case Member(stored) => SanitizeStays(h, stored, depth, paid, nesting);
        case _ => ContainerStays(h, v.id, depth, paid, nesting);
      }
    }
  }

  lemma {:induction false} ContainerStays(h: Host, id: Id, depth: nat, l: Ledger, nesting: nat)
    requires Careful(h, nesting) && l.nodes >= 0 && !h.objects(id).Member?
    ensures SanitizeContainer(h, id, depth, l, nesting).left.nodes >= 0
    decreases Pos(l.nodes), 2, 1
  {
    hide SanitizeEntries, SanitizeSequence, Sort, Careful;
    assert h.Lawful(nesting) by { CarefulIsLawful(h, nesting); }
    var entered := Enter(Charge(SEPARATOR_COST, l, nesting).1, id);
    match h.objects(id) {
      case Mapping(Some(size), pairs, ends) =>
        var w := Walk(MAX_ITEMS, {}, Decimal(size - MAX_ITEMS) + " more entries", {});
        EntriesStay(h, pairs, 0, 0, ends, w, depth, entered, nesting, []);
      case Sequence(Some(size), items, ends, _) =>
        SequenceStays(h, items, 0, ends, size, depth, entered, nesting, []);
      case _ =>
    }
  }

  lemma CarefulIsLawful(h: Host, nesting: nat)
    requires Careful(h, nesting)
    ensures h.Lawful(nesting)
  {
  }

  lemma {:induction false} EntryStays(h: Host, key: Value, item: Value, w: Walk, depth: nat, l: Ledger, nesting: nat)
    requires Careful(h, nesting) && !l.Exhausted()
    ensures SanitizeEntry(h, key, item, w, depth, l, nesting).left.nodes >= 0
    decreases Pos(l.nodes), 0, 1
  {
    hide Sanitize, SanitizeKey, Content, Careful;
    KeyStays(h, key, l, nesting);
    SanitizeStays(h, Content(h, key, item, w), depth + 1, SanitizeKey(h, key, l, nesting).left, nesting);
  }

  lemma KeyStays(h: Host, key: Value, l: Ledger, nesting: nat)
    requires Careful(h, nesting) && !l.Exhausted()
    ensures h.Lawful(nesting) && SanitizeKey(h, key, l, nesting).left.nodes >= 0
    ensures Named(h, key, l, nesting) ==> SanitizeKey(h, key, l, nesting).left.nodes > 0
  {
    hide Quote;
  }

  lemma {:induction false} EntriesStay(h: Host, pairs: seq<(Value, Value)>, i: nat, admitted: nat, ends: Ending,
                                       w: Walk, depth: nat, l: Ledger, nesting: nat, result: seq<Entry>)
    requires Careful(h, nesting) && l.nodes >= 0 && i <= |pairs|
    ensures SanitizeEntries(h, pairs, i, admitted, ends, w, depth, l, nesting, result).left.nodes >= 0
    decreases Pos(l.nodes), 1, |pairs| - i
  {
    hide Sanitize, SanitizeEntry, Put, TextsKeepWithin, NamesLeaveAVisit;
    if i < w.limit + |w.skip| + 1 && i < |pairs| {
      var (key, item) := pairs[i];
      if NamedIn(key, w.skip) {
        EntriesStay(h, pairs, i + 1, admitted, ends, w, depth, l, nesting, result);
      } else if admitted >= w.limit {
        SanitizeStays(h, item, depth + 1, l, nesting);
      } else if !l.Exhausted() {
        EntryStays(h, key, item, w, depth, l, nesting);
        match SanitizeEntry(h, key, item, w, depth, l, nesting) {
          case Raised(_) =>
          case Done(e, left) =>
            EntriesStay(h, pairs, i + 1, admitted + 1, ends, w, depth, left, nesting, Put(result, e.key, e.value));
        }
      }
    }
  }

  lemma {:induction false} SequenceStays(h: Host, items: seq<Value>, i: nat, ends: Ending, size: Length, depth: nat,
                                         l: Ledger, nesting: nat, result: seq<Json>)
    requires Careful(h, nesting) && l.nodes >= 0 && i <= |items|
    ensures SanitizeSequence(h, items, i, ends, size, depth, l, nesting, result).left.nodes >= 0
    decreases Pos(l.nodes), 1, |items| - i
  {
    hide Sanitize, TextsKeepWithin, NamesLeaveAVisit;
    if i < |items| {
      SanitizeStays(h, items[i], depth + 1, l, nesting);
      match Sanitize(h, items[i], depth + 1, l, nesting) {
        case Raised(_) =>
        case Done(j, left) =>
          if i < MAX_ITEMS && !l.Exhausted() {
            SequenceStays(h, items, i + 1, ends, size, depth, left, nesting, result + [j]);
          }
      }
    }
  }

  /** Text alone overdraws the allowance if the scrubber does. */
  lemma TextOverdraws(h: Host, nesting: nat)
    requires h.Lawful(nesting) && NeverOverdrawn(h, nesting)
    ensures TextsKeepWithin(h, nesting)
  {
    hide Quote;
    forall text, scan, nodes | nodes >= 0 ensures h.scrub(text, scan, nodes, nesting).nodes >= 0 {
      var l := FRESH.(scan := scan, nodes := nodes + 1);
      assert h.(objects := h.objects) == h;
      assert Sanitize(h.(objects := h.objects), Text(text), 0, l, nesting).left.nodes >= 0;
    }
    forall id, scan, nodes | nodes >= 0 ensures h.describe(id, scan, nodes).nodes >= 0 {
      var l := FRESH.(scan := scan, nodes := nodes + 1);
      assert h.(objects := h.objects) == h;
      assert Sanitize(h.(objects := h.objects), Failure(id), 0, l, nesting).left.nodes >= 0;
    }
  }

  /** Every object is a mapping with one entry under `key`. */
  function OneEntry(key: Value): Id -> Object {
    id => Mapping(Some(1), [(key, Nothing)], Stops)
  }

  /** The budget with which a mapping is read so that its first key is read with `l`. */
  function Before(l: Ledger, nesting: nat): Ledger {
    l.(nodes := l.nodes + 1, output := if nesting > 0 then l.output else l.output + 4, active := {}, seen := {})
  }

  /** A name of sensitive data that takes the last visit leaves none for the mask. */
  lemma NameOverdraws(h: Host, key: Value, l: Ledger, nesting: nat)
    requires h.Lawful(nesting) && !l.Exhausted() && Named(h, key, l, nesting)
    requires SanitizeKey(h, key, l, nesting).left.nodes <= 0
    ensures Sanitize(h.(objects := OneEntry(key)), Ref(0), 0, Before(l, nesting), nesting).left.nodes < 0
  {
    hide Sanitize, SanitizeEntries, SanitizeEntry, SanitizeKey, Put;
    var one := h.(objects := OneEntry(key));
    var paid := l.(output := Before(l, nesting).output, active := {}, seen := {});
    var entered := Enter(Charge(SEPARATOR_COST, paid, nesting).1, 0);
    var w := Walk(MAX_ITEMS, {}, Decimal(1 - MAX_ITEMS) + " more entries", {});
    KeyReadsTheCounters(h, one, key, l, entered, nesting);
    MaskOverdraws(one, [(key, Nothing)], 0, w, entered, nesting, []);
    assert SanitizeContent(one, 0, 0, entered, nesting).left.nodes < 0;
    assert SanitizeContainer(one, 0, 0, paid, nesting).left.nodes < 0;
    ContainerIsVisited(one, 0, 0, Before(l, nesting), nesting);
  }

  /** Reading a key depends on the counters of the budget alone. */
  lemma KeyReadsTheCounters(h: Host, other: Host, key: Value, l: Ledger, k: Ledger, nesting: nat)
    requires h.Lawful(nesting) && other == h.(objects := other.objects)
    requires k.nodes == l.nodes && k.scan == l.scan && k.output == l.output
    ensures var a, b := SanitizeKey(h, key, l, nesting), SanitizeKey(other, key, k, nesting);
      && a.Done? == b.Done? && a.left.nodes == b.left.nodes
      && (a.Done? ==> a.value == b.value)
  {
    hide Quote;
  }

  /** The mask takes its visit without asking. */
  lemma MaskOverdraws(h: Host, pairs: seq<(Value, Value)>, i: nat, w: Walk, l: Ledger, nesting: nat, result: seq<Entry>)
    requires h.Lawful(nesting) && |pairs| == i + 1 && i < w.limit && w.skip == {} && !l.Exhausted()
    requires Named(h, pairs[i].0, l, nesting)
    ensures SanitizeEntries(h, pairs, i, i, Stops, w, 0, l, nesting, result).left.nodes
         == SanitizeKey(h, pairs[i].0, l, nesting).left.nodes - 1
  {
    hide Sanitize, SanitizeKey, Put;
    var e := SanitizeEntry(h, pairs[i].0, pairs[i].1, w, 0, l, nesting);
    var more := Put(result, e.value.key, e.value.value);
    assert SanitizeEntries(h, pairs, i + 1, i + 1, Stops, w, 0, e.left, nesting, more) == Done(more, e.left);
  }

  lemma ContainerIsVisited(h: Host, id: Id, depth: nat, l: Ledger, nesting: nat)
    requires h.Lawful(nesting) && !l.Exhausted() && !h.objects(id).Member?
    ensures Sanitize(h, Ref(id), depth, l, nesting)
         == SanitizeContainer(h, id, depth, l.(nodes := l.nodes - 1), nesting)
  {
    hide SanitizeContainer;
  }

  /**
   * No graph overdraws the allowance exactly if no text does, and reading the name of sensitive data never takes the
   * last visit.
   */
  lemma NeverOverdrawnIffNamesLeaveAVisit(h: Host, nesting: nat)
    requires h.Lawful(nesting)
    ensures NeverOverdrawn(h, nesting) <==> TextsKeepWithin(h, nesting) && NamesLeaveAVisit(h, nesting)
  {
    hide Sanitize, SanitizeKey, TextsKeepWithin;
    if TextsKeepWithin(h, nesting) && NamesLeaveAVisit(h, nesting) {
      forall objects: Id -> Object, v: Value, depth: nat, l: Ledger | l.nodes >= 0
        ensures Sanitize(h.(objects := objects), v, depth, l, nesting).left.nodes >= 0
      {
        CarefulWhateverTheGraph(h, objects, nesting);
        SanitizeStays(h.(objects := objects), v, depth, l, nesting);
      }
    }
    if NeverOverdrawn(h, nesting) {
      TextOverdraws(h, nesting);
      forall key, l: Ledger | !l.Exhausted() && Named(h, key, l, nesting)
        ensures SanitizeKey(h, key, l, nesting).left.nodes > 0
      {
        if SanitizeKey(h, key, l, nesting).left.nodes <= 0 { NameOverdraws(h, key, l, nesting); }
      }
    }
  }

  lemma CarefulWhateverTheGraph(h: Host, objects: Id -> Object, nesting: nat)
    requires Careful(h, nesting)
    ensures Careful(h.(objects := objects), nesting)
  {
    hide SanitizeKey;
    var other := h.(objects := objects);
    forall key, l: Ledger | !l.Exhausted() && Named(other, key, l, nesting)
      ensures SanitizeKey(other, key, l, nesting).left.nodes > 0
    {
      KeyReadsTheCounters(h, other, key, l, l, nesting);
      assert Named(h, key, l, nesting);
    }
  }

  /** A JSON list of `n` zeros. */
  function Zeros(n: nat): (s: Plain)
    requires n > 0
    ensures |s| == 2 * n + 1
  {
    "[" + seq(2 * n - 1, i => if i % 2 == 0 then '0' else ',') + "]"
  }

  function Rows(count: nat): (s: Plain)
    ensures |s| == 402 * count
  {
    if count == 0 then "" else Rows(count - 1) + Zeros(200) + ","
  }

  /** JSON of 2,045 values: eleven lists in a list, ten of 200 numbers and one of 33. */
  function Body(): (s: Plain)
    ensures |s| == 4_089
  {
    "[" + Rows(10) + Zeros(33) + "]"
  }

  /** A scrubber that reads the JSON of both and changes nothing. */
  function Reading(text: string, scan: int, nodes: int, nesting: nat): Scrubbed {
    if nodes <= 0 || nesting > 0 then Clean(text, scan, nodes)
    else if text == Body() then Clean(text, scan, Max(0, nodes - 2_045))
    else if text == "password[1]" then Clean(text, scan, nodes - 1)
    else Clean(text, scan, nodes)
  }

  /**
   * An event with such a text and a name that holds JSON. Reading the name takes the last visit, and the mask of its
   * value one more.
   */
  function KeyOfJson(): Host {
    Host(
      id => Mapping(Some(2), [(Text("body"), Text(Body())), (Text("password[1]"), Small(1))], Stops),
      Reading,
      (id, scan, nodes) => Clean("", scan, nodes),
      key => key == "password[1]",
      (a, b) => false)
  }

  /** The allowance can indeed be overdrawn: a whole sanitisation that ends one visit below zero. */
  lemma TheAllowanceIsOverdrawn()
    ensures KeyOfJson().Lawful(0)
    ensures Sanitize(KeyOfJson(), Ref(0), 0, FRESH, 0).left.nodes == -1
  {
    hide Sanitize, SanitizeEntries, SanitizeEntry, SanitizeKey, Put, Quote, Body;
    KeyOfJsonIsLawful();
    var h := KeyOfJson();
    var paid := FRESH.(nodes := FRESH.nodes - 1);
    var w := Walk(MAX_ITEMS, {}, Decimal(2 - MAX_ITEMS) + " more entries", {});
    var entered := Enter(Charge(SEPARATOR_COST, paid, 0).1, 0);
    BodyIsRead(h, w, entered);
    var body := SanitizeEntry(h, Text("body"), Text(Body()), w, 0, entered, 0);
    NameIsRead(h, body.left);
    var pairs := h.objects(0).pairs;
    var result := Put([], body.value.key, body.value.value);
    MaskOverdraws(h, pairs, 1, w, body.left, 0, result);
    FirstEntry(h, pairs, w, entered);
    assert SanitizeContent(h, 0, 0, entered, 0).left.nodes == -1;
    assert SanitizeContainer(h, 0, 0, paid, 0).left.nodes == -1;
    ContainerIsVisited(h, 0, 0, FRESH, 0);
  }

  lemma FirstEntry(h: Host, pairs: seq<(Value, Value)>, w: Walk, l: Ledger)
    requires h.Lawful(0) && |pairs| == 2 && w.skip == {} && w.limit > 0 && !l.Exhausted()
    requires SanitizeEntry(h, pairs[0].0, pairs[0].1, w, 0, l, 0).Done?
    ensures var e := SanitizeEntry(h, pairs[0].0, pairs[0].1, w, 0, l, 0);
      SanitizeEntries(h, pairs, 0, 0, Stops, w, 0, l, 0, [])
        == SanitizeEntries(h, pairs, 1, 1, Stops, w, 0, e.left, 0, Put([], e.value.key, e.value.value))
  {
    hide SanitizeEntry, Put;
  }

  lemma KeyOfJsonIsLawful()
    ensures KeyOfJson().Lawful(0)
  {
    hide Body;
  }

  lemma BodyIsRead(h: Host, w: Walk, l: Ledger)
    requires h.Lawful(0) && h == KeyOfJson() && w.assembled == {}
    requires l.nodes == 2_047 && l.scan == MAX_EVENT_SCAN && l.output == MAX_EVENT_OUTPUT - 4
    ensures var e := SanitizeEntry(h, Text("body"), Text(Body()), w, 0, l, 0);
      e.Done? && e.left.nodes == 1 && e.left.scan > 100 && e.left.output > 100
  {
    hide Body, Sanitize, SanitizeKey;
    KeyIsRead(h, l);
    TextIsRead(h, SanitizeKey(h, Text("body"), l, 0).left);
    assert Content(h, Text("body"), Text(Body()), w) == Text(Body());
  }

  lemma KeyIsRead(h: Host, l: Ledger)
    requires h.Lawful(0) && h == KeyOfJson()
    requires l.nodes == 2_047 && l.scan == MAX_EVENT_SCAN && l.output == MAX_EVENT_OUTPUT - 4
    ensures var key := SanitizeKey(h, Text("body"), l, 0);
      && key.Done? && key.value == SafeKey(false, "body")
      && key.left.nodes == 2_047 && key.left.scan > 100 && key.left.output > 10_000
  {
    hide Quote, Body;
    PlainQuote("body");
    assert Take("body", MAX_KEY_LENGTH) == "body";
    assert |"body"| != |Body()|;
  }

  lemma TextIsRead(h: Host, l: Ledger)
    requires h.Lawful(0) && h == KeyOfJson() && l.nodes == 2_047 && l.output > 10_000 && l.scan > 100
    ensures var o := Sanitize(h, Text(Body()), 1, l, 0);
      o.Done? && o.left.nodes == 1 && o.left.scan > 100 && o.left.output > 100
  {
    hide Quote, Body;
    PlainQuote(Body());
  }

  lemma NameIsRead(h: Host, l: Ledger)
    requires h.Lawful(0) && h == KeyOfJson() && l.nodes == 1 && l.scan > 100
    ensures Named(h, Text("password[1]"), l, 0) && SanitizeKey(h, Text("password[1]"), l, 0).left.nodes == 0
  {
    hide Quote, Body;
    assert |"password[1]"| != |Body()|;
  }
}
