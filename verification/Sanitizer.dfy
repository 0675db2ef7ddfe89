/** The structured sanitiser as it runs: one mutable budget, loops over what is iterated. */
module Sanitizer {
  import opened Text
  import opened Json
  import opened Values
  import opened Ledgers
  import Assembly
  import S = Sanitizing

  /** What a call gives back: a value, or an exception. */
  datatype Attempt<+T> = Returned(value: T) | Threw

  ghost predicate Agrees<T>(a: Attempt<T>, l: Ledger, o: Outcome<T>) {
    o == match a case Returned(value) => Done(value, l) case Threw => Raised(l)
  }

  class Budget {
    var nodes: int
    var scan: int
    var output: int
    var active: set<Id>
    var seen: set<Id>
    ghost var expanded: seq<Id>
    ghost var cycles: set<Id>

    ghost function State(): Ledger
      reads this
    {
      Ledger(nodes, scan, output, active, seen, expanded, cycles)
    }

    constructor ()
      ensures State() == FRESH
    {
      nodes, scan, output := MAX_EVENT_NODES, MAX_EVENT_SCAN, MAX_EVENT_OUTPUT;
      active, seen, expanded, cycles := {}, {}, [], {};
    }

    method Charge(length: nat, nesting: nat) returns (fits: bool)
      modifies this`output
      ensures (fits, State()) == Ledgers.Charge(length, old(State()), nesting)
    {
      if nesting > 0 { return true; }
      var cost := length + SEPARATOR_COST;
      if cost > output {
        output := 0;
        return false;
      }
      output := output - cost;
      return true;
    }

    method Emit(text: string, nesting: nat) returns (emitted: string)
      modifies this`output
      ensures (emitted, State()) == Ledgers.Emit(text, old(State()), nesting)
    {
      if nesting > 0 { return text; }
      var cost := |Quote(text)| + SEPARATOR_COST;
      if cost <= output {
        output := output - cost;
        return text;
      }
      var keep := Max(0, output - |TRUNCATED| - 5) / (if IsAscii(text) then 6 else 12);
      output := 0;
      return if keep > 0 then Take(text, keep) + " " + TRUNCATED else TRUNCATED;
    }

    method Marker(text: string, nesting: nat) returns (marker: string)
      modifies this`output
      ensures (marker, State()) == Ledgers.Marker(text, old(State()), nesting)
    {
      var fits := Charge(|text| + 2, nesting);
      return if fits then text else TRUNCATED;
    }

    method Scalar(j: Json, length: nat, nesting: nat) returns (a: Attempt<Json>)
      modifies this`output
      ensures Agrees(a, State(), S.Scalar(j, length, old(State()), nesting))
    {
      var fits := Charge(length, nesting);
      return Returned(if fits then j else Str(TRUNCATED));
    }

    method Marked(text: string, nesting: nat) returns (a: Attempt<Json>)
      modifies this`output
      ensures Agrees(a, State(), S.Marked(text, old(State()), nesting))
    {
      var marker := Marker(text, nesting);
      return Returned(Str(marker));
    }

    method Described(s: Scrubbed, nesting: nat) returns (a: Attempt<Json>)
      modifies this`scan, this`nodes, this`output
      ensures Agrees(a, State(), S.Described(s, old(State()), nesting))
    {
      scan, nodes := s.scan, s.nodes;
      if s.Failed? { return Threw; }
      var emitted := Emit(s.text, nesting);
      return Returned(Str(emitted));
    }

    method Sanitize(h: Host, v: Value, depth: nat, nesting: nat) returns (a: Attempt<Json>)
      requires h.Lawful(nesting)
      modifies this
      ensures Agrees(a, State(), S.Sanitize(h, v, depth, old(State()), nesting))
      decreases S.Pos(nodes), 0, 0
    {
      hide S.SanitizeContainer, Quote;
      if nodes <= 0 || output <= 0 { return Returned(Str(TRUNCATED)); }
      nodes := nodes - 1;
      match v {
        case Text(text) => a := Described(h.scrub(text, scan, nodes, nesting), nesting);
        case Nothing => a := Scalar(Null, 5, nesting);
        case Truth(b) => a := Scalar(Flag(b), 5, nesting);
        case Small(n) => a := Scalar(Whole(n), |Decimal(n)|, nesting);
        case Big(bits) => a := Marked(S.BigText(bits), nesting);
        case Fraction(f) => a := Scalar(Real(f), |f.Repr()|, nesting);
        case Secret => a := Marked(REDACTED, nesting);
        case Failure(id) => a := Described(h.describe(id, scan, nodes), nesting);
        case Fixed(plain) => a := Marked(plain, nesting);
        case Other => a := Marked(UNSUPPORTED, nesting);
        case Ref(id) =>
          match h.objects(id) {
            case Member(stored) => a := Sanitize(h, stored, depth, nesting);
            case _ =>
              var j := SanitizeContainer(h, id, depth, nesting);
              a := Returned(j);
          }
      }
    }

    method SanitizeContainer(h: Host, id: Id, depth: nat, nesting: nat) returns (j: Json)
      requires h.Lawful(nesting) && !h.objects(id).Member?
      modifies this
      ensures Agrees(Returned(j), State(), S.SanitizeContainer(h, id, depth, old(State()), nesting))
      decreases S.Pos(nodes), 2, 0
    {
      hide S.SanitizeEntries, S.SanitizeSequence, Sort;
      if id in active {
        cycles := cycles + {id};
        return Str(CYCLE);
      }
      if depth >= MAX_DEPTH { return Str(TRUNCATED); }
      var o := h.objects(id);
      var _ := Charge(SEPARATOR_COST, nesting);
      if o.size.None? { return Str(UNREADABLE); }
      if o.size.value == 0 { return if o.Mapping? then Dict([]) else List([]); }
      if id in seen { return Str(REPEATED); }
      seen, active := seen + {id}, active + {id};
      expanded := expanded + [id];
      match o {
        case Mapping(size, pairs, ends) =>
          var w := S.Walk(MAX_ITEMS, {}, Decimal(size.value - MAX_ITEMS) + " more entries", {});
          var entries := SanitizeEntries(h, pairs, ends, w, depth, nesting, []);
          j := if entries.Returned? then Dict(entries.value) else Str(UNREADABLE);
        case Sequence(size, items, ends, unordered) =>
          var found := SanitizeSequence(h, items, ends, size.value, unordered, depth, nesting);
          j := if found.Returned? then List(found.value) else Str(UNREADABLE);
      }
      active := active - {id};
    }

    method SanitizeKey(h: Host, key: Value, nesting: nat) returns (a: Attempt<S.SafeKey>)
      requires h.Lawful(nesting)
      modifies this`scan, this`nodes, this`output
      ensures Agrees(a, State(), S.SanitizeKey(h, key, old(State()), nesting))
    {
      if key.Text? {
        var affordable := |key.text| <= Min(MAX_STRING_LENGTH, scan);
        if affordable { scan := scan - |key.text|; }
        var sensitive := !affordable || h.sensitive(key.text);
        var s := h.scrub(key.text, scan, nodes, nesting);
        scan, nodes := s.scan, s.nodes;
        if s.Failed? { return Threw; }
        var safe := Emit(Take(s.text, MAX_KEY_LENGTH), nesting);
        return Returned(S.SafeKey(sensitive || h.sensitive(safe), safe));
      }
      var safe := S.PlainKey(key);
      var _ := Charge(|safe| + 2, nesting);
      return Returned(S.SafeKey(false, safe));
    }

    method Content(h: Host, key: Value, item: Value, w: S.Walk) returns (v: Value)
      ensures v == S.Content(h, key, item, w)
    {
      if !S.NamedIn(key, w.assembled) { return item; }
      var text := Assembly.Assemble(h.objects, item);
      return Text(text);
    }

    method MaskedEntry(safe: string, nesting: nat) returns (e: Entry)
      modifies this`nodes, this`output
      ensures Agrees(Returned(e), State(), S.MaskedEntry(safe, old(State()), nesting))
    {
      nodes := nodes - 1;
      var mask := Marker(REDACTED, nesting);
      return Entry(safe, Str(mask));
    }

    method SanitizeEntry(h: Host, key: Value, item: Value, w: S.Walk, depth: nat, nesting: nat)
      returns (a: Attempt<Entry>)
      requires h.Lawful(nesting)
      modifies this
      ensures Agrees(a, State(), S.SanitizeEntry(h, key, item, w, depth, old(State()), nesting))
      decreases S.Pos(nodes), 0, 2
    {
      hide S.SanitizeKey, S.Sanitize, S.Content, S.MaskedEntry, S.Shown, Host.Lawful;
      var named := SanitizeKey(h, key, nesting);
      if named.Threw? { return Threw; }
      if named.value.sensitive {
        var masked := MaskedEntry(named.value.text, nesting);
        return Returned(masked);
      }
      a := ShownEntry(h, named.value.text, key, item, w, depth, nesting);
    }

    method ShownEntry(h: Host, safe: string, key: Value, item: Value, w: S.Walk, depth: nat, nesting: nat)
      returns (a: Attempt<Entry>)
      requires h.Lawful(nesting)
      modifies this
      ensures Agrees(a, State(),
                     S.Shown(safe, S.Sanitize(h, S.Content(h, key, item, w), depth + 1, old(State()), nesting)))
      decreases S.Pos(nodes), 0, 1
    {
      hide S.Sanitize, S.Content;
      var content := Content(h, key, item, w);
      var value := Sanitize(h, content, depth + 1, nesting);
      return if value.Threw? then Threw else Returned(Entry(safe, value.value));
    }

    method SanitizeEntries(h: Host, pairs: seq<(Value, Value)>, ends: Ending, w: S.Walk, depth: nat, nesting: nat,
                           start: seq<Entry>) returns (a: Attempt<seq<Entry>>)
      requires h.Lawful(nesting)
      modifies this
      ensures Agrees(a, State(), S.SanitizeEntries(h, pairs, 0, 0, ends, w, depth, old(State()), nesting, start))
      decreases S.Pos(nodes), 1, 0
    {
      hide S.SanitizeEntry, S.Sanitize, Put;
      ghost var whole := S.SanitizeEntries(h, pairs, 0, 0, ends, w, depth, State(), nesting, start);
      var result := start;
      var admitted := 0;
      var i := 0;
      while i < |pairs| && i < w.limit + |w.skip| + 1
        invariant i <= |pairs|
        invariant nodes <= old(nodes)
        invariant S.SanitizeEntries(h, pairs, i, admitted, ends, w, depth, State(), nesting, result) == whole
      {
        var (key, item) := pairs[i];
        i := i + 1;
        if S.NamedIn(key, w.skip) { continue; }
        if admitted >= w.limit {
          if key != Text(TRUNCATED) { return Returned(Put(result, TRUNCATED, Str(w.note))); }
          var last := Sanitize(h, item, depth + 1, nesting);
          return if last.Threw? then Threw else Returned(Put(result, TRUNCATED, last.value));
        }
        if nodes <= 0 || output <= 0 { return Returned(Put(result, TRUNCATED, Str(BUDGET_NOTE))); }
        admitted := admitted + 1;
        var entry := SanitizeEntry(h, key, item, w, depth, nesting);
        if entry.Threw? { return Threw; }
        result := Put(result, entry.value.key, entry.value.value);
      }
      return if i < w.limit + |w.skip| + 1 && ends.Raises? then Threw else Returned(result);
    }

    method SanitizeSequence(h: Host, items: seq<Value>, ends: Ending, size: Length, unordered: bool, depth: nat,
                            nesting: nat) returns (a: Attempt<seq<Json>>)
      requires h.Lawful(nesting)
      modifies this
      ensures Agrees(a, State(), S.Ordered(h, unordered,
                S.SanitizeSequence(h, items, 0, ends, size, depth, old(State()), nesting, [])))
      decreases S.Pos(nodes), 1, 0
    {
      hide S.Sanitize, Sort;
      ghost var whole := S.SanitizeSequence(h, items, 0, ends, size, depth, State(), nesting, []);
      var result := [];
      var note := None;
      var i := 0;
      while i < |items| && note.None?
        invariant i <= |items|
        invariant nodes <= old(nodes)
        invariant note.None? ==> S.SanitizeSequence(h, items, i, ends, size, depth, State(), nesting, result) == whole
        invariant note.Some? ==> i < |items| && whole == Done((result, note), State())
        decreases |items| - i, note.None?
      {
        if i >= MAX_ITEMS && !S.IsMarkerItem(items[i]) {
          note := Some(TRUNCATED + " " + Decimal(size - MAX_ITEMS) + " more items");
        } else if i < MAX_ITEMS && (nodes <= 0 || output <= 0) {
          note := Some(TRUNCATED);
        } else {
          var value := Sanitize(h, items[i], depth + 1, nesting);
          if value.Threw? { return Threw; }
          result := result + [value.value];
          if i >= MAX_ITEMS {
            return Returned(if unordered then Sort(result, h.before) else result);
          }
          i := i + 1;
        }
      }
      if i == |items| && ends.Raises? { return Threw; }
      if unordered { result := Sort(result, h.before); }
      return Returned(if note.Some? then result + [Str(note.value)] else result);
    }
  }

  /** `sanitize`: any exception that is left becomes a marker. */
  method SanitizeValue(h: Host, v: Value) returns (j: Json)
    requires h.Lawful(0)
    ensures j == Sanitized(h, v)
  {
    var budget := new Budget();
    var a := budget.Sanitize(h, v, 0, 0);
    return if a.Returned? then a.value else Str(UNREADABLE);
  }

  function Sanitized(h: Host, v: Value): Json
    requires h.Lawful(0)
  {
    var o := S.Sanitize(h, v, 0, FRESH, 0);
    if o.Done? then o.value else Str(UNREADABLE)
  }

  /** `sanitize_event`: may raise. */
  method SanitizeEvent(h: Host, pairs: seq<(Value, Value)>, ends: Ending, skip: set<string>, leading: seq<string>,
                       assembled: set<string>) returns (a: Attempt<seq<Entry>>, budget: Budget)
    requires h.Lawful(0)
    ensures Agrees(a, budget.State(), S.SanitizeEvent(h, pairs, ends, skip, leading, assembled, FRESH))
  {
    budget := new Budget();
    var result := [];
    var n := 0;
    ghost var whole := S.SanitizeLeading(h, pairs, leading, assembled, FRESH, []);
    while n < |leading|
      invariant n <= |leading|
      invariant fresh(budget)
      invariant S.SanitizeLeading(h, pairs, leading[n..], assembled, budget.State(), result) == whole
    {
      var key := leading[n];
      assert leading[n..][0] == key && leading[n..][1..] == leading[n + 1..];
      n := n + 1;
      var item := S.Lookup(pairs, key);
      if item.None? { continue; }
      var content := item.value;
      if key in assembled {
        var text := Assembly.Assemble(h.objects, content);
        content := Text(text);
      }
      var value := budget.Sanitize(h, content, 1, 0);
      if value.Threw? { return Threw, budget; }
      result := Put(result, key, value.value);
    }
    var w := S.Walk(MAX_EVENT_FIELDS, skip + (set k | k in leading), FIELDS_NOTE, assembled);
    a := budget.SanitizeEntries(h, pairs, ends, w, 0, 0, result);
  }
}
