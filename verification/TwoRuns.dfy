/** What a caller writes under the names of operational metadata makes no difference; what every line holds. */
module TwoRuns {
  import opened Text
  import opened Json
  import opened Values
  import opened Ledgers
  import opened Events
  import opened Pipeline
  import S = Sanitizing
  import OutputBound

  // ---------------------------------------------------------------- admission

  /** Only the fields that take a place count towards the limit. */
  lemma RoomIsForCountedFields(fields: seq<Field>)
    requires Distinct(fields)
    ensures Room(fields) == MAX_EVENT_FIELDS - |Filter(fields, UNCOUNTED)|
  {
    FilterCounts(fields, UNCOUNTED);
  }

  lemma SameRoom(f: seq<Field>, g: seq<Field>)
    requires AgreeApart(f, g, IDENTITY_NAMES)
    ensures Room(f) == Room(g)
  {
    RoomIsForCountedFields(f);
    RoomIsForCountedFields(g);
    FilterTwice(f, IDENTITY_NAMES, UNCOUNTED);
    FilterTwice(g, IDENTITY_NAMES, UNCOUNTED);
  }

  /** The request IDs of two events are the same. */
  predicate SameId(f: seq<Field>, g: seq<Field>) {
    Get(f, "request_id") == Get(g, "request_id")
  }

  lemma AssignBoth(f: seq<Field>, g: seq<Field>, name: string, value: Value)
    requires AgreeApart(f, g, IDENTITY_NAMES)
    ensures AgreeApart(Set(f, name, value), Set(g, name, value), IDENTITY_NAMES)
    ensures SameId(f, g) ==> SameId(Set(f, name, value), Set(g, name, value))
    ensures name !in IDENTITY_NAMES ==> Has(f, name) == Has(g, name) && Get(f, name) == Get(g, name)
  {
    hide Set, Get, Distinct, Filter;
    AgreeSet(f, g, IDENTITY_NAMES, name, value);
    SetGets(f, name, value, "request_id");
    SetGets(g, name, value, "request_id");
  }

  lemma DefaultBoth(f: seq<Field>, g: seq<Field>, name: string, value: Value)
    requires AgreeApart(f, g, IDENTITY_NAMES) && name !in IDENTITY_NAMES
    ensures AgreeApart(SetDefault(f, name, value), SetDefault(g, name, value), IDENTITY_NAMES)
    ensures SameId(f, g) ==> SameId(SetDefault(f, name, value), SetDefault(g, name, value))
  {
    hide Set, Get, Distinct, Filter;
    AssignBoth(f, g, name, value);
    AgreeSet(f, g, IDENTITY_NAMES, name, value);
  }

  /** A context variable treats two events that agree alike. */
  lemma MergeOneAgrees(s: Surroundings, f: seq<Field>, g: seq<Field>, v: Variable, room: int)
    requires AgreeApart(f, g, IDENTITY_NAMES)
    ensures var a, b := MergeOne(s, f, v, room), MergeOne(s, g, v, room);
      && a.Full? == b.Full? && (a.Going? ==> a.room == b.room)
      && AgreeApart(a.fields, b.fields, IDENTITY_NAMES)
      && (SameId(f, g) ==> SameId(a.fields, b.fields))
  {
    hide Set, SetDefault, Has, AgreeApart, SameId;
    assert TRUNCATED !in IDENTITY_NAMES;
    DefaultBoth(f, g, TRUNCATED, Text(FIELDS_NOTE));
    if STRUCTLOG_KEY_PREFIX <= v.name {
      var key := v.name[|STRUCTLOG_KEY_PREFIX|..];
      AssignBoth(f, g, key, if v.value.Some? then v.value.value else Nothing);
    }
  }

  lemma {:induction false} MergeFromAgrees(s: Surroundings, f: seq<Field>, g: seq<Field>, k: nat, room: int)
    requires k <= |s.variables| && AgreeApart(f, g, IDENTITY_NAMES)
    ensures AgreeApart(MergeFrom(s, f, k, room), MergeFrom(s, g, k, room), IDENTITY_NAMES)
    ensures SameId(f, g) ==> SameId(MergeFrom(s, f, k, room), MergeFrom(s, g, k, room))
    decreases |s.variables| - k
  {
    hide MergeOne, SetDefault, AgreeApart, SameId;
    if k == |s.variables| {
    } else if k >= MAX_CONTEXT_VARIABLES {
      DefaultBoth(f, g, TRUNCATED, Text(FIELDS_NOTE));
    } else {
      MergeOneAgrees(s, f, g, s.variables[k], room);
      match (MergeOne(s, f, s.variables[k], room), MergeOne(s, g, s.variables[k], room)) {
        case (Going(a, left), Going(b, _)) => MergeFromAgrees(s, a, b, k + 1, left);
        case _ =>
      }
    }
  }

  lemma MergeAgrees(s: Surroundings, f: seq<Field>, g: seq<Field>)
    requires AgreeApart(f, g, IDENTITY_NAMES)
    ensures AgreeApart(Merge(s, f), Merge(s, g), IDENTITY_NAMES)
    ensures SameId(f, g) ==> SameId(Merge(s, f), Merge(s, g))
  {
    hide Set, MergeFrom, AgreeApart, SameId, Room;
    if s.bound.Some? { AssignBoth(f, g, "request_id", s.bound.value); }
    var a := if s.bound.Some? then Set(f, "request_id", s.bound.value) else f;
    var b := if s.bound.Some? then Set(g, "request_id", s.bound.value) else g;
    SameRoom(a, b);
    MergeFromAgrees(s, a, b, 0, Room(a));
  }

  function Counted(fields: seq<Field>): nat {
    |Filter(fields, UNCOUNTED)|
  }

  /** The event may be renamed by a request ID of the context: one is bound, or some variable holds one. */
  predicate BindsId(s: Surroundings) {
    s.bound.Some? || exists k :: 0 <= k < |s.variables| && s.variables[k].name == STRUCTLOG_KEY_PREFIX + "request_id"
  }

  /** What was in the event before is still there and unchanged; only the request ID may be another. */
  ghost predicate Extends(s: Surroundings, before: seq<Field>, after: seq<Field>) {
    && Distinct(after)
    && forall name :: name in Names(before) && (name == "request_id" ==> !BindsId(s)) ==>
         Get(after, name) == Get(before, name)
  }

  lemma AssignExtends(s: Surroundings, fields: seq<Field>, name: string, value: Value)
    requires Distinct(fields) && (name !in Names(fields) || (name == "request_id" && BindsId(s)))
    ensures Extends(s, fields, Set(fields, name, value))
    ensures Counted(Set(fields, name, value)) <= Counted(fields) + if name in UNCOUNTED then 0 else 1
  {
    hide Set, Get, Filter, BindsId, Names;
    SetKeeps(fields, name, value, UNCOUNTED);
    SetLength(Filter(fields, UNCOUNTED), name, value);
    forall other
      ensures Get(Set(fields, name, value), other) == if other == name then Some(value) else Get(fields, other)
    {
      SetGets(fields, name, value, other);
    }
  }

  lemma {:induction false} SetLength(fields: seq<Field>, name: string, value: Value)
    ensures |Set(fields, name, value)| == |fields| + if name in Names(fields) then 0 else 1
  {
    if fields != [] { SetLength(fields[1..], name, value); }
  }

  lemma DefaultExtends(s: Surroundings, fields: seq<Field>, name: string, value: Value)
    requires Distinct(fields)
    ensures Extends(s, fields, SetDefault(fields, name, value))
    ensures Counted(SetDefault(fields, name, value)) <= Counted(fields) + 1
  {
    hide Set, Get, Filter, BindsId, Names;
    if !Has(fields, name) { AssignExtends(s, fields, name, value); }
  }

  /** One variable leaves what is there, and takes at most the room it is said to take. */
  lemma MergeOneKeeps(s: Surroundings, fields: seq<Field>, k: nat, room: int)
    requires k < |s.variables| && Distinct(fields)
    ensures var r := MergeOne(s, fields, s.variables[k], room);
      && Extends(s, fields, r.fields)
      && Counted(r.fields) <= Counted(fields) + (if r.Full? then 1 else room - r.room)
      && (r.Going? ==> room - 1 <= r.room <= room && (r.room < room ==> room > 0))
  {
    hide Set, Get, Filter, SetDefault, Extends, Counted, Distinct;
    var v := s.variables[k];
    SameExtends(s, fields);
    if STRUCTLOG_KEY_PREFIX <= v.name {
      var key := v.name[|STRUCTLOG_KEY_PREFIX|..];
      assert v.name == STRUCTLOG_KEY_PREFIX + key;
      if key == "request_id" {
        assert BindsId(s);
        if v.value.Some? { AssignExtends(s, fields, key, v.value.value); }
      } else if !Has(fields, key) {
        DefaultExtends(s, fields, TRUNCATED, Text(FIELDS_NOTE));
        if v.value.Some? { AssignExtends(s, fields, key, v.value.value); }
      }
    }
  }

  lemma SameExtends(s: Surroundings, fields: seq<Field>)
    requires Distinct(fields)
    ensures Extends(s, fields, fields)
  {
  }

  lemma ExtendsFurther(s: Surroundings, a: seq<Field>, b: seq<Field>, c: seq<Field>)
    requires Extends(s, a, b) && Extends(s, b, c)
    ensures Extends(s, a, c)
  {
    hide BindsId, Distinct;
  }

  lemma {:induction false} MergeFromKeeps(s: Surroundings, fields: seq<Field>, k: nat, room: int)
    requires k <= |s.variables| && Distinct(fields)
    ensures Extends(s, fields, MergeFrom(s, fields, k, room))
    ensures Counted(MergeFrom(s, fields, k, room)) <= Counted(fields) + Max(room, 0) + 1
    decreases |s.variables| - k
  {
    hide Set, Get, Filter, SetDefault, Extends, Counted, Distinct, MergeOne;
    SameExtends(s, fields);
    if k == |s.variables| {
    } else if k >= MAX_CONTEXT_VARIABLES {
      DefaultExtends(s, fields, TRUNCATED, Text(FIELDS_NOTE));
    } else {
      MergeOneKeeps(s, fields, k, room);
      match MergeOne(s, fields, s.variables[k], room) {
        case Full(_) =>
        case Going(more, left) =>
          assert Distinct(more) by { ExtendsDistinct(s, fields, more); }
          MergeFromKeeps(s, more, k + 1, left);
          ExtendsFurther(s, fields, more, MergeFrom(s, more, k + 1, left));
      }
    }
  }

  lemma ExtendsDistinct(s: Surroundings, a: seq<Field>, b: seq<Field>)
    requires Extends(s, a, b)
    ensures Distinct(b)
  {
  }

  /**
   * Admission is bounded, and the fields of the call come first: the context never changes one, except for a request ID
   * it binds, and fills at most the places that are left, whatever number of variables it holds; one marker more.
   */
  lemma MergeIsBounded(s: Surroundings, fields: seq<Field>)
    requires Distinct(fields)
    ensures Extends(s, fields, Merge(s, fields))
    ensures Counted(Merge(s, fields)) <= Max(Counted(fields), MAX_EVENT_FIELDS) + 1
  {
    hide Set, Get, Filter, Extends, Distinct, MergeFrom;
    var bound := if s.bound.Some? then Set(fields, "request_id", s.bound.value) else fields;
    SameExtends(s, fields);
    if s.bound.Some? { AssignExtends(s, fields, "request_id", s.bound.value); }
    ExtendsDistinct(s, fields, bound);
    RoomIsForCountedFields(bound);
    MergeFromKeeps(s, bound, 0, Room(bound));
    ExtendsFurther(s, fields, bound, Merge(s, fields));
  }

  /** Outside a request, and with none bound to the context, the request ID of a line is the one of the event. */
  lemma OutsideARequestTheIdIsRead(s: Surroundings, fields: seq<Field>, identity: seq<Field>, id: Value)
    requires s.host.Lawful(0) && Distinct(fields)
    requires s.request.None? && !BindsId(s) && Get(fields, "request_id") == Some(id)
    ensures Get(Processed(s, fields, identity).1, "request_id") == Some(Text(Trusted(s, id, "request_id")))
  {
    hide Set, Filter, Merge, Assembled, Rendered, Trusted, Distinct, BindsId;
    MergeIsBounded(s, fields);
    var merged := Merge(s, fields);
    WithoutKeeps(merged, "_record", {});
    WithoutKeeps(Without(merged, "_record"), "_from_structlog", {});
    SetGets(identity, "request_id", Text(Trusted(s, id, "request_id")), "request_id");
  }

  // ---------------------------------------------------------------- sanitising

  /** Names short enough that a key is recognised by them. */
  ghost predicate ShortNames(names: set<string>) {
    forall name :: name in names ==> |name| <= MAX_KEY_LENGTH
  }

  /** A list up to an entry, and the entry behind it. */
  lemma FilterNext(fields: seq<Field>, i: nat, drop: set<string>)
    requires i < |fields|
    ensures var before, kept := Filter(fields[..i], drop), Filter(fields, drop);
      Filter(fields[..i + 1], drop) == before + Filter([fields[i]], drop)
      && kept == Filter(fields[..i + 1], drop) + Filter(fields[i + 1..], drop)
  {
    assert fields[..i + 1] == fields[..i] + [fields[i]];
    FilterSum(fields[..i], [fields[i]], drop);
    assert fields == fields[..i + 1] + fields[i + 1..];
    FilterSum(fields[..i + 1], fields[i + 1..], drop);
  }

  /** Among distinct fields at most as many are dropped as there are names to drop. */
  lemma FewAreDropped(fields: seq<Field>, i: nat, drop: set<string>)
    requires Distinct(fields) && i <= |fields|
    ensures i <= |Filter(fields[..i], drop)| + |drop|
  {
    FilterCounts(fields[..i], drop);
    Subset(drop * Names(fields[..i]), drop);
  }

  lemma {:induction false} Subset(a: set<string>, b: set<string>)
    requires a <= b
    ensures |a| <= |b|
    decreases a
  {
    if a != {} {
      var x :| x in a;
      Subset(a - {x}, b - {x});
    }
  }

  /** One field of the event is skipped, or is the next of those that are kept. */
  lemma KeptStep(fields: seq<Field>, i: nat, drop: set<string>)
    requires i < |fields|
    ensures var a := |Filter(fields[..i], drop)|;
      if fields[i].name in drop then |Filter(fields[..i + 1], drop)| == a
      else
        && a < |Filter(fields, drop)| && Filter(fields, drop)[a] == fields[i]
        && |Filter(fields[..i + 1], drop)| == a + 1
  {
    FilterNext(fields, i, drop);
    assert [fields[i]][1..] == [];
  }

  /**
   * The cap on the entries that are looked at never cuts off a field: skipping fields by name comes to the same as
   * sanitising the event without them.
   */
  lemma {:induction false} SkippingIsFiltering(h: Host, fields: seq<Field>, i: nat, w: S.Walk, depth: nat, l: Ledger,
                                               nesting: nat, result: seq<Entry>)
    requires h.Lawful(nesting) && Distinct(fields) && i <= |fields| && ShortNames(w.skip)
    requires |Filter(fields[..i], w.skip)| <= w.limit
    ensures var a, kept := |Filter(fields[..i], w.skip)|, Filter(fields, w.skip);
      && a <= |kept|
      && S.SanitizeEntries(h, Pairs(fields), i, a, Stops, w, depth, l, nesting, result)
         == S.SanitizeEntries(h, Pairs(kept), a, a, Stops, w, depth, l, nesting, result)
    decreases |fields| - i
  {
    hide S.SanitizeEntry, S.LimitEntry, Filter, Distinct, Put;
    var a, kept := |Filter(fields[..i], w.skip)|, Filter(fields, w.skip);
    FewAreDropped(fields, i, w.skip);
    if i == |fields| {
      assert fields[..i] == fields;
    } else {
      KeptStep(fields, i, w.skip);
      var key, item := Pairs(fields)[i].0, Pairs(fields)[i].1;
      assert S.NamedIn(key, w.skip) <==> fields[i].name in w.skip;
      if fields[i].name in w.skip {
        SkippingIsFiltering(h, fields, i + 1, w, depth, l, nesting, result);
      } else {
        assert Pairs(kept)[a] == (key, item);
        if a < w.limit && !l.Exhausted() {
          match S.SanitizeEntry(h, key, item, w, depth, l, nesting) {
            case Raised(_) =>
            case Done(e, left) =>
              SkippingIsFiltering(h, fields, i + 1, w, depth, left, nesting, Put(result, e.key, e.value));
          }
        }
      }
    }
  }

  /** `SanitizeEvent` reads of an event what is under a leading name and what is left when the skipped are dropped. */
  lemma {:induction false} LookupIsGet(fields: seq<Field>, name: string)
    ensures S.Lookup(Pairs(fields), name) == Get(fields, name)
  {
    if fields != [] {
      assert Pairs(fields)[1..] == Pairs(fields[1..]);
      LookupIsGet(fields[1..], name);
    }
  }

  lemma {:induction false} SameLeading(h: Host, f: seq<Field>, g: seq<Field>, leading: seq<string>,
                                       assembled: set<string>, l: Ledger, result: seq<Entry>)
    requires h.Lawful(0) && forall name :: name in leading ==> Get(f, name) == Get(g, name)
    ensures S.SanitizeLeading(h, Pairs(f), leading, assembled, l, result)
         == S.SanitizeLeading(h, Pairs(g), leading, assembled, l, result)
    decreases |leading|
  {
    hide S.Sanitize, S.Lookup, Get, Put;
    if leading != [] {
      LookupIsGet(f, leading[0]);
      LookupIsGet(g, leading[0]);
      match S.Lookup(Pairs(f), leading[0]) {
        case None => SameLeading(h, f, g, leading[1..], assembled, l, result);
        case Some(item) =>
          var content := if leading[0] in assembled then Text(S.Assembly.AssembledText(h.objects, item)) else item;
          match S.Sanitize(h, content, 1, l, 0) {
            case Raised(_) =>
            case Done(j, left) => SameLeading(h, f, g, leading[1..], assembled, left, Put(result, leading[0], j));
          }
      }
    }
  }

  lemma EntriesAgree(h: Host, f: seq<Field>, g: seq<Field>, w: S.Walk, l: Ledger, result: seq<Entry>)
    requires h.Lawful(0) && ShortNames(w.skip) && AgreeApart(f, g, w.skip)
    ensures S.SanitizeEntries(h, Pairs(f), 0, 0, Stops, w, 0, l, 0, result)
         == S.SanitizeEntries(h, Pairs(g), 0, 0, Stops, w, 0, l, 0, result)
  {
    hide S.SanitizeEntries, Filter;
    SkippingIsFiltering(h, f, 0, w, 0, l, 0, result);
    SkippingIsFiltering(h, g, 0, w, 0, l, 0, result);
  }

  lemma SkippedNamesAreShort()
    ensures ShortNames(NOT_PAYLOAD + (set k | k in LEADING_FIELDS))
  {
  }

  lemma NarrowerAgreement(f: seq<Field>, g: seq<Field>, drop: set<string>, more: set<string>)
    requires AgreeApart(f, g, drop) && drop <= more
    ensures AgreeApart(f, g, more)
  {
    FilterTwice(f, drop, more);
    FilterTwice(g, drop, more);
  }

  lemma LeadingAgree(f: seq<Field>, g: seq<Field>)
    requires AgreeApart(f, g, IDENTITY_NAMES)
    ensures forall name :: name in LEADING_FIELDS ==> Get(f, name) == Get(g, name)
  {
    hide Get, Filter, Distinct, Names;
    LeadingAreNotIdentity();
    FilterKeeps(f, IDENTITY_NAMES);
    FilterKeeps(g, IDENTITY_NAMES);
    hide AgreeApart, IDENTITY_NAMES, LEADING_FIELDS;
    forall name | name in LEADING_FIELDS ensures Get(f, name) == Get(g, name) {
      assert Get(Filter(f, IDENTITY_NAMES), name) == Get(f, name);
      assert Get(Filter(g, IDENTITY_NAMES), name) == Get(g, name);
    }
  }

  lemma LeadingAreNotIdentity()
    ensures forall name :: name in LEADING_FIELDS ==> name !in IDENTITY_NAMES
  {
    forall name | name in LEADING_FIELDS ensures name !in IDENTITY_NAMES {
      assert name == "event" || name == "exception" || name == "stack";
      assert name[0] == 'e' || name[1] == 't';
    }
  }

  /** The fields a caller wrote under the names of operational metadata have no part in what is sanitised. */
  lemma SanitizedAgrees(s: Surroundings, f: seq<Field>, g: seq<Field>)
    requires s.host.Lawful(0) && AgreeApart(f, g, IDENTITY_NAMES)
    ensures Sanitized(s, f) == Sanitized(s, g)
  {
    hide S.SanitizeLeading, S.SanitizeEntries, AgreeApart, ShortNames;
    LeadingAgree(f, g);
    SameLeading(s.host, f, g, LEADING_FIELDS, ASSEMBLED_FIELDS, FRESH, []);
    match S.SanitizeLeading(s.host, Pairs(f), LEADING_FIELDS, ASSEMBLED_FIELDS, FRESH, []) {
      case Raised(_) =>
      case Done(result, left) =>
        var w := S.Walk(MAX_EVENT_FIELDS, NOT_PAYLOAD + (set k | k in LEADING_FIELDS), FIELDS_NOTE, ASSEMBLED_FIELDS);
        SkippedNamesAreShort();
        NarrowerAgreement(f, g, IDENTITY_NAMES, w.skip);
        EntriesAgree(s.host, f, g, w, left, result);
    }
  }

  // ---------------------------------------------------------------- the first pass

  lemma PopBoth(f: seq<Field>, g: seq<Field>, name: string)
    requires AgreeApart(f, g, IDENTITY_NAMES) && name !in IDENTITY_NAMES
    ensures AgreeApart(Without(f, name), Without(g, name), IDENTITY_NAMES)
    ensures Get(f, name) == Get(g, name)
    ensures SameId(f, g) ==> SameId(Without(f, name), Without(g, name))
  {
    hide Filter;
    AgreeWithout(f, g, IDENTITY_NAMES, name);
    AgreeSet(f, g, IDENTITY_NAMES, name, Nothing);
    WithoutKeeps(f, name, IDENTITY_NAMES);
    WithoutKeeps(g, name, IDENTITY_NAMES);
  }

  lemma RenderedAgrees(s: Surroundings, f: seq<Field>, g: seq<Field>)
    requires AgreeApart(f, g, IDENTITY_NAMES)
    ensures AgreeApart(Rendered(s, f), Rendered(s, g), IDENTITY_NAMES)
  {
    hide Set, Get, Without, AgreeApart, SameId;
    PopBoth(f, g, "stack_info");
    var a, b := Without(f, "stack_info"), Without(g, "stack_info");
    var info := Get(f, "stack_info");
    if info.Some? && s.truthy(info.value) {
      AssignBoth(a, b, "stack", Text(s.stack));
      a, b := Set(a, "stack", Text(s.stack)), Set(b, "stack", Text(s.stack));
    }
    PopBoth(a, b, "exc_info");
    var exc := Get(a, "exc_info");
    var text := if exc.Some? && s.truthy(exc.value) then s.traceback(exc.value) else None;
    if text.Some? { AssignBoth(Without(a, "exc_info"), Without(b, "exc_info"), "exception", Text(text.value)); }
  }

  /** The first pass makes the same event of two calls that differ only under the names of operational metadata. */
  lemma ProcessedAgrees(s: Surroundings, f: seq<Field>, g: seq<Field>, identity: seq<Field>)
    requires s.host.Lawful(0) && AgreeApart(f, g, IDENTITY_NAMES) && (s.request.Some? || SameId(f, g))
    ensures Processed(s, f, identity) == Processed(s, g, identity)
  {
    hide Merge, Without, Rendered, Assembled, Set, Get, AgreeApart;
    MergeAgrees(s, f, g);
    var a, b := Merge(s, f), Merge(s, g);
    PopBoth(a, b, "_record");
    PopBoth(Without(a, "_record"), Without(b, "_record"), "_from_structlog");
    a, b := Without(Without(a, "_record"), "_from_structlog"), Without(Without(b, "_record"), "_from_structlog");
    RenderedAgrees(s, a, b);
    AssembledAgrees(s, Rendered(s, a), Rendered(s, b), WithRequestId(s, identity, a));
  }

  lemma AssembledAgrees(s: Surroundings, f: seq<Field>, g: seq<Field>, identity: seq<Field>)
    requires s.host.Lawful(0) && AgreeApart(f, g, IDENTITY_NAMES)
    ensures Assembled(s, f, identity) == Assembled(s, g, identity)
  {
    hide Sanitized, WithEntries, InOrder;
    SanitizedAgrees(s, f, g);
  }

  // ---------------------------------------------------------------- the final pass

  lemma SetDefaultNames(result: seq<Field>, name: string, value: Value)
    ensures Names(SetDefault(result, name, value)) == Names(result) + {name}
    ensures forall other :: other in Names(result) ==> Get(SetDefault(result, name, value), other) == Get(result, other)
  {
    hide Set, Get;
    if !Has(result, name) {
      forall other ensures other in Names(result) ==> Get(Set(result, name, value), other) == Get(result, other) {
        SetGets(result, name, value, other);
      }
    }
  }

  /** Fields whose names are already taken are left behind. */
  lemma {:induction false} TakenNamesAreIgnored(result: seq<Field>, fields: seq<Field>, drop: set<string>)
    requires drop * Names(fields) <= Names(result)
    ensures WithFields(result, fields) == WithFields(result, Filter(fields, drop))
    decreases |fields|
  {
    hide SetDefault;
    if fields != [] {
      var next := SetDefault(result, fields[0].name, fields[0].value);
      SetDefaultNames(result, fields[0].name, fields[0].value);
      TakenNamesAreIgnored(next, fields[1..], drop);
      if fields[0].name in drop {
        AlreadyThere(result, fields[0].name, fields[0].value);
      } else {
        assert Filter(fields, drop)[1..] == Filter(fields[1..], drop);
      }
    }
  }

  lemma AlreadyThere(result: seq<Field>, name: string, value: Value)
    requires name in Names(result)
    ensures SetDefault(result, name, value) == result
  {
  }

  /** The metadata of a line within a request: from the log record, the configuration and the server, in this order. */
  function Metadata(s: Surroundings, from: Source): (fields: seq<Field>)
    requires s.request.Some?
    ensures |fields| == 6 && forall f :: f in fields ==> f.value.Text?
  {
    [Field("timestamp", Text(Trusted(s, from.timestamp, "timestamp"))),
     Field("level", Text(Trusted(s, from.level, "level"))),
     Field("logger", Text(Trusted(s, from.logger, "logger"))),
     Field("service", Text(Trusted(s, from.service, "service"))),
     Field("environment", Text(Trusted(s, from.environment, "environment"))),
     Field("request_id", Text(Trusted(s, s.request.value, "request_id")))]
  }

  /** Establishing the request ID again, whatever the event holds, changes nothing within a request. */
  lemma EstablishedInOrder(s: Surroundings, from: Source, fields: seq<Field>, others: seq<Field>)
    requires s.request.Some?
    ensures var identity := WithRequestId(s, Established(s, from), fields);
      && WithRequestId(s, identity, others) == identity
      && InOrder(identity, IDENTITY) == Metadata(s, from)
  {
    hide Trusted;
    var id := Text(Trusted(s, s.request.value, "request_id"));
    var five := Established(s, from);
    assert Names(five) == {"level", "logger", "service", "environment", "timestamp"} by { FiveNames(s, from); }
    SetAppends(five, "request_id", id);
    var six := five + [Field("request_id", id)];
    SetLast(five, Field("request_id", id));
    SixInOrder(six);
  }

  lemma FiveNames(s: Surroundings, from: Source)
    ensures Names(Established(s, from)) == {"level", "logger", "service", "environment", "timestamp"}
  {
    hide Trusted;
    var five := Established(s, from);
    assert Names(five[5..]) == {};
    assert five[4..][1..] == five[5..] && five[3..][1..] == five[4..];
    assert five[2..][1..] == five[3..] && five[1..][1..] == five[2..];
    assert Names(five[4..]) == {"timestamp"};
    assert Names(five[3..]) == {"environment", "timestamp"};
    assert Names(five[2..]) == {"service", "environment", "timestamp"};
    assert Names(five[1..]) == {"logger", "service", "environment", "timestamp"};
  }

  lemma {:induction false} SetLast(front: seq<Field>, last: Field)
    requires last.name !in Names(front)
    ensures Set(front + [last], last.name, last.value) == front + [last]
  {
    var whole := front + [last];
    if front == [] {
      assert whole[1..] == [];
    } else {
      assert whole[1..] == front[1..] + [last];
      SetLast(front[1..], last);
    }
  }

  lemma SixInOrder(six: seq<Field>)
    requires |six| == 6 && six[0].name == "level" && six[1].name == "logger" && six[2].name == "service"
    requires six[3].name == "environment" && six[4].name == "timestamp" && six[5].name == "request_id"
    ensures InOrder(six, IDENTITY) == [six[4], six[0], six[1], six[2], six[3], six[5]]
  {
    GetSix(six);
    InOrderIs(six, IDENTITY, [six[4], six[0], six[1], six[2], six[3], six[5]]);
  }

  /** Fields that are all there are listed in the order of their names. */
  lemma {:induction false} InOrderIs(fields: seq<Field>, names: seq<string>, order: seq<Field>)
    requires |names| == |order|
    requires forall i :: 0 <= i < |names| ==> order[i].name == names[i] && Get(fields, names[i]) == Some(order[i].value)
    ensures InOrder(fields, names) == order
    decreases |names|
  {
    hide Get;
    if names != [] {
      assert order[0].name == names[0];
      InOrderIs(fields, names[1..], order[1..]);
      assert order == [order[0]] + order[1..];
    }
  }

  lemma GetSix(six: seq<Field>)
    requires Distinct(six)
    ensures forall i :: 0 <= i < |six| ==> Get(six, six[i].name) == Some(six[i].value)
  {
    forall i | 0 <= i < |six| ensures Get(six, six[i].name) == Some(six[i].value) { GetAt(six, i); }
  }

  lemma {:induction false} GetAt(fields: seq<Field>, i: nat)
    requires Distinct(fields) && i < |fields|
    ensures Get(fields, fields[i].name) == Some(fields[i].value)
  {
    if i > 0 {
      DistinctHead(fields);
      GetAt(fields[1..], i - 1);
      assert fields[0].name != fields[i].name;
    }
  }

  lemma MetadataNames(s: Surroundings, from: Source)
    requires s.request.Some?
    ensures Names(Metadata(s, from)) == IDENTITY_NAMES && Distinct(Metadata(s, from))
  {
    hide Trusted;
    var six := Metadata(s, from);
    forall name ensures name in Names(six) <==> name in IDENTITY_NAMES {
      NamesOf(six, name);
      assert six[0].name == "timestamp" && six[1].name == "level" && six[2].name == "logger";
      assert six[3].name == "service" && six[4].name == "environment" && six[5].name == "request_id";
    }
  }

  /** The event the final pass makes, within a request: the metadata, and the fields of the event under other names. */
  lemma FinishedWithinARequest(s: Surroundings, fields: seq<Field>, from: Source, processed: bool)
    requires s.host.Lawful(0) && s.request.Some?
    ensures var known := WithRequestId(s, Established(s, from), []);
      var event := if processed then fields else Processed(s, fields, known).0;
      Finished(s, fields, from, processed) == WithFields(Metadata(s, from), Filter(event, IDENTITY_NAMES))
  {
    hide WithFields, Merge, Without, Rendered, Assembled, Set, Get, Trusted, InOrder, Established;
    var known := WithRequestId(s, Established(s, from), []);
    var event := if processed then fields else Processed(s, fields, known).0;
    EstablishedInOrder(s, from, [], event);
    RequestIdIsStable(s, fields, from);
    MetadataNames(s, from);
    TakenNamesAreIgnored(Metadata(s, from), event, IDENTITY_NAMES);
  }

  lemma RequestIdIsStable(s: Surroundings, fields: seq<Field>, from: Source)
    requires s.host.Lawful(0) && s.request.Some?
    ensures var known := WithRequestId(s, Established(s, from), []);
      Processed(s, fields, known).1 == known
  {
    hide Merge, Without, Rendered, Assembled, Set, Get, Trusted, InOrder, Established;
    var plain := Without(Without(Merge(s, fields), "_record"), "_from_structlog");
    EstablishedInOrder(s, from, [], plain);
  }

  /**
   * The two-run property. Within a request, two events that differ only in fields named as operational metadata give
   * the same line, by either path: the same other fields are admitted and they read the same. Outside a request the
   * same holds if the two carry the same request ID.
   */
  lemma NamesOfMetadataAreNotRead(s: Surroundings, f: seq<Field>, g: seq<Field>, call: Source, record: Source)
    requires s.host.Lawful(0) && AgreeApart(f, g, IDENTITY_NAMES) && (s.request.Some? || SameId(f, g))
    ensures EventLine(s, f, call, record) == EventLine(s, g, call, record)
    ensures RecordLine(s, f, record) == RecordLine(s, g, record)
    ensures s.request.Some? ==> Finished(s, f, record, true) == Finished(s, g, record, true)
  {
    hide Merge, Without, Rendered, Assembled, Set, Get, Trusted, InOrder, Established, Redacted;
    hide WithFields, Filter, Processed, AgreeApart, WithRequestId;
    ProcessedAgrees(s, f, g, Established(s, call));
    ProcessedAgrees(s, f, g, WithRequestId(s, Established(s, record), []));
    if s.request.Some? {
      FinishedWithinARequest(s, f, record, true);
      FinishedWithinARequest(s, g, record, true);
      SameRest(f, g);
    }
  }

  lemma SameRest(f: seq<Field>, g: seq<Field>)
    requires AgreeApart(f, g, IDENTITY_NAMES)
    ensures Filter(f, IDENTITY_NAMES) == Filter(g, IDENTITY_NAMES)
  {
  }

  // ---------------------------------------------------------------- what every line holds

  lemma {:induction false} WithFieldsGets(result: seq<Field>, fields: seq<Field>, name: string)
    requires name in Names(result)
    ensures Get(WithFields(result, fields), name) == Get(result, name)
    decreases |fields|
  {
    hide SetDefault, Get;
    if fields != [] {
      SetDefaultNames(result, fields[0].name, fields[0].value);
      WithFieldsGets(SetDefault(result, fields[0].name, fields[0].value), fields[1..], name);
    }
  }

  /** The metadata as the line holds it. */
  function Shown(fields: seq<Field>): seq<Entry>
    requires forall f :: f in fields ==> f.value.Text?
  {
    if fields == [] then [] else [Entry(fields[0].name, Str(fields[0].value.text))] + Shown(fields[1..])
  }

  /** Validating identifiers that were validated leaves them as they are. */
  lemma {:induction false} IdentityIsRead(s: Surroundings, fields: seq<Field>, six: seq<Field>, names: seq<string>)
    requires |six| == |names|
    requires forall i :: 0 <= i < |six| ==> six[i].name == names[i] && Get(fields, names[i]) == Some(six[i].value)
    requires forall i :: 0 <= i < |six| ==>
      six[i].value.Text? && Trusted(s, six[i].value, names[i]) == six[i].value.text
    ensures IdentityOf(s, fields, names) == Shown(six)
    decreases |names|
  {
    hide Trusted, Get;
    if names != [] {
      assert six[0].name == names[0] && Get(fields, names[0]) == Some(six[0].value);
      IdentityIsRead(s, fields, six[1..], names[1..]);
    }
  }

  /** The line starts with `shown`, and nothing behind it has the name of metadata. */
  predicate StartsWith(line: seq<Entry>, shown: seq<Entry>) {
    shown <= line && forall i :: |shown| <= i < |line| ==> line[i].key !in IDENTITY_NAMES
  }

  /**
   * Operational metadata is established, never read from the event: within a request every line starts with the six
   * identifiers taken from the log record, the configuration and the server, whatever the event holds, and no other
   * field of the line has one of their names.
   */
  lemma OperationalMetadataIsEstablished(s: Surroundings, fields: seq<Field>, from: Source, processed: bool)
    requires s.host.Lawful(0) && s.request.Some?
    ensures var event := Finished(s, fields, from, processed);
      var shown := Shown(Metadata(s, from));
      && IdentityOf(s, event, IDENTITY) == shown
      && (Sanitized(s, event).Done? ==> |shown| == 6 && StartsWith(Redacted(s, event), shown))
  {
    hide Trusted, Sanitized, Finished, Get, WithFields, Filter, Processed, Put, SetDefault, Established, Names;
    var event := Finished(s, fields, from, processed);
    var six := Metadata(s, from);
    FinishedWithinARequest(s, fields, from, processed);
    MetadataNames(s, from);
    var known := WithRequestId(s, Established(s, from), []);
    var rest := Filter(if processed then fields else Processed(s, fields, known).0, IDENTITY_NAMES);
    forall i | 0 <= i < 6 ensures six[i].name == IDENTITY[i] && Get(event, IDENTITY[i]) == Some(six[i].value) {
      assert six[i].name == IDENTITY[i];
      assert six[i].name in Names(six) by { NamesOf(six, six[i].name); }
      WithFieldsGets(six, rest, IDENTITY[i]);
      GetAt(six, i);
    }
    SixAreTrusted(s, from);
    IdentityIsRead(s, event, six, IDENTITY);
    if Sanitized(s, event).Done? {
      var entries := Sanitized(s, event).value;
      ShownKeys(six);
      DefaultedKeeps(Shown(six), entries);
      assert forall name :: name in IDENTITY_NAMES ==> name in Keys(Shown(six)) by { ShownMetadata(s, from); }
    }
  }

  lemma SixAreTrusted(s: Surroundings, from: Source)
    requires s.request.Some?
    ensures var six := Metadata(s, from);
      forall i :: 0 <= i < 6 ==> six[i].value.Text? && Trusted(s, six[i].value, IDENTITY[i]) == six[i].value.text
  {
    hide Trusted;
    TrustedIsStable(s, from.timestamp, "timestamp");
    TrustedIsStable(s, from.level, "level");
    TrustedIsStable(s, from.logger, "logger");
    TrustedIsStable(s, from.service, "service");
    TrustedIsStable(s, from.environment, "environment");
    TrustedIsStable(s, s.request.value, "request_id");
  }

  lemma {:induction false} ShownKeys(fields: seq<Field>)
    requires Distinct(fields) && forall f :: f in fields ==> f.value.Text?
    ensures |Shown(fields)| == |fields| && DistinctKeys(Shown(fields))
    ensures forall i :: 0 <= i < |fields| ==> Shown(fields)[i].key == fields[i].name
  {
    if fields != [] {
      DistinctHead(fields);
      ShownKeys(fields[1..]);
      assert forall i :: 0 < i < |fields| ==> Shown(fields)[i] == Shown(fields[1..])[i - 1];
    }
  }

  lemma ShownMetadata(s: Surroundings, from: Source)
    requires s.request.Some?
    ensures forall name :: name in IDENTITY_NAMES ==> name in Keys(Shown(Metadata(s, from)))
  {
    hide Trusted;
    var six := Metadata(s, from);
    MetadataNames(s, from);
    ShownKeys(six);
    forall name | name in IDENTITY_NAMES ensures name in Keys(Shown(six)) {
      NamesOf(six, name);
      var i :| 0 <= i < |six| && six[i].name == name;
      assert Shown(six)[i].key == name;
    }
  }

  /** What stands first stays first, and a key stands once. */
  lemma {:induction false} DefaultedKeeps(result: seq<Entry>, entries: seq<Entry>)
    requires DistinctKeys(result)
    ensures result <= Defaulted(result, entries) && DistinctKeys(Defaulted(result, entries))
    ensures forall i :: |result| <= i < |Defaulted(result, entries)| ==>
      Defaulted(result, entries)[i].key !in Keys(result)
  {
    if entries != [] {
      var front, last := entries[..|entries| - 1], entries[|entries| - 1];
      DefaultedKeeps(result, front);
      var before := Defaulted(result, front);
      if last.key !in Keys(before) {
        PutKeys(before, last.key, last.value);
        assert Defaulted(result, entries) == before + [Entry(last.key, last.value)];
        assert forall i :: 0 <= i < |result| ==> before[i] == result[i];
        assert last.key !in Keys(result);
      }
    }
  }

  // ---------------------------------------------------------------- the length of a line

  lemma {:induction false} DefaultedWeight(result: seq<Entry>, entries: seq<Entry>)
    ensures EntriesWeight(Defaulted(result, entries)) <= EntriesWeight(result) + EntriesWeight(entries)
  {
    hide Render, RenderEntries, Put, EntryWeight;
    if entries != [] {
      var front, last := entries[..|entries| - 1], entries[|entries| - 1];
      DefaultedWeight(result, front);
      PutWeight(Defaulted(result, front), last.key, last.value);
      EntriesWeightSnoc(front, last.key, last.value);
      assert front + [Entry(last.key, last.value)] == entries;
    }
  }

  lemma PlainEntry(key: Plain, text: Plain)
    ensures EntryWeight(key, Str(text)) == |key| + |text| + 8
  {
    PlainQuote(key);
    PlainQuote(text);
  }

  /** Two parts of a rendering add up. */
  lemma {:induction false} EntriesSum(a: seq<Entry>, b: seq<Entry>)
    ensures EntriesWeight(a + b) == EntriesWeight(a) + EntriesWeight(b)
  {
    hide RenderEntries, EntryWeight;
    if b == [] {
      assert a + b == a;
    } else {
      var front, last := b[..|b| - 1], b[|b| - 1];
      EntriesSum(a, front);
      EntriesWeightSnoc(a + front, last.key, last.value);
      EntriesWeightSnoc(front, last.key, last.value);
      assert a + b == (a + front) + [Entry(last.key, last.value)] && front + [Entry(last.key, last.value)] == b;
    }
  }

  const IDENTIFIER_WEIGHT := 160

  lemma {:induction false} IdentityWeight(s: Surroundings, fields: seq<Field>, names: seq<string>)
    requires s.Lawful()
    requires forall name :: name in names ==> IsPlainName(name)
    ensures EntriesWeight(IdentityOf(s, fields, names)) <= IDENTIFIER_WEIGHT * |names|
    decreases |names|
  {
    hide Trusted, Get, EntriesWeight, EntryWeight;
    if names == [] {
      assert EntriesWeight([]) == 0 by { NoWeight(); }
    } else {
      IdentityWeight(s, fields, names[1..]);
      var v := Get(fields, names[0]);
      if v.Some? {
        TrustedIsShort(s, v.value, names[0]);
        assert IsPlainName(names[0]);
        PlainEntry(names[0], Trusted(s, v.value, names[0]));
        OneEntry(names[0], Str(Trusted(s, v.value, names[0])));
        EntriesSum([Entry(names[0], Str(Trusted(s, v.value, names[0])))], IdentityOf(s, fields, names[1..]));
      } else {
        assert [] + IdentityOf(s, fields, names[1..]) == IdentityOf(s, fields, names[1..]);
      }
    }
  }

  lemma NoWeight()
    ensures EntriesWeight([]) == 0
  {
  }

  lemma OneEntry(key: string, value: Json)
    ensures EntriesWeight([Entry(key, value)]) == EntryWeight(key, value)
  {
    EntriesWeightSnoc([], key, value);
    assert [] + [Entry(key, value)] == [Entry(key, value)];
  }

  predicate IsPlainName(name: string) {
    |name| <= 24 && forall i :: 0 <= i < |name| ==> IsPlain(name[i])
  }

  lemma NamesArePlain()
    ensures forall name :: name in IDENTITY ==> IsPlainName(name)
  {
    assert IsPlainName("timestamp") && IsPlainName("level") && IsPlainName("logger");
    assert IsPlainName("service") && IsPlainName("environment") && IsPlainName("request_id");
    hide IsPlainName;
    forall name | name in IDENTITY ensures IsPlainName(name) {
      assert name in ["timestamp", "level", "logger", "service", "environment", "request_id"];
    }
  }

  lemma LeadingNamesWeight()
    ensures OutputBound.NamesWeight(LEADING_FIELDS) == 79
  {
    PlainQuote("event");
    PlainQuote("exception");
    PlainQuote("stack");
    var behind := LEADING_FIELDS[1..];
    assert behind == ["exception", "stack"] && behind[1..] == ["stack"] && behind[1..][1..] == [];
  }

  /** However many fields an event has and whatever they hold, its JSON line is within the bound on one line. */
  lemma LineIsBounded(s: Surroundings, fields: seq<Field>)
    requires s.Lawful()
    ensures |Render(Dict(Redacted(s, fields)))| <= OutputBound.MAX_RENDERED_EVENT_LENGTH
  {
    hide IdentityOf, Sanitized, Defaulted, RenderEntries, EntryWeight, Render, EntriesWeight, IDENTITY;
    DictWeight(Redacted(s, fields));
    SixIdentifiers(s, fields);
    match Sanitized(s, fields) {
      case Raised(_) => FailureWeight(s, IdentityOf(s, fields, IDENTITY));
      case Done(entries, _) =>
        FieldsWeight(s, fields);
        DefaultedWeight(IdentityOf(s, fields, IDENTITY), entries);
    }
  }

  lemma SixIdentifiers(s: Surroundings, fields: seq<Field>)
    requires s.Lawful()
    ensures EntriesWeight(IdentityOf(s, fields, IDENTITY)) <= 6 * IDENTIFIER_WEIGHT
  {
    hide IdentityOf, EntriesWeight, IsPlainName;
    NamesArePlain();
    IdentityWeight(s, fields, IDENTITY);
  }

  lemma FailureWeight(s: Surroundings, identity: seq<Entry>)
    requires s.Lawful()
    ensures var failed := [Entry("event", Str("log_event_redaction_failed")), Entry("error_type", Str(s.error))];
      EntriesWeight(failed + identity) <= EntriesWeight(identity) + 1_000
  {
    hide EntriesWeight, EntryWeight;
    var event: Plain := "log_event_redaction_failed";
    PlainEntry("event", event);
    PlainEntry("error_type", s.error);
    var first, second := [Entry("event", Str(event))], [Entry("error_type", Str(s.error))];
    OneEntry("event", Str(event));
    OneEntry("error_type", Str(s.error));
    EntriesSum(first, second);
    EntriesSum(first + second, identity);
    assert first + second == [Entry("event", Str(event)), Entry("error_type", Str(s.error))];
  }

  lemma FieldsWeight(s: Surroundings, fields: seq<Field>)
    requires s.Lawful() && Sanitized(s, fields).Done?
    ensures EntriesWeight(Sanitized(s, fields).value) <= 102_000
  {
    hide EntriesWeight, OutputBound.NamesWeight, S.SanitizeEvent;
    LeadingNamesWeight();
    OutputBound.EventIsBounded(s.host, Pairs(fields), Stops, NOT_PAYLOAD, LEADING_FIELDS, ASSEMBLED_FIELDS);
  }

  /** The fixed record that replaces an oversized line is never needed for JSON lines. */
  lemma NoLineIsOversized(s: Surroundings, fields: seq<Field>, call: Source, record: Source)
    requires s.Lawful()
    ensures |EventLine(s, fields, call, record)| <= OutputBound.MAX_RENDERED_EVENT_LENGTH
    ensures |RecordLine(s, fields, record)| <= OutputBound.MAX_RENDERED_EVENT_LENGTH
  {
    hide Redacted, Finished, Processed, Established;
    LineIsBounded(s, Finished(s, Processed(s, fields, Established(s, call)).0, record, true));
    LineIsBounded(s, Finished(s, fields, record, false));
  }
}
