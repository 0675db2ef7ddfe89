/** The event dict of the logging pipeline: named fields in the order in which they were first set. */
module Events {
  import opened Values

  datatype Field = Field(name: string, value: Value)

  predicate Distinct(fields: seq<Field>) {
    forall i, j :: 0 <= i < j < |fields| ==> fields[i].name != fields[j].name
  }

  function Names(fields: seq<Field>): set<string> {
    if fields == [] then {} else {fields[0].name} + Names(fields[1..])
  }

  /** `d.get(name)`. */
  function Get(fields: seq<Field>, name: string): (v: Option<Value>)
    ensures v.Some? <==> name in Names(fields)
  {
    if fields == [] then None
    else if fields[0].name == name then Some(fields[0].value)
    else Get(fields[1..], name)
  }

  predicate Has(fields: seq<Field>, name: string) {
    Get(fields, name).Some?
  }

  /** `d[name] = value`. */
  function Set(fields: seq<Field>, name: string, value: Value): (r: seq<Field>)
    ensures Names(r) == Names(fields) + {name}
  {
    if fields == [] then [Field(name, value)]
    else if fields[0].name == name then [Field(name, value)] + fields[1..]
    else [fields[0]] + Set(fields[1..], name, value)
  }

  /** `d.setdefault(name, value)`. */
  function SetDefault(fields: seq<Field>, name: string, value: Value): seq<Field> {
    if Has(fields, name) then fields else Set(fields, name, value)
  }

  /** `d.pop(name, None)`. */
  function Without(fields: seq<Field>, name: string): (r: seq<Field>)
    ensures Names(r) <= Names(fields)
  {
    if fields == [] then []
    else if fields[0].name == name then fields[1..]
    else [fields[0]] + Without(fields[1..], name)
  }

  /** The fields whose names are not in `drop`, in order. */
  function Filter(fields: seq<Field>, drop: set<string>): (r: seq<Field>)
    ensures Names(r) == Names(fields) - drop
  {
    if fields == [] then []
    else if fields[0].name in drop then Filter(fields[1..], drop)
    else [fields[0]] + Filter(fields[1..], drop)
  }

  lemma {:induction false} NamesOf(fields: seq<Field>, name: string)
    ensures name in Names(fields) <==> exists i :: 0 <= i < |fields| && fields[i].name == name
  {
    if fields != [] {
      NamesOf(fields[1..], name);
      assert forall i :: 0 < i < |fields| ==> fields[i] == fields[1..][i - 1];
      if name in Names(fields[1..]) {
        var i :| 0 <= i < |fields| - 1 && fields[1..][i].name == name;
        assert fields[i + 1].name == name;
      }
    }
  }

  /** Names are distinct if the first is not among the others and those are distinct. */
  lemma DistinctHead(fields: seq<Field>)
    requires fields != []
    ensures Distinct(fields) <==> Distinct(fields[1..]) && fields[0].name !in Names(fields[1..])
  {
    NamesOf(fields[1..], fields[0].name);
    assert forall i :: 0 < i < |fields| ==> fields[i] == fields[1..][i - 1];
    if Distinct(fields[1..]) && fields[0].name !in Names(fields[1..]) {
      forall i, j | 0 <= i < j < |fields| ensures fields[i].name != fields[j].name {
        assert fields[j] == fields[1..][j - 1];
        if i > 0 { assert fields[i] == fields[1..][i - 1]; }
      }
    }
  }

  lemma {:induction false} SetKeeps(fields: seq<Field>, name: string, value: Value, drop: set<string>)
    requires Distinct(fields)
    ensures Distinct(Set(fields, name, value)) && Get(Set(fields, name, value), name) == Some(value)
    ensures Filter(Set(fields, name, value), drop)
         == if name in drop then Filter(fields, drop) else Set(Filter(fields, drop), name, value)
  {
    var r := Set(fields, name, value);
    if fields == [] {
    } else {
      DistinctHead(fields);
      SetKeeps(fields[1..], name, value, drop);
      assert fields == [fields[0]] + fields[1..];
      assert r[1..] == if fields[0].name == name then fields[1..] else Set(fields[1..], name, value);
      DistinctHead(r);
      if fields[0].name !in drop {
        var kept := Filter(fields, drop);
        assert kept[1..] == Filter(fields[1..], drop);
      } else if fields[0].name != name && name !in drop {
        assert Filter(r, drop) == Filter(r[1..], drop);
      }
    }
  }

  lemma {:induction false} SetGets(fields: seq<Field>, name: string, value: Value, other: string)
    ensures Get(Set(fields, name, value), other) == if other == name then Some(value) else Get(fields, other)
  {
    var r := Set(fields, name, value);
    if fields != [] {
      assert r[1..] == if fields[0].name == name then fields[1..] else Set(fields[1..], name, value);
      SetGets(fields[1..], name, value, other);
    }
  }

  lemma {:induction false} WithoutKeeps(fields: seq<Field>, name: string, drop: set<string>)
    requires Distinct(fields)
    ensures Distinct(Without(fields, name)) && name !in Names(Without(fields, name))
    ensures name !in drop ==> Filter(Without(fields, name), drop) == Without(Filter(fields, drop), name)
    ensures name in drop ==> Filter(Without(fields, name), drop) == Filter(fields, drop)
    ensures forall other :: other != name ==> Get(Without(fields, name), other) == Get(fields, other)
  {
    if fields != [] {
      var r := Without(fields, name);
      DistinctHead(fields);
      WithoutKeeps(fields[1..], name, drop);
      if fields[0].name != name {
        assert r[1..] == Without(fields[1..], name);
        DistinctHead(r);
        if fields[0].name !in drop { assert Filter(fields, drop)[1..] == Filter(fields[1..], drop); }
      } else if name !in drop {
        assert Filter(fields, drop)[1..] == Filter(fields[1..], drop);
      }
    }
  }

  /** Every field is kept or dropped, and no name is dropped twice. */
  lemma {:induction false} FilterCounts(fields: seq<Field>, drop: set<string>)
    requires Distinct(fields)
    ensures |fields| == |Filter(fields, drop)| + |drop * Names(fields)|
  {
    if fields != [] {
      DistinctHead(fields);
      FilterCounts(fields[1..], drop);
      if fields[0].name in drop {
        assert drop * Names(fields) == drop * Names(fields[1..]) + {fields[0].name};
      } else {
        assert drop * Names(fields) == drop * Names(fields[1..]);
      }
    }
  }

  /** Dropping fields keeps the others as they are. */
  lemma {:induction false} FilterKeeps(fields: seq<Field>, drop: set<string>)
    requires Distinct(fields)
    ensures Distinct(Filter(fields, drop))
    ensures forall name :: name !in drop ==> Get(Filter(fields, drop), name) == Get(fields, name)
  {
    if fields != [] {
      DistinctHead(fields);
      FilterKeeps(fields[1..], drop);
      var r := Filter(fields, drop);
      if fields[0].name !in drop {
        assert r[1..] == Filter(fields[1..], drop);
        DistinctHead(r);
      }
    }
  }

  lemma {:induction false} FilterTwice(fields: seq<Field>, drop: set<string>, more: set<string>)
    requires drop <= more
    ensures Filter(Filter(fields, drop), more) == Filter(fields, more)
  {
    if fields != [] {
      FilterTwice(fields[1..], drop, more);
      if fields[0].name !in drop { assert Filter(fields, drop)[1..] == Filter(fields[1..], drop); }
    }
  }

  lemma {:induction false} FilterSum(a: seq<Field>, b: seq<Field>, drop: set<string>)
    ensures Filter(a + b, drop) == Filter(a, drop) + Filter(b, drop)
  {
    if a == [] {
      assert a + b == b;
    } else {
      assert (a + b)[1..] == a[1..] + b;
      FilterSum(a[1..], b, drop);
    }
  }

  /** Two events agree apart from the fields named in `drop`. */
  predicate AgreeApart(f: seq<Field>, g: seq<Field>, drop: set<string>) {
    Distinct(f) && Distinct(g) && Filter(f, drop) == Filter(g, drop)
  }

  /** Setting, defaulting and removing the same field keeps two events in agreement. */
  lemma AgreeSet(f: seq<Field>, g: seq<Field>, drop: set<string>, name: string, value: Value)
    requires AgreeApart(f, g, drop)
    ensures AgreeApart(Set(f, name, value), Set(g, name, value), drop)
    ensures name !in drop ==> AgreeApart(SetDefault(f, name, value), SetDefault(g, name, value), drop)
    ensures name !in drop ==> Get(f, name) == Get(g, name)
  {
    SetKeeps(f, name, value, drop);
    SetKeeps(g, name, value, drop);
    FilterKeeps(f, drop);
    FilterKeeps(g, drop);
  }

  lemma AgreeWithout(f: seq<Field>, g: seq<Field>, drop: set<string>, name: string)
    requires AgreeApart(f, g, drop)
    ensures AgreeApart(Without(f, name), Without(g, name), drop)
  {
    WithoutKeeps(f, name, drop);
    WithoutKeeps(g, name, drop);
  }

  /** The event dict as the pipeline changes it. */
  class EventDict {
    var fields: seq<Field>

    constructor (fields: seq<Field>)
      ensures this.fields == fields
    {
      this.fields := fields;
    }

    method Assign(name: string, value: Value)
      modifies this
      ensures fields == Set(old(fields), name, value)
    {
      fields := Set(fields, name, value);
    }

    method Default(name: string, value: Value)
      modifies this
      ensures fields == SetDefault(old(fields), name, value)
    {
      if !Has(fields, name) { fields := Set(fields, name, value); }
    }

    method Pop(name: string) returns (v: Option<Value>)
      modifies this
      ensures v == Get(old(fields), name) && fields == Without(old(fields), name)
    {
      v := Get(fields, name);
      fields := Without(fields, name);
    }
  }
}
