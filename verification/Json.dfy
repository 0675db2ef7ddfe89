/** JSON values as the sanitiser emits them, and the text a renderer lays them out as. */
module Json {
  import opened Text

  /** A float as `repr` writes it and as JSON writes it: only the infinities differ. */
  datatype Float = Finite(text: FloatText) | Infinite(negative: bool) | NotANumber {
    function Repr(): string {
      match this
      case Finite(text) => text
      case Infinite(negative) => if negative then "-inf" else "inf"
      case NotANumber => "nan"
    }

    function Rendered(): string {
      match this
      case Finite(text) => text
      case Infinite(negative) => if negative then "-Infinity" else "Infinity"
      case NotANumber => "NaN"
    }
  }

  /** The shortest text that reads back as a double has at most 24 characters. */
  type FloatText = s: Plain | |s| <= 24 && (forall i :: 0 <= i < |s| ==> IsDigit(s[i]) || s[i] in ".e+-") witness ""

  datatype Json =
    | Null
    | Flag(b: bool)
    | Whole(n: int)
    | Real(f: Float)
    | Str(s: string)
    | List(items: seq<Json>)
    | Dict(entries: seq<Entry>)

  datatype Entry = Entry(key: string, value: Json)

  // ---------------------------------------------------------------- strings

  function HexDigit(n: nat): char
    requires n < 16
  {
    "0123456789abcdef"[n]
  }

  function Hex4(n: nat): (s: string)
    requires n < 0x10000
    ensures |s| == 4
  {
    [HexDigit(n / 4096), HexDigit(n / 256 % 16), HexDigit(n / 16 % 16), HexDigit(n % 16)]
  }

  /** One character as `json.dumps` writes it with its default `ensure_ascii`. */
  function Escape(c: char): (s: string)
    ensures IsPlain(c) ==> s == [c]
    ensures c as int < 128 ==> |s| <= 6
    ensures 1 <= |s| <= 12
  {
    var code := c as int;
    if c == '"' then "\\\""
    else if c == '\\' then "\\\\"
    else if c == '\n' then "\\n"
    else if c == '\r' then "\\r"
    else if c == '\t' then "\\t"
    else if code == 8 then "\\b"
    else if code == 12 then "\\f"
    else if ' ' <= c <= '~' then [c]
    else if code < 0x10000 then "\\u" + Hex4(code)
    else
      var offset := code - 0x10000;
      "\\u" + Hex4(0xD800 + offset / 0x400) + "\\u" + Hex4(0xDC00 + offset % 0x400)
  }

  function EscapeAll(s: string): string {
    if s == "" then "" else EscapeAll(s[..|s| - 1]) + Escape(s[|s| - 1])
  }

  /** `json.dumps(s)`. */
  function Quote(s: string): string {
    "\"" + EscapeAll(s) + "\""
  }

  lemma {:induction false} EscapeWidth(s: string, width: nat)
    requires forall i :: 0 <= i < |s| ==> |Escape(s[i])| <= width
    ensures |EscapeAll(s)| <= width * |s|
  {
    if s != "" {
      EscapeWidth(s[..|s| - 1], width);
      assert width * |s| == width * (|s| - 1) + width;
    }
  }

  lemma {:induction false} EscapeConcat(s: string, t: string)
    ensures EscapeAll(s + t) == EscapeAll(s) + EscapeAll(t)
  {
    hide Escape;
    if t == "" {
      assert s + t == s;
    } else {
      var front, last := t[..|t| - 1], t[|t| - 1];
      assert s + t == (s + front) + [last];
      EscapeConcat(s, front);
    }
  }

  lemma {:induction false} PlainQuote(s: Plain)
    ensures Quote(s) == "\"" + s + "\""
  {
    if s != "" {
      var front: Plain := s[..|s| - 1];
      PlainQuote(front);
      var quoted := Quote(front);
      assert EscapeAll(front) == quoted[1..|quoted| - 1] == front;
      assert s == front + [s[|s| - 1]];
    }
  }

  // ---------------------------------------------------------------- values

  /** `json.dumps(j)` with its default separators. */
  function Render(j: Json): string
    decreases j, 0
  {
    match j
    case Null => "null"
    case Flag(b) => if b then "true" else "false"
    case Whole(n) => Decimal(n)
    case Real(f) => f.Rendered()
    case Str(s) => Quote(s)
    case List(items) => "[" + RenderItems(items) + "]"
    case Dict(entries) => "{" + RenderEntries(entries) + "}"
  }

  function RenderItems(items: seq<Json>): string
    decreases items, 1
  {
    if items == [] then ""
    else
      var last := Render(items[|items| - 1]);
      if |items| == 1 then last else RenderItems(items[..|items| - 1]) + ", " + last
  }

  function RenderEntries(entries: seq<Entry>): string
    decreases entries, 1
  {
    if entries == [] then ""
    else
      var entry := entries[|entries| - 1];
      var last := Quote(entry.key) + ": " + Render(entry.value);
      if |entries| == 1 then last else RenderEntries(entries[..|entries| - 1]) + ", " + last
  }

  /** The length of a value with the separator that follows it. */
  function Weight(j: Json): nat {
    |Render(j)| + 2
  }

  function EntryWeight(key: string, value: Json): nat {
    |Quote(key)| + 2 + Weight(value)
  }

  function ItemsWeight(items: seq<Json>): nat {
    if items == [] then 0 else |RenderItems(items)| + 2
  }

  function EntriesWeight(entries: seq<Entry>): nat {
    if entries == [] then 0 else |RenderEntries(entries)| + 2
  }

  lemma ListWeight(items: seq<Json>)
    ensures Weight(List(items)) <= 4 + ItemsWeight(items)
  {
    assert Render(List(items)) == "[" + RenderItems(items) + "]";
  }

  lemma DictWeight(entries: seq<Entry>)
    ensures Weight(Dict(entries)) <= 4 + EntriesWeight(entries)
  {
    assert Render(Dict(entries)) == "{" + RenderEntries(entries) + "}";
  }

  lemma ItemsWeightSnoc(items: seq<Json>, j: Json)
    ensures ItemsWeight(items + [j]) == ItemsWeight(items) + Weight(j)
  {
    assert (items + [j])[..|items|] == items;
  }

  lemma EntriesWeightSnoc(entries: seq<Entry>, key: string, value: Json)
    ensures EntriesWeight(entries + [Entry(key, value)]) == EntriesWeight(entries) + EntryWeight(key, value)
  {
    assert (entries + [Entry(key, value)])[..|entries|] == entries;
  }

  // ---------------------------------------------------------------- dict assignment

  function Keys(entries: seq<Entry>): set<string> {
    set i | 0 <= i < |entries| :: entries[i].key
  }

  predicate DistinctKeys(entries: seq<Entry>) {
    forall i, j :: 0 <= i < j < |entries| ==> entries[i].key != entries[j].key
  }

  /** `d[key] = value` on an insertion-ordered dict. */
  function Put(entries: seq<Entry>, key: string, value: Json): (r: seq<Entry>)
    ensures |entries| <= |r| <= |entries| + 1
    ensures |r| == |entries| + 1 ==> r == entries + [Entry(key, value)]
    ensures forall i :: 0 <= i < |r| ==> r[i] == Entry(key, value) || (i < |entries| && r[i] == entries[i])
    ensures forall i :: 0 <= i < |entries| ==> r[i].key == entries[i].key
  {
    if entries == [] then [Entry(key, value)]
    else if entries[|entries| - 1].key == key then entries[..|entries| - 1] + [Entry(key, value)]
    else
      var before := Put(entries[..|entries| - 1], key, value);
      if |before| == |entries| then entries + [Entry(key, value)] else before + [entries[|entries| - 1]]
  }

  /** Assigning a key keeps the keys distinct, and adds an entry exactly when the key is new. */
  lemma {:induction false} PutKeys(entries: seq<Entry>, key: string, value: Json)
    requires DistinctKeys(entries)
    ensures DistinctKeys(Put(entries, key, value))
    ensures key in Keys(entries) <==> |Put(entries, key, value)| == |entries|
  {
    if entries != [] && entries[|entries| - 1].key != key {
      var front := entries[..|entries| - 1];
      PutKeys(front, key, value);
      if key in Keys(front) {
        var i :| 0 <= i < |front| && front[i].key == key;
        assert entries[i].key == key;
      } else {
        forall i | 0 <= i < |entries| ensures entries[i].key != key {
          if i < |front| { assert front[i].key in Keys(front); }
        }
      }
    } else if entries != [] {
      assert entries[|entries| - 1].key in Keys(entries);
    }
  }

  lemma {:induction false} PutWeight(entries: seq<Entry>, key: string, value: Json)
    ensures EntriesWeight(Put(entries, key, value)) <= EntriesWeight(entries) + EntryWeight(key, value)
  {
    hide Quote, Render, RenderEntries;
    if entries == [] {
      EntriesWeightSnoc([], key, value);
      assert [] + [Entry(key, value)] == [Entry(key, value)];
    } else {
      var front, last := entries[..|entries| - 1], entries[|entries| - 1];
      assert entries == front + [last];
      EntriesWeightSnoc(front, last.key, last.value);
      EntriesWeightSnoc(entries, key, value);
      EntriesWeightSnoc(front, key, value);
      PutWeight(front, key, value);
      EntriesWeightSnoc(Put(front, key, value), last.key, last.value);
    }
  }

  // ---------------------------------------------------------------- sorting

  /** `result.sort(key=repr)`: `before` compares the texts of two values. */
  function Sort(items: seq<Json>, before: (Json, Json) -> bool): (r: seq<Json>)
    ensures |r| == |items|
    ensures forall j :: j in r ==> j in items
  {
    if items == [] then []
    else Insert(items[|items| - 1], Sort(items[..|items| - 1], before), before)
  }

  function Insert(j: Json, items: seq<Json>, before: (Json, Json) -> bool): (r: seq<Json>)
    ensures |r| == |items| + 1
    ensures forall k :: k in r ==> k in items || k == j
  {
    if items == [] || !before(j, items[|items| - 1]) then items + [j]
    else Insert(j, items[..|items| - 1], before) + [items[|items| - 1]]
  }

  lemma {:induction false} InsertWeight(j: Json, items: seq<Json>, before: (Json, Json) -> bool)
    ensures ItemsWeight(Insert(j, items, before)) == ItemsWeight(items) + Weight(j)
  {
    hide ItemsWeight, Render;
    ItemsWeightSnoc(items, j);
    if items != [] {
      var front, last := items[..|items| - 1], items[|items| - 1];
      assert items == front + [last];
      ItemsWeightSnoc(front, last);
      InsertWeight(j, front, before);
      ItemsWeightSnoc(Insert(j, front, before), last);
    }
  }

  lemma {:induction false} SortWeight(items: seq<Json>, before: (Json, Json) -> bool)
    ensures ItemsWeight(Sort(items, before)) == ItemsWeight(items)
  {
    hide Render, Insert;
    if items != [] {
      var front, last := items[..|items| - 1], items[|items| - 1];
      assert items == front + [last];
      ItemsWeightSnoc(front, last);
      SortWeight(front, before);
      InsertWeight(last, Sort(front, before), before);
    }
  }
}
