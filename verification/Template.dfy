/** The check that a standard-library format string cannot ask for unbounded padding. */
module Template {
  import opened Text
  import opened Values
  import opened Scanning

  const MAX_FORMAT_TEMPLATE_LENGTH := MAX_STRING_LENGTH
  const MAX_FORMAT_WIDTH := 256
  const MAX_FORMAT_DIRECTIVES := 64

  predicate IsPercent(c: char) { c == '%' }
  predicate IsFlag(c: char) { c in "-+ #0" }
  predicate IsModifier(c: char) { c == 'h' || c == 'l' || c == 'L' }

  /** The next `%` from `i` on; the length of the template if there is none. */
  function NextPercent(t: string, i: nat): (p: nat)
    ensures p <= |t| && (i <= |t| ==> i <= p) && (p < |t| ==> i <= p && t[p] == '%')
    ensures forall k :: i <= k < p ==> t[k] != '%'
  {
    if i >= |t| then |t| else Seek(t, i, |t|, IsPercent)
  }

  // ---------------------------------------------------------------- the interpreter's reading

  /** A width or precision: written out, or taken from the arguments. */
  datatype Amount = Written(n: nat) | FromArguments

  /** One directive; `conversion` is where its last character stands, the length of the template if it is cut off. */
  datatype Directive = Directive(start: nat, width: Amount, precision: Amount, modified: bool, conversion: nat)

  /** Behind the parenthesis that closes a key, nested ones counted; the length of the template if none does. */
  function BehindKey(t: string, i: nat, depth: nat): (r: nat)
    requires i <= |t| && depth > 0
    ensures i <= r <= |t|
    decreases |t| - i
  {
    if i == |t| then i
    else if t[i] == '(' then BehindKey(t, i + 1, depth + 1)
    else if t[i] == ')' then if depth == 1 then i + 1 else BehindKey(t, i + 1, depth - 1)
    else BehindKey(t, i + 1, depth)
  }

  function DigitsEnd(t: string, i: nat): (r: nat)
    requires i <= |t|
    ensures i <= r <= |t| && (forall k :: i <= k < r ==> IsDigit(t[k])) && (r < |t| ==> !IsDigit(t[r]))
  {
    Run(t, i, |t|, IsDigit)
  }

  function ReadAmount(t: string, i: nat): (r: (Amount, nat))
    requires i <= |t|
    ensures i <= r.1 <= |t|
  {
    if StartsWith(t, '*', i) then (FromArguments, i + 1)
    else
      var end := DigitsEnd(t, i);
      assert forall k :: 0 <= k < end - i ==> IsDigit(t[i..end][k]);
      (Written(Number(t[i..end])), end)
  }

  /**
   * A directive as "printf-style String Formatting" in the Python library reference gives it: `(key)`, flags, width,
   * `.precision`, a length modifier, which is ignored, and the conversion.
   */
  function ReadDirective(t: string, start: nat): (d: Directive)
    requires start < |t|
    ensures d.start == start < d.conversion <= |t| && (d.modified ==> start + 1 < d.conversion)
  {
    var flags := Run(t, if StartsWith(t, '(', start + 1) then BehindKey(t, start + 2, 1) else start + 1, |t|, IsFlag);
    var (width, afterWidth) := ReadAmount(t, flags);
    var (precision, end) :=
      if StartsWith(t, '.', afterWidth) then ReadAmount(t, afterWidth + 1) else (Written(0), afterWidth);
    var modified := end < |t| && IsModifier(t[end]);
    Directive(start, width, precision, modified, if modified then end + 1 else end)
  }

  /** The directives the interpreter reads from `index` on. */
  function Directives(t: string, index: nat): seq<Directive>
    decreases |t| - index
  {
    var start := NextPercent(t, index);
    if start == |t| then []
    else
      var d := ReadDirective(t, start);
      [d] + Directives(t, d.conversion + 1)
  }

  function Starts(ds: seq<Directive>): (starts: seq<nat>)
    ensures |starts| == |ds|
  {
    if ds == [] then [] else [ds[0].start] + Starts(ds[1..])
  }

  /** The padding a directive can add: its argument is padded to the precision, and the whole to the width. */
  function Padding(d: Directive): nat {
    Max(if d.width.Written? then d.width.n else 0, if d.precision.Written? then d.precision.n else 0)
  }

  function PaddingOf(ds: seq<Directive>): nat {
    if ds == [] then 0 else Padding(ds[0]) + PaddingOf(ds[1..])
  }

  // ---------------------------------------------------------------- the check

  /** A width or precision of the check: where it ends, if it is acceptable. */
  function CheckAmount(t: string, i: nat): (r: Option<nat>)
    requires i <= |t|
    ensures r.Some? ==> i <= r.value <= |t|
  {
    if StartsWith(t, '*', i) then None
    else
      var end := DigitsEnd(t, i);
      assert forall k :: 0 <= k < end - i ==> IsDigit(t[i..end][k]);
      if end - i > 3 || (end > i && Number(t[i..end]) > MAX_FORMAT_WIDTH) then None else Some(end)
  }

  /** The key of a directive: where it ends, if the check can delimit it. */
  function CheckKey(t: string, i: nat): (r: Option<nat>)
    requires i <= |t|
    ensures r.Some? ==> i <= r.value <= |t|
  {
    if !StartsWith(t, '(', i) then Some(i)
    else
      var closing := Seek(t, i, |t|, c => c == ')');
      if closing == |t| || Seek(t, Min(i + 1, closing), closing, c => c == '(') < closing then None
      else Some(closing + 1)
  }

  /** Width and precision: where they end, if both are acceptable. */
  function CheckParts(t: string, i: nat): (r: Option<nat>)
    requires i <= |t|
    ensures r.Some? ==> i <= r.value <= |t|
  {
    var width := CheckAmount(t, i);
    if width.None? || !StartsWith(t, '.', width.value) then width else CheckAmount(t, width.value + 1)
  }

  /** What the check takes for the conversion of the directive at `start`. */
  function CheckDirective(t: string, start: nat): (r: Option<nat>)
    requires start < |t|
    ensures r.Some? ==> start < r.value <= |t|
  {
    var key := CheckKey(t, start + 1);
    if key.None? then None else CheckParts(t, Run(t, key.value, |t|, IsFlag))
  }

  /** The directives the check sees from `index` on, `count` already seen; `None` if it refuses the template. */
  function CheckFrom(t: string, index: nat, count: nat): Option<seq<nat>>
    decreases |t| - index
  {
    var start := NextPercent(t, index);
    if start == |t| then Some([])
    else
      var end := CheckDirective(t, start);
      if end.None? || count + 1 > MAX_FORMAT_DIRECTIVES then None
      else InFront(start, CheckFrom(t, end.value + 1, count + 1))
  }

  function InFront(start: nat, rest: Option<seq<nat>>): Option<seq<nat>> {
    if rest.None? then None else Some([start] + rest.value)
  }

  function Seen(t: string): Option<seq<nat>> {
    if |t| > MAX_FORMAT_TEMPLATE_LENGTH then None else CheckFrom(t, 0, 0)
  }

  method FindDigitsEnd(t: string, i: nat) returns (r: nat)
    requires i <= |t|
    ensures r == DigitsEnd(t, i)
  {
    r := i;
    while r < |t| && IsDigit(t[r])
      invariant i <= r <= |t| && DigitsEnd(t, r) == DigitsEnd(t, i)
    {
      r := r + 1;
    }
  }

  /** The loop over `("width", "precision")`. */
  method FindPartsEnd(t: string, i: nat) returns (r: Option<nat>)
    requires i <= |t|
    ensures r == CheckParts(t, i)
  {
    hide DigitsEnd;
    var index, part, done := i, 0, false;
    while !done
      invariant i <= index <= |t| && part < 2
      invariant CheckParts(t, i)
             == if done then Some(index) else if part == 0 then CheckParts(t, index) else CheckAmount(t, index)
      decreases !done, 2 - part
    {
      if StartsWith(t, '*', index) { return None; }
      var end := FindDigitsEnd(t, index);
      assert forall k :: 0 <= k < end - index ==> IsDigit(t[index..end][k]);
      if end - index > 3 || (end > index && Number(t[index..end]) > MAX_FORMAT_WIDTH) { return None; }
      index := end;
      if part == 1 || !StartsWith(t, '.', index) {
        done := true;
      } else {
        index, part := index + 1, part + 1;
      }
    }
    return Some(index);
  }

  method FindFlagsEnd(t: string, i: nat) returns (index: nat)
    requires i <= |t|
    ensures index == Run(t, i, |t|, IsFlag)
  {
    index := i;
    while index < |t| && IsFlag(t[index])
      invariant i <= index <= |t| && Run(t, index, |t|, IsFlag) == Run(t, i, |t|, IsFlag)
    {
      index := index + 1;
    }
  }

  /** `_is_bounded_template`, with the positions at which it saw a directive. */
  method IsBoundedTemplate(t: string) returns (ok: bool, ghost starts: seq<nat>)
    ensures ok <==> Seen(t).Some?
    ensures ok ==> Seen(t) == Some(starts)
  {
    hide CheckKey, CheckParts, CheckFrom, NextPercent;
    LastCheck(t);
    starts := [];
    if |t| > MAX_FORMAT_TEMPLATE_LENGTH { return false, []; }
    var directives := 0;
    ghost var from := 0;
    NothingInFront(t);
    var index := NextPercent(t, 0);
    while index < |t|
      invariant index <= |t| && index == NextPercent(t, from)
      invariant Seen(t) == Joined(starts, CheckFrom(t, from, directives))
      decreases |t| - index
    {
      var start := index;
      CheckStep(t, from, directives);
      var key := CheckKey(t, start + 1);
      if key.None? { return false, []; }
      index := FindFlagsEnd(t, key.value);
      var end := FindPartsEnd(t, index);
      if end.None? { return false, []; }
      directives := directives + 1;
      if directives > MAX_FORMAT_DIRECTIVES { return false, []; }
      JoinedInFront(starts, start, CheckFrom(t, end.value + 1, directives));
      starts := starts + [start];
      from := end.value + 1;
      index := NextPercent(t, end.value + 1);
    }
    assert starts + [] == starts;
    ok := true;
  }

  lemma CheckStep(t: string, index: nat, count: nat)
    ensures var start := NextPercent(t, index);
      CheckFrom(t, index, count) ==
        if start == |t| then Some([])
        else
          var end := CheckDirective(t, start);
          if end.None? || count + 1 > MAX_FORMAT_DIRECTIVES then None
          else InFront(start, CheckFrom(t, end.value + 1, count + 1))
  {
  }

  lemma LastCheck(t: string)
    ensures forall from: nat, count: nat :: NextPercent(t, from) == |t| ==> CheckFrom(t, from, count) == Some([])
  {
  }

  function Joined(starts: seq<nat>, rest: Option<seq<nat>>): Option<seq<nat>> {
    if rest.None? then None else Some(starts + rest.value)
  }

  lemma JoinedInFront(starts: seq<nat>, start: nat, rest: Option<seq<nat>>)
    ensures Joined(starts, InFront(start, rest)) == Joined(starts + [start], rest)
  {
    if rest.Some? { assert starts + ([start] + rest.value) == starts + [start] + rest.value; }
  }

  lemma NothingInFront(t: string)
    ensures CheckFrom(t, 0, 0) == Joined([], CheckFrom(t, 0, 0))
  {
    var rest := CheckFrom(t, 0, 0);
    if rest.Some? { assert [] + rest.value == rest.value; }
  }

  // ---------------------------------------------------------------- agreement

  /** A length modifier with a `%` right behind it: the one place where the check and the interpreter part. */
  predicate ModifiedPercent(t: string, d: Directive) {
    d.modified && StartsWith(t, '%', d.conversion)
  }

  predicate Bounded(d: Directive) {
    d.width.Written? && d.width.n <= MAX_FORMAT_WIDTH && d.precision.Written? && d.precision.n <= MAX_FORMAT_WIDTH
  }

  lemma {:induction false} FlatKey(t: string, i: nat, closing: nat)
    requires i <= closing < |t| && t[closing] == ')'
    requires forall k :: i <= k < closing ==> t[k] != ')' && t[k] != '('
    ensures BehindKey(t, i, 1) == closing + 1
    decreases closing - i
  {
    if i < closing { FlatKey(t, i + 1, closing); }
  }

  /** A key the check accepts ends for the interpreter where it ends for the check. */
  lemma SameKey(t: string, start: nat)
    requires start < |t| && CheckKey(t, start + 1).Some?
    ensures CheckKey(t, start + 1).value
         == if StartsWith(t, '(', start + 1) then BehindKey(t, start + 2, 1) else start + 1
  {
    if StartsWith(t, '(', start + 1) {
      FlatKey(t, start + 2, CheckKey(t, start + 1).value - 1);
    }
  }

  /** A directive the check accepts is bounded; the check stops at its modifier, or else at its conversion. */
  lemma SameDirective(t: string, start: nat)
    requires start < |t| && CheckDirective(t, start).Some?
    ensures var d := ReadDirective(t, start);
      Bounded(d) && CheckDirective(t, start).value == if d.modified then d.conversion - 1 else d.conversion
  {
    hide CheckKey, BehindKey, DigitsEnd;
    SameKey(t, start);
    var flags := Run(t, CheckKey(t, start + 1).value, |t|, IsFlag);
    var width := CheckAmount(t, flags).value;
  }

  /** A character that is no `%` makes no difference to where the check goes on. */
  lemma CheckSkips(t: string, i: nat, count: nat)
    requires i < |t| ==> t[i] != '%'
    ensures CheckFrom(t, i, count) == CheckFrom(t, i + 1, count)
  {
    hide NextPercent, CheckDirective, CheckFrom;
    CheckStep(t, i, count);
    CheckStep(t, i + 1, count);
  }

  /** The directives seen are those the interpreter reads, and all bounded. */
  ghost predicate Agrees(t: string, index: nat, count: nat) {
    var ds := Directives(t, index);
    && CheckFrom(t, index, count) == Some(Starts(ds))
    && (forall d :: d in ds ==> Bounded(d))
    && count + |ds| <= Max(count, MAX_FORMAT_DIRECTIVES)
  }

  /** Some directive read from `index` on parts the two readings. */
  ghost predicate Parts(t: string, index: nat) {
    exists d :: d in Directives(t, index) && ModifiedPercent(t, d)
  }

  lemma {:induction false} AgreesUnlessParted(t: string, index: nat, count: nat)
    requires CheckFrom(t, index, count).Some? && count <= MAX_FORMAT_DIRECTIVES
    ensures !Parts(t, index) ==> Agrees(t, index, count)
    ensures Parts(t, index) ==> CheckFrom(t, index, count).value != Starts(Directives(t, index))
    decreases |t| - index
  {
    hide CheckDirective, ReadDirective, Bounded, CheckFrom, NextPercent, Directives, Starts, ModifiedPercent;
    CheckStep(t, index, count);
    ReadStep(t, index);
    var start := NextPercent(t, index);
    if start < |t| {
      var d := ReadDirective(t, start);
      SameDirective(t, start);
      var rest := Directives(t, d.conversion + 1);
      assert Parts(t, index) <==> ModifiedPercent(t, d) || Parts(t, d.conversion + 1);
      if ModifiedPercent(t, d) {
        assert CheckDirective(t, start).value + 1 == d.conversion by { IsModified(t, d); }
        PartedHere(t, d, count + 1);
        DifferBehind(start, CheckFrom(t, d.conversion, count + 1).value, Starts(rest));
      } else {
        if d.modified { CheckSkips(t, d.conversion, count + 1) by { NoPercent(t, d); } }
        AgreesUnlessParted(t, d.conversion + 1, count + 1);
        DifferBehind(start, CheckFrom(t, d.conversion + 1, count + 1).value, Starts(rest));
      }
    }
  }

  lemma DifferBehind(start: nat, a: seq<nat>, b: seq<nat>)
    ensures [start] + a == [start] + b ==> a == b
  {
    assert ([start] + a)[1..] == a && ([start] + b)[1..] == b;
  }

  lemma IsModified(t: string, d: Directive)
    requires ModifiedPercent(t, d)
    ensures d.modified
  {
  }

  lemma NoPercent(t: string, d: Directive)
    requires d.modified && !ModifiedPercent(t, d)
    ensures d.conversion < |t| ==> t[d.conversion] != '%'
  {
  }

  lemma ReadStep(t: string, index: nat)
    ensures var start, ds := NextPercent(t, index), Directives(t, index);
      if start == |t| then ds == [] && Starts(ds) == []
      else
        var d := ReadDirective(t, start);
        var rest := Directives(t, d.conversion + 1);
        ds == [d] + rest && Starts(ds) == [start] + Starts(rest)
  {
    hide ReadDirective, NextPercent;
    var start := NextPercent(t, index);
    if start < |t| {
      var d := ReadDirective(t, start);
      assert ([d] + Directives(t, d.conversion + 1))[1..] == Directives(t, d.conversion + 1);
    }
  }

  /** At a `%` the check starts a directive; the interpreter, which has read past it, does not. */
  lemma PartedHere(t: string, d: Directive, count: nat)
    requires ModifiedPercent(t, d) && CheckFrom(t, d.conversion, count).Some?
    ensures CheckFrom(t, d.conversion, count).value != Starts(Directives(t, d.conversion + 1))
  {
    var i := d.conversion;
    assert NextPercent(t, i) == i;
    hide CheckFrom, Directives, Starts, CheckDirective, ReadDirective;
    CheckStep(t, i, count);
    ReadStep(t, i + 1);
    var starts := Starts(Directives(t, i + 1));
    assert starts != [] ==> starts[0] > i;
  }

  lemma {:induction false} BoundedPadding(ds: seq<Directive>)
    requires forall d :: d in ds ==> Bounded(d)
    ensures PaddingOf(ds) <= MAX_FORMAT_WIDTH * |ds|
  {
    if ds != [] {
      assert Bounded(ds[0]);
      BoundedPadding(ds[1..]);
    }
  }

  /**
   * A template the check accepts has at most 64 directives for the interpreter, none with a width or precision taken
   * from the arguments or above 256, and the check saw exactly these directives, provided that no directive has a
   * length modifier with a `%` right behind it; if one has, the check did not see the directives the interpreter reads.
   */
  lemma AcceptedTemplatesAreBounded(t: string)
    requires Seen(t).Some?
    ensures var ds := Directives(t, 0);
      && (Seen(t).value == Starts(ds) <==> !Parts(t, 0))
      && (!Parts(t, 0) ==>
            && |ds| <= MAX_FORMAT_DIRECTIVES && (forall d :: d in ds ==> Bounded(d))
            && PaddingOf(ds) <= MAX_FORMAT_WIDTH * MAX_FORMAT_DIRECTIVES)
  {
    AgreesUnlessParted(t, 0, 0);
    if !Parts(t, 0) { BoundedPadding(Directives(t, 0)); }
  }

  /** The template the check accepts although the interpreter reads a width of nine digits in it. */
  lemma AModifiedPercentIsMisread()
    ensures var t := "%l%%999999999d";
      && Seen(t) == Some([0, 2])
      && Directives(t, 0)
         == [Directive(0, Written(0), Written(0), true, 2), Directive(3, Written(999_999_999), Written(0), false, 13)]
  {
    hide NextPercent, CheckDirective, ReadDirective, CheckFrom, Directives, Starts;
    var t := "%l%%999999999d";
    MisreadDirectives();
    CheckStep(t, 0, 0);
    CheckStep(t, 2, 1);
    CheckStep(t, 4, 2);
    ReadStep(t, 0);
    ReadStep(t, 3);
    ReadStep(t, 14);
    assert CheckFrom(t, 4, 2) == Some([]);
    var none: seq<nat>, two: seq<nat>, both: seq<nat> := [], [2], [0, 2];
    assert [2] + none == two && [0] + two == both;
    assert CheckFrom(t, 2, 1) == InFront(2, Some(none)) == Some(two);
    assert CheckFrom(t, 0, 0) == InFront(0, Some(two)) == Some(both);
  }

  lemma MisreadDirectives()
    ensures var t := "%l%%999999999d";
      && NextPercent(t, 0) == 0 && NextPercent(t, 2) == 2 && NextPercent(t, 3) == 3
      && NextPercent(t, 4) == NextPercent(t, 14) == |t|
      && CheckDirective(t, 0) == Some(1) && CheckDirective(t, 2) == Some(3)
      && ReadDirective(t, 0) == Directive(0, Written(0), Written(0), true, 2)
      && ReadDirective(t, 3) == Directive(3, Written(999_999_999), Written(0), false, 13)
  {
    hide DigitsEnd, BehindKey, Number;
    var t := "%l%%999999999d";
    MisreadRuns();
    assert Number("") == 0 && t[1..1] == "" && t[3..3] == "" by { assert Number("") == 0 by { NoNumber(); } }
  }

  lemma NoNumber()
    ensures Number("") == 0
  {
  }

  lemma MisreadRuns()
    ensures var t := "%l%%999999999d";
      && DigitsEnd(t, 1) == 1 && DigitsEnd(t, 3) == 3 && DigitsEnd(t, 4) == 13 && Number(t[4..13]) == 999_999_999
      && Run(t, 1, |t|, IsFlag) == 1 && Run(t, 3, |t|, IsFlag) == 3 && Run(t, 4, |t|, IsFlag) == 4
  {
    hide DigitsEnd, Number;
    var t := "%l%%999999999d";
    assert forall k :: 4 <= k < 13 ==> IsDigit(t[k]);
    assert !IsDigit(t[13]) && !IsDigit(t[1]) && !IsDigit(t[3]);
    NineNines(t[4..13]);
  }

  lemma {:induction false} Nines(k: nat)
    ensures Number(seq(k, _ => '9')) == Pow10(k) - 1
  {
    if k > 0 {
      Nines(k - 1);
      assert seq(k, _ => '9')[..k - 1] == seq(k - 1, _ => '9');
    }
  }

  lemma NineNines(s: string)
    requires s == "999999999"
    ensures Number(s) == 999_999_999
  {
    Nines(9);
    assert s == seq(9, _ => '9');
    assert Pow10(3) == 1_000 && Pow10(6) == 1_000_000;
  }
}
