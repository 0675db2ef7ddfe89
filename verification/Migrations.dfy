/** The migration package: revisions read back from files, walked as a chain, compared with the frozen baseline. */
module Migrations {
  import opened Text
  import opened Values

  /** `down_revision` of a file: none, one revision, or anything else. */
  datatype Down = Root | One(id: string) | Several

  /** A revision file: its stem, and the constants read from it. */
  datatype File = File(stem: string, revision: Option<string>, down: Down, sqlFile: Option<string>)

  datatype Revision = Revision(id: string, down: Option<string>, sqlFile: Option<string>)

  datatype Defect =
    | NoIdentifier(stem: string)
    | OtherName(stem: string, id: string)
    | MergePoint(stem: string)
    | Duplicate(id: string)
    | UnknownDown(id: string, down: string)
    | WrapsOther(id: string)
    | SqlMissing(name: string)
    | SqlOrphan(name: string)
    | NoSingleChain
    | OrdinalsBroken

  datatype Report = Report(
    count: nat, sqlCount: nat, roots: seq<string>, heads: seq<string>, chain: seq<string>, digest: string,
    defects: seq<Defect>)

  /** The package on disk: files in the order of their names, SQL file names in order, the digest of its content. */
  datatype Package = Package(files: seq<File>, sqlFiles: seq<string>, digest: string)

  // ---------------------------------------------------------------- sorted lists

  /** Text order by code point. */
  predicate Less(a: string, b: string) {
    b != "" && (a == "" || a[0] < b[0] || (a[0] == b[0] && Less(a[1..], b[1..])))
  }

  function Insert(x: string, list: seq<string>): seq<string> {
    if list == [] || Less(x, list[0]) then [x] + list else [list[0]] + Insert(x, list[1..])
  }

  /** `sorted(list)`. */
  function Sorted(list: seq<string>): seq<string> {
    if list == [] then [] else Insert(list[|list| - 1], Sorted(list[..|list| - 1]))
  }

  /** The elements of a list, each once. */
  function Unique(list: seq<string>): (r: seq<string>)
    ensures forall x :: x in r <==> x in list
  {
    if list == [] then []
    else
      var rest := Unique(list[..|list| - 1]);
      var last := list[|list| - 1];
      if last in list[..|list| - 1] then rest else rest + [last]
  }

  function Keep(list: seq<string>, p: string -> bool): (r: seq<string>)
    ensures forall x :: x in r <==> x in list && p(x)
  {
    if list == [] then []
    else Keep(list[..|list| - 1], p) + if p(list[|list| - 1]) then [list[|list| - 1]] else []
  }

  lemma {:induction false} SortedMembers(list: seq<string>)
    ensures |Sorted(list)| == |list| && forall x :: x in Sorted(list) <==> x in list
  {
    if list != [] {
      SortedMembers(list[..|list| - 1]);
      InsertMembers(list[|list| - 1], Sorted(list[..|list| - 1]));
    }
  }

  lemma {:induction false} InsertMembers(y: string, list: seq<string>)
    ensures |Insert(y, list)| == |list| + 1 && forall x :: x in Insert(y, list) <==> x == y || x in list
  {
    if list != [] { InsertMembers(y, list[1..]); }
  }

  // ---------------------------------------------------------------- reading

  /** What is kept of one file. */
  function RevisionOf(f: File): seq<Revision> {
    if f.revision.None? || f.down.Several? then []
    else [Revision(f.revision.value, if f.down.Root? then None else Some(f.down.id), f.sqlFile)]
  }

  /** `read_revisions`: what is kept of the files. */
  function Revisions(files: seq<File>): seq<Revision> {
    if files == [] then [] else Revisions(files[..|files| - 1]) + RevisionOf(files[|files| - 1])
  }

  /** What is reported of one file. */
  function FileDefects(f: File): seq<Defect> {
    if f.revision.None? then [NoIdentifier(f.stem)]
    else
      (if f.revision.value != f.stem then [OtherName(f.stem, f.revision.value)] else [])
      + if f.down.Several? then [MergePoint(f.stem)] else []
  }

  function ReadDefects(files: seq<File>): seq<Defect> {
    if files == [] then [] else ReadDefects(files[..|files| - 1]) + FileDefects(files[|files| - 1])
  }

  lemma ReadNext(files: seq<File>, i: nat)
    requires i < |files|
    ensures Revisions(files[..i + 1]) == Revisions(files[..i]) + RevisionOf(files[i])
    ensures ReadDefects(files[..i + 1]) == ReadDefects(files[..i]) + FileDefects(files[i])
  {
    assert files[..i + 1][..i] == files[..i];
  }

  method ReadRevisions(files: seq<File>) returns (revisions: seq<Revision>, defects: seq<Defect>)
    ensures revisions == Revisions(files) && defects == ReadDefects(files)
  {
    hide Revisions, ReadDefects;
    revisions, defects := [], [];
    assert files[..0] == [] && Revisions([]) == [] && ReadDefects([]) == [] by { ReadNothing(); }
    for i := 0 to |files|
      invariant revisions == Revisions(files[..i]) && defects == ReadDefects(files[..i])
    {
      var f := files[i];
      ReadNext(files, i);
      if f.revision.None? {
        defects := defects + [NoIdentifier(f.stem)];
        continue;
      }
      var found := [];
      if f.revision.value != f.stem { found := [OtherName(f.stem, f.revision.value)]; }
      if f.down.Several? {
        defects := defects + (found + [MergePoint(f.stem)]);
        continue;
      }
      assert FileDefects(f) == found;
      defects := defects + found;
      revisions := revisions + [Revision(f.revision.value, if f.down.Root? then None else Some(f.down.id), f.sqlFile)];
    }
    assert files[..|files|] == files;
  }

  lemma ReadNothing()
    ensures Revisions([]) == [] && ReadDefects([]) == []
  {
  }

  function Ids(revisions: seq<Revision>): (ids: seq<string>)
    ensures |ids| == |revisions| && forall i :: 0 <= i < |ids| ==> ids[i] == revisions[i].id
  {
    seq(|revisions|, i requires 0 <= i < |revisions| => revisions[i].id)
  }

  predicate DistinctIds(revisions: seq<Revision>) {
    forall i, j :: 0 <= i < j < |revisions| ==> revisions[i].id != revisions[j].id
  }

  /** The revisions that follow none, sorted. */
  function RootIds(revisions: seq<Revision>): seq<string> {
    if revisions == [] then []
    else
      var last := revisions[|revisions| - 1];
      RootIds(revisions[..|revisions| - 1]) + if last.down.None? then [last.id] else []
  }

  function Roots(revisions: seq<Revision>): seq<string> {
    Sorted(RootIds(revisions))
  }

  // ---------------------------------------------------------------- the walk

  /** The revisions that name `id` as the one before them, in order. */
  function Kids(revisions: seq<Revision>, id: string): seq<string> {
    if revisions == [] then []
    else
      var last := revisions[|revisions| - 1];
      Kids(revisions[..|revisions| - 1], id) + if last.down == Some(id) then [last.id] else []
  }

  ghost predicate Branches(revisions: seq<Revision>) {
    exists id :: |Kids(revisions, id)| > 1
  }

  /** The `n`-th revision of the walk from `root`; `None` if the walk has ended before it. */
  function At(revisions: seq<Revision>, root: string, n: nat): Option<string> {
    if n == 0 then Some(root)
    else
      var before := At(revisions, root, n - 1);
      if before.None? || Kids(revisions, before.value) == [] then None else Some(Kids(revisions, before.value)[0])
  }

  /** The walk comes to a revision nothing follows. */
  ghost predicate Ends(revisions: seq<Revision>, root: string) {
    exists n: nat :: At(revisions, root, n).None?
  }

  /** What the walk visits, if the whole of it is as long as the list of revisions. */
  ghost predicate Visits(revisions: seq<Revision>, root: string, chain: seq<string>) {
    && |chain| == |revisions|
    && (forall i :: 0 <= i < |chain| ==> At(revisions, root, i) == Some(chain[i]))
    && At(revisions, root, |chain|).None?
  }

  /** The result of `_walk_chain`. */
  ghost predicate IsChain(revisions: seq<Revision>, roots: seq<string>, chain: seq<string>) {
    if |roots| == 1 && !Branches(revisions) then
      Visits(revisions, roots[0], chain) || (chain == [] && forall c :: !Visits(revisions, roots[0], c))
    else chain == []
  }

  lemma {:induction false} WalkStops(revisions: seq<Revision>, root: string, n: nat, m: nat)
    requires At(revisions, root, n).None? && n <= m
    ensures At(revisions, root, m).None?
  {
    if n < m { WalkStops(revisions, root, n, m - 1); }
  }

  method BuildChildren(revisions: seq<Revision>) returns (children: map<string, seq<string>>)
    ensures forall id :: id in children <==> Kids(revisions, id) != []
    ensures forall id :: id in children ==> children[id] == Kids(revisions, id)
  {
    children := map[];
    for i := 0 to |revisions|
      invariant forall id :: id in children <==> Kids(revisions[..i], id) != []
      invariant forall id :: id in children ==> children[id] == Kids(revisions[..i], id)
    {
      var item := revisions[i];
      assert revisions[..i + 1][..i] == revisions[..i];
      if item.down.Some? {
        var found := if item.down.value in children then children[item.down.value] else [];
        children := children[item.down.value := found + [item.id]];
      }
    }
    assert revisions[..|revisions|] == revisions;
  }

  /** The walk is made, and takes more than `patience` steps. */
  ghost predicate Outlasts(revisions: seq<Revision>, roots: seq<string>, patience: nat) {
    |roots| == 1 && !Branches(revisions) && At(revisions, roots[0], patience + 1).Some?
  }

  /** `_walk_chain`, watched for `patience` steps: `None` if it is still walking then. */
  method WalkChain(revisions: seq<Revision>, roots: seq<string>, patience: nat) returns (result: Option<seq<string>>)
    ensures result.None? <==> Outlasts(revisions, roots, patience)
    ensures result.Some? ==> IsChain(revisions, roots, result.value)
  {
    hide At, Kids, Branches, Visits;
    var children := BuildChildren(revisions);
    if |roots| != 1 { return Some([]); }
    if exists id :: id in children && |children[id]| > 1 {
      ghost var id :| id in children && |children[id]| > 1;
      BranchesAt(revisions, id);
      return Some([]);
    }
    NoBranches(revisions, children);
    var chain := [roots[0]];
    FirstAt(revisions, roots[0]);
    while chain[|chain| - 1] in children
      invariant 0 < |chain| <= patience + 1
      invariant forall i :: 0 <= i < |chain| ==> At(revisions, roots[0], i) == Some(chain[i])
      decreases patience + 1 - |chain|
    {
      NextAt(revisions, roots[0], |chain|);
      if |chain| > patience { return None; }
      chain := chain + [children[chain[|chain| - 1]][0]];
    }
    NextAt(revisions, roots[0], |chain|);
    WalkStops(revisions, roots[0], |chain|, patience + 1);
    if |chain| == |revisions| {
      IsVisited(revisions, roots[0], chain);
      return Some(chain);
    }
    forall c ensures !Visits(revisions, roots[0], c) { OtherLength(revisions, roots[0], chain, c); }
    return Some([]);
  }

  lemma FirstAt(revisions: seq<Revision>, root: string)
    ensures At(revisions, root, 0) == Some(root)
  {
  }

  lemma NextAt(revisions: seq<Revision>, root: string, n: nat)
    requires n > 0 && At(revisions, root, n - 1).Some?
    ensures var kids := Kids(revisions, At(revisions, root, n - 1).value);
      At(revisions, root, n) == if kids == [] then None else Some(kids[0])
  {
  }

  lemma BranchesAt(revisions: seq<Revision>, id: string)
    requires |Kids(revisions, id)| > 1
    ensures Branches(revisions)
  {
  }

  lemma IsVisited(revisions: seq<Revision>, root: string, chain: seq<string>)
    requires |chain| == |revisions| && At(revisions, root, |chain|).None?
    requires forall i :: 0 <= i < |chain| ==> At(revisions, root, i) == Some(chain[i])
    ensures Visits(revisions, root, chain)
  {
  }

  lemma NoBranches(revisions: seq<Revision>, children: map<string, seq<string>>)
    requires forall id :: id in children <==> Kids(revisions, id) != []
    requires forall id :: id in children ==> children[id] == Kids(revisions, id) && |children[id]| <= 1
    ensures !Branches(revisions)
  {
    forall id ensures |Kids(revisions, id)| <= 1 {
      assert id in children <==> Kids(revisions, id) != [];
    }
  }

  /** A walk has one length. */
  lemma OtherLength(revisions: seq<Revision>, root: string, chain: seq<string>, c: seq<string>)
    requires |chain| != |revisions| && |chain| > 0
    requires forall i :: 0 <= i < |chain| ==> At(revisions, root, i) == Some(chain[i])
    requires At(revisions, root, |chain|).None?
    ensures !Visits(revisions, root, c)
  {
  }

  // ---------------------------------------------------------------- when the walk ends

  lemma {:induction false} KidsAre(revisions: seq<Revision>, id: string, kid: string)
    ensures kid in Kids(revisions, id) <==> exists r :: r in revisions && r.down == Some(id) && r.id == kid
  {
    if revisions != [] {
      var front, last := revisions[..|revisions| - 1], revisions[|revisions| - 1];
      assert revisions == front + [last];
      KidsAre(front, id, kid);
    }
  }

  /** A revision of the walk behind the first follows the one before it. */
  lemma Follows(revisions: seq<Revision>, root: string, n: nat) returns (r: Revision)
    requires n > 0 && At(revisions, root, n).Some?
    ensures At(revisions, root, n - 1).Some?
    ensures r in revisions && Some(r.id) == At(revisions, root, n) && r.down == At(revisions, root, n - 1)
  {
    var before := At(revisions, root, n - 1).value;
    var kid := Kids(revisions, before)[0];
    KidsAre(revisions, before, kid);
    r :| r in revisions && r.down == Some(before) && r.id == kid;
  }

  lemma SameId(revisions: seq<Revision>, a: Revision, b: Revision)
    requires DistinctIds(revisions) && a in revisions && b in revisions && a.id == b.id
    ensures a == b
  {
  }

  /** With distinct identifiers no revision is visited twice. */
  lemma {:induction false} NothingRepeats(revisions: seq<Revision>, first: Revision, i: nat, j: nat)
    requires DistinctIds(revisions) && first in revisions && first.down.None? && i < j
    requires At(revisions, first.id, j).Some?
    ensures At(revisions, first.id, i) != At(revisions, first.id, j)
  {
    var b := Follows(revisions, first.id, j);
    if At(revisions, first.id, i) == At(revisions, first.id, j) {
      if i == 0 {
        SameId(revisions, first, b);
      } else {
        var a := Follows(revisions, first.id, i);
        SameId(revisions, a, b);
        NothingRepeats(revisions, first, i - 1, j - 1);
      }
    }
  }

  /** A walk that comes back to a revision goes on forever. */
  lemma {:induction false} ALoopNeverEnds(revisions: seq<Revision>, root: string, i: nat, j: nat, n: nat)
    requires i < j && At(revisions, root, j).Some? && At(revisions, root, i) == At(revisions, root, j)
    ensures At(revisions, root, n).Some?
    ensures n > j ==> At(revisions, root, n) == At(revisions, root, n - (j - i))
  {
    if n <= j {
      if At(revisions, root, n).None? { WalkStops(revisions, root, n, j); }
    } else {
      ALoopNeverEnds(revisions, root, i, j, n - (j - i));
      ALoopNeverEnds(revisions, root, i, j, n - 1);
    }
  }

  /** Different members of a list are no more than the list is long. */
  lemma {:induction false} Pigeonhole(list: seq<string>, pool: seq<string>)
    requires forall i, j :: 0 <= i < j < |list| ==> list[i] != list[j]
    requires forall x :: x in list ==> x in pool
    ensures |list| <= |pool|
  {
    if list != [] {
      var last := list[|list| - 1];
      assert last in list;
      var k :| 0 <= k < |pool| && pool[k] == last;
      var rest := pool[..k] + pool[k + 1..];
      forall x | x in list[..|list| - 1] ensures x in rest {
        assert x in list;
        var q :| 0 <= q < |pool| && pool[q] == x;
        assert if q < k then rest[q] == x else rest[q - 1] == x;
      }
      Pigeonhole(list[..|list| - 1], rest);
    }
  }

  /** The first `n` revisions of a walk that goes at least that far. */
  function Prefix(revisions: seq<Revision>, root: string, n: nat): (list: seq<string>)
    requires n > 0 ==> At(revisions, root, n - 1).Some?
    ensures |list| == n
    ensures forall i :: 0 <= i < n ==> At(revisions, root, i) == Some(list[i])
  {
    if n == 0 then [] else Prefix(revisions, root, n - 1) + [At(revisions, root, n - 1).value]
  }

  lemma WalkStaysInside(revisions: seq<Revision>, root: string, n: nat)
    requires root in Ids(revisions) && At(revisions, root, n).Some?
    ensures At(revisions, root, n).value in Ids(revisions)
  {
    if n > 0 {
      var r := Follows(revisions, root, n);
      var k :| 0 <= k < |revisions| && revisions[k] == r;
      assert Ids(revisions)[k] == r.id;
    }
  }

  /** The walk comes to some revision again. */
  ghost predicate Repeats(revisions: seq<Revision>, root: string) {
    exists i: nat, j: nat :: i < j && At(revisions, root, j).Some? && At(revisions, root, i) == At(revisions, root, j)
  }

  /** A walk as long as the list of revisions has met one twice. */
  lemma LongWalksRepeat(revisions: seq<Revision>, root: string)
    requires root in Ids(revisions) && At(revisions, root, |revisions|).Some?
    ensures Repeats(revisions, root)
  {
    var list := Prefix(revisions, root, |revisions| + 1);
    if !Repeats(revisions, root) {
      forall i, j | 0 <= i < j < |list| ensures list[i] != list[j] {
        assert At(revisions, root, j) == Some(list[j]) && At(revisions, root, i) == Some(list[i]);
      }
      forall x | x in list ensures x in Ids(revisions) {
        var i :| 0 <= i < |list| && list[i] == x;
        WalkStaysInside(revisions, root, i);
      }
      Pigeonhole(list, Ids(revisions));
    }
  }

  /** The walk ends exactly if it meets no revision twice, and then within as many steps as there are revisions. */
  lemma EndsIffNothingRepeats(revisions: seq<Revision>, root: string)
    requires root in Ids(revisions)
    ensures Ends(revisions, root) <==> !Repeats(revisions, root)
    ensures Ends(revisions, root) ==> At(revisions, root, |revisions|).None?
  {
    if Repeats(revisions, root) {
      var i: nat, j: nat :| i < j && At(revisions, root, j).Some? && At(revisions, root, i) == At(revisions, root, j);
      forall n: nat ensures At(revisions, root, n).Some? { ALoopNeverEnds(revisions, root, i, j, n); }
    } else if At(revisions, root, |revisions|).Some? {
      LongWalksRepeat(revisions, root);
    }
  }

  /** With distinct identifiers the walk from a root ends. */
  lemma DistinctWalksEnd(revisions: seq<Revision>, first: Revision)
    requires DistinctIds(revisions) && first in revisions && first.down.None?
    ensures Ends(revisions, first.id) && At(revisions, first.id, |revisions|).None?
  {
    if Repeats(revisions, first.id) {
      var i: nat, j: nat :| i < j
        && At(revisions, first.id, j).Some? && At(revisions, first.id, i) == At(revisions, first.id, j);
      NothingRepeats(revisions, first, i, j);
    }
    var k :| 0 <= k < |revisions| && revisions[k] == first;
    assert Ids(revisions)[k] == first.id;
    EndsIffNothingRepeats(revisions, first.id);
  }

  /** A package with one identifier used twice, one root and no branch, whose walk never ends. */
  lemma ADuplicateCanLoop()
    ensures var revisions :=
        [Revision("a", None, None), Revision("b", Some("a"), None), Revision("a", Some("b"), None)];
      Roots(revisions) == ["a"] && !Branches(revisions) && !Ends(revisions, "a")
  {
    var r0, r1, r2 := Revision("a", None, None), Revision("b", Some("a"), None), Revision("a", Some("b"), None);
    var revisions := [r0, r1, r2];
    assert revisions[..2] == [r0, r1] && revisions[..2][..1] == [r0] && revisions[..2][..1][..0] == [];
    forall id ensures Kids(revisions, id) == if id == "a" then ["b"] else if id == "b" then ["a"] else [] {
      assert Kids([], id) == [];
      assert Kids([r0], id) == [];
      assert Kids([r0, r1], id) == if id == "a" then ["b"] else [];
    }
    assert RootIds([]) == [] && RootIds([r0]) == ["a"] && RootIds([r0, r1]) == ["a"] && RootIds(revisions) == ["a"];
    assert ["a"][..0] == [] && Sorted([]) == [] && Sorted(["a"]) == ["a"];
    assert At(revisions, "a", 1) == Some("b") && At(revisions, "a", 2) == Some("a");
    forall n: nat ensures At(revisions, "a", n).Some? { ALoopNeverEnds(revisions, "a", 0, 2, n); }
  }

  // ---------------------------------------------------------------- what a chain is

  /** All revisions in an order in which the first follows none and each other follows the one before it. */
  ghost predicate Linear(revisions: seq<Revision>, order: seq<Revision>) {
    && order != [] && multiset(order) == multiset(revisions)
    && order[0].down.None?
    && forall i :: 0 < i < |order| ==> order[i].down == Some(order[i - 1].id)
  }

  lemma {:induction false} RootIdsAre(revisions: seq<Revision>, id: string)
    ensures id in RootIds(revisions) <==> exists r :: r in revisions && r.down.None? && r.id == id
  {
    if revisions != [] {
      var front, last := revisions[..|revisions| - 1], revisions[|revisions| - 1];
      assert revisions == front + [last];
      RootIdsAre(front, id);
    }
  }

  /** A list has one root identifier exactly if one of its revisions follows none. */
  lemma {:induction false} OneRoot(revisions: seq<Revision>, k: nat)
    requires k < |revisions| && revisions[k].down.None?
    requires forall i :: 0 <= i < |revisions| && i != k ==> revisions[i].down.Some?
    ensures RootIds(revisions) == [revisions[k].id]
  {
    var front := revisions[..|revisions| - 1];
    if k < |front| {
      OneRoot(front, k);
    } else {
      NoRoot(front);
    }
  }

  lemma {:induction false} NoRoot(revisions: seq<Revision>)
    requires forall r :: r in revisions ==> r.down.Some?
    ensures RootIds(revisions) == []
  {
    if revisions != [] { NoRoot(revisions[..|revisions| - 1]); }
  }

  /** With one revision that follows `id`, that is all that is found. */
  lemma {:induction false} OneKid(revisions: seq<Revision>, id: string, k: nat)
    requires k < |revisions| && revisions[k].down == Some(id)
    requires forall i :: 0 <= i < |revisions| && i != k ==> revisions[i].down != Some(id)
    ensures Kids(revisions, id) == [revisions[k].id]
  {
    var front := revisions[..|revisions| - 1];
    if k < |front| {
      OneKid(front, id, k);
    } else {
      NoKid(front, id);
    }
  }

  lemma {:induction false} NoKid(revisions: seq<Revision>, id: string)
    requires forall r :: r in revisions ==> r.down != Some(id)
    ensures Kids(revisions, id) == []
  {
    if revisions != [] { NoKid(revisions[..|revisions| - 1], id); }
  }

  /** The revision that stands at a place of the order stands at one place of the list. */
  lemma PlaceOf(revisions: seq<Revision>, order: seq<Revision>, i: nat) returns (k: nat)
    requires multiset(order) == multiset(revisions) && i < |order|
    ensures k < |revisions| && revisions[k] == order[i]
  {
    assert order[i] in multiset(revisions);
    k :| 0 <= k < |revisions| && revisions[k] == order[i];
  }

  lemma OrderedIds(revisions: seq<Revision>, order: seq<Revision>)
    requires multiset(order) == multiset(revisions) && DistinctIds(revisions)
    ensures |order| == |revisions| && DistinctIds(order) && forall r :: r in order <==> r in revisions
  {
    assert |multiset(order)| == |order| && |multiset(revisions)| == |revisions|;
    forall r ensures r in order <==> r in revisions {
      assert r in multiset(order) <==> r in multiset(revisions);
    }
    forall i, j | 0 <= i < j < |order| ensures order[i].id != order[j].id {
      if order[i].id == order[j].id {
        SameId(revisions, order[i], order[j]);
        Twice(order, i, j);
        OnceEach(revisions, order[i]);
      }
    }
  }

  lemma Twice<T>(list: seq<T>, i: nat, j: nat)
    requires i < j < |list| && list[i] == list[j]
    ensures multiset(list)[list[i]] >= 2
  {
    assert list == list[..i] + [list[i]] + list[i + 1..j] + [list[j]] + list[j + 1..];
  }

  lemma {:induction false} OnceEach(list: seq<Revision>, r: Revision)
    requires DistinctIds(list)
    ensures multiset(list)[r] <= 1
  {
    if list != [] {
      var front, last := list[..|list| - 1], list[|list| - 1];
      assert list == front + [last];
      OnceEach(front, r);
      assert forall k :: 0 <= k < |front| ==> list[k].id != list[|front|].id;
    }
  }

  /** What follows a revision of a linear order is the next of the order. */
  lemma KidsInOrder(revisions: seq<Revision>, order: seq<Revision>, id: string)
    requires DistinctIds(revisions) && Linear(revisions, order)
    ensures |Kids(revisions, id)| <= 1
    ensures forall i :: 0 <= i < |order| && order[i].id == id ==>
              Kids(revisions, id) == if i + 1 < |order| then [order[i + 1].id] else []
  {
    OrderedIds(revisions, order);
    if exists i :: 0 <= i < |order| - 1 && order[i].id == id {
      var i :| 0 <= i < |order| - 1 && order[i].id == id;
      var k := PlaceOf(revisions, order, i + 1);
      forall q | 0 <= q < |revisions| && q != k ensures revisions[q].down != Some(id) {
        var p := PlaceOf(order, revisions, q);
        assert revisions[q].id != revisions[k].id;
        if p > 0 { assert order[p].down == Some(order[p - 1].id) && order[p - 1].id != order[i].id; }
      }
      OneKid(revisions, id, k);
    } else {
      forall r | r in revisions ensures r.down != Some(id) {
        var q :| 0 <= q < |revisions| && revisions[q] == r;
        var p := PlaceOf(order, revisions, q);
        if p > 0 { assert order[p].down == Some(order[p - 1].id); }
      }
      NoKid(revisions, id);
    }
  }

  lemma {:induction false} WalkOfOrder(revisions: seq<Revision>, order: seq<Revision>, n: nat)
    requires DistinctIds(revisions) && Linear(revisions, order) && n <= |order|
    ensures At(revisions, order[0].id, n) == if n < |order| then Some(order[n].id) else None
  {
    if n > 0 {
      WalkOfOrder(revisions, order, n - 1);
      KidsInOrder(revisions, order, order[n - 1].id);
    }
  }

  /** A linear order has one root, does not branch, and is what the walk visits. */
  lemma LinearIsVisited(revisions: seq<Revision>, order: seq<Revision>)
    requires DistinctIds(revisions) && Linear(revisions, order)
    ensures Roots(revisions) == [order[0].id] && !Branches(revisions)
    ensures Visits(revisions, order[0].id, Ids(order))
  {
    hide Linear;
    OrderedIds(revisions, order) by { LinearOrder(revisions, order); }
    var k := FirstPlace(revisions, order);
    OneRoot(revisions, k);
    SortedOne(revisions[k].id);
    forall id ensures |Kids(revisions, id)| <= 1 { KidsInOrder(revisions, order, id); }
    forall i | 0 <= i <= |order|
      ensures At(revisions, order[0].id, i) == if i < |order| then Some(order[i].id) else None
    {
      WalkOfOrder(revisions, order, i);
    }
  }

  lemma LinearOrder(revisions: seq<Revision>, order: seq<Revision>)
    requires Linear(revisions, order)
    ensures order != [] && multiset(order) == multiset(revisions)
  {
  }

  lemma FirstPlace(revisions: seq<Revision>, order: seq<Revision>) returns (k: nat)
    requires DistinctIds(revisions) && Linear(revisions, order)
    ensures k < |revisions| && revisions[k] == order[0] && revisions[k].down.None?
    ensures forall i :: 0 <= i < |revisions| && i != k ==> revisions[i].down.Some?
  {
    OrderedIds(revisions, order);
    k := PlaceOf(revisions, order, 0);
    forall i | 0 <= i < |revisions| && i != k ensures revisions[i].down.Some? {
      var p := PlaceOf(order, revisions, i);
      assert revisions[i].id != revisions[k].id;
      assert p > 0 && order[p].down == Some(order[p - 1].id);
    }
  }

  lemma SortedOne(id: string)
    ensures Sorted([id]) == [id]
  {
    assert [id][..0] == [] && Sorted([]) == [];
  }

  /** The revision with the identifier visited at each step. */
  function Visited(revisions: seq<Revision>, chain: seq<string>): (order: seq<Revision>)
    requires DistinctIds(revisions) && forall id :: id in chain ==> id in Ids(revisions)
    ensures |order| == |chain|
    ensures forall i :: 0 <= i < |order| ==> order[i] in revisions && order[i].id == chain[i]
  {
    if chain == [] then []
    else
      var last := chain[|chain| - 1];
      assert last in chain;
      var front := chain[..|chain| - 1];
      assert forall id :: id in front ==> id in chain;
      Visited(revisions, front) + [Lookup(revisions, last)]
  }

  function Lookup(revisions: seq<Revision>, id: string): (r: Revision)
    requires id in Ids(revisions)
    ensures r in revisions && r.id == id
  {
    assert exists i :: 0 <= i < |revisions| && Ids(revisions)[i] == id;
    if revisions[|revisions| - 1].id == id then revisions[|revisions| - 1]
    else
      var front := revisions[..|revisions| - 1];
      assert id in Ids(front) by {
        var i :| 0 <= i < |revisions| && Ids(revisions)[i] == id;
        assert Ids(front)[i] == id;
      }
      Lookup(front, id)
  }

  /** A list without one of its revisions. */
  lemma TakenOut(revisions: seq<Revision>, k: nat)
    requires k < |revisions| && DistinctIds(revisions)
    ensures var rest := revisions[..k] + revisions[k + 1..];
      && DistinctIds(rest) && |rest| == |revisions| - 1
      && multiset(revisions) == multiset(rest) + multiset{revisions[k]}
      && forall r :: r in revisions && r != revisions[k] ==> r in rest
  {
    var rest := revisions[..k] + revisions[k + 1..];
    assert revisions == revisions[..k] + [revisions[k]] + revisions[k + 1..];
    forall r | r in revisions && r != revisions[k] ensures r in rest {
      var q :| 0 <= q < |revisions| && revisions[q] == r;
      assert if q < k then rest[q] == r else rest[q - 1] == r;
    }
    forall i, j | 0 <= i < j < |rest| ensures rest[i].id != rest[j].id {
      assert rest[i] == revisions[if i < k then i else i + 1] && rest[j] == revisions[if j < k then j else j + 1];
    }
  }

  /** Two lists of different revisions, as long as each other, one within the other, hold the same. */
  lemma {:induction false} SameMembers(order: seq<Revision>, revisions: seq<Revision>)
    requires DistinctIds(order) && DistinctIds(revisions) && |order| == |revisions|
    requires forall r :: r in order ==> r in revisions
    ensures multiset(order) == multiset(revisions)
    decreases |order|
  {
    if order != [] {
      var front, last := order[..|order| - 1], order[|order| - 1];
      assert order == front + [last] && last in order;
      var k :| 0 <= k < |revisions| && revisions[k] == last;
      TakenOut(revisions, k);
      TakenOut(order, |front|);
      assert order[|order|..] == [] && order[..|front|] + [] == front;
      forall i | 0 <= i < |front| ensures front[i] != last { assert order[i].id != order[|front|].id; }
      SameMembers(front, revisions[..k] + revisions[k + 1..]);
    }
  }

  /** What the walk visits, if it is all of the list, is a linear order of it. */
  lemma VisitedIsLinear(revisions: seq<Revision>, first: Revision, chain: seq<string>) returns (order: seq<Revision>)
    requires DistinctIds(revisions) && first in revisions && first.down.None? && Visits(revisions, first.id, chain)
    ensures Linear(revisions, order) && chain == Ids(order)
  {
    var root := first.id;
    var k :| 0 <= k < |revisions| && revisions[k] == first;
    assert Ids(revisions)[k] == root;
    forall id | id in chain ensures id in Ids(revisions) {
      var i :| 0 <= i < |chain| && chain[i] == id;
      WalkStaysInside(revisions, root, i);
    }
    order := Visited(revisions, chain);
    forall i, j | 0 <= i < j < |order| ensures order[i].id != order[j].id {
      NothingRepeats(revisions, first, i, j);
    }
    SameMembers(order, revisions);
    assert At(revisions, root, 0) == Some(chain[0]);
    SameId(revisions, order[0], first);
    forall i | 0 < i < |order| ensures order[i].down == Some(order[i - 1].id) {
      var r := Follows(revisions, root, i);
      SameId(revisions, r, order[i]);
    }
  }

  /**
   * With distinct identifiers the walk gives a chain exactly if the revisions form one line from a sole root, and then
   * the chain is that line.
   */
  lemma ChainIffLinear(revisions: seq<Revision>, chain: seq<string>)
    requires DistinctIds(revisions) && IsChain(revisions, Roots(revisions), chain)
    ensures chain != [] <==> exists order: seq<Revision> :: Linear(revisions, order)
    ensures forall order: seq<Revision> :: Linear(revisions, order) ==> chain == Ids(order)
  {
    hide Linear, Visits;
    forall order: seq<Revision> | Linear(revisions, order) ensures chain == Ids(order) && order != [] {
      LinearOrder(revisions, order);
      LinearIsVisited(revisions, order);
      OneVisit(revisions, order[0].id, chain, Ids(order));
    }
    if chain != [] {
      var root := Roots(revisions)[0];
      SortedMembers(RootIds(revisions));
      RootIdsAre(revisions, root);
      var first :| first in revisions && first.down.None? && first.id == root;
      var order := VisitedIsLinear(revisions, first, chain);
    }
  }

  lemma OneVisit(revisions: seq<Revision>, root: string, chain: seq<string>, other: seq<string>)
    requires Visits(revisions, root, other)
    ensures Visits(revisions, root, chain) ==> chain == other
  {
    if Visits(revisions, root, chain) {
      assert forall i :: 0 <= i < |chain| ==> At(revisions, root, i) == Some(chain[i]) == Some(other[i]);
    }
  }

  // ---------------------------------------------------------------- the report

  /** The heads: the known revisions no other names. */
  function Heads(revisions: seq<Revision>): seq<string> {
    Sorted(Unique(Keep(Ids(revisions), id => Kids(revisions, id) == [])))
  }

  predicate TwiceIn(list: seq<string>, x: string) {
    multiset(list)[x] > 1
  }

  /** What is reported of each revision: what it follows is unknown, or it wraps another file. */
  function RevisionDefects(all: seq<string>, revisions: seq<Revision>): seq<Defect> {
    if revisions == [] then []
    else
      var r := revisions[|revisions| - 1];
      RevisionDefects(all, revisions[..|revisions| - 1])
      + (if r.down.Some? && r.down.value !in all then [UnknownDown(r.id, r.down.value)] else [])
      + (if r.sqlFile != Some(r.id + ".sql") then [WrapsOther(r.id)] else [])
  }

  function SqlNames(ids: seq<string>): (names: seq<string>)
    ensures |names| == |ids| && forall i :: 0 <= i < |ids| ==> names[i] == ids[i] + ".sql"
  {
    seq(|ids|, i requires 0 <= i < |ids| => ids[i] + ".sql")
  }

  function Reported(names: seq<string>, report: string -> Defect): (defects: seq<Defect>)
    ensures |defects| == |names| && forall i :: 0 <= i < |names| ==> defects[i] == report(names[i])
  {
    seq(|names|, i requires 0 <= i < |names| => report(names[i]))
  }

  /** The ordinal a revision identifier starts with, -1 if it starts with none. */
  function Ordinal(id: string): int {
    if |id| >= 4 && IsDigit(id[0]) && IsDigit(id[1]) && IsDigit(id[2]) && id[3] == '_' then Number(id[..3]) else -1
  }

  predicate Contiguous(chain: seq<string>) {
    forall i :: 0 <= i < |chain| ==> Ordinal(chain[i]) == i + 1
  }

  function Duplicates(ids: seq<string>): seq<Defect> {
    Reported(Sorted(Unique(Keep(ids, id => TwiceIn(ids, id)))), id => Duplicate(id))
  }

  function MissingSql(ids: seq<string>, sqlFiles: seq<string>): seq<Defect> {
    Reported(Sorted(Unique(Keep(SqlNames(ids), name => name !in sqlFiles))), name => SqlMissing(name))
  }

  function OrphanSql(ids: seq<string>, sqlFiles: seq<string>): seq<Defect> {
    Reported(Sorted(Unique(Keep(sqlFiles, name => name !in SqlNames(ids)))), name => SqlOrphan(name))
  }

  function GraphDefects(p: Package, chain: seq<string>): seq<Defect> {
    var revisions := Revisions(p.files);
    var ids := Ids(revisions);
    ReadDefects(p.files) + Duplicates(ids) + RevisionDefects(ids, revisions)
    + MissingSql(ids, p.sqlFiles) + OrphanSql(ids, p.sqlFiles)
    + if chain == [] then [NoSingleChain] else if Contiguous(chain) then [] else [OrdinalsBroken]
  }

  /** The walk over the revisions of the package ends. */
  ghost predicate Walkable(p: Package) {
    var revisions := Revisions(p.files);
    |Roots(revisions)| == 1 && !Branches(revisions) ==> Ends(revisions, Roots(revisions)[0])
  }

  /** What `inspect_migration_package` says of a package. */
  ghost predicate Describes(p: Package, report: Report) {
    var revisions := Revisions(p.files);
    && IsChain(revisions, Roots(revisions), report.chain)
    && report == Report(|revisions|, |p.sqlFiles|, Roots(revisions), Heads(revisions), report.chain, p.digest,
                        GraphDefects(p, report.chain))
  }

  method FindRevisionDefects(ids: seq<string>, revisions: seq<Revision>) returns (defects: seq<Defect>)
    ensures defects == RevisionDefects(ids, revisions)
  {
    defects := [];
    for i := 0 to |revisions|
      invariant defects == RevisionDefects(ids, revisions[..i])
    {
      var item := revisions[i];
      assert revisions[..i + 1][..i] == revisions[..i];
      if item.down.Some? && item.down.value !in ids { defects := defects + [UnknownDown(item.id, item.down.value)]; }
      if item.sqlFile != Some(item.id + ".sql") { defects := defects + [WrapsOther(item.id)]; }
    }
    assert revisions[..|revisions|] == revisions;
  }

  /** `inspect_migration_package`, once the directories are found; `None` if it still walks after `patience` steps. */
  method Inspect(p: Package, patience: nat) returns (report: Option<Report>)
    ensures report.None? <==> Outlasts(Revisions(p.files), Roots(Revisions(p.files)), patience)
    ensures report.Some? ==> Describes(p, report.value)
  {
    hide IsChain, Duplicates, MissingSql, OrphanSql, RevisionDefects, ReadDefects, Heads, Roots, Contiguous, Revisions;
    hide Outlasts;
    var revisions, defects := ReadRevisions(p.files);
    var ids := Ids(revisions);
    defects := defects + Duplicates(ids);
    var found := FindRevisionDefects(ids, revisions);
    defects := defects + found;
    defects := defects + MissingSql(ids, p.sqlFiles);
    defects := defects + OrphanSql(ids, p.sqlFiles);
    var roots := Roots(revisions);
    var walked := WalkChain(revisions, roots, patience);
    if walked.None? { return None; }
    var chain := walked.value;
    if chain == [] {
      defects := defects + [NoSingleChain];
    } else if !Contiguous(chain) {
      defects := defects + [OrdinalsBroken];
    }
    return Some(Report(|revisions|, |p.sqlFiles|, roots, Heads(revisions), chain, p.digest, defects));
  }

  /** A walk that takes as many steps as there are revisions takes any number of them: the inspection never returns. */
  lemma InspectionReturnsIffWalkable(p: Package, patience: nat)
    requires patience >= |Revisions(p.files)|
    ensures Outlasts(Revisions(p.files), Roots(Revisions(p.files)), patience) <==> !Walkable(p)
  {
    hide Kids, Branches, Repeats;
    var revisions := Revisions(p.files);
    if |Roots(revisions)| == 1 {
      var root := Roots(revisions)[0];
      RootIsKnown(revisions, root);
      EndsIffNothingRepeats(revisions, root);
      if Ends(revisions, root) { WalkStops(revisions, root, |revisions|, patience + 1); }
    }
  }

  lemma RootIsKnown(revisions: seq<Revision>, root: string)
    requires root in Roots(revisions)
    ensures root in Ids(revisions)
  {
    SortedMembers(RootIds(revisions));
    RootIdIsKnown(revisions, root);
  }

  lemma {:induction false} RootIdIsKnown(revisions: seq<Revision>, root: string)
    requires root in RootIds(revisions)
    ensures root in Ids(revisions)
    decreases |revisions|
  {
    var last := |revisions| - 1;
    if revisions[last].down.None? && revisions[last].id == root {
      assert Ids(revisions)[last] == root;
    } else {
      RootIdIsKnown(revisions[..last], root);
      var k :| 0 <= k < last && Ids(revisions[..last])[k] == root;
      assert Ids(revisions)[k] == root;
    }
  }
}
