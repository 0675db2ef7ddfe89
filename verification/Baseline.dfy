/** The generator of the revision files, the frozen baseline, and the gate that compares a database with it. */
module Baseline {
  import opened Text
  import opened Values
  import opened Migrations

  // ---------------------------------------------------------------- the generator

  /** `fname[:-4]`. */
  function Stem(name: string): string {
    if |name| < 4 then "" else name[..|name| - 4]
  }

  /** The revision file for the `i`-th of the SQL files: it follows the one before it. */
  function FileAt(names: seq<string>, i: nat): File
    requires i < |names|
  {
    File(Stem(names[i]), Some(Stem(names[i])), if i == 0 then Root else One(Stem(names[i - 1])), Some(names[i]))
  }

  /** The revision files for the SQL files `names`, in this order. */
  function Generated(names: seq<string>): (files: seq<File>)
    ensures |files| == |names| && forall i :: 0 <= i < |names| ==> files[i] == FileAt(names, i)
  {
    seq(|names|, i requires 0 <= i < |names| => FileAt(names, i))
  }

  /** The loop of the generator. */
  method Generate(names: seq<string>) returns (files: seq<File>)
    ensures files == Generated(names)
  {
    files := [];
    var previous := None;
    for i := 0 to |names|
      invariant |files| == i && forall k :: 0 <= k < i ==> files[k] == FileAt(names, k)
      invariant previous == if i == 0 then None else Some(Stem(names[i - 1]))
    {
      var stem := Stem(names[i]);
      files := files + [File(stem, Some(stem), if previous.None? then Root else One(previous.value), Some(names[i]))];
      previous := Some(stem);
    }
  }

  // ---------------------------------------------------------------- the order of the names

  lemma ThreeDigits(s: string)
    requires |s| == 3 && IsDigit(s[0]) && IsDigit(s[1]) && IsDigit(s[2])
    ensures Number(s) == 100 * (s[0] as int - '0' as int) + 10 * (s[1] as int - '0' as int) + (s[2] as int - '0' as int)
  {
    assert s[..2][..1] == s[..1] && s[..1][..0] == "";
    assert Number(s[..1]) == s[0] as int - '0' as int;
    assert Number(s[..2]) == 10 * Number(s[..1]) + (s[1] as int - '0' as int);
  }

  /** Names that start with ordinals are ordered by them, whatever follows. */
  lemma OrdinalOrder(a: string, b: string, suffix: string)
    requires 0 <= Ordinal(a) < Ordinal(b)
    ensures Less(a + suffix, b + suffix)
  {
    ThreeDigits(a[..3]);
    ThreeDigits(b[..3]);
    var x, y := a + suffix, b + suffix;
    assert forall i :: 0 <= i < 3 ==> x[i] == a[..3][i] && y[i] == b[..3][i];
    assert x[1..][0] == x[1] && x[1..][1..][0] == x[2] && y[1..][0] == y[1] && y[1..][1..][0] == y[2];
  }

  lemma {:induction false} LessOneWay(a: string, b: string)
    requires Less(a, b)
    ensures !Less(b, a)
    decreases |a|
  {
    if a != "" && a[0] == b[0] { LessOneWay(a[1..], b[1..]); }
  }

  /** Each name is less than every one behind it. */
  predicate Ascending(names: seq<string>) {
    forall i, j :: 0 <= i < j < |names| ==> Less(names[i], names[j])
  }

  lemma {:induction false} InsertBetween(before: seq<string>, x: string, after: seq<string>)
    requires forall y :: y in before ==> Less(y, x)
    requires after != [] ==> Less(x, after[0])
    ensures Insert(x, before + after) == before + [x] + after
  {
    var list := before + after;
    if before == [] {
      assert list == after;
    } else {
      LessOneWay(before[0], x);
      assert list[1..] == before[1..] + after;
      InsertBetween(before[1..], x, after);
      assert before + [x] + after == [before[0]] + (before[1..] + [x] + after);
    }
  }

  lemma AscendingWithout(names: seq<string>, k: nat)
    requires Ascending(names) && k < |names|
    ensures Ascending(names[..k] + names[k + 1..])
    ensures forall y :: y in names[..k] ==> Less(y, names[k])
    ensures names[k + 1..] != [] ==> Less(names[k], names[k + 1..][0])
    ensures names == names[..k] + [names[k]] + names[k + 1..]
  {
    hide Less;
    var rest := names[..k] + names[k + 1..];
    forall i, j | 0 <= i < j < |rest| ensures Less(rest[i], rest[j]) {
      var i', j' := if i < k then i else i + 1, if j < k then j else j + 1;
      assert rest[i] == names[i'] && rest[j] == names[j'];
    }
  }

  /** Two lists of the same names, without one name each, are again lists of the same names. */
  lemma WithoutOne(list: seq<string>, names: seq<string>) returns (k: nat)
    requires list != [] && multiset(list) == multiset(names)
    ensures k < |names| && names[k] == list[|list| - 1]
    ensures multiset(names[..k] + names[k + 1..]) == multiset(list[..|list| - 1])
  {
    var front, last := list[..|list| - 1], list[|list| - 1];
    assert list == front + [last];
    assert last in multiset(list) && last in names;
    k :| 0 <= k < |names| && names[k] == last;
    assert names == names[..k] + [last] + names[k + 1..];
    assert multiset(names[..k] + names[k + 1..]) == multiset(names) - multiset{last} == multiset(front);
  }

  /** Sorting a list, in whatever order, gives the ascending list of the same names. */
  lemma {:induction false} SortedIs(list: seq<string>, names: seq<string>)
    requires multiset(list) == multiset(names) && Ascending(names)
    ensures Sorted(list) == names
    decreases |list|
  {
    hide Ascending, Less, Insert;
    if list == [] {
      assert |multiset(names)| == 0;
    } else {
      var k := WithoutOne(list, names);
      AscendingWithout(names, k);
      SortedIs(list[..|list| - 1], names[..k] + names[k + 1..]);
      InsertBetween(names[..k], names[k], names[k + 1..]);
    }
  }

  /** However they are listed, SQL files numbered from 001 are sorted by their numbers, and revision files as well. */
  lemma NumberedFilesAreSorted(stems: seq<string>, suffix: string, listed: seq<string>)
    requires Contiguous(stems)
    requires multiset(listed) == multiset(seq(|stems|, i requires 0 <= i < |stems| => stems[i] + suffix))
    ensures Sorted(listed) == seq(|stems|, i requires 0 <= i < |stems| => stems[i] + suffix)
  {
    var names := seq(|stems|, i requires 0 <= i < |stems| => stems[i] + suffix);
    forall i, j | 0 <= i < j < |names| ensures Less(names[i], names[j]) {
      OrdinalOrder(stems[i], stems[j], suffix);
    }
    SortedIs(listed, names);
  }

  // ---------------------------------------------------------------- the round trip

  /** A file that names itself, and at most one revision before it. */
  predicate PlainFile(f: File) {
    f.revision == Some(f.stem) && !f.down.Several?
  }

  function PlainRevision(f: File): Revision
    requires PlainFile(f)
  {
    Revision(f.stem, if f.down.Root? then None else Some(f.down.id), f.sqlFile)
  }

  lemma PlainFileIsRead(f: File)
    requires PlainFile(f)
    ensures RevisionOf(f) == [PlainRevision(f)] && FileDefects(f) == []
  {
  }

  lemma {:induction false} PlainFilesAreRead(files: seq<File>)
    requires forall i :: 0 <= i < |files| ==> PlainFile(files[i])
    ensures var revisions := Revisions(files);
      |revisions| == |files| && forall i :: 0 <= i < |files| ==> revisions[i] == PlainRevision(files[i])
    ensures ReadDefects(files) == []
  {
    hide RevisionOf, FileDefects, PlainFile, PlainRevision;
    if files != [] {
      PlainFilesAreRead(files[..|files| - 1]);
      PlainFileIsRead(files[|files| - 1]);
    }
  }

  lemma {:induction false} NoneKept(list: seq<string>, p: string -> bool)
    requires forall x :: x in list ==> !p(x)
    ensures Keep(list, p) == [] && Sorted(Unique(Keep(list, p))) == []
  {
    if list != [] { NoneKept(list[..|list| - 1], p); }
  }

  lemma {:induction false} OneKept(list: seq<string>, p: string -> bool, k: nat)
    requires k < |list| && p(list[k]) && forall i :: 0 <= i < |list| && i != k ==> !p(list[i])
    ensures Keep(list, p) == [list[k]]
  {
    var front := list[..|list| - 1];
    if k < |front| {
      OneKept(front, p, k);
    } else {
      NoneKept(front, p);
    }
  }

  /** Nothing follows the last of a line of revisions, and something every other one. */
  lemma LastHasNoKid(revisions: seq<Revision>, order: seq<Revision>, k: nat, i: nat)
    requires DistinctIds(revisions) && Linear(revisions, order) && DistinctIds(order)
    requires k < |revisions| && i < |revisions| && revisions[k] == order[|order| - 1]
    ensures Kids(revisions, revisions[i].id) == [] <==> i == k
  {
    hide Linear, Kids, DistinctIds;
    LinearOrder(revisions, order);
    var q := PlaceOf(order, revisions, i);
    KidsInOrder(revisions, order, order[q].id);
    if q == |order| - 1 {
      SamePlace(revisions, i, k);
    } else {
      assert Kids(revisions, order[q].id) == [order[q + 1].id];
      if i == k { SamePlace(order, q, |order| - 1); }
    }
  }

  lemma SamePlace(list: seq<Revision>, i: nat, j: nat)
    requires DistinctIds(list) && i < |list| && j < |list| && list[i].id == list[j].id
    ensures i == j
  {
  }

  /** The heads of a line of revisions: its last one, and no other. */
  lemma HeadIsLast(revisions: seq<Revision>, order: seq<Revision>)
    requires DistinctIds(revisions) && Linear(revisions, order)
    ensures order != [] && Heads(revisions) == [order[|order| - 1].id]
  {
    hide Linear, Kids, DistinctIds, Sorted, Unique, Keep;
    LinearOrder(revisions, order);
    OrderedIds(revisions, order);
    var last := order[|order| - 1];
    var k := PlaceOf(revisions, order, |order| - 1);
    SortedUniqueOne(last.id);
    forall i | 0 <= i < |revisions| ensures Kids(revisions, Ids(revisions)[i]) == [] <==> i == k {
      LastHasNoKid(revisions, order, k, i);
    }
    OneKept(Ids(revisions), id => Kids(revisions, id) == [], k);
  }

  lemma SortedUniqueOne(id: string)
    ensures Sorted(Unique([id])) == [id]
  {
    assert [id][..0] == [] && Unique([]) == [];
    assert Unique([id]) == [id];
    SortedOne(id);
  }

  lemma {:induction false} NoRevisionDefects(all: seq<string>, revisions: seq<Revision>)
    requires forall r :: r in revisions ==> r.sqlFile == Some(r.id + ".sql") && (r.down.Some? ==> r.down.value in all)
    ensures RevisionDefects(all, revisions) == []
  {
    if revisions != [] { NoRevisionDefects(all, revisions[..|revisions| - 1]); }
  }

  lemma {:induction false} NotTwice(list: seq<string>, x: string)
    requires forall i, j :: 0 <= i < j < |list| ==> list[i] != list[j]
    ensures !TwiceIn(list, x)
  {
    if list != [] {
      var front, last := list[..|list| - 1], list[|list| - 1];
      assert list == front + [last];
      NotTwice(front, x);
      assert forall k :: 0 <= k < |front| ==> list[k] != list[|front|];
    }
  }

  function PackageOf(stems: seq<string>, digest: string): Package {
    Package(Generated(SqlNames(stems)), SqlNames(stems), digest)
  }

  /** What the generator leaves behind: a file for each SQL file, which it lists in any order and sorts. */
  function GeneratedPackage(listed: seq<string>, digest: string): Package {
    Package(Generated(Sorted(listed)), Sorted(listed), digest)
  }

  /** The revision the generator writes for the `i`-th stem. */
  function RevisionAt(stems: seq<string>, i: nat): Revision
    requires i < |stems|
  {
    Revision(stems[i], if i == 0 then None else Some(stems[i - 1]), Some(stems[i] + ".sql"))
  }

  lemma FileOfStem(stems: seq<string>, i: nat)
    requires i < |stems|
    ensures PlainFile(FileAt(SqlNames(stems), i)) && PlainRevision(FileAt(SqlNames(stems), i)) == RevisionAt(stems, i)
  {
  }

  lemma GeneratedRevisions(stems: seq<string>)
    ensures var revisions := Revisions(Generated(SqlNames(stems)));
      |revisions| == |stems| && forall i :: 0 <= i < |stems| ==> revisions[i] == RevisionAt(stems, i)
    ensures ReadDefects(Generated(SqlNames(stems))) == []
  {
    hide Revisions, ReadDefects, RevisionAt, FileAt, PlainFile, PlainRevision;
    var files := Generated(SqlNames(stems));
    forall i | 0 <= i < |stems| ensures PlainFile(files[i]) && PlainRevision(files[i]) == RevisionAt(stems, i) {
      FileOfStem(stems, i);
    }
    PlainFilesAreRead(files);
  }

  /** What the generator writes for numbered files is read back as one line of revisions. */
  lemma GeneratedLine(stems: seq<string>, digest: string) returns (revisions: seq<Revision>)
    requires stems != [] && Contiguous(stems)
    ensures revisions == Revisions(PackageOf(stems, digest).files)
    ensures DistinctIds(revisions) && Linear(revisions, revisions) && Ids(revisions) == stems
    ensures forall r :: r in revisions ==> r.sqlFile == Some(r.id + ".sql") && (r.down.Some? ==> r.down.value in stems)
  {
    hide Revisions, Ordinal;
    GeneratedRevisions(stems);
    revisions := Revisions(Generated(SqlNames(stems)));
    forall i, j | 0 <= i < j < |revisions| ensures revisions[i].id != revisions[j].id {
      assert Ordinal(stems[i]) != Ordinal(stems[j]);
    }
    forall r | r in revisions ensures r.sqlFile == Some(r.id + ".sql") && (r.down.Some? ==> r.down.value in stems) {
      var i :| 0 <= i < |revisions| && revisions[i] == r;
      assert r == RevisionAt(stems, i);
    }
  }

  lemma GeneratedHasNoDefects(stems: seq<string>, digest: string)
    requires stems != [] && Contiguous(stems)
    ensures GraphDefects(PackageOf(stems, digest), stems) == []
  {
    hide RevisionDefects, Revisions, Kids, Sorted, Unique, Keep, ReadDefects, Generated;
    var p := PackageOf(stems, digest);
    var revisions := GeneratedLine(stems, digest);
    GeneratedRevisions(stems);
    forall i | 0 <= i < |revisions| ensures revisions[i].id == stems[i] { assert Ids(revisions)[i] == stems[i]; }
    NoRevisionDefects(stems, revisions);
    forall x | x in stems ensures !TwiceIn(stems, x) {
      forall i, j | 0 <= i < j < |stems| ensures stems[i] != stems[j] { assert Ordinal(stems[i]) != Ordinal(stems[j]); }
      NotTwice(stems, x);
    }
    NoneKept(stems, id => TwiceIn(stems, id));
    NoneKept(SqlNames(stems), name => name !in p.sqlFiles);
    NoneKept(p.sqlFiles, name => name !in SqlNames(stems));
  }

  /**
   * Generator and validator undo each other. For numbered SQL files, listed in any order, the generator's files can be
   * walked, and what is reported of them has no defect: the chain is the files in the order of their numbers, its first
   * the sole root, its last the sole head.
   */
  lemma GeneratedPackagesAreValid(stems: seq<string>, listed: seq<string>, digest: string, report: Report)
    requires stems != [] && Contiguous(stems) && multiset(listed) == multiset(SqlNames(stems))
    ensures Walkable(GeneratedPackage(listed, digest))
    ensures Describes(GeneratedPackage(listed, digest), report) ==>
              report == Report(|stems|, |stems|, [stems[0]], [stems[|stems| - 1]], stems, digest, [])
  {
    hide GraphDefects, Linear, Revisions, Generated, Sorted;
    var p := PackageOf(stems, digest);
    ListedInAnyOrder(stems, listed, digest);
    var revisions := GeneratedLine(stems, digest);
    forall i | 0 <= i < |revisions| ensures revisions[i].id == stems[i] { assert Ids(revisions)[i] == stems[i]; }
    LinearIsVisited(revisions, revisions);
    HeadIsLast(revisions, revisions);
    VisitEnds(revisions, revisions[0].id, stems);
    GeneratedHasNoDefects(stems, digest);
    if Describes(p, report) { ChainIffLinear(revisions, report.chain); }
  }

  lemma ListedInAnyOrder(stems: seq<string>, listed: seq<string>, digest: string)
    requires Contiguous(stems) && multiset(listed) == multiset(SqlNames(stems))
    ensures GeneratedPackage(listed, digest) == PackageOf(stems, digest)
  {
    hide Sorted;
    assert SqlNames(stems) == seq(|stems|, i requires 0 <= i < |stems| => stems[i] + ".sql");
    NumberedFilesAreSorted(stems, ".sql", listed);
  }

  lemma VisitEnds(revisions: seq<Revision>, root: string, chain: seq<string>)
    requires Visits(revisions, root, chain)
    ensures Ends(revisions, root)
  {
  }

  // ---------------------------------------------------------------- the baseline

  datatype Frozen = Frozen(root: string, head: string, count: nat, digest: string)

  datatype Violation = Structural(defect: Defect) | RevisionCount | SqlCount | OtherRoots | OtherHeads | OtherContent

  function Structurals(defects: seq<Defect>): (v: seq<Violation>)
    ensures |v| == |defects|
  {
    seq(|defects|, i requires 0 <= i < |defects| => Structural(defects[i]))
  }

  /** `find_baseline_violations`. */
  method FindViolations(report: Report, b: Frozen) returns (violations: seq<Violation>)
    ensures violations == Violations(report, b)
  {
    violations := Structurals(report.defects);
    if report.count != b.count { violations := violations + [RevisionCount]; }
    if report.sqlCount != b.count { violations := violations + [SqlCount]; }
    if report.roots != [b.root] { violations := violations + [OtherRoots]; }
    if report.heads != [b.head] { violations := violations + [OtherHeads]; }
    if report.digest != b.digest { violations := violations + [OtherContent]; }
  }

  function Violations(report: Report, b: Frozen): seq<Violation> {
    Structurals(report.defects)
    + (if report.count != b.count then [RevisionCount] else [])
    + (if report.sqlCount != b.count then [SqlCount] else [])
    + (if report.roots != [b.root] then [OtherRoots] else [])
    + (if report.heads != [b.head] then [OtherHeads] else [])
    + (if report.digest != b.digest then [OtherContent] else [])
  }

  lemma NothingViolated(report: Report, b: Frozen)
    ensures Violations(report, b) == [] <==>
            && report.defects == [] && report.count == report.sqlCount == b.count
            && report.roots == [b.root] && report.heads == [b.head] && report.digest == b.digest
  {
    assert |Violations(report, b)| == |report.defects|
      + (if report.count != b.count then 1 else 0) + (if report.sqlCount != b.count then 1 else 0)
      + (if report.roots != [b.root] then 1 else 0) + (if report.heads != [b.head] then 1 else 0)
      + (if report.digest != b.digest then 1 else 0);
  }

  lemma UniqueSome(list: seq<string>)
    requires list != []
    ensures Unique(list) != []
  {
    assert list[0] in Unique(list);
  }

  lemma UniqueNone(list: seq<string>)
    requires Sorted(Unique(list)) == []
    ensures list == []
  {
    if list != [] { UniqueSome(list); }
    SortedMembers(Unique(list));
  }

  /** A package without defects has distinct identifiers and a chain numbered from 001. */
  lemma NoDefectsMean(p: Package, report: Report)
    requires Describes(p, report) && report.defects == []
    ensures DistinctIds(Revisions(p.files)) && report.chain != [] && Contiguous(report.chain)
    ensures forall id :: id in Ids(Revisions(p.files)) ==> id + ".sql" in p.sqlFiles
  {
    hide Keep, Sorted, Unique, RevisionDefects, ReadDefects, IsChain, Revisions, Heads, Roots, TwiceIn;
    var revisions := Revisions(p.files);
    var ids := Ids(revisions);
    assert |Duplicates(ids)| == 0 && |MissingSql(ids, p.sqlFiles)| == 0;
    UniqueNone(Keep(ids, id => TwiceIn(ids, id)));
    UniqueNone(Keep(SqlNames(ids), name => name !in p.sqlFiles));
    forall i, j | 0 <= i < j < |revisions| ensures revisions[i].id != revisions[j].id {
      assert ids[i] in ids && ids[i] !in Keep(ids, id => TwiceIn(ids, id));
      OnlyOnce(ids, i, j);
    }
    forall id | id in ids ensures id + ".sql" in p.sqlFiles {
      var i :| 0 <= i < |ids| && ids[i] == id;
      assert SqlNames(ids)[i] in SqlNames(ids) && SqlNames(ids)[i] !in Keep(SqlNames(ids), name => name !in p.sqlFiles);
    }
  }

  lemma OnlyOnce(list: seq<string>, i: nat, j: nat)
    requires i < j < |list| && !TwiceIn(list, list[i])
    ensures list[i] != list[j]
  {
    if list[i] == list[j] { Twice(list, i, j); }
  }

  /** The line of revisions behind a report without violations. */
  lemma BaselineLine(p: Package, report: Report, b: Frozen) returns (order: seq<Revision>)
    requires Describes(p, report) && Violations(report, b) == []
    ensures DistinctIds(Revisions(p.files)) && Linear(Revisions(p.files), order) && report.chain == Ids(order)
    ensures |order| == b.count && order[0].id == b.root && order[|order| - 1].id == b.head
  {
    hide Violations, GraphDefects, Linear, Revisions, Heads, Roots;
    NothingViolated(report, b);
    NoDefectsMean(p, report);
    var revisions := Revisions(p.files);
    ChainIffLinear(revisions, report.chain);
    order :| Linear(revisions, order);
    LinearOrder(revisions, order);
    OrderedIds(revisions, order);
    LinearIsVisited(revisions, order);
    HeadIsLast(revisions, order);
  }

  /** A package that matches the baseline is one line of as many revisions as expected, from its root to its head. */
  lemma BaselineIsOneLine(p: Package, report: Report, b: Frozen)
    requires Describes(p, report) && Violations(report, b) == []
    ensures |report.chain| == b.count > 0 && report.chain[0] == b.root && report.chain[b.count - 1] == b.head
    ensures Contiguous(report.chain)
    ensures forall id :: id in report.chain ==> id + ".sql" in p.sqlFiles
  {
    hide Violations, GraphDefects, Linear, Revisions, Describes;
    var order := BaselineLine(p, report, b);
    NothingViolated(report, b);
    NoDefectsMean(p, report);
    LinearOrder(Revisions(p.files), order);
    OrderedIds(Revisions(p.files), order);
    forall id | id in report.chain ensures id in Ids(Revisions(p.files)) {
      var i :| 0 <= i < |order| && Ids(order)[i] == id;
      var k := PlaceOf(Revisions(p.files), order, i);
      assert Ids(Revisions(p.files))[k] == id;
    }
  }

  // ---------------------------------------------------------------- the gate

  datatype Problem =
    | NoTable
    | NoRevision
    | SeveralRevisions
    | Unknown(found: string)
    | Stale(found: string, behind: int)
    | Elsewhere(found: string)

  /** `chain.index(x)`. */
  function Index(chain: seq<string>, x: string): (i: nat)
    requires x in chain
    ensures i < |chain| && chain[i] == x && forall k :: 0 <= k < i ==> chain[k] != x
  {
    if chain[0] == x then 0 else 1 + Index(chain[1..], x)
  }

  /** `revision_problem`: `None` for no table. */
  function RevisionProblem(revisions: Option<seq<string>>, expected: string, chain: seq<string>): Option<Problem> {
    if revisions.None? then Some(NoTable)
    else if revisions.value == [expected] then None
    else if revisions.value == [] then Some(NoRevision)
    else if |revisions.value| > 1 then Some(SeveralRevisions)
    else
      var found := revisions.value[0];
      if found !in chain then Some(Unknown(found))
      else if expected in chain && Index(chain, found) < Index(chain, expected) then
        Some(Stale(found, Index(chain, expected) - Index(chain, found)))
      else Some(Elsewhere(found))
  }

  /** What is reached from `id` over `n` down-revision links. */
  function LinksBack(revisions: seq<Revision>, id: string, n: nat): Option<string>
    decreases n
  {
    if id !in Ids(revisions) then None
    else if n == 0 then Some(id)
    else
      var down := Lookup(revisions, id).down;
      if down.None? then None else LinksBack(revisions, down.value, n - 1)
  }

  lemma {:induction false} LinksInOrder(revisions: seq<Revision>, order: seq<Revision>, i: nat, n: nat)
    requires DistinctIds(revisions) && Linear(revisions, order) && n <= i < |order|
    ensures LinksBack(revisions, order[i].id, n) == Some(order[i - n].id)
  {
    OrderedIds(revisions, order);
    var k := PlaceOf(revisions, order, i);
    assert Ids(revisions)[k] == order[i].id;
    SameId(revisions, Lookup(revisions, order[i].id), order[i]);
    if n > 0 { LinksInOrder(revisions, order, i - 1, n - 1); }
  }

  /** A revision of the line before its last is stale by its distance, which is the number of links between the two. */
  lemma StaleByLinks(revisions: seq<Revision>, order: seq<Revision>, i: nat)
    requires DistinctIds(revisions) && Linear(revisions, order) && i < |order| - 1
    ensures var head, found, behind := order[|order| - 1].id, order[i].id, |order| - 1 - i;
      && RevisionProblem(Some([found]), head, Ids(order)) == Some(Stale(found, behind))
      && LinksBack(revisions, head, behind) == Some(found)
  {
    hide Linear, LinksBack, Index;
    LinearOrder(revisions, order);
    OrderedIds(revisions, order);
    LinksInOrder(revisions, order, |order| - 1, |order| - 1 - i);
  }

  /**
   * With a repository that matches the baseline the gate sees no problem exactly for a database at exactly the frozen
   * head. A database at another revision of the chain is stale, and the reported distance is the number of
   * down-revision links from the head to the revision found.
   */
  lemma TheGateIsExact(p: Package, report: Report, b: Frozen, revisions: Option<seq<string>>)
    requires Describes(p, report) && Violations(report, b) == []
    ensures RevisionProblem(revisions, b.head, report.chain).None? <==> revisions == Some([b.head])
    ensures forall found :: revisions == Some([found]) && found in report.chain && found != b.head ==>
      StaleIn(p, report, b, found)
  {
    hide Violations, GraphDefects, Linear, Revisions, Describes, LinksBack, Index;
    var order := BaselineLine(p, report, b);
    forall found | revisions == Some([found]) && found in report.chain && found != b.head
      ensures StaleIn(p, report, b, found)
    {
      var i :| 0 <= i < |order| && Ids(order)[i] == found;
      StaleByLinks(Revisions(p.files), order, i);
      assert IsStale(p, report, b, found, |order| - 1 - i);
    }
  }

  /** A database at `found` is reported as stale by as many revisions as there are links from the head to `found`. */
  ghost predicate StaleIn(p: Package, report: Report, b: Frozen, found: string) {
    exists behind: nat :: behind > 0 && IsStale(p, report, b, found, behind)
  }

  predicate IsStale(p: Package, report: Report, b: Frozen, found: string, behind: nat) {
    && RevisionProblem(Some([found]), b.head, report.chain) == Some(Stale(found, behind))
    && LinksBack(Revisions(p.files), b.head, behind) == Some(found)
  }

  /** What the gate reads over its connection. */
  datatype Connected = Connected(sessionUser: string, currentUser: string, database: string,
                                 revisions: Option<seq<string>>, installed: set<string>)

  datatype Finding = AtRevision(problem: Problem) | NotInstalled(extension: string)

  datatype Verdict =
    | NotTheBaseline
    | NotRepositoryHead
    | NotApplicationHead
    | NoTarget
    | RuntimeRole
    | OtherDatabase
    | Refused(findings: seq<Finding>)
    | Passed

  const REQUIRED_EXTENSIONS := ["pg_stat_statements", "pgcrypto", "vector"]
  const RUNTIME_ROLES: set<string> := {"app_api", "app_worker", "app_readonly"}

  function NotInstalledAmong(extensions: seq<string>, installed: set<string>): seq<Finding> {
    if extensions == [] then []
    else
      var last := extensions[|extensions| - 1];
      NotInstalledAmong(extensions[..|extensions| - 1], installed)
      + if last in installed then [] else [NotInstalled(last)]
  }

  function AtRevisions(revisions: Option<seq<string>>, expected: string, chain: seq<string>): (f: seq<Finding>)
    ensures f == [] <==> revisions == Some([expected])
  {
    var problem := RevisionProblem(revisions, expected, chain);
    if problem.Some? then [AtRevision(problem.value)] else []
  }

  lemma {:induction false} AllInstalled(extensions: seq<string>, installed: set<string>)
    ensures NotInstalledAmong(extensions, installed) == [] <==> forall x :: x in extensions ==> x in installed
  {
    if extensions != [] {
      var front, last := extensions[..|extensions| - 1], extensions[|extensions| - 1];
      assert extensions == front + [last];
      AllInstalled(front, installed);
    }
  }

  /** The repository matches the baseline, and its head is the expected one. */
  predicate AtTheHead(report: Report, b: Frozen, expected: string) {
    Violations(report, b) == [] && expected == b.head
  }

  predicate AsRuntime(c: Connected) {
    c.sessionUser in RUNTIME_ROLES || c.currentUser in RUNTIME_ROLES
  }

  /** The conditions under which a deployment may go on. */
  predicate Deployable(report: Report, b: Frozen, expected: string, target: Option<string>, c: Connected) {
    && AtTheHead(report, b, expected)
    && target == Some(c.database) && !AsRuntime(c)
    && c.revisions == Some([expected])
    && forall x :: x in REQUIRED_EXTENSIONS ==> x in c.installed
  }

  /**
   * `command_gate`: it passes exactly if every condition holds, it refuses a wrong head, role or database before any
   * finding, and otherwise reports all findings, the revision first. `target` is the database of the derived target,
   * `None` if it is refused; nothing of the connection matters before the target is derived. The check against the
   * application's own head never refuses: the repository was just found to have that head.
   */
  method Gate(report: Report, b: Frozen, expected: string, target: Option<string>, c: Connected) returns (v: Verdict)
    ensures v.Passed? <==> Deployable(report, b, expected, target, c)
    ensures v.NotTheBaseline? <==> Violations(report, b) != []
    ensures v.NotRepositoryHead? <==> Violations(report, b) == [] && expected != b.head
    ensures !v.NotApplicationHead?
    ensures v.NoTarget? <==> AtTheHead(report, b, expected) && target.None?
    ensures v.RuntimeRole? <==> AtTheHead(report, b, expected) && target.Some? && AsRuntime(c)
    ensures v.OtherDatabase? <==>
      AtTheHead(report, b, expected) && target.Some? && !AsRuntime(c) && target != Some(c.database)
    ensures v.Refused? <==>
      && AtTheHead(report, b, expected) && target == Some(c.database) && !AsRuntime(c)
      && !(c.revisions == Some([expected]) && forall x :: x in REQUIRED_EXTENSIONS ==> x in c.installed)
    ensures v.Refused? ==>
      v.findings
      == AtRevisions(c.revisions, expected, report.chain) + NotInstalledAmong(REQUIRED_EXTENSIONS, c.installed)
  {
    var violations := FindViolations(report, b);
    NothingViolated(report, b);
    if violations != [] { return NotTheBaseline; }
    var head := report.heads[0];
    if expected != head { return NotRepositoryHead; }
    if expected != b.head { return NotApplicationHead; }
    if target.None? { return NoTarget; }
    if c.sessionUser in RUNTIME_ROLES || c.currentUser in RUNTIME_ROLES { return RuntimeRole; }
    if c.database != target.value { return OtherDatabase; }
    var problems := [];
    var problem := RevisionProblem(c.revisions, expected, report.chain);
    if problem.Some? { problems := [AtRevision(problem.value)]; }
    ghost var first := problems;
    for i := 0 to |REQUIRED_EXTENSIONS|
      invariant problems == first + NotInstalledAmong(REQUIRED_EXTENSIONS[..i], c.installed)
    {
      assert REQUIRED_EXTENSIONS[..i + 1][..i] == REQUIRED_EXTENSIONS[..i];
      if REQUIRED_EXTENSIONS[i] !in c.installed { problems := problems + [NotInstalled(REQUIRED_EXTENSIONS[i])]; }
    }
    assert REQUIRED_EXTENSIONS[..|REQUIRED_EXTENSIONS|] == REQUIRED_EXTENSIONS;
    AllInstalled(REQUIRED_EXTENSIONS, c.installed);
    return if problems != [] then Refused(problems) else Passed;
  }
}
