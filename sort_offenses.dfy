/** `sortOffenses`: group offenses by file path, then order each file's offenses
    by severity, errors first, keeping input order among equal severities. */
module Sorting {
  import opened Wrappers
  import opened Offenses

  /** One property of the grouped object: a file path and that file's offenses. */
  datatype FileOffenses = FileOffenses(path: string, offenses: seq<Offense>)

  /** The `OffenseMap` object. A JavaScript object lists keys that are not array
      indices (and an absolute path, starting with '/', never is one) in insertion
      order, so it is an ordered list of entries with distinct paths. */
  type OffenseMap = seq<FileOffenses>

  predicate DistinctPaths(m: OffenseMap) {
    forall i, j :: 0 <= i < j < |m| ==> m[i].path != m[j].path
  }

  /** `Object.keys(m)` as a set. */
  function KeySet(m: OffenseMap): set<string> {
    set e | e in m :: e.path
  }

  /** The paths the given offenses are reported against. */
  function PathsOf(s: seq<Offense>): set<string> {
    set o | o in s :: o.absolutePath
  }

  /** Index of the entry for path p, if there is one. */
  function IndexOf(m: OffenseMap, p: string): (r: Option<nat>)
    ensures r.Some? ==> r.value < |m| && m[r.value].path == p
    ensures r.None? ==> forall i :: 0 <= i < |m| ==> m[i].path != p
  {
    if m == [] then None
    else if m[0].path == p then Some(0)
    else match IndexOf(m[1..], p)
      case None => None
      case Some(i) => Some(i + 1)
  }

  /** `m[p]`: the offenses stored under key p. */
  function Lookup(m: OffenseMap, p: string): Option<seq<Offense>> {
    match IndexOf(m, p)
    case None => None
    case Some(i) => Some(m[i].offenses)
  }

  /** The offenses of s reported against path p, in input order. */
  function OfPath(s: seq<Offense>, p: string): (r: seq<Offense>)
    ensures forall o :: o in r ==> o in s && o.absolutePath == p
  {
    if s == [] then []
    else OfPath(s[..|s| - 1], p) + (if s[|s| - 1].absolutePath == p then [s[|s| - 1]] else [])
  }

  /** A path no offense is reported against has no offenses. */
  lemma {:induction false} OfPathAbsent(s: seq<Offense>, p: string)
    requires p !in PathsOf(s)
    ensures OfPath(s, p) == []
    decreases |s|
  {
    if s != [] {
      var s' := s[..|s| - 1];
      assert PathsOf(s') <= PathsOf(s) by {
        forall x | x in PathsOf(s') ensures x in PathsOf(s) {
          var o :| o in s' && o.absolutePath == x;
          assert o in s;
        }
      }
      OfPathAbsent(s', p);
      assert s[|s| - 1] in s;
    }
  }

  /** One grouping step: the offense joins the end of its path's list, and a path
      not seen before gets a new entry at the end. */
  function Push(acc: OffenseMap, o: Offense): (r: OffenseMap)
    ensures |acc| <= |r| <= |acc| + 1
    ensures forall i :: 0 <= i < |acc| ==> r[i].path == acc[i].path
    ensures |r| == |acc| + 1 ==> r[|acc|] == FileOffenses(o.absolutePath, [o])
    ensures DistinctPaths(acc) ==> DistinctPaths(r)
  {
    match IndexOf(acc, o.absolutePath)
    case Some(i) => acc[i := FileOffenses(acc[i].path, acc[i].offenses + [o])]
    case None => acc + [FileOffenses(o.absolutePath, [o])]
  }

  /** The pass over the input that builds the grouped object, keys in order of first appearance. */
  function GroupByPath(s: seq<Offense>): (r: OffenseMap)
    ensures |r| <= |s|
    ensures DistinctPaths(r)
  {
    if s == [] then [] else Push(GroupByPath(s[..|s| - 1]), s[|s| - 1])
  }

  // ---------------------------------------------------------------------------
  // Ordering within one file

  /** Rank of the i-th offense of s. */
  function RankAt(s: seq<Offense>, i: nat): nat
    requires i < |s|
  {
    s[i].severity.Rank()
  }

  /** Severity-sorted: ranks never decrease, so errors precede warnings precede infos. */
  predicate BySeverity(s: seq<Offense>) {
    forall i, j {:trigger RankAt(s, i), RankAt(s, j)} :: 0 <= i < j < |s| ==> RankAt(s, i) <= RankAt(s, j)
  }

  /** The tail of a sorted list is sorted, and its head has the least rank. */
  lemma SortedTail(s: seq<Offense>)
    requires BySeverity(s) && s != []
    ensures BySeverity(s[1..])
    ensures forall k :: 0 <= k < |s| - 1 ==> RankAt(s, 0) <= s[1..][k].severity.Rank()
  {
    var t := s[1..];
    forall a, b | 0 <= a < b < |t| ensures RankAt(t, a) <= RankAt(t, b) {
      assert RankAt(t, a) == RankAt(s, a + 1) && RankAt(t, b) == RankAt(s, b + 1);
    }
    forall k | 0 <= k < |t| ensures RankAt(s, 0) <= t[k].severity.Rank() {
      assert t[k].severity.Rank() == RankAt(s, k + 1);
    }
  }

  /** The offenses of s with severity v, in input order. */
  function OfSeverity(s: seq<Offense>, v: Severity): (r: seq<Offense>)
  {
    if s == [] then []
    else (if s[0].severity == v then [s[0]] else []) + OfSeverity(s[1..], v)
  }

  lemma OfSeverityCons(x: Offense, t: seq<Offense>, v: Severity)
    ensures OfSeverity([x] + t, v) == (if x.severity == v then [x] else []) + OfSeverity(t, v)
  {
    assert ([x] + t)[1..] == t;
  }

  /** Every offense has exactly one of the three severities. */
  lemma {:induction false} SeverityPartition(s: seq<Offense>)
    ensures |OfSeverity(s, ERROR)| + |OfSeverity(s, WARNING)| + |OfSeverity(s, INFO)| == |s|
    decreases |s|
  {
    if s != [] {
      SeverityPartition(s[1..]);
    }
  }

  /** The stable severity sort written as its outcome: the errors, then the
      warnings, then the infos, each group in input order. */
  function Buckets(s: seq<Offense>): seq<Offense> {
    OfSeverity(s, ERROR) + OfSeverity(s, WARNING) + OfSeverity(s, INFO)
  }

  /** Inserts o before the first offense of rank at least its own. */
  function Insert(o: Offense, s: seq<Offense>): seq<Offense> {
    if s == [] then [o]
    else if o.severity.Rank() <= s[0].severity.Rank() then [o] + s
    else [s[0]] + Insert(o, s[1..])
  }

  /** Insertion adds o and loses nothing. */
  lemma {:induction false} InsertPermutes(o: Offense, s: seq<Offense>)
    ensures multiset(Insert(o, s)) == multiset(s) + multiset{o}
    decreases |s|
  {
    if s != [] && o.severity.Rank() > s[0].severity.Rank() {
      assert s == [s[0]] + s[1..];
      InsertPermutes(o, s[1..]);
    }
  }

  /** Insertion keeps a list severity-sorted. */
  lemma {:induction false} InsertSorted(o: Offense, s: seq<Offense>)
    requires BySeverity(s)
    ensures BySeverity(Insert(o, s))
    decreases |s|
  {
    if s == [] {
    } else if o.severity.Rank() <= s[0].severity.Rank() {
      var r := [o] + s;
      forall a, b | 0 <= a < b < |r| ensures RankAt(r, a) <= RankAt(r, b) {
        if a == 0 {
          if b > 1 {
            assert RankAt(s, 0) <= RankAt(s, b - 1);
          }
        } else {
          assert RankAt(r, a) == RankAt(s, a - 1) && RankAt(r, b) == RankAt(s, b - 1);
        }
      }
    } else {
      var x, t := s[0], s[1..];
      SortedTail(s);
      InsertSorted(o, t);
      InsertPermutes(o, t);
      var r := Insert(o, t);
      var q := [x] + r;
      assert Insert(o, s) == q;
      forall a, b | 0 <= a < b < |q| ensures RankAt(q, a) <= RankAt(q, b) {
        if a == 0 {
          var y := r[b - 1];
          assert y in multiset(t) + multiset{o};
          if y != o {
            assert y in t;
            var k :| 0 <= k < |t| && t[k] == y;
          }
        } else {
          assert RankAt(q, a) == RankAt(r, a - 1) && RankAt(q, b) == RankAt(r, b - 1);
        }
      }
    }
  }

  /** Orders a file's offenses errors first, then warnings, then infos, keeping offenses
      of equal severity in their input order (a stable sort by severity rank); the
      stable insertion sort below is one such ordering. */
  function SortBySeverity(s: seq<Offense>): (r: seq<Offense>)
    ensures multiset(r) == multiset(s)
    ensures BySeverity(r)
  {
    if s == [] then []
    else
      var t := SortBySeverity(s[1..]);
      InsertSorted(s[0], t);
      InsertPermutes(s[0], t);
      assert s == [s[0]] + s[1..];
      Insert(s[0], t)
  }

  /** Inserting o into a severity-sorted list adds o to its severity's group only. */
  lemma {:induction false} OfSeverityInsert(o: Offense, s: seq<Offense>, v: Severity)
    requires BySeverity(s)
    ensures OfSeverity(Insert(o, s), v) == (if o.severity == v then [o] else []) + OfSeverity(s, v)
    decreases |s|
  {
    if s == [] {
      OfSeverityCons(o, [], v);
      assert [o] + [] == [o];
    } else if o.severity.Rank() <= s[0].severity.Rank() {
      OfSeverityCons(o, s, v);
    } else {
      var x, t := s[0], s[1..];
      assert s == [x] + t;
      SortedTail(s);
      var r := Insert(o, t);
      assert Insert(o, s) == [x] + r;
      OfSeverityInsert(o, t, v);
      OfSeverityCons(x, r, v);
      OfSeverityCons(x, t, v);
      if o.severity == v {
        assert x.severity != v;
      }
    }
  }

  /** The sort keeps each severity group in input order (stability). */
  lemma {:induction false} SortIsStable(s: seq<Offense>, v: Severity)
    ensures OfSeverity(SortBySeverity(s), v) == OfSeverity(s, v)
    decreases |s|
  {
    if s != [] {
      SortIsStable(s[1..], v);
      OfSeverityInsert(s[0], SortBySeverity(s[1..]), v);
    }
  }

  /** No offense of s has severity v. */
  lemma {:induction false} OfSeverityEmpty(s: seq<Offense>, v: Severity)
    requires forall i :: 0 <= i < |s| ==> s[i].severity != v
    ensures OfSeverity(s, v) == []
    decreases |s|
  {
    if s != [] {
      OfSeverityEmpty(s[1..], v);
    }
  }

  /** Buckets of a list whose head x precedes a list t that is its own buckets. */
  lemma BucketsCons(x: Offense, t: seq<Offense>)
    requires t == Buckets(t)
    requires forall k :: 0 <= k < |t| ==> x.severity.Rank() <= t[k].severity.Rank()
    ensures [x] + t == Buckets([x] + t)
  {
    match x.severity
    case ERROR => BucketsConsError(x, t);
    case WARNING =>
      OfSeverityEmpty(t, ERROR);
      BucketsConsWarning(x, t);
    case INFO =>
      OfSeverityEmpty(t, ERROR);
      OfSeverityEmpty(t, WARNING);
      BucketsConsInfo(x, t);
  }

  lemma BucketsConsError(x: Offense, t: seq<Offense>)
    requires t == Buckets(t) && x.severity == ERROR
    ensures [x] + t == Buckets([x] + t)
  {
    OfSeverityCons(x, t, ERROR);
    OfSeverityCons(x, t, WARNING);
    OfSeverityCons(x, t, INFO);
    ConcatAssoc([x], OfSeverity(t, ERROR), OfSeverity(t, WARNING), OfSeverity(t, INFO));
  }

  lemma BucketsConsWarning(x: Offense, t: seq<Offense>)
    requires t == Buckets(t) && x.severity == WARNING && OfSeverity(t, ERROR) == []
    ensures [x] + t == Buckets([x] + t)
  {
    OfSeverityCons(x, t, ERROR);
    OfSeverityCons(x, t, WARNING);
    OfSeverityCons(x, t, INFO);
    ConcatAssoc([x], [], OfSeverity(t, WARNING), OfSeverity(t, INFO));
  }

  lemma BucketsConsInfo(x: Offense, t: seq<Offense>)
    requires t == Buckets(t) && x.severity == INFO
    requires OfSeverity(t, ERROR) == [] && OfSeverity(t, WARNING) == []
    ensures [x] + t == Buckets([x] + t)
  {
    OfSeverityCons(x, t, ERROR);
    OfSeverityCons(x, t, WARNING);
    OfSeverityCons(x, t, INFO);
    ConcatAssoc([x], [], [], OfSeverity(t, INFO));
  }

  lemma ConcatAssoc(a: seq<Offense>, b: seq<Offense>, c: seq<Offense>, d: seq<Offense>)
    ensures a + (b + c + d) == (a + b) + c + d
  {
  }

  /** A severity-sorted list is already its own buckets. */
  lemma {:induction false} SortedIsBuckets(s: seq<Offense>)
    requires BySeverity(s)
    ensures s == Buckets(s)
    decreases |s|
  {
    if s != [] {
      assert s == [s[0]] + s[1..];
      SortedTail(s);
      SortedIsBuckets(s[1..]);
      BucketsCons(s[0], s[1..]);
    }
  }

  /** The sort's result is the errors, then the warnings, then the infos of its
      input, each in input order: a stable sort, and the only one. */
  lemma SortBySeverityIsBuckets(s: seq<Offense>)
    ensures SortBySeverity(s) == Buckets(s)
  {
    var r := SortBySeverity(s);
    SortedIsBuckets(r);
    SortIsStable(s, ERROR);
    SortIsStable(s, WARNING);
    SortIsStable(s, INFO);
  }

  // ---------------------------------------------------------------------------
  // The whole operation

  /** `sortOffenses`: the grouped object with each file's list severity-sorted. */
  function SortOffenses(s: seq<Offense>): (r: OffenseMap)
    ensures |r| == |GroupByPath(s)|
    ensures forall i :: 0 <= i < |r| ==> r[i].path == GroupByPath(s)[i].path
    ensures DistinctPaths(r)
  {
    var g := GroupByPath(s);
    seq(|g|, i requires 0 <= i < |g| => FileOffenses(g[i].path, SortBySeverity(g[i].offenses)))
  }

  lemma PathsOfSnoc(s: seq<Offense>, o: Offense)
    ensures PathsOf(s + [o]) == PathsOf(s) + {o.absolutePath}
  {
    assert forall x :: x in s + [o] <==> x in s || x == o;
  }

  /** g is the grouping of s: distinct keys, exactly the paths of s, each holding its offenses in order. */
  predicate GroupsOf(g: OffenseMap, s: seq<Offense>) {
    && DistinctPaths(g)
    && KeySet(g) == PathsOf(s)
    && forall i :: 0 <= i < |g| ==> g[i].offenses == OfPath(s, g[i].path)
  }

  lemma OfPathSnoc(s: seq<Offense>, o: Offense, p: string)
    ensures OfPath(s + [o], p) == OfPath(s, p) + (if o.absolutePath == p then [o] else [])
  {
    assert (s + [o])[..|s|] == s;
  }

  /** Pushing an offense whose path is already a key appends it to that key's list. */
  lemma PushExisting(g: OffenseMap, s: seq<Offense>, o: Offense, k: nat)
    requires GroupsOf(g, s)
    requires k < |g| && g[k].path == o.absolutePath
    ensures GroupsOf(g[k := FileOffenses(g[k].path, g[k].offenses + [o])], s + [o])
  {
    var p := o.absolutePath;
    var g' := g[k := FileOffenses(p, g[k].offenses + [o])];
    PathsOfSnoc(s, o);
    assert p in KeySet(g) by { assert g[k] in g; }
    forall i | 0 <= i < |g'| ensures g'[i].offenses == OfPath(s + [o], g'[i].path) {
      OfPathSnoc(s, o, g'[i].path);
    }
    assert KeySet(g') == KeySet(g) by {
      forall x | x in KeySet(g) ensures x in KeySet(g') {
        var e :| e in g && e.path == x;
        var i :| 0 <= i < |g| && g[i] == e;
        assert g'[i].path == x && g'[i] in g';
      }
    }
  }

  /** Pushing an offense with a new path adds a key at the end holding just it. */
  lemma PushNew(g: OffenseMap, s: seq<Offense>, o: Offense)
    requires GroupsOf(g, s)
    requires forall i :: 0 <= i < |g| ==> g[i].path != o.absolutePath
    ensures GroupsOf(g + [FileOffenses(o.absolutePath, [o])], s + [o])
  {
    var p := o.absolutePath;
    var e := FileOffenses(p, [o]);
    var g' := g + [e];
    PathsOfSnoc(s, o);
    assert p !in KeySet(g);
    OfPathAbsent(s, p);
    forall i | 0 <= i < |g'| ensures g'[i].offenses == OfPath(s + [o], g'[i].path) {
      OfPathSnoc(s, o, g'[i].path);
    }
    assert KeySet(g') == KeySet(g) + {p} by {
      assert forall x :: x in g' <==> x in g || x == e;
    }
  }

  /** Grouping puts every offense under its own path, keys are distinct and
      are exactly the paths of the input, and each key holds its offenses in input order. */
  lemma {:induction false} GroupByPathSpec(s: seq<Offense>)
    ensures GroupsOf(GroupByPath(s), s)
    decreases |s|
  {
    if s != [] {
      var s', o := s[..|s| - 1], s[|s| - 1];
      assert s == s' + [o];
      GroupByPathSpec(s');
      var g' := GroupByPath(s');
      match IndexOf(g', o.absolutePath)
      case Some(k) => PushExisting(g', s', o, k);
      case None => PushNew(g', s', o);
    }
  }

  /** The asserted behaviour of `sortOffenses`: one key per distinct path of the
      input, and under each key exactly that file's offenses (none lost, none
      duplicated), errors first, then warnings, then infos, each group in input order. */
  lemma SortOffensesSpec(s: seq<Offense>)
    ensures DistinctPaths(SortOffenses(s))
    ensures KeySet(SortOffenses(s)) == PathsOf(s)
    ensures forall i :: 0 <= i < |SortOffenses(s)| ==>
      SortOffenses(s)[i].offenses == Buckets(OfPath(s, SortOffenses(s)[i].path))
  {
    GroupByPathSpec(s);
    var g := GroupByPath(s);
    var r := SortOffenses(s);
    assert KeySet(r) == KeySet(g) by {
      forall x | x in KeySet(g) ensures x in KeySet(r) {
        var e :| e in g && e.path == x;
        var i :| 0 <= i < |g| && g[i] == e;
        assert r[i] in r;
      }
    }
    forall i | 0 <= i < |r| ensures r[i].offenses == Buckets(OfPath(s, r[i].path)) {
      SortBySeverityIsBuckets(g[i].offenses);
    }
  }

  /** Looking a path up in the result gives that file's offenses, errors first, as a permutation. */
  lemma SortOffensesLookup(s: seq<Offense>, p: string)
    ensures p in PathsOf(s) ==> Lookup(SortOffenses(s), p) == Some(Buckets(OfPath(s, p)))
    ensures p !in PathsOf(s) ==> Lookup(SortOffenses(s), p) == None
  {
    SortOffensesSpec(s);
    var r := SortOffenses(s);
    match IndexOf(r, p)
    case Some(k) =>
      assert r[k] in r;
    case None =>
  }

  /** Within one file of the result no warning or info comes before an error,
      whatever the input order. */
  lemma ErrorsFirst(s: seq<Offense>, i: nat, a: nat, b: nat)
    requires i < |SortOffenses(s)| && a < b < |SortOffenses(s)[i].offenses|
    requires SortOffenses(s)[i].offenses[b].severity == ERROR
    ensures SortOffenses(s)[i].offenses[a].severity == ERROR
  {
    var g := GroupByPath(s);
    var r := SortOffenses(s)[i].offenses;
    assert r == SortBySeverity(g[i].offenses);
    assert RankAt(r, a) <= RankAt(r, b);
  }

  /** Each file's list in the result is a permutation of that file's offenses in the input. */
  lemma SortOffensesPermutes(s: seq<Offense>, i: nat)
    requires i < |SortOffenses(s)|
    ensures multiset(SortOffenses(s)[i].offenses) == multiset(OfPath(s, SortOffenses(s)[i].path))
  {
    GroupByPathSpec(s);
  }

  /** The first case the test suite pins: offenses of two files are split by path. */
  lemma SortOffensesByPathExample(a: Offense, b: Offense)
    requires a.absolutePath == "/path/to/file2" && b.absolutePath == "/path/to/file1"
    ensures SortOffenses([a, b]) == [FileOffenses("/path/to/file2", [a]), FileOffenses("/path/to/file1", [b])]
  {
    assert [a, b][..1] == [a] && [a, b][1] == b;
    assert GroupByPath([a]) == [FileOffenses("/path/to/file2", [a])] by {
      assert [a][..0] == [];
    }
    assert IndexOf([FileOffenses("/path/to/file2", [a])], "/path/to/file1") == None;
    assert GroupByPath([a, b]) == [FileOffenses("/path/to/file2", [a]), FileOffenses("/path/to/file1", [b])];
    assert SortBySeverity([a]) == [a] && SortBySeverity([b]) == [b] by {
      assert [a][1..] == [] && [b][1..] == [];
    }
  }

  /** The second case the test suite pins: a warning listed before an error of
      the same file comes after it. */
  lemma SortOffensesSeverityExample(w: Offense, e: Offense)
    requires w.absolutePath == e.absolutePath == "/path/to/file"
    requires w.severity == WARNING && e.severity == ERROR
    ensures SortOffenses([w, e]) == [FileOffenses("/path/to/file", [e, w])]
  {
    assert [w, e][..1] == [w] && [w, e][1] == e;
    assert GroupByPath([w]) == [FileOffenses("/path/to/file", [w])] by {
      assert [w][..0] == [];
    }
    assert IndexOf([FileOffenses("/path/to/file", [w])], e.absolutePath) == Some(0);
    assert [w] + [e] == [w, e];
    assert Push([FileOffenses("/path/to/file", [w])], e) == [FileOffenses("/path/to/file", [w, e])];
    assert GroupByPath([w, e]) == [FileOffenses("/path/to/file", [w, e])];
    assert SortBySeverity([w, e]) == [e, w] by {
      assert [w, e][1..] == [e] && [e][1..] == [];
      assert SortBySeverity([e]) == [e];
      assert Insert(w, [e]) == [e] + Insert(w, []);
    }
  }
}
