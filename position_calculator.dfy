/** PositionCalculator: ranks the students of one class by their average for a term. */
module PositionCalculator {
  import opened Records
  import opened GradeCalculator

  /** One collected student: id, name and the average the ranking uses. */
  datatype Entry = Entry(studentId: int, name: string, average: real)

  // ---------------------------------------------------------------------------
  // Specification
  // ---------------------------------------------------------------------------

  /** The value a student is ranked by: the raw term-1 average for term 1, the
      cumulative average for term 2, and the term-3 cumulative average otherwise. */
  function RankingValue(marks: seq<Mark>, studentId: int, term: int): real {
    if term == 1 then TermAverage(marks, studentId, 1)
    else if term == 2 then CumulativeAverage(marks, studentId, 2)
    else CumulativeAverage(marks, studentId, 3)
  }

  function EntryFor(s: Student, marks: seq<Mark>, term: int): Entry {
    Entry(s.id, s.name, RankingValue(marks, s.id, term))
  }

  /** The entries of the students of `className`, in table order. */
  function ClassEntries(students: seq<Student>, marks: seq<Mark>, term: int, className: string): seq<Entry> {
    if |students| == 0 then []
    else
      var last := students[|students| - 1];
      ClassEntries(students[..|students| - 1], marks, term, className)
        + (if last.className == className then [EntryFor(last, marks, term)] else [])
  }

  /** The ids of the students whose class name is exactly `className`. */
  function ClassIds(students: seq<Student>, className: string): set<int> {
    set s | s in students && s.className == className :: s.id
  }

  function IdsOf(es: seq<Entry>): set<int> {
    set e | e in es :: e.studentId
  }

  /** The number of entries whose average is strictly greater than `v`. */
  function CountAbove(es: seq<Entry>, v: real): nat {
    if |es| == 0 then 0
    else (if es[0].average > v then 1 else 0) + CountAbove(es[1..], v)
  }

  /** Competition ranking: one more than the number of strictly better entries. */
  function Position(es: seq<Entry>, v: real): int {
    1 + CountAbove(es, v)
  }

  ghost predicate SortedByAverageDesc(es: seq<Entry>) {
    forall p, q :: 0 <= p < q < |es| ==> es[p].average >= es[q].average
  }

  /** Entries that share an id share an average. */
  ghost predicate IdsAgree(es: seq<Entry>) {
    forall x, y :: x in es && y in es && x.studentId == y.studentId ==> x.average == y.average
  }

  /** `positions` ranks exactly the students of `className`, each at
      one more than the number of classmates with a strictly higher average. */
  ghost predicate IsClassRanking(db: Snapshot, term: int, className: string, positions: map<int, int>) {
    positions.Keys == ClassIds(db.students, className) &&
    forall id :: id in positions ==>
      positions[id] == Position(ClassEntries(db.students, db.marks, term, className),
                                RankingValue(db.marks, id, term))
  }

  // ---------------------------------------------------------------------------
  // Lemmas about the specification
  // ---------------------------------------------------------------------------

  /** An entry is collected exactly when it belongs to a student of the class. */
  lemma {:induction false} ClassEntriesMembers(students: seq<Student>, marks: seq<Mark>, term: int, className: string, e: Entry)
    ensures e in ClassEntries(students, marks, term, className)
        <==> exists s :: s in students && s.className == className && e == EntryFor(s, marks, term)
  {
    if |students| > 0 {
      var init := students[..|students| - 1];
      ClassEntriesMembers(init, marks, term, className, e);
      assert students == init + [students[|students| - 1]];
      assert forall s :: s in students <==> s in init || s == students[|students| - 1];
    }
  }

  /** The collected entries carry exactly the class's ids, each with its ranking value. */
  lemma ClassEntriesFacts(students: seq<Student>, marks: seq<Mark>, term: int, className: string)
    ensures IdsOf(ClassEntries(students, marks, term, className)) == ClassIds(students, className)
    ensures forall e :: e in ClassEntries(students, marks, term, className)
              ==> e.average == RankingValue(marks, e.studentId, term)
    ensures IdsAgree(ClassEntries(students, marks, term, className))
  {
    var es := ClassEntries(students, marks, term, className);
    forall e | e in es
      ensures e.average == RankingValue(marks, e.studentId, term)
      ensures e.studentId in ClassIds(students, className)
    {
      ClassEntriesMembers(students, marks, term, className, e);
    }
    forall id | id in ClassIds(students, className) ensures id in IdsOf(es) {
      var s :| s in students && s.className == className && s.id == id;
      ClassEntriesMembers(students, marks, term, className, EntryFor(s, marks, term));
    }
  }

  /** Counting over `[..k] + [k+1..]` drops exactly the contribution of `es[k]`. */
  lemma {:induction false} CountAboveRemove(es: seq<Entry>, k: int, v: real)
    requires 0 <= k < |es|
    ensures CountAbove(es, v) == (if es[k].average > v then 1 else 0) + CountAbove(es[..k] + es[k + 1..], v)
  {
    if k == 0 {
      assert es[..0] + es[1..] == es[1..];
    } else {
      CountAboveRemove(es[1..], k - 1, v);
      assert (es[..k] + es[k + 1..])[1..] == es[1..][..k - 1] + es[1..][k..];
    }
  }

  /** The count depends only on the multiset of entries, not on their order. */
  lemma {:induction false} CountAbovePermutation(a: seq<Entry>, b: seq<Entry>, v: real)
    requires multiset(a) == multiset(b)
    ensures CountAbove(a, v) == CountAbove(b, v)
    decreases |a|
  {
    if |a| == 0 {
      assert |multiset(b)| == 0;
    } else {
      var x := a[0];
      assert x in multiset(b);
      var k :| 0 <= k < |b| && b[k] == x;
      var rest := b[..k] + b[k + 1..];
      assert multiset(a[1..]) == multiset(rest) by {
        assert a == [x] + a[1..];
        assert b == b[..k] + [x] + b[k + 1..];
        assert multiset(a[1..]) == multiset(a) - multiset{x};
        assert multiset(rest) == multiset(b) - multiset{x};
      }
      CountAbovePermutation(a[1..], rest, v);
      CountAboveRemove(b, k, v);
    }
  }

  /** In a sequence whose first `p` entries are above `v` and whose others are
      not, exactly `p` entries are above `v`. */
  lemma {:induction false} CountAboveSplit(es: seq<Entry>, p: int, v: real)
    requires 0 <= p <= |es|
    requires forall j :: 0 <= j < p ==> es[j].average > v
    requires forall j :: p <= j < |es| ==> es[j].average <= v
    ensures CountAbove(es, v) == p
  {
    if |es| > 0 {
      CountAboveSplit(es[1..], if p > 0 then p - 1 else 0, v);
    }
  }

  /** In a sorted sequence, an entry that starts a run of equal averages has
      exactly its index many entries above it. */
  lemma RunStartCount(s: seq<Entry>, i: int)
    requires SortedByAverageDesc(s)
    requires 0 <= i < |s| && (i == 0 || s[i - 1].average != s[i].average)
    ensures CountAbove(s, s[i].average) == i
  {
    forall j | 0 <= j < i ensures s[j].average > s[i].average {
      assert s[j].average >= s[i - 1].average >= s[i].average;
    }
    CountAboveSplit(s, i, s[i].average);
  }

  /** Nobody is strictly above themselves, so the count for a member's own average is below the size. */
  lemma {:induction false} CountAboveBelowSize(es: seq<Entry>, k: int)
    requires 0 <= k < |es|
    ensures CountAbove(es, es[k].average) < |es|
  {
    CountAboveRemove(es, k, es[k].average);
    CountAboveAtMostSize(es[..k] + es[k + 1..], es[k].average);
  }

  lemma {:induction false} CountAboveAtMostSize(es: seq<Entry>, v: real)
    ensures CountAbove(es, v) <= |es|
  {
    if |es| > 0 {
      CountAboveAtMostSize(es[1..], v);
    }
  }

  /** A lower threshold counts at least as many entries. */
  lemma {:induction false} CountAboveAntitone(es: seq<Entry>, u: real, v: real)
    requires v <= u
    ensures CountAbove(es, u) <= CountAbove(es, v)
  {
    if |es| > 0 {
      CountAboveAntitone(es[1..], u, v);
    }
  }

  /** An entry with a strictly higher average than `v` is counted above `v`
      but not above its own average, so it is strictly ahead. */
  lemma {:induction false} HigherIsAhead(es: seq<Entry>, k: int, v: real)
    requires 0 <= k < |es| && es[k].average > v
    ensures CountAbove(es, es[k].average) < CountAbove(es, v)
  {
    CountAboveRemove(es, k, es[k].average);
    CountAboveRemove(es, k, v);
    CountAboveAntitone(es[..k] + es[k + 1..], es[k].average, v);
  }

  /** Some entry has nobody above it. */
  lemma {:induction false} SomeoneOnTop(es: seq<Entry>) returns (k: int)
    requires |es| > 0
    ensures 0 <= k < |es| && CountAbove(es, es[k].average) == 0
    ensures forall j :: 0 <= j < |es| ==> es[j].average <= es[k].average
  {
    if |es| == 1 {
      k := 0;
    } else {
      var k' := SomeoneOnTop(es[1..]);
      if es[0].average > es[1..][k'].average {
        k := 0;
        forall j | 0 <= j < |es| ensures es[j].average <= es[0].average {
          if j > 0 { assert es[j] == es[1..][j - 1]; }
        }
      } else {
        k := k' + 1;
        forall j | 0 <= j < |es| ensures es[j].average <= es[k].average {
          if j > 0 { assert es[j] == es[1..][j - 1]; }
        }
      }
      CountAboveSplit(es, 0, es[k].average);
    }
  }

  /** Averages 90, 90, 80, 70 give positions 1, 1, 3, 4: a tie shares the
      position of its run, and the next value jumps to its 1-based index. */
  lemma TieExample()
    ensures var es := [Entry(1, "A", 90.0), Entry(2, "B", 90.0), Entry(3, "C", 80.0), Entry(4, "D", 70.0)];
      Position(es, 90.0) == 1 && Position(es, 80.0) == 3 && Position(es, 70.0) == 4
  {
    var es := [Entry(1, "A", 90.0), Entry(2, "B", 90.0), Entry(3, "C", 80.0), Entry(4, "D", 70.0)];
    CountAboveSplit(es, 0, 90.0);
    CountAboveSplit(es, 2, 80.0);
    CountAboveSplit(es, 3, 70.0);
  }

  /** The ranking value is the cumulative average for every term argument:
      term 1's cumulative average is its raw average, and every term other than
      1 and 2 falls into the term-3 rule. */
  lemma RankingValueIsCumulative(marks: seq<Mark>, studentId: int, term: int)
    ensures RankingValue(marks, studentId, term) == CumulativeAverage(marks, studentId, term)
  {
  }

  // ---------------------------------------------------------------------------
  // Properties of a class ranking
  // ---------------------------------------------------------------------------

  /** A ranked id belongs to a collected entry carrying its ranking value. */
  lemma EntryOfRanked(db: Snapshot, term: int, className: string, positions: map<int, int>, id: int) returns (k: int)
    requires IsClassRanking(db, term, className, positions) && id in positions
    ensures var es := ClassEntries(db.students, db.marks, term, className);
      0 <= k < |es| && es[k].studentId == id && es[k].average == RankingValue(db.marks, id, term)
  {
    var es := ClassEntries(db.students, db.marks, term, className);
    ClassEntriesFacts(db.students, db.marks, term, className);
    assert id in IdsOf(es);
    var e :| e in es && e.studentId == id;
    k :| 0 <= k < |es| && es[k] == e;
  }

  /** Every position lies between 1 and the number of students in the class. */
  lemma RankingBounds(db: Snapshot, term: int, className: string, positions: map<int, int>)
    requires IsClassRanking(db, term, className, positions)
    ensures forall id :: id in positions ==>
      1 <= positions[id] <= |ClassEntries(db.students, db.marks, term, className)|
  {
    var es := ClassEntries(db.students, db.marks, term, className);
    forall id | id in positions ensures 1 <= positions[id] <= |es| {
      var k := EntryOfRanked(db, term, className, positions, id);
      CountAboveBelowSize(es, k);
    }
  }

  /** Equal ranking values share a position; a strictly higher one is strictly ahead. */
  lemma RankingOrder(db: Snapshot, term: int, className: string, positions: map<int, int>)
    requires IsClassRanking(db, term, className, positions)
    ensures forall i, j ::
      (i in positions && j in positions && RankingValue(db.marks, i, term) == RankingValue(db.marks, j, term))
        ==> positions[i] == positions[j]
    ensures forall i, j ::
      (i in positions && j in positions && RankingValue(db.marks, i, term) > RankingValue(db.marks, j, term))
        ==> positions[i] < positions[j]
  {
    var es := ClassEntries(db.students, db.marks, term, className);
    forall i, j | i in positions && j in positions
      && RankingValue(db.marks, i, term) > RankingValue(db.marks, j, term)
      ensures positions[i] < positions[j]
    {
      var k := EntryOfRanked(db, term, className, positions, i);
      HigherIsAhead(es, k, RankingValue(db.marks, j, term));
    }
  }

  /** A non-empty class has a student at position 1, and that student's value is maximal. */
  lemma RankingHasFirst(db: Snapshot, term: int, className: string, positions: map<int, int>)
    requires IsClassRanking(db, term, className, positions)
    requires positions != map[]
    ensures exists i :: (i in positions && positions[i] == 1
      && forall j :: j in positions ==> RankingValue(db.marks, j, term) <= RankingValue(db.marks, i, term))
  {
    var es := ClassEntries(db.students, db.marks, term, className);
    var some :| some in positions;
    var q := EntryOfRanked(db, term, className, positions, some);
    var k := SomeoneOnTop(es);
    var top := es[k].studentId;
    ClassEntriesFacts(db.students, db.marks, term, className);
    assert es[k] in es;
    assert top in positions;
    assert positions[top] == 1;
    forall j | j in positions ensures RankingValue(db.marks, j, term) <= RankingValue(db.marks, top, term) {
      var p := EntryOfRanked(db, term, className, positions, j);
    }
  }

  /** A class with no students gets the empty ranking. */
  lemma EmptyClassRanking(db: Snapshot, term: int, className: string, positions: map<int, int>)
    requires IsClassRanking(db, term, className, positions)
    requires forall s :: s in db.students ==> s.className != className
    ensures positions == map[]
  {
    assert ClassIds(db.students, className) == {};
  }

  /** The ranking is determined by the snapshot: two rankings of the same class
      for the same term are the same map, so repeated calls agree. */
  lemma RankingUnique(db: Snapshot, term: int, className: string, p1: map<int, int>, p2: map<int, int>)
    requires IsClassRanking(db, term, className, p1)
    requires IsClassRanking(db, term, className, p2)
    ensures p1 == p2
  {
  }

  // ---------------------------------------------------------------------------
  // The computation
  // ---------------------------------------------------------------------------

  /** Collects an entry for each student of the class, in table order. */
  method CollectClassEntries(db: Snapshot, term: int, className: string) returns (data: seq<Entry>)
    ensures data == ClassEntries(db.students, db.marks, term, className)
  {
    data := [];
    var i := 0;
    while i < |db.students|
      invariant 0 <= i <= |db.students|
      invariant data == ClassEntries(db.students[..i], db.marks, term, className)
    {
      var student := db.students[i];
      if student.className == className {
        var avg: real;
        if term == 1 {
          avg := TermAverage(db.marks, student.id, 1);
        } else if term == 2 {
          avg := CumulativeAverage(db.marks, student.id, 2);
        } else {
          avg := CumulativeAverage(db.marks, student.id, 3);
        }
        data := data + [Entry(student.id, student.name, avg)];
      }
      assert db.students[..i + 1][..i] == db.students[..i];
      i := i + 1;
    }
    assert db.students[..i] == db.students;
  }

  /** Reordering the entries keeps their ids, the agreement of ids and
      averages, and every count. */
  lemma PermutationKeepsRanking(a: seq<Entry>, b: seq<Entry>)
    requires multiset(a) == multiset(b)
    ensures IdsOf(a) == IdsOf(b)
    ensures IdsAgree(a) ==> IdsAgree(b)
    ensures forall v :: CountAbove(a, v) == CountAbove(b, v)
  {
    assert forall e :: e in a <==> e in b by {
      assert forall e :: e in a <==> e in multiset(a);
      assert forall e :: e in b <==> e in multiset(b);
    }
    forall v ensures CountAbove(a, v) == CountAbove(b, v) {
      CountAbovePermutation(a, b, v);
    }
  }

  lemma SameIdSameAverage(s: seq<Entry>, i: int)
    requires IdsAgree(s) && 0 <= i < |s|
    ensures forall k :: 0 <= k < |s| && s[k].studentId == s[i].studentId ==> s[k].average == s[i].average
  {
    forall k | 0 <= k < |s| && s[k].studentId == s[i].studentId
      ensures s[k].average == s[i].average
    {
      assert s[k] in s && s[i] in s;
    }
  }

  lemma IdsOfSnoc(es: seq<Entry>, e: Entry)
    ensures IdsOf(es + [e]) == IdsOf(es) + {e.studentId}
  {
    assert forall x :: x in es + [e] <==> x in es || x == e;
  }

  /** Exchanges two neighbouring entries. */
  method SwapDown(a: array<Entry>, j: int)
    requires 0 < j < a.Length
    modifies a
    ensures a[j - 1] == old(a[j]) && a[j] == old(a[j - 1])
    ensures forall m :: 0 <= m < a.Length && m != j - 1 && m != j ==> a[m] == old(a[m])
    ensures multiset(a[..]) == old(multiset(a[..]))
  {
    a[j - 1], a[j] := a[j], a[j - 1];
  }

  /** Moves `a[i]` down past every entry with a strictly smaller average, so
      that the first `i + 1` entries are sorted highest first. */
  method InsertDown(a: array<Entry>, i: int)
    requires 0 < i < a.Length
    requires forall p, q :: 0 <= p < q < i ==> a[p].average >= a[q].average
    modifies a
    ensures forall p, q :: 0 <= p < q <= i ==> a[p].average >= a[q].average
    ensures forall m :: i < m < a.Length ==> a[m] == old(a[m])
    ensures multiset(a[..]) == old(multiset(a[..]))
  {
    var j := i;
    while j > 0 && a[j - 1].average < a[j].average
      invariant 0 <= j <= i
      invariant forall p, q :: 0 <= p < q <= i && q != j ==> a[p].average >= a[q].average
      invariant 0 < j < i ==> a[j - 1].average >= a[j + 1].average
      invariant forall m :: i < m < a.Length ==> a[m] == old(a[m])
      invariant multiset(a[..]) == old(multiset(a[..]))
    {
      SwapDown(a, j);
      j := j - 1;
    }
  }

  /** Sorts the entries by average, highest first. Equal averages are never
      exchanged, so the sort is stable (not proved). */
  method SortByAverageDesc(a: array<Entry>)
    modifies a
    ensures SortedByAverageDesc(a[..])
    ensures multiset(a[..]) == old(multiset(a[..]))
  {
    var i := 1;
    while i < a.Length
      invariant a.Length == 0 || 1 <= i <= a.Length
      invariant forall p, q :: 0 <= p < q < i && q < a.Length ==> a[p].average >= a[q].average
      invariant multiset(a[..]) == old(multiset(a[..]))
    {
      InsertDown(a, i);
      i := i + 1;
    }
  }

  /** The first `i` entries of `s` hold their positions in `positions`, and nothing else does. */
  ghost predicate PlacedUpTo(s: seq<Entry>, positions: map<int, int>, i: int)
    requires 0 <= i <= |s|
  {
    positions.Keys == IdsOf(s[..i]) &&
    forall k :: 0 <= k < i ==> s[k].studentId in positions && positions[s[k].studentId] == Position(s, s[k].average)
  }

  /** Placing entry `i` at its position extends the placed prefix by one. */
  lemma PlaceNext(s: seq<Entry>, positions: map<int, int>, i: int)
    requires IdsAgree(s) && 0 <= i < |s| && PlacedUpTo(s, positions, i)
    ensures PlacedUpTo(s, positions[s[i].studentId := Position(s, s[i].average)], i + 1)
  {
    SameIdSameAverage(s, i);
    assert s[..i + 1] == s[..i] + [s[i]];
    IdsOfSnoc(s[..i], s[i]);
  }

  /** Walks the sorted entries, starting a new position at the first entry of
      each run of equal averages and giving the whole run that position. */
  method AssignPositions(a: array<Entry>) returns (positions: map<int, int>)
    requires SortedByAverageDesc(a[..])
    requires IdsAgree(a[..])
    ensures positions.Keys == IdsOf(a[..])
    ensures forall k :: 0 <= k < a.Length ==> positions[a[k].studentId] == Position(a[..], a[k].average)
  {
    ghost var s := a[..];
    positions := map[];
    var currentPosition := 1;
    var i := 0;
    while i < a.Length
      invariant 0 <= i <= a.Length
      invariant PlacedUpTo(s, positions, i)
      invariant 0 < i ==> currentPosition == Position(s, s[i - 1].average)
    {
      ghost var placed := positions;
      if i > 0 && a[i].average == a[i - 1].average {
        positions := positions[a[i].studentId := currentPosition];
      } else {
        RunStartCount(s, i);
        currentPosition := i + 1;
        positions := positions[a[i].studentId := currentPosition];
      }
      PlaceNext(s, placed, i);
      i := i + 1;
    }
    assert s[..i] == s;
  }

  /** A ranking computed over any reordering of the collected entries is the
      ranking of the class. */
  lemma RankingFromSorted(db: Snapshot, term: int, className: string, sorted: seq<Entry>, positions: map<int, int>)
    requires multiset(sorted) == multiset(ClassEntries(db.students, db.marks, term, className))
    requires positions.Keys == IdsOf(sorted)
    requires forall k :: 0 <= k < |sorted| ==> positions[sorted[k].studentId] == Position(sorted, sorted[k].average)
    ensures IsClassRanking(db, term, className, positions)
  {
    var data := ClassEntries(db.students, db.marks, term, className);
    ClassEntriesFacts(db.students, db.marks, term, className);
    PermutationKeepsRanking(data, sorted);
    forall id | id in positions
      ensures positions[id] == Position(data, RankingValue(db.marks, id, term))
    {
      var e :| e in sorted && e.studentId == id;
      var k :| 0 <= k < |sorted| && sorted[k] == e;
      assert e in multiset(sorted);
    }
  }

  /** Ranks the students of `className` for `term`: collects their averages,
      sorts them highest first and assigns competition positions. */
  method CalculateClassPositions(db: Snapshot, term: int, className: string) returns (positions: map<int, int>)
    ensures IsClassRanking(db, term, className, positions)
  {
    var data := CollectClassEntries(db, term, className);
    var a := new Entry[|data|](k requires 0 <= k < |data| => data[k]);
    assert a[..] == data;
    SortByAverageDesc(a);
    ClassEntriesFacts(db.students, db.marks, term, className);
    PermutationKeepsRanking(data, a[..]);
    positions := AssignPositions(a);
    RankingFromSorted(db, term, className, a[..], positions);
  }
}
