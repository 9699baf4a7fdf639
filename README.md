# Grading and class ranking of the school management system

This project models the grading and ranking rules of a school management
desktop application, in Dafny, and proves properties of them. The rules live in
`calculations.py`:

- **GradeCalculator** turns a mark total into a letter by trying the bands of a
  fixed grading scale in order (A 80–100, B 70–79, C 60–69, D 50–59, F 0–49),
  with 'F' as the fallback. It also gives a student's average total for one
  term (0 when there are no marks) and a cumulative average that nests means
  of means: term 1 is the term-1 average, term 2 the mean of the first two
  term averages, and any other term the mean of the term-2 cumulative average
  and the term-3 average.
- **PositionCalculator** ranks the students of one class. It collects each
  student's ranking value (the raw term-1 average for term 1, the cumulative
  average otherwise), sorts highest first, and assigns competition positions.
  Equal averages share the position of the first of their run, and the next
  value jumps to its 1-based index, so 90, 90, 80 give 1, 1, 3.

The database is a value (`Records.Snapshot`): the students table and the marks
table as sequences of rows, read once. Marks keep the columns the rules
read (student, term, total), plus the subject. Scores and averages are exact `real`s.

Files:

- `records.dfy` (module `Records`): the rows of the two tables (from `models.py`).
- `grade_calculator.dfy` (module `GradeCalculator`): the scale, `CalculateGrade`
  (the band loop, as a method) against the function `Grade`, and the term and
  cumulative averages as functions with their lemmas.
- `position_calculator.dfy` (module `PositionCalculator`): the collecting loop,
  an in-place descending sort on an array (stable, though stability is not proved), the tie-ranking loop, and
  `CalculateClassPositions`, which is proved to return the map described by
  `IsClassRanking`. Under that predicate, each student's position is 1 plus the
  number of classmates with a strictly higher ranking value. The lemmas below
  derive the ranking's properties from it.

The code does not reject a term outside 1, 2 and 3 (calculations.py:33, :61).
Such a term takes the term-3 branch in both the cumulative average and the
ranking (`RankingValueIsCumulative`).

## Model

| member | source | states |
|---|---|---|
| `GradeCalculator.CalculateGrade` | calculations.py:14-19 | The loop over the bands returns the letter of the first band, in scale order, that contains the score, and 'F' when the loop finds none; the result is always one of A, B, C, D, F. |
| `GradeCalculator.GradeRange` | calculations.py:6-19 | Every score gets one of the five letters A, B, C, D, F. |
| `GradeCalculator.GradeIsBandLetter` | calculations.py:6-19 | A score inside a band of the scale gets exactly that band's letter (the bands do not overlap), and a score inside no band gets 'F'. |
| `GradeCalculator.GradeBoundaries` | calculations.py:6-12 | Both ends of every band are inclusive: 100 and 80 give A, 79 and 70 give B, 69 and 60 give C, 59 and 50 give D, 49 and 0 give F. |
| `GradeCalculator.GradeOutsideBands` | calculations.py:16-19 | Negative scores, scores above 100 and the non-integer gaps between bands (such as 79.5 or 49.5) all reach the 'F' fallback. |
| `GradeCalculator.GradeNotMonotone` | calculations.py:6-19 | As written, 79 gets B but the higher total 79.5 gets F. |
| `GradeCalculator.CorrectedGradeMonotone` | calculations.py:6-12 | With the bands read as lower cut-offs, a higher total in [0, 100] never gets a worse letter, and 79.5 gets B. |
| `GradeCalculator.CorrectedGradeAgrees` | calculations.py:6-19 | The corrected grade equals the original grade for every score inside a band and for every score outside [0, 100]. |
| `GradeCalculator.TotalsMembers` | calculations.py:43-46 | The totals the term average reads are exactly those of rows with that student id and that term. |
| `GradeCalculator.TermAverageNoMarks` | calculations.py:47 | A student with no marks in a term has term average 0. |
| `GradeCalculator.TermAverageIgnoresOtherRows` | calculations.py:43-46 | Adding a row of another student or another term, before or after the others, leaves the term average unchanged. |
| `GradeCalculator.TermAverageAddRow` | calculations.py:42-47 | The term average is the arithmetic mean of the matching rows: one more matching row with total t turns n rows averaging a into n + 1 rows averaging (n·a + t)/(n + 1). |
| `GradeCalculator.TermAverageWithinScoreRange` | calculations.py:42-47 | When every stored total lies in [0, 100], so does every term average (the mean lies between the smallest and the largest value). |
| `GradeCalculator.CumulativeWeights` | calculations.py:25-37 | Term 1 gives the term-1 average; term 2 gives t1/2 + t2/2; every other term gives t1/4 + t2/4 + t3/2. |
| `GradeCalculator.CumulativeExample` | calculations.py:25-37 | Term averages 80, 60, 100 give cumulative averages 80, 70 and 85. |
| `GradeCalculator.CumulativeWithinScoreRange` | calculations.py:22-37 | When every stored total lies in [0, 100], so does every cumulative average, for every term argument. |
| `PositionCalculator.RankingValueIsCumulative` | calculations.py:57-62 | The value a student is ranked by (raw term-1 average for term 1, term-2 cumulative for term 2, term-3 cumulative otherwise) is the cumulative average for that term argument, for every integer term. |
| `PositionCalculator.CollectClassEntries` | calculations.py:55-68 | The collecting loop returns one entry per student of the class, in table order, each with the id, name and ranking value. |
| `PositionCalculator.ClassEntriesMembers` | calculations.py:56-68 | An entry is collected exactly when it is the entry of a student whose class name equals the argument. |
| `PositionCalculator.ClassEntriesFacts` | calculations.py:56-68 | The collected ids are exactly the ids of the class's students. Each entry's average is its student's ranking value, so entries with the same id have the same average. |
| `PositionCalculator.SortByAverageDesc` | calculations.py:71 | After the in-place sort the entries are ordered by average, highest first, and are a permutation of the collected entries. |
| `PositionCalculator.InsertDown` | calculations.py:71 | One insertion step moves an entry down past every entry with a strictly smaller average. It extends the sorted prefix by one and keeps the same multiset of entries. |
| `PositionCalculator.CountAbovePermutation` | calculations.py:71 | The number of entries above a value does not depend on the order of the entries, so sorting does not change anyone's rank. |
| `PositionCalculator.RunStartCount` | calculations.py:76-82 | In the sorted list, an entry that starts a run of equal averages has exactly its index many entries above it. This is why the loop's `i + 1` is the competition position. |
| `PositionCalculator.AssignPositions` | calculations.py:73-82 | The tie loop gives every entry of the sorted list the position 1 plus the number of entries with a strictly higher average. The map's keys are exactly the entries' ids. |
| `PositionCalculator.CalculateClassPositions` | calculations.py:50-84 | The result's keys are exactly the ids of the students of the class, and each student's position is 1 plus the number of classmates with a strictly higher ranking value. |
| `PositionCalculator.TieExample` | calculations.py:73-82 | Averages 90, 90, 80, 70 give positions 1, 1, 3, 4. |
| `PositionCalculator.HigherIsAhead` | calculations.py:76-82 | An entry with a strictly higher average than a value has strictly fewer entries above it. |
| `PositionCalculator.SomeoneOnTop` | calculations.py:76-82 | A non-empty list has an entry with the maximum average and nobody above it. |
| `PositionCalculator.RankingBounds` | calculations.py:74-82 | Every position lies between 1 and the number of students in the class. |
| `PositionCalculator.RankingOrder` | calculations.py:74-82 | Equal ranking values share a position, and a strictly higher ranking value gives a strictly smaller position. |
| `PositionCalculator.RankingHasFirst` | calculations.py:74-82 | A non-empty ranking has a student at position 1, and that student's ranking value is the class maximum. |
| `PositionCalculator.EmptyClassRanking` | calculations.py:55-84 | A class name that no student has gives the empty map. |
| `PositionCalculator.RankingUnique` | calculations.py:50-84 | Any two results for the same snapshot, term and class are equal, so repeated calls with no change in between agree. |

## Left out

- The desktop interface (forms, tabs, dialogs, message boxes), including the
  per-row total and grade display and the attendance percentage: widget code.
- The database engine and session handling (`Session()` and `close()`): the
  model reads one fixed `Snapshot`. The code issues separate queries within
  one cumulative average, so a concurrent writer could make them disagree.
  The model does not capture that.
- The SQL `AVG` query is modelled as a mean over the matching rows. SQL ignores
  NULL totals; the model's totals are never NULL.
- Floating-point arithmetic: totals and averages are exact reals. Rounding is
  not modelled, and neither is the exact `==` between float averages in the
  tie test.
- CSV export, the mark, fee and attendance upserts, and the subject seeding:
  file I/O and data entry.
- SortByAverageDesc: proves sorted, highest first, and a permutation, but not
  stability. Python's sort keeps students with equal averages in table order.
  Positions depend only on averages, so `RankingUnique` shows the result map is
  the same either way.
- CalculateClassPositions: returns a Dafny map, which has no order. The
  insertion order of the source's dictionary is not modelled.

## Findings

| source | as written | input that shows it | evidently intended | confidence | as-written member | corrected member |
|---|---|---|---|---|---|---|
| calculations.py:6-19 | Bands are closed integer ranges with gaps between them (79 to 80, 69 to 70, 59 to 60, 49 to 50). Totals are reals (continuous assessment plus exam, forms.py:175-177), so a total inside a gap matches no band and falls back to 'F'. | total 79.5 (e.g. 39.5 + 40): 'F', while 79 gets 'B' | each band covers its range up to the next band's minimum, so 79.5 gets 'B' | medium; not executed | `GradeCalculator.GradeNotMonotone` | `GradeCalculator.CorrectedGradeMonotone` |

The corrected scale is `GradeCalculator.CorrectedGrade`.
`GradeCalculator.CorrectedGradeAgrees` proves that it agrees with the written
scale wherever the written scale matches a band. No other member of the model
uses a letter grade. `CalculateGrade` keeps the code as written.
