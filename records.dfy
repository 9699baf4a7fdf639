/** The rows of the school database that the grading and ranking rules read.
    Each top-level computation reads one fixed snapshot of these tables. */
module Records {

  /** A row of the `students` table: primary key, display name and class name. */
  datatype Student = Student(id: int, name: string, className: string)

  /** A row of the `marks` table, reduced to the columns the calculations read
      (student, term, total) plus the subject. `total` is the stored sum of continuous assessment and exam score. */
  datatype Mark = Mark(studentId: int, subjectId: int, term: int, total: real)

  /** One read of the two tables, in the order the store returns their rows. */
  datatype Snapshot = Snapshot(students: seq<Student>, marks: seq<Mark>)
}
