/** The four registration tables that both stores keep: `students` and the three
    detail tables keyed by `student_id`. One registration adds one row to each. */
module Registry {

  /** A row of a table, with the `student_id` it belongs to. */
  datatype Keyed<T> = Keyed(studentId: nat, row: T)

  function Ids<T>(rows: seq<Keyed<T>>): set<nat> {
    set i | 0 <= i < |rows| :: rows[i].studentId
  }

  lemma IdsAppend<T>(rows: seq<Keyed<T>>, k: Keyed<T>)
    ensures Ids(rows + [k]) == Ids(rows) + {k.studentId}
  {
    var s := rows + [k];
    assert s[|rows|] == k;
    forall id | id in Ids(rows) ensures id in Ids(s) {
      var i :| 0 <= i < |rows| && rows[i].studentId == id;
      assert s[i] == rows[i];
    }
  }

  lemma IdsCons<T>(k: Keyed<T>, rows: seq<Keyed<T>>)
    ensures Ids([k] + rows) == {k.studentId} + Ids(rows)
  {
    var s := [k] + rows;
    assert s[0] == k;
    forall id | id in Ids(rows) ensures id in Ids(s) {
      var i :| 0 <= i < |rows| && rows[i].studentId == id;
      assert s[i + 1] == rows[i];
    }
    forall id | id in Ids(s) ensures id == k.studentId || id in Ids(rows) {
      var i :| 0 <= i < |s| && s[i].studentId == id;
      if i > 0 {
        assert s[i] == rows[i - 1];
      }
    }
  }

  /** `DELETE FROM t WHERE student_id = ?` */
  function Without<T>(rows: seq<Keyed<T>>, id: nat): (r: seq<Keyed<T>>)
    ensures Ids(r) == Ids(rows) - {id}
    ensures forall i :: 0 <= i < |r| ==> r[i] in rows && r[i].studentId != id
    ensures forall i :: 0 <= i < |rows| && rows[i].studentId != id ==> rows[i] in r
  {
    if rows == [] then []
    else
      var rest := Without(rows[1..], id);
      assert rows == [rows[0]] + rows[1..];
      IdsCons(rows[0], rows[1..]);
      if rows[0].studentId == id then rest
      else
        IdsCons(rows[0], rest);
        [rows[0]] + rest
  }

  datatype Tables<S, F, A, E> = Tables(
    students: seq<Keyed<S>>,
    family: seq<Keyed<F>>,
    academic: seq<Keyed<A>>,
    emergency: seq<Keyed<E>>)

  function Empty<S, F, A, E>(): Tables<S, F, A, E> {
    Tables([], [], [], [])
  }

  /** Every student has a row in each detail table, and every detail row has a student. */
  ghost predicate Complete<S, F, A, E>(t: Tables<S, F, A, E>) {
    Ids(t.family) == Ids(t.students) && Ids(t.academic) == Ids(t.students)
    && Ids(t.emergency) == Ids(t.students)
  }

  /** The tables are complete and every `student_id` in them was handed out before `next`. */
  ghost predicate Consistent<S, F, A, E>(t: Tables<S, F, A, E>, next: nat) {
    Complete(t) && forall id :: id in Ids(t.students) ==> id < next
  }

  lemma ConsistentLater<S, F, A, E>(t: Tables<S, F, A, E>, next: nat, later: nat)
    requires next <= later
    ensures Consistent(t, next) ==> Consistent(t, later)
  {
  }

  /** The four inserts of one registration, all under the same `student_id`. */
  function Register<S, F, A, E>(t: Tables<S, F, A, E>, id: nat, s: S, f: F, a: A, e: E): (r: Tables<S, F, A, E>)
    ensures Complete(t) ==> Complete(r)
    ensures Consistent(t, id) ==> Consistent(r, id + 1)
    ensures Ids(r.students) == Ids(t.students) + {id}
  {
    IdsAppend(t.students, Keyed(id, s));
    IdsAppend(t.family, Keyed(id, f));
    IdsAppend(t.academic, Keyed(id, a));
    IdsAppend(t.emergency, Keyed(id, e));
    Tables(t.students + [Keyed(id, s)], t.family + [Keyed(id, f)],
           t.academic + [Keyed(id, a)], t.emergency + [Keyed(id, e)])
  }

  /** Deleting a student where the detail tables declare `ON DELETE CASCADE`. */
  function DeleteCascade<S, F, A, E>(t: Tables<S, F, A, E>, id: nat): (r: Tables<S, F, A, E>)
    ensures Complete(t) ==> Complete(r)
    ensures forall next :: Consistent(t, next) ==> Consistent(r, next)
    ensures Ids(r.students) == Ids(t.students) - {id}
    ensures id !in Ids(r.family) && id !in Ids(r.academic) && id !in Ids(r.emergency)
  {
    Tables(Without(t.students, id), Without(t.family, id), Without(t.academic, id), Without(t.emergency, id))
  }

  /** Deleting only the `students` row, which is what a foreign key without
      `ON DELETE CASCADE` (or with foreign keys never enabled) does. */
  function DeleteStudentRowOnly<S, F, A, E>(t: Tables<S, F, A, E>, id: nat): (r: Tables<S, F, A, E>)
    ensures Ids(r.students) == Ids(t.students) - {id}
    ensures r.family == t.family && r.academic == t.academic && r.emergency == t.emergency
  {
    t.(students := Without(t.students, id))
  }

  /** Deleting a registered student's row alone leaves its detail rows behind. */
  lemma RowOnlyDeleteOrphansDetails()
    ensures var t := Register(Empty<int, int, int, int>(), 1, 0, 0, 0, 0);
            Complete(t) && !Complete(DeleteStudentRowOnly(t, 1))
  {
    var t := Register(Empty<int, int, int, int>(), 1, 0, 0, 0, 0);
    assert t.family[0].studentId == 1;
    assert 1 in Ids(t.family);
  }
}
