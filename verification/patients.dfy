/**
 * The hospital patient registry: a table of patient rows kept in store order,
 * changed only by "Add / Update Patient", which drops every row with the
 * submitted id and appends the new row (app.py:442-445).
 */
module Patients {

  /** The "Sex" selectbox offers exactly these values (app.py:437). */
  datatype Sex = M | F | Other

  /** One registry row; the age comes from a 0..120 number widget (app.py:435)
      but the handler itself stores whatever it is given. */
  datatype Patient = Patient(
    id: string,
    name: string,
    age: int,
    sex: Sex,
    allergies: string,
    comorbidities: string)

  /** No two rows share an id. */
  predicate UniqueIds(ps: seq<Patient>) {
    forall i, j :: 0 <= i < j < |ps| ==> ps[i].id != ps[j].id
  }

  /** `df[df["id"] != id]`: the rows with a different id, in store order. */
  function WithoutId(ps: seq<Patient>, id: string): (r: seq<Patient>)
    ensures forall q :: q in r <==> q in ps && q.id != id
    ensures |r| <= |ps|
    ensures UniqueIds(ps) ==> UniqueIds(r)
  {
    if |ps| == 0 then []
    else
      var rest := WithoutId(ps[1..], id);
      assert forall q :: q in ps[1..] ==> q in ps;
      if ps[0].id == id then rest
      else
        assert UniqueIds(ps) ==> forall q :: q in rest ==> q.id != ps[0].id by {
          if UniqueIds(ps) {
            forall q | q in rest ensures q.id != ps[0].id {
              var j :| 0 <= j < |ps[1..]| && ps[1..][j] == q;
              assert ps[j + 1] == q;
            }
          }
        }
        [ps[0]] + rest
  }

  /** The rows carrying `id`, in store order (what a lookup by id sees). */
  function RowsWithId(ps: seq<Patient>, id: string): (r: seq<Patient>)
    ensures forall q :: q in r <==> q in ps && q.id == id
  {
    if |ps| == 0 then []
    else
      var rest := RowsWithId(ps[1..], id);
      assert forall q :: q in ps <==> q == ps[0] || q in ps[1..];
      if ps[0].id == id then [ps[0]] + rest else rest
  }

  /** "Add / Update Patient": the new row is last and is the only row with its
      id; the other rows are those of the old table with a different id, in the
      same order; unique ids stay unique. */
  function Upsert(ps: seq<Patient>, p: Patient): (r: seq<Patient>)
    ensures |r| >= 1 && r[|r| - 1] == p
    ensures forall i :: 0 <= i < |r| - 1 ==> r[i].id != p.id
    ensures forall q :: q in r[..|r| - 1] <==> q in ps && q.id != p.id
    ensures r[..|r| - 1] == WithoutId(ps, p.id)
    ensures UniqueIds(ps) ==> UniqueIds(r)
  {
    var kept := WithoutId(ps, p.id);
    var r := kept + [p];
    assert r[..|r| - 1] == kept;
    assert forall i :: 0 <= i < |kept| ==> kept[i] in kept;
    r
  }

  /** Dropping an id distributes over concatenation, so the surviving rows
      keep their relative order. */
  lemma {:induction false} WithoutIdAppend(a: seq<Patient>, b: seq<Patient>, id: string)
    ensures WithoutId(a + b, id) == WithoutId(a, id) + WithoutId(b, id)
  {
    if |a| == 0 {
      assert a + b == b;
    } else {
      assert (a + b)[0] == a[0];
      assert (a + b)[1..] == a[1..] + b;
      WithoutIdAppend(a[1..], b, id);
      if a[0].id != id {
        var x, y := WithoutId(a[1..], id), WithoutId(b, id);
        assert [a[0]] + (x + y) == ([a[0]] + x) + y;
      }
    }
  }

  /** Dropping an id nobody carries changes nothing. */
  lemma {:induction false} WithoutAbsentId(ps: seq<Patient>, id: string)
    requires forall i :: 0 <= i < |ps| ==> ps[i].id != id
    ensures WithoutId(ps, id) == ps
  {
    if |ps| > 0 {
      WithoutAbsentId(ps[1..], id);
      assert ps == [ps[0]] + ps[1..];
    }
  }

  /** Looking up an id nobody carries finds nothing. */
  lemma {:induction false} RowsWithAbsentId(ps: seq<Patient>, id: string)
    requires forall i :: 0 <= i < |ps| ==> ps[i].id != id
    ensures RowsWithId(ps, id) == []
  {
    if |ps| > 0 {
      RowsWithAbsentId(ps[1..], id);
    }
  }

  /** Rows with a different id are not touched by dropping `id`. */
  lemma {:induction false} RowsWithOtherId(ps: seq<Patient>, id: string, other: string)
    requires other != id
    ensures RowsWithId(WithoutId(ps, id), other) == RowsWithId(ps, other)
  {
    if |ps| > 0 {
      RowsWithOtherId(ps[1..], id, other);
      if ps[0].id != id {
        var rest := WithoutId(ps[1..], id);
        assert ([ps[0]] + rest)[0] == ps[0];
        assert ([ps[0]] + rest)[1..] == rest;
      }
    }
  }

  /** A lookup by id after an upsert: the upserted id finds exactly the new
      row, and every other id finds exactly the rows it found before. */
  lemma UpsertLookup(ps: seq<Patient>, p: Patient, other: string)
    ensures RowsWithId(Upsert(ps, p), p.id) == [p]
    ensures other != p.id ==> RowsWithId(Upsert(ps, p), other) == RowsWithId(ps, other)
  {
    var kept := WithoutId(ps, p.id);
    RowsWithIdAppend(kept, [p], p.id);
    RowsWithIdAppend(kept, [p], other);
    RowsWithAbsentId(kept, p.id);
    assert RowsWithId([p], p.id) == [p] + RowsWithId([], p.id);
    if other != p.id {
      RowsWithOtherId(ps, p.id, other);
      assert RowsWithId([p], other) == RowsWithId([], other);
    }
  }

  /** Lookup by id distributes over concatenation. */
  lemma {:induction false} RowsWithIdAppend(a: seq<Patient>, b: seq<Patient>, id: string)
    ensures RowsWithId(a + b, id) == RowsWithId(a, id) + RowsWithId(b, id)
  {
    if |a| == 0 {
      assert a + b == b;
    } else {
      assert (a + b)[0] == a[0];
      assert (a + b)[1..] == a[1..] + b;
      RowsWithIdAppend(a[1..], b, id);
      if a[0].id == id {
        var x, y := RowsWithId(a[1..], id), RowsWithId(b, id);
        assert [a[0]] + (x + y) == ([a[0]] + x) + y;
      }
    }
  }

  /** Submitting the same row twice leaves the table as after one submission. */
  lemma {:induction false} UpsertIdempotent(ps: seq<Patient>, p: Patient)
    ensures Upsert(Upsert(ps, p), p) == Upsert(ps, p)
  {
    var kept := WithoutId(ps, p.id);
    UpsertShape(ps, p);
    UpsertShape(kept + [p], p);
    WithoutIdAppend(kept, [p], p.id);
    WithoutAbsentId(kept, p.id);
    assert WithoutId([p], p.id) == WithoutId([], p.id);
  }

  /** The table after an upsert, as one expression. */
  lemma UpsertShape(ps: seq<Patient>, p: Patient)
    ensures Upsert(ps, p) == WithoutId(ps, p.id) + [p]
  {
    var r := Upsert(ps, p);
    assert r == r[..|r| - 1] + [r[|r| - 1]];
  }

  /** Re-submitting an id with new values leaves one row for that id, carrying
      the second submission's values. */
  lemma {:induction false} UpsertTwiceSameId(ps: seq<Patient>, p1: Patient, p2: Patient)
    requires p1.id == p2.id
    ensures Upsert(Upsert(ps, p1), p2) == WithoutId(ps, p1.id) + [p2]
    ensures RowsWithId(Upsert(Upsert(ps, p1), p2), p2.id) == [p2]
  {
    var kept := WithoutId(ps, p1.id);
    UpsertShape(ps, p1);
    var mid := kept + [p1];
    WithoutIdAppend(kept, [p1], p2.id);
    WithoutAbsentId(kept, p2.id);
    assert WithoutId([p1], p2.id) == [];
    assert WithoutId(mid, p2.id) == kept;
    UpsertShape(mid, p2);
    UpsertLookup(mid, p2, p2.id);
  }
}
