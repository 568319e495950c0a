/**
 * The duty roster: entries are appended by "Add to Roster" (app.py:455-459)
 * and displayed through `roster.sort_values(by=["date", "shift"])`
 * (app.py:461), which compares both columns as Python strings. The sorted
 * table is only displayed; the stored roster keeps insertion order.
 */
module Roster {

  /** The "Shift" selectbox offers exactly these values (app.py:453). */
  datatype Shift = Morning | Evening | Night

  /** The text stored in the `shift` column, which is what the sort compares. */
  function ShiftLabel(s: Shift): string
  {
    match s
    case Morning => "Morning"
    case Evening => "Evening"
    case Night => "Night"
  }

  /** One roster row; `date` is the ISO text of the picked date (`rdate.isoformat()`). */
  datatype RosterEntry = RosterEntry(date: string, shift: Shift, doctor: string)

  // ---------------------------------------------------------------------------
  // Python's string order
  // ---------------------------------------------------------------------------

  /** `a <= b` on Python strings: code-point lexicographic order, where a proper
      prefix comes first. */
  predicate LexLe(a: string, b: string)
  {
    |a| == 0 || (|b| > 0 && (a[0] < b[0] || (a[0] == b[0] && LexLe(a[1..], b[1..]))))
  }

  lemma {:induction false} LexLeReflexive(a: string)
    ensures LexLe(a, a)
  {
    if |a| > 0 {
      LexLeReflexive(a[1..]);
    }
  }

  lemma {:induction false} LexLeTotal(a: string, b: string)
    ensures LexLe(a, b) || LexLe(b, a)
  {
    if |a| > 0 && |b| > 0 && a[0] == b[0] {
      LexLeTotal(a[1..], b[1..]);
    }
  }

  lemma {:induction false} LexLeAntisymmetric(a: string, b: string)
    requires LexLe(a, b) && LexLe(b, a)
    ensures a == b
  {
    if |a| > 0 && |b| > 0 {
      LexLeAntisymmetric(a[1..], b[1..]);
      assert a == [a[0]] + a[1..];
      assert b == [b[0]] + b[1..];
    }
  }

  lemma {:induction false} LexLeTransitive(a: string, b: string, c: string)
    requires LexLe(a, b) && LexLe(b, c)
    ensures LexLe(a, c)
  {
    if |a| > 0 && |b| > 0 && |c| > 0 && a[0] == b[0] && b[0] == c[0] {
      LexLeTransitive(a[1..], b[1..], c[1..]);
    }
  }

  // ---------------------------------------------------------------------------
  // The (date, shift) sort key
  // ---------------------------------------------------------------------------

  /** Row `x` may be displayed before row `y`: pandas' lexicographic comparison
      of the `(date, shift)` pair, both as strings. */
  predicate KeyLe(x: RosterEntry, y: RosterEntry)
  {
    if x.date == y.date then LexLe(ShiftLabel(x.shift), ShiftLabel(y.shift))
    else LexLe(x.date, y.date)
  }

  lemma KeyLeTotal(x: RosterEntry, y: RosterEntry)
    ensures KeyLe(x, y) || KeyLe(y, x)
  {
    LexLeTotal(x.date, y.date);
    LexLeTotal(ShiftLabel(x.shift), ShiftLabel(y.shift));
  }

  lemma KeyLeTransitive(x: RosterEntry, y: RosterEntry, z: RosterEntry)
    requires KeyLe(x, y) && KeyLe(y, z)
    ensures KeyLe(x, z)
  {
    if x.date == y.date && y.date == z.date {
      LexLeTransitive(ShiftLabel(x.shift), ShiftLabel(y.shift), ShiftLabel(z.shift));
    } else if x.date == y.date {
    } else if y.date == z.date {
    } else {
      LexLeTransitive(x.date, y.date, z.date);
      if x.date == z.date {
        LexLeAntisymmetric(x.date, y.date);
      }
    }
  }

  /** On one date the labels sort alphabetically, not in the order of the day:
      Evening before Morning before Night. */
  lemma ShiftLabelOrder(d: string, a: string, b: string)
    ensures KeyLe(RosterEntry(d, Evening, a), RosterEntry(d, Morning, b))
    ensures !KeyLe(RosterEntry(d, Morning, a), RosterEntry(d, Evening, b))
    ensures KeyLe(RosterEntry(d, Morning, a), RosterEntry(d, Night, b))
    ensures !KeyLe(RosterEntry(d, Night, a), RosterEntry(d, Morning, b))
  {
    assert "Evening"[0] == 'E' && "Morning"[0] == 'M' && "Night"[0] == 'N';
  }

  // ---------------------------------------------------------------------------
  // The sorted view
  // ---------------------------------------------------------------------------

  /** Every earlier row may be displayed before every later one. */
  predicate SortedByKey(rs: seq<RosterEntry>)
  {
    forall i, j :: 0 <= i < j < |rs| ==> KeyLe(rs[i], rs[j])
  }

  /** A row that may go before the head of a sorted table may go before all of it. */
  lemma SortedCons(e: RosterEntry, rs: seq<RosterEntry>)
    requires SortedByKey(rs)
    requires forall x :: x in multiset(rs) ==> KeyLe(e, x)
    ensures SortedByKey([e] + rs)
  {
    var r := [e] + rs;
    forall i, j | 0 <= i < j < |r| ensures KeyLe(r[i], r[j]) {
      if i == 0 {
        assert r[j] == rs[j - 1];
        assert r[j] in multiset(rs);
      } else {
        assert r[i] == rs[i - 1] && r[j] == rs[j - 1];
      }
    }
  }

  /** The head of a sorted table may go before every row of it. */
  lemma SortedHeadFirst(rs: seq<RosterEntry>)
    requires |rs| > 0 && SortedByKey(rs)
    ensures forall x :: x in multiset(rs[1..]) ==> KeyLe(rs[0], x)
  {
    forall x | x in multiset(rs[1..]) ensures KeyLe(rs[0], x) {
      assert x in rs[1..];
      var j :| 0 <= j < |rs[1..]| && rs[1..][j] == x;
      assert rs[j + 1] == x;
    }
  }

  /** Inserts `e` into a sorted table, keeping it sorted and losing no row. */
  function Insert(e: RosterEntry, rs: seq<RosterEntry>): (r: seq<RosterEntry>)
    requires SortedByKey(rs)
    ensures SortedByKey(r)
    ensures multiset(r) == multiset(rs) + multiset{e}
  {
    if |rs| == 0 then [e]
    else if KeyLe(e, rs[0]) then
      SortedHeadFirst(rs);
      assert rs == [rs[0]] + rs[1..];
      InsertBeforeHead(e, rs);
      [e] + rs
    else
      var rest := Insert(e, rs[1..]);
      KeyLeTotal(e, rs[0]);
      SortedHeadFirst(rs);
      SortedCons(rs[0], rest);
      assert rs == [rs[0]] + rs[1..];
      [rs[0]] + rest
  }

  /** A row that may go before the head of a sorted table may go before all of it. */
  lemma InsertBeforeHead(e: RosterEntry, rs: seq<RosterEntry>)
    requires |rs| > 0 && SortedByKey(rs) && KeyLe(e, rs[0])
    ensures SortedByKey([e] + rs)
  {
    forall x | x in multiset(rs) ensures KeyLe(e, x) {
      var j :| 0 <= j < |rs| && rs[j] == x;
      if j > 0 {
        KeyLeTransitive(e, rs[0], x);
      }
    }
    SortedCons(e, rs);
  }

  /** `sort_values(by=["date", "shift"])`: a sorted permutation of the roster.
      Rows with equal keys may come out in any order. */
  function SortByKey(rs: seq<RosterEntry>): (r: seq<RosterEntry>)
    ensures SortedByKey(r)
    ensures multiset(r) == multiset(rs)
  {
    if |rs| == 0 then []
    else
      assert rs == [rs[0]] + rs[1..];
      Insert(rs[0], SortByKey(rs[1..]))
  }

  /** In the displayed roster an earlier date comes first, and on the same date
      an Evening row comes before a Morning row and a Morning row before a
      Night row. */
  lemma SortedViewOrder(rs: seq<RosterEntry>, i: nat, j: nat)
    requires i < |SortByKey(rs)| && j < |SortByKey(rs)|
    ensures var v := SortByKey(rs);
      (v[i].date != v[j].date && LexLe(v[i].date, v[j].date) ==> i < j)
      && (v[i].date == v[j].date && v[i].shift == Evening && v[j].shift == Morning ==> i < j)
      && (v[i].date == v[j].date && v[i].shift == Morning && v[j].shift == Night ==> i < j)
  {
    var v := SortByKey(rs);
    ShiftLabelOrder(v[i].date, v[i].doctor, v[j].doctor);
    if j < i {
      assert KeyLe(v[j], v[i]);
      if v[i].date != v[j].date && LexLe(v[i].date, v[j].date) {
        LexLeAntisymmetric(v[i].date, v[j].date);
      }
    }
  }

  /** "Add to Roster": one entry more, at the end, earlier entries untouched. */
  function AddEntry(roster: seq<RosterEntry>, e: RosterEntry): (r: seq<RosterEntry>)
    ensures |r| == |roster| + 1 && r[..|roster|] == roster && r[|roster|] == e
  {
    roster + [e]
  }
}
