/**
 Stamps of a table: the number of its rows and the newest of their marks.

 A mark is the time of a row's last write, or the id of a row in a table without times. A table
 whose new and changed rows take marks above all earlier ones is named by its stamp: at any two
 moments, equal stamps mean equal rows.
 */
module Stamps {

  type Id = nat

  datatype Cell<+V> = Cell(mark: nat, value: V)

  datatype Stamp = Stamp(count: nat, latest: nat)

  const NO_STAMP := Stamp(0, 0)

  /** The newest mark of the rows, zero when there are none. */
  ghost predicate IsLatest<V>(rows: map<Id, Cell<V>>, latest: nat) {
    (forall id :: id in rows ==> rows[id].mark <= latest)
    && if rows == map[] then latest == 0 else exists id :: id in rows && rows[id].mark == latest
  }

  ghost predicate IsStampOf<V>(rows: map<Id, Cell<V>>, stamp: Stamp) {
    stamp.count == |rows| && IsLatest(rows, stamp.latest)
  }

  lemma OneStamp<V>(rows: map<Id, Cell<V>>, a: Stamp, b: Stamp)
    requires IsStampOf(rows, a) && IsStampOf(rows, b)
    ensures a == b
  {
  }

  function Later(a: nat, b: nat): nat {
    if a < b then b else a
  }

  /** One more row adds one to the count and its mark to the newest. */
  lemma AddRow<V>(rows: map<Id, Cell<V>>, id: Id, stamp: Stamp)
    requires id in rows && IsStampOf(rows - {id}, stamp)
    ensures IsStampOf(rows, Stamp(stamp.count + 1, Later(stamp.latest, rows[id].mark)))
  {
    var rest := rows - {id};
    assert rest.Keys == rows.Keys - {id};
    if rest != map[] {
      var x :| x in rest && rest[x].mark == stamp.latest;
      assert x in rows && rows[x].mark == stamp.latest;
    }
    assert forall y :: y in rows ==> y == id || (y in rest && rest[y] == rows[y]);
  }

  lemma {:induction false} HasStamp<V>(rows: map<Id, Cell<V>>)
    ensures exists stamp :: IsStampOf(rows, stamp)
    decreases |rows|
  {
    if rows == map[] {
      assert IsStampOf(rows, NO_STAMP);
    } else {
      var id :| id in rows;
      assert (rows - {id}).Keys == rows.Keys - {id};
      HasStamp(rows - {id});
      var stamp :| IsStampOf(rows - {id}, stamp);
      AddRow(rows, id, stamp);
    }
  }

  ghost function StampOf<V>(rows: map<Id, Cell<V>>): (stamp: Stamp)
    ensures IsStampOf(rows, stamp)
  {
    HasStamp(rows);
    var stamp :| IsStampOf(rows, stamp);
    stamp
  }

  lemma OneLess<V>(rows: map<Id, Cell<V>>, left: set<Id>, id: Id, stamp: Stamp)
    requires id in left && left <= rows.Keys && IsStampOf(rows - left, stamp)
    ensures IsStampOf(rows - (left - {id}), Stamp(stamp.count + 1, Later(stamp.latest, rows[id].mark)))
  {
    assert (rows - (left - {id})) - {id} == rows - left;
    AddRow(rows - (left - {id}), id, stamp);
  }

  /** One aggregate: the number of rows and the newest of their marks. */
  method Aggregate<V>(rows: map<Id, Cell<V>>) returns (stamp: Stamp)
    ensures stamp == StampOf(rows)
  {
    var left := rows.Keys;
    var count: nat, latest: nat := 0, 0;
    while left != {}
      invariant left <= rows.Keys && IsStampOf(rows - left, Stamp(count, latest))
      decreases left
    {
      var id :| id in left;
      OneLess(rows, left, id, Stamp(count, latest));
      if rows[id].mark > latest {
        latest := rows[id].mark;
      }
      count, left := count + 1, left - {id};
    }
    assert rows - left == rows;
    stamp := Stamp(count, latest);
    OneStamp(rows, stamp, StampOf(rows));
  }

  // ---- equal stamps, equal rows ----

  predicate Bounded<V>(rows: map<Id, Cell<V>>, clock: nat) {
    forall id :: id in rows ==> rows[id].mark <= clock
  }

  /** Rows that are not as they were bear marks above `clock`. */
  predicate MarksNew<V(==)>(before: map<Id, Cell<V>>, after: map<Id, Cell<V>>, clock: nat) {
    forall id :: id in after ==> (id in before && before[id] == after[id]) || after[id].mark > clock
  }

  /** Of the rows with marks up to `mark`, those of `now` are among those of `before`. */
  ghost predicate OnlyShrinks<V>(before: map<Id, Cell<V>>, now: map<Id, Cell<V>>, mark: nat) {
    forall id :: id in now && now[id].mark <= mark ==> id in before && before[id] == now[id]
  }

  /** Rows with marks up to a past one can only go away. */
  lemma ShrinksOn<V>(before: map<Id, Cell<V>>, now: map<Id, Cell<V>>, next: map<Id, Cell<V>>, mark: nat, clock: nat)
    requires OnlyShrinks(before, now, mark) && mark <= clock && MarksNew(now, next, clock)
    ensures OnlyShrinks(before, next, mark)
  {
  }

  lemma SameSizeSameRows<V>(before: map<Id, Cell<V>>, now: map<Id, Cell<V>>, stamp: Stamp)
    requires IsStampOf(before, stamp) && IsStampOf(now, stamp) && OnlyShrinks(before, now, stamp.latest)
    ensures before == now
  {
    assert now.Keys <= before.Keys;
    assert before.Keys == now.Keys + (before.Keys - now.Keys);
    assert |before.Keys| == |now.Keys| + |before.Keys - now.Keys|;
    assert now.Keys == before.Keys;
  }

  lemma LatestIsPast<V>(rows: map<Id, Cell<V>>, clock: nat)
    requires Bounded(rows, clock)
    ensures StampOf(rows).latest <= clock
  {
  }

  /** The same rows under the same marks, whatever else they hold, have the same stamp. */
  lemma SameMarksSameStamp<V>(before: map<Id, Cell<V>>, after: map<Id, Cell<V>>)
    requires before.Keys == after.Keys && forall id :: id in before ==> after[id].mark == before[id].mark
    ensures StampOf(before) == StampOf(after)
  {
    var stamp := StampOf(before);
    assert |after.Keys| == |before.Keys|;
    if before != map[] {
      var newest :| newest in before && before[newest].mark == stamp.latest;
      assert newest in after;
    }
    OneStamp(after, stamp, StampOf(after));
  }
}
