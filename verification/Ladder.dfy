/** A side of the book as a list of price levels, each with its queue of order blocks. */
module Ladder {
  import opened Rings

  /** A level block and the order blocks queued in it, the oldest first. */
  datatype Row = Row(level: nat, queue: seq<nat>)

  function Levels(rows: seq<Row>): seq<nat> {
    seq(|rows|, i requires 0 <= i < |rows| => rows[i].level)
  }

  /** All order blocks of a side in trading order. */
  function Flat(rows: seq<Row>): seq<nat> {
    if rows == [] then [] else rows[0].queue + Flat(rows[1..])
  }

  /** The place of member j of row i in trading order. */
  function Position(rows: seq<Row>, i: nat, j: nat): nat
    requires i <= |rows|
  {
    |Flat(rows[..i])| + j
  }

  function Appended(rows: seq<Row>, i: nat, x: nat): seq<Row>
    requires i < |rows|
  {
    rows[i := rows[i].(queue := rows[i].queue + [x])]
  }

  function Dropped(rows: seq<Row>, i: nat, j: nat): seq<Row>
    requires i < |rows| && j < |rows[i].queue|
  {
    rows[i := rows[i].(queue := Deleted(rows[i].queue, j))]
  }

  lemma {:induction false} FlatConcat(a: seq<Row>, b: seq<Row>)
    ensures Flat(a + b) == Flat(a) + Flat(b)
    decreases |a|
  {
    if a == [] {
      assert a + b == b;
    } else {
      assert (a + b)[1..] == a[1..] + b;
      FlatConcat(a[1..], b);
    }
  }

  /** The side with its rows from i to j replaced by rs. */
  lemma {:induction false} FlatSplice(rows: seq<Row>, i: nat, rs: seq<Row>, j: nat)
    requires i <= j <= |rows|
    ensures Flat(rows[..i] + rs + rows[j..]) == Flat(rows[..i]) + Flat(rs) + Flat(rows[j..])
  {
    FlatConcat(rows[..i] + rs, rows[j..]);
    FlatConcat(rows[..i], rs);
  }

  lemma FlatOne(r: Row)
    ensures Flat([r]) == r.queue
  {
    assert [r][1..] == [];
  }

  lemma {:induction false} FlatAround(rows: seq<Row>, i: nat)
    requires i < |rows|
    ensures Flat(rows) == Flat(rows[..i]) + rows[i].queue + Flat(rows[i + 1..])
  {
    FlatSplice(rows, i, [rows[i]], i + 1);
    FlatOne(rows[i]);
    assert rows == rows[..i] + [rows[i]] + rows[i + 1..];
  }

  lemma FlatRequeue(rows: seq<Row>, i: nat, r: Row)
    requires i < |rows|
    ensures Flat(rows[i := r]) == Flat(rows[..i]) + r.queue + Flat(rows[i + 1..])
  {
    FlatSplice(rows, i, [r], i + 1);
    FlatOne(r);
    assert rows[i := r] == rows[..i] + [r] + rows[i + 1..];
  }

  lemma {:induction false} FlatAt(rows: seq<Row>, i: nat, j: nat)
    requires i < |rows| && j < |rows[i].queue|
    ensures Position(rows, i, j) < |Flat(rows)| && Flat(rows)[Position(rows, i, j)] == rows[i].queue[j]
  {
    FlatAround(rows, i);
  }

  lemma {:induction false} FlatAppend(rows: seq<Row>, i: nat, x: nat)
    requires i < |rows|
    ensures Position(rows, i, |rows[i].queue|) <= |Flat(rows)|
    ensures Flat(Appended(rows, i, x)) == Inserted(Flat(rows), Position(rows, i, |rows[i].queue|), x)
  {
    FlatAround(rows, i);
    FlatRequeue(rows, i, rows[i].(queue := rows[i].queue + [x]));
  }

  lemma {:induction false} FlatNewRow(rows: seq<Row>, i: nat, level: nat, x: nat)
    requires i <= |rows|
    ensures Position(rows, i, 0) <= |Flat(rows)|
    ensures Flat(Inserted(rows, i, Row(level, [x]))) == Inserted(Flat(rows), Position(rows, i, 0), x)
  {
    FlatSplice(rows, i, [Row(level, [x])], i);
    FlatOne(Row(level, [x]));
    FlatConcat(rows[..i], rows[i..]);
    assert rows == rows[..i] + rows[i..];
  }

  lemma {:induction false} FlatDrop(rows: seq<Row>, i: nat, j: nat)
    requires i < |rows| && j < |rows[i].queue|
    ensures Position(rows, i, j) < |Flat(rows)|
    ensures Flat(Dropped(rows, i, j)) == Deleted(Flat(rows), Position(rows, i, j))
  {
    FlatAround(rows, i);
    FlatRequeue(rows, i, rows[i].(queue := Deleted(rows[i].queue, j)));
  }

  lemma {:induction false} FlatDropRow(rows: seq<Row>, i: nat)
    requires i < |rows| && |rows[i].queue| == 1
    ensures Position(rows, i, 0) < |Flat(rows)|
    ensures Flat(Deleted(rows, i)) == Deleted(Flat(rows), Position(rows, i, 0))
  {
    FlatAround(rows, i);
    FlatConcat(rows[..i], rows[i + 1..]);
  }

  // ----- membership

  lemma {:induction false} Locate(rows: seq<Row>, p: nat) returns (i: nat, j: nat)
    requires p in Flat(rows)
    ensures i < |rows| && j < |rows[i].queue| && rows[i].queue[j] == p
    decreases |rows|
  {
    if p in rows[0].queue {
      i := 0;
      j :| j < |rows[0].queue| && rows[0].queue[j] == p;
    } else {
      i, j := Locate(rows[1..], p);
      i := i + 1;
    }
  }

  lemma {:induction false} InFlat(rows: seq<Row>, i: nat, p: nat)
    requires i < |rows| && p in rows[i].queue
    ensures p in Flat(rows)
  {
    FlatAround(rows, i);
  }

  lemma InsertedMembers<T>(q: seq<T>, k: nat, x: T)
    requires k <= |q|
    ensures forall y :: y in Inserted(q, k, x) <==> y == x || y in q
    ensures NoDuplicates(q) && x !in q ==> NoDuplicates(Inserted(q, k, x))
  {
    var r := Inserted(q, k, x);
    assert r[k] == x;
    forall y | y in q ensures y in r {
      var i :| 0 <= i < |q| && q[i] == y;
      assert r[if i < k then i else i + 1] == y;
    }
  }

  lemma DeletedMembers<T>(q: seq<T>, k: nat)
    requires k < |q| && NoDuplicates(q)
    ensures forall y :: y in Deleted(q, k) <==> y in q && y != q[k]
    ensures NoDuplicates(Deleted(q, k))
  {
    var r := Deleted(q, k);
    forall y | y in q && y != q[k] ensures y in r {
      var i :| 0 <= i < |q| && q[i] == y;
      assert r[if i < k then i else i - 1] == y;
    }
    forall y | y in r ensures y in q && y != q[k] {
      var i :| 0 <= i < |r| && r[i] == y;
      assert y == q[if i < k then i else i + 1];
    }
  }

  lemma LevelsInserted(rows: seq<Row>, i: nat, r: Row)
    requires i <= |rows|
    ensures Levels(Inserted(rows, i, r)) == Inserted(Levels(rows), i, r.level)
  {
  }

  lemma LevelsDeleted(rows: seq<Row>, i: nat)
    requires i < |rows|
    ensures Levels(Deleted(rows, i)) == Deleted(Levels(rows), i)
  {
  }
}
