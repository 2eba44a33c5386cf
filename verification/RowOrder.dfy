// Tables as lists of rows in insertion order, and `ORDER BY <integer column>, id`.

module RowOrder {

  /** One table row: its integer ordering column, its TEXT primary key, and the rest. */
  datatype Row<T> = Row(at: int, id: string, payload: T)

  // ---------- TEXT comparison ----------

  predicate TextBefore(a: string, b: string) {
    if a == [] || b == [] then a == [] && b != []
    else a[0] < b[0] || (a[0] == b[0] && TextBefore(a[1..], b[1..]))
  }

  lemma {:induction false} TextBeforeTotal(a: string, b: string)
    ensures a == b || TextBefore(a, b) || TextBefore(b, a)
    ensures !(TextBefore(a, b) && TextBefore(b, a))
    ensures !TextBefore(a, a)
  {
    if a != [] {
      TextBeforeTotal(a[1..], a[1..]);
      if b != [] {
        TextBeforeTotal(a[1..], b[1..]);
        assert a[0] == b[0] && a[1..] == b[1..] ==> a == [a[0]] + a[1..] == [b[0]] + b[1..] == b;
      }
    }
  }

  lemma {:induction false} TextBeforeTransitive(a: string, b: string, c: string)
    requires TextBefore(a, b) && TextBefore(b, c)
    ensures TextBefore(a, c)
  {
    if a != [] && a[0] == b[0] == c[0] {
      TextBeforeTransitive(a[1..], b[1..], c[1..]);
    }
  }

  /** `a` and `b` agree up to `k`, where `a` ends or has the smaller character. */
  predicate ParesAt(a: string, b: string, k: nat) {
    && k <= |a| && k < |b| && a[..k] == b[..k]
    && (k == |a| || a[k] < b[k])
  }

  /** Text order is decided at the first difference, and a proper prefix comes first. */
  lemma {:induction false} TextBeforeIff(a: string, b: string)
    ensures TextBefore(a, b) <==> exists k: nat :: ParesAt(a, b, k)
  {
    if a == [] {
      assert b != [] ==> ParesAt(a, b, 0);
    } else if b != [] && a[0] == b[0] {
      TextBeforeIff(a[1..], b[1..]);
      if k: nat :| ParesAt(a[1..], b[1..], k) {
        assert a[..k + 1] == [a[0]] + a[1..][..k] && b[..k + 1] == [b[0]] + b[1..][..k];
        assert ParesAt(a, b, k + 1);
      }
      if k: nat :| ParesAt(a, b, k) {
        assert k > 0;
        assert a[1..][..k - 1] == a[..k][1..] && b[1..][..k - 1] == b[..k][1..];
        assert ParesAt(a[1..], b[1..], k - 1);
      }
    } else if b != [] {
      assert a[0] < b[0] ==> ParesAt(a, b, 0);
      if k: nat :| ParesAt(a, b, k) {
        assert k > 0 ==> a[..k][0] == b[..k][0];
      }
    }
  }

  // ---------- ORDER BY ----------

  predicate NotAfter<T(==)>(r: Row<T>, s: Row<T>) {
    r.at < s.at || (r.at == s.at && (r.id == s.id || TextBefore(r.id, s.id)))
  }

  lemma NotAfterOrder<T>(r: Row<T>, s: Row<T>, t: Row<T>)
    ensures NotAfter(r, s) || NotAfter(s, r)
    ensures NotAfter(r, s) && NotAfter(s, r) ==> r.at == s.at && r.id == s.id
    ensures NotAfter(r, s) && NotAfter(s, t) ==> NotAfter(r, t)
  {
    TextBeforeTotal(r.id, s.id);
    if TextBefore(r.id, s.id) && TextBefore(s.id, t.id) {
      TextBeforeTransitive(r.id, s.id, t.id);
    }
  }

  ghost predicate Ordered<T>(rows: seq<Row<T>>) {
    forall i, j :: 0 <= i < j < |rows| ==> NotAfter(rows[i], rows[j])
  }

  function Place<T(==)>(r: Row<T>, rows: seq<Row<T>>): seq<Row<T>> {
    if rows == [] || NotAfter(r, rows[0]) then [r] + rows else [rows[0]] + Place(r, rows[1..])
  }

  function OrderBy<T(==)>(rows: seq<Row<T>>): seq<Row<T>> {
    if rows == [] then [] else Place(rows[0], OrderBy(rows[1..]))
  }

  lemma OrderedCons<T>(r: Row<T>, rest: seq<Row<T>>)
    requires Ordered(rest) && forall s :: s in rest ==> NotAfter(r, s)
    ensures Ordered([r] + rest)
  {
  }

  lemma {:induction false} PlaceKeepsOrder<T>(r: Row<T>, rows: seq<Row<T>>)
    requires Ordered(rows)
    ensures Ordered(Place(r, rows)) && multiset(Place(r, rows)) == multiset{r} + multiset(rows)
  {
    if rows == [] {
    } else if NotAfter(r, rows[0]) {
      forall s | s in rows
        ensures NotAfter(r, s)
      {
        NotAfterOrder(r, rows[0], s);
      }
      OrderedCons(r, rows);
    } else {
      var rest := rows[1..];
      assert rows == [rows[0]] + rest;
      PlaceKeepsOrder(r, rest);
      NotAfterOrder(r, rows[0], r);
      forall s | s in Place(r, rest)
        ensures NotAfter(rows[0], s)
      {
        assert s in multiset(Place(r, rest));
      }
      OrderedCons(rows[0], Place(r, rest));
    }
  }

  lemma {:induction false} OrderBySorts<T>(rows: seq<Row<T>>)
    ensures Ordered(OrderBy(rows)) && multiset(OrderBy(rows)) == multiset(rows) && |OrderBy(rows)| == |rows|
  {
    if rows != [] {
      OrderBySorts(rows[1..]);
      PlaceKeepsOrder(rows[0], OrderBy(rows[1..]));
      assert rows == [rows[0]] + rows[1..];
    }
    assert |multiset(OrderBy(rows))| == |OrderBy(rows)|;
  }

  /** The primary key: no two rows share an id. */
  ghost predicate UniqueIds<T>(rows: seq<Row<T>>) {
    forall i, j :: 0 <= i < j < |rows| ==> rows[i].id != rows[j].id
  }

  lemma SameRow<T>(table: seq<Row<T>>, a: Row<T>, b: Row<T>)
    requires UniqueIds(table) && a in table && b in table && a.id == b.id
    ensures a == b
  {
    var i :| 0 <= i < |table| && table[i] == a;
    var j :| 0 <= j < |table| && table[j] == b;
  }

  /** Sorting a table with distinct ids leaves them distinct. */
  lemma OrderByUnique<T>(table: seq<Row<T>>)
    requires UniqueIds(table)
    ensures UniqueIds(OrderBy(table))
  {
    OrderBySorts(table);
    var all := OrderBy(table);
    forall i, j | 0 <= i < j < |all|
      ensures all[i].id != all[j].id
    {
      if all[i].id == all[j].id {
        assert all[i] in multiset(table) && all[j] in multiset(table);
        SameRow(table, all[i], all[j]);
        OnceEach(table, all[i]);
        TwiceIn(all, i, j);
      }
    }
  }

  lemma {:induction false} OnceEach<T>(table: seq<Row<T>>, e: Row<T>)
    requires UniqueIds(table)
    ensures multiset(table)[e] <= 1
  {
    if table != [] {
      assert table == [table[0]] + table[1..];
      OnceEach(table[1..], e);
      forall j | 0 <= j < |table[1..]|
        ensures table[1..][j] != table[0]
      {
        assert table[j + 1].id != table[0].id;
      }
    }
  }

  lemma TwiceIn<T>(all: seq<Row<T>>, i: nat, j: nat)
    requires i < j < |all| && all[i] == all[j]
    ensures multiset(all)[all[i]] >= 2
  {
    assert all == all[..j] + [all[j]] + all[j + 1..];
    assert all[i] in all[..j];
  }

  lemma SameHead<T>(a: seq<Row<T>>, b: seq<Row<T>>)
    requires Ordered(a) && Ordered(b) && multiset(a) == multiset(b) && a != [] && b != []
    requires forall r, s :: r in a && s in a && r.id == s.id ==> r == s
    ensures a[0] == b[0]
  {
    assert a[0] in multiset(b) && b[0] in multiset(a);
    var i :| 0 <= i < |b| && b[i] == a[0];
    var j :| 0 <= j < |a| && a[j] == b[0];
    NotAfterOrder(a[0], a[0], a[0]);
    NotAfterOrder(b[0], b[0], b[0]);
    assert NotAfter(b[0], b[i]) && NotAfter(a[0], a[j]);
    NotAfterOrder(a[0], b[0], a[0]);
  }

  lemma {:induction false} OrderedUnique<T>(a: seq<Row<T>>, b: seq<Row<T>>)
    requires Ordered(a) && Ordered(b) && multiset(a) == multiset(b)
    requires forall r, s :: r in a && s in a && r.id == s.id ==> r == s
    ensures a == b
  {
    assert |a| == |multiset(a)| && |b| == |multiset(b)|;
    if a != [] {
      SameHead(a, b);
      assert a == [a[0]] + a[1..] && b == [b[0]] + b[1..];
      assert multiset(a[1..]) == multiset(a) - multiset{a[0]};
      assert multiset(b[1..]) == multiset(b) - multiset{b[0]};
      OrderedUnique(a[1..], b[1..]);
    }
  }

  /** What a query returns does not depend on the order in which the rows were inserted. */
  lemma OrderByIgnoresInsertionOrder<T>(a: seq<Row<T>>, b: seq<Row<T>>)
    requires multiset(a) == multiset(b) && UniqueIds(a)
    ensures OrderBy(a) == OrderBy(b)
  {
    OrderBySorts(a);
    OrderBySorts(b);
    forall r, s | r in OrderBy(a) && s in OrderBy(a) && r.id == s.id
      ensures r == s
    {
      assert r in multiset(a) && s in multiset(a);
    }
    OrderedUnique(OrderBy(a), OrderBy(b));
  }

  // ---------- INSERT ... ON CONFLICT DO NOTHING and DELETE ----------

  predicate HasId<T(==)>(rows: seq<Row<T>>, id: string) {
    exists r :: r in rows && r.id == id
  }

  function InsertNew<T(==)>(rows: seq<Row<T>>, r: Row<T>): seq<Row<T>> {
    if HasId(rows, r.id) then rows else rows + [r]
  }

  /** The rows whose id is none of `ids`. */
  function Without<T(==)>(rows: seq<Row<T>>, ids: set<string>): seq<Row<T>> {
    if rows == [] then []
    else if rows[0].id in ids then Without(rows[1..], ids)
    else [rows[0]] + Without(rows[1..], ids)
  }

  lemma {:induction false} WithoutMembers<T>(rows: seq<Row<T>>, ids: set<string>, r: Row<T>)
    ensures r in Without(rows, ids) <==> r in rows && r.id !in ids
  {
    if rows != [] {
      WithoutMembers(rows[1..], ids, r);
      assert r in rows <==> r == rows[0] || r in rows[1..];
    }
  }

  lemma {:induction false} WithoutUnique<T>(rows: seq<Row<T>>, ids: set<string>)
    requires UniqueIds(rows)
    ensures UniqueIds(Without(rows, ids))
  {
    if rows != [] {
      var rest := rows[1..];
      WithoutUnique(rest, ids);
      forall r | r in Without(rest, ids)
        ensures r.id != rows[0].id
      {
        WithoutMembers(rest, ids, r);
      }
    }
  }

  lemma {:induction false} WithoutTwice<T>(rows: seq<Row<T>>, a: set<string>, b: set<string>)
    ensures Without(Without(rows, a), b) == Without(rows, a + b)
  {
    if rows != [] {
      WithoutTwice(rows[1..], a, b);
      var kept := Without(rows[1..], a);
      assert ([rows[0]] + kept)[1..] == kept;
    }
  }

  lemma InsertUnique<T>(rows: seq<Row<T>>, r: Row<T>)
    requires UniqueIds(rows)
    ensures UniqueIds(InsertNew(rows, r))
    ensures HasId(InsertNew(rows, r), r.id)
  {
    var out := InsertNew(rows, r);
    if !HasId(rows, r.id) {
      assert out[|rows|] == r;
      forall i | 0 <= i < |rows|
        ensures rows[i].id != r.id
      {
        assert rows[i] in rows;
      }
    }
  }

  /** Deleting `k` distinct ids that are all present leaves `k` fewer rows. */
  lemma {:induction false} WithoutCount<T>(rows: seq<Row<T>>, ids: set<string>)
    requires UniqueIds(rows) && forall id :: id in ids ==> HasId(rows, id)
    ensures |Without(rows, ids)| == |rows| - |ids|
  {
    if rows == [] {
      assert ids == {};
    } else {
      var id, rest := rows[0].id, rows[1..];
      forall other | other in ids - {id}
        ensures HasId(rest, other)
      {
        var r :| r in rows && r.id == other;
        assert r in rest;
      }
      WithoutCount(rest, ids - {id});
      if id in ids {
        WithoutTwice(rest, ids - {id}, {});
        IgnoreAbsent(rest, ids, id);
      } else {
        assert ids - {id} == ids;
      }
    }
  }

  lemma {:induction false} IgnoreAbsent<T>(rows: seq<Row<T>>, ids: set<string>, id: string)
    requires forall r :: r in rows ==> r.id != id
    ensures Without(rows, ids) == Without(rows, ids - {id})
  {
    if rows != [] {
      assert rows[0] in rows;
      IgnoreAbsent(rows[1..], ids, id);
    }
  }
}
