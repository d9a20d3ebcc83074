/** The order in which the store lists the `songs` table for the editor:
    `.order("updated_at", { ascending: false })`. The store leaves the order of
    rows with equal `updated_at` unspecified; this model settles such ties by
    the rows' ids, so that the listing is a function of the table. */
module Ordering {

  import opened Songs

  /** Strict lexicographic order on identifiers (the tie-break). */
  predicate IdBefore(a: string, b: string)
    decreases |a|
  {
    if |a| == 0 then |b| > 0
    else if |b| == 0 then false
    else if a[0] != b[0] then a[0] < b[0]
    else IdBefore(a[1..], b[1..])
  }

  lemma {:induction false} IdBeforeAsymmetric(a: string, b: string)
    ensures !(IdBefore(a, b) && IdBefore(b, a))
    decreases |a|
  {
    if |a| > 0 && |b| > 0 && a[0] == b[0] {
      IdBeforeAsymmetric(a[1..], b[1..]);
    }
  }

  lemma {:induction false} IdBeforeTotal(a: string, b: string)
    requires a != b
    ensures IdBefore(a, b) || IdBefore(b, a)
    decreases |a|
  {
    if |a| > 0 && |b| > 0 && a[0] == b[0] {
      assert a == [a[0]] + a[1..] && b == [b[0]] + b[1..];
      IdBeforeTotal(a[1..], b[1..]);
    }
  }

  lemma {:induction false} IdBeforeTransitive(a: string, b: string, c: string)
    requires IdBefore(a, b) && IdBefore(b, c)
    ensures IdBefore(a, c)
    decreases |a|
  {
    if |a| > 0 && |b| > 0 && |c| > 0 && a[0] == b[0] == c[0] {
      IdBeforeTransitive(a[1..], b[1..], c[1..]);
    }
  }

  /** Row `a` is listed before row `b`: it was updated later, or at the same
      time with the smaller id. */
  predicate Before(m: map<SongId, Song>, a: SongId, b: SongId) {
    && a in m && b in m
    && (m[a].updatedAt > m[b].updatedAt
        || (m[a].updatedAt == m[b].updatedAt && IdBefore(a, b)))
  }

  lemma BeforeAsymmetric(m: map<SongId, Song>, a: SongId, b: SongId)
    ensures !(Before(m, a, b) && Before(m, b, a))
  {
    IdBeforeAsymmetric(a, b);
  }

  lemma BeforeTotal(m: map<SongId, Song>, a: SongId, b: SongId)
    requires a in m && b in m && a != b
    ensures Before(m, a, b) || Before(m, b, a)
  {
    IdBeforeTotal(a, b);
  }

  lemma BeforeTransitive(m: map<SongId, Song>, a: SongId, b: SongId, c: SongId)
    requires Before(m, a, b) && Before(m, b, c)
    ensures Before(m, a, c)
  {
    if m[a].updatedAt == m[b].updatedAt == m[c].updatedAt {
      IdBeforeTransitive(a, b, c);
    }
  }

  /** `k` is the row the store lists first. */
  predicate First(m: map<SongId, Song>, k: SongId) {
    k in m && forall j :: j in m && j != k ==> Before(m, k, j)
  }

  lemma {:induction false} FirstExists(m: map<SongId, Song>)
    requires |m| > 0
    ensures exists k :: First(m, k)
    decreases |m|
  {
    var x :| x in m;
    var rest := m - {x};
    if rest.Keys == {} {
      assert forall j :: j in m && j != x ==> j in rest.Keys;
      assert First(m, x);
    } else {
      FirstExists(rest);
      var k :| First(rest, k);
      if Before(m, x, k) {
        forall j | j in m && j != x ensures Before(m, x, j) {
          if j != k {
            assert Before(rest, k, j);
            BeforeTransitive(m, x, k, j);
          }
        }
        assert First(m, x);
      } else {
        BeforeTotal(m, x, k);
        forall j | j in m && j != k ensures Before(m, k, j) {
          if j != x {
            assert Before(rest, k, j);
          }
        }
        assert First(m, k);
      }
    }
  }

  lemma FirstIsUnique(m: map<SongId, Song>)
    ensures forall a, b :: First(m, a) && First(m, b) ==> a == b
  {
    forall a, b | First(m, a) && First(m, b) ensures a == b {
      if a != b {
        BeforeAsymmetric(m, a, b);
        assert false;
      }
    }
  }

  /** `ks` lists as many ids of `m` as it has, each before all those that
      follow it (so none twice). */
  predicate KeysInOrder(m: map<SongId, Song>, ks: seq<SongId>) {
    && |ks| == |m|
    && (forall i :: 0 <= i < |ks| ==> ks[i] in m)
    && (forall i, j :: 0 <= i < j < |ks| ==> Before(m, ks[i], ks[j]))
  }

  /** Listing the first row, then the rest of the table in order, lists the
      whole table in order. */
  lemma ConsKeys(m: map<SongId, Song>, k: SongId, rest: seq<SongId>)
    requires First(m, k) && KeysInOrder(m - {k}, rest)
    ensures KeysInOrder(m, [k] + rest)
  {
    var m', ks := m - {k}, [k] + rest;
    assert m'.Keys == m.Keys - {k};
    forall i | 0 <= i < |ks| ensures ks[i] in m {
      if i > 0 {
        assert ks[i] == rest[i - 1];
      }
    }
    forall i, j | 0 <= i < j < |ks| ensures Before(m, ks[i], ks[j]) {
      var b := rest[j - 1];
      assert ks[j] == b && b in m';
      if i > 0 {
        var a := rest[i - 1];
        assert Before(m', a, b);
        assert m'[a] == m[a] && m'[b] == m[b];
      }
    }
  }

  /** The ids of the table in listing order. */
  function OrderedKeys(m: map<SongId, Song>): (ks: seq<SongId>)
    ensures KeysInOrder(m, ks)
    decreases |m|
  {
    if |m| == 0 then []
    else
      FirstExists(m);
      FirstIsUnique(m);
      var k :| First(m, k);
      var rest := OrderedKeys(m - {k});
      ConsKeys(m, k, rest);
      [k] + rest
  }

  /** No id of the table is left out of the listing. */
  lemma {:induction false} OrderedKeysCover(m: map<SongId, Song>)
    ensures forall j :: j in m ==> j in OrderedKeys(m)
    decreases |m|
  {
    if |m| > 0 {
      FirstExists(m);
      FirstIsUnique(m);
      var k :| First(m, k);
      var m' := m - {k};
      assert OrderedKeys(m) == [k] + OrderedKeys(m');
      OrderedKeysCover(m');
      forall j | j in m ensures j in OrderedKeys(m) {
        if j != k {
          assert j in m';
        }
      }
    }
  }

  /** The rows `.select("*").order("updated_at", { ascending: false })`
      returns: rows of the table only, as many as it has, newest first. */
  function OrderedRows(m: map<SongId, Song>): (rows: seq<Song>)
    ensures |rows| == |m|
    ensures forall i :: 0 <= i < |rows| ==> rows[i] in m.Values
    ensures forall i, j :: 0 <= i < j < |rows| ==> rows[i].updatedAt >= rows[j].updatedAt
  {
    var ks := OrderedKeys(m);
    seq(|ks|, i requires 0 <= i < |ks| => m[ks[i]])
  }

  /** Each listed row is the table's row for its own id. */
  lemma ListedRowsAreStored(m: map<SongId, Song>)
    requires WellKeyed(m)
    ensures forall i :: 0 <= i < |OrderedRows(m)| ==>
      OrderedRows(m)[i].id in m && m[OrderedRows(m)[i].id] == OrderedRows(m)[i]
  {
    var ks, rows := OrderedKeys(m), OrderedRows(m);
    forall i | 0 <= i < |rows| ensures rows[i].id in m && m[rows[i].id] == rows[i] {
      assert rows[i] == m[ks[i]];
    }
  }

  /** No id is listed twice. */
  lemma ListedIdsDistinct(m: map<SongId, Song>)
    requires WellKeyed(m)
    ensures forall i, j :: 0 <= i < j < |OrderedRows(m)| ==> OrderedRows(m)[i].id != OrderedRows(m)[j].id
  {
    var ks, rows := OrderedKeys(m), OrderedRows(m);
    forall i, j | 0 <= i < j < |rows| ensures rows[i].id != rows[j].id {
      assert rows[i] == m[ks[i]] && rows[j] == m[ks[j]];
      assert Before(m, ks[i], ks[j]);
      IdBeforeAsymmetric(ks[i], ks[i]);
    }
  }

  /** No row of the table is missing from the listing. */
  lemma EveryRowListed(m: map<SongId, Song>)
    ensures forall k :: k in m ==> m[k] in OrderedRows(m)
  {
    var ks, rows := OrderedKeys(m), OrderedRows(m);
    OrderedKeysCover(m);
    forall k | k in m ensures m[k] in rows {
      var i :| 0 <= i < |ks| && ks[i] == k;
      assert rows[i] == m[k];
    }
  }

  /** The first listed row is the most recently updated one: what the editor
      selects on its own after a load. */
  lemma FirstListedIsNewest(m: map<SongId, Song>, k: SongId)
    requires k in m
    ensures |OrderedRows(m)| > 0 && OrderedRows(m)[0].updatedAt >= m[k].updatedAt
  {
    var ks := OrderedKeys(m);
    OrderedKeysCover(m);
    var i :| 0 <= i < |ks| && ks[i] == k;
    if i > 0 {
      assert Before(m, ks[0], ks[i]);
    }
  }

  /** A row updated strictly later than every other row (a song just created
      with the newest timestamp) is listed first. */
  lemma NewestListedFirst(m: map<SongId, Song>, k: SongId)
    requires k in m
    requires forall j :: j in m && j != k ==> m[j].updatedAt < m[k].updatedAt
    ensures |OrderedRows(m)| > 0 && OrderedRows(m)[0] == m[k]
  {
    FirstListedIsNewest(m, k);
    var ks := OrderedKeys(m);
    assert OrderedRows(m)[0] == m[ks[0]];
  }
}
