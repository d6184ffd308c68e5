/** The observable contract of `DataFrame.drop_duplicates().sort_values(by=
    [a, b])` on a list of rows: no row twice, the same set of rows, ordered
    by the pair of string columns under Python's string order. */
module Tabulate {

  /** Python's `a <= b` on `str`: lexicographic by code point, a proper
      prefix coming first. */
  predicate StrLe(a: string, b: string)
    decreases |a|
  {
    a == [] || (b != [] && (a[0] < b[0] || (a[0] == b[0] && StrLe(a[1..], b[1..]))))
  }

  lemma {:induction false} StrLeTotal(a: string, b: string)
    ensures StrLe(a, b) || StrLe(b, a)
    decreases |a|
  {
    if a != [] && b != [] && a[0] == b[0] {
      StrLeTotal(a[1..], b[1..]);
    }
  }

  lemma {:induction false} StrLeTrans(a: string, b: string, c: string)
    requires StrLe(a, b) && StrLe(b, c)
    ensures StrLe(a, c)
    decreases |a|
  {
    if a != [] && a[0] == b[0] && b[0] == c[0] {
      StrLeTrans(a[1..], b[1..], c[1..]);
    }
  }

  lemma {:induction false} StrLeAntisym(a: string, b: string)
    requires StrLe(a, b) && StrLe(b, a)
    ensures a == b
    decreases |a|
  {
    if a != [] {
      StrLeAntisym(a[1..], b[1..]);
      assert a == [a[0]] + a[1..] && b == [b[0]] + b[1..];
    }
  }

  /** The sort key of a row: the two columns passed to `sort_values`. */
  type Key = (string, string)

  /** Order on keys: by the first column, then by the second. */
  predicate KeyLe(x: Key, y: Key) {
    (x.0 != y.0 && StrLe(x.0, y.0)) || (x.0 == y.0 && StrLe(x.1, y.1))
  }

  lemma KeyLeTotal(x: Key, y: Key)
    ensures KeyLe(x, y) || KeyLe(y, x)
  {
    StrLeTotal(x.0, y.0);
    StrLeTotal(x.1, y.1);
  }

  lemma KeyLeTrans(x: Key, y: Key, z: Key)
    requires KeyLe(x, y) && KeyLe(y, z)
    ensures KeyLe(x, z)
  {
    if x.0 == y.0 && y.0 == z.0 {
      StrLeTrans(x.1, y.1, z.1);
    } else if x.0 != y.0 && y.0 != z.0 {
      StrLeTrans(x.0, y.0, z.0);
      if x.0 == z.0 {
        StrLeAntisym(x.0, y.0);
      }
    }
  }

  /** Every row's key is at most the key of every later row. */
  predicate Sorted<T>(s: seq<T>, key: T -> Key) {
    forall i, j :: 0 <= i < j < |s| ==> KeyLe(key(s[i]), key(s[j]))
  }

  /** No row occurs twice. */
  ghost predicate NoDuplicates<T(!new)>(s: seq<T>) {
    forall x :: multiset(s)[x] <= 1
  }

  /** Where `x` goes into `s`: after the leading rows whose key is at most
      its own, so that it follows the rows with an equal key. */
  function InsertPos<T>(x: T, s: seq<T>, key: T -> Key): (p: nat)
    ensures p <= |s|
    ensures forall i :: 0 <= i < p ==> KeyLe(key(s[i]), key(x))
    ensures Sorted(s, key) ==> forall i :: p <= i < |s| ==> !KeyLe(key(s[i]), key(x))
    decreases |s|
  {
    if s == [] then 0
    else if !KeyLe(key(s[0]), key(x)) then
      assert Sorted(s, key) ==> forall i :: 0 <= i < |s| ==> !KeyLe(key(s[i]), key(x)) by {
        if Sorted(s, key) {
          forall i | 0 < i < |s| ensures !KeyLe(key(s[i]), key(x)) {
            if KeyLe(key(s[i]), key(x)) { KeyLeTrans(key(s[0]), key(s[i]), key(x)); }
          }
        }
      }
      0
    else
      var p := InsertPos(x, s[1..], key);
      assert forall i :: 1 <= i < |s| ==> s[1..][i - 1] == s[i];
      1 + p
  }

  /** Places `x` into the sorted `s` after every row whose key is at most
      its own: a row joins the rows with its key at their end. */
  function Insert<T>(x: T, s: seq<T>, key: T -> Key): (r: seq<T>)
    requires Sorted(s, key)
    ensures Sorted(r, key)
    ensures multiset(r) == multiset(s) + multiset{x}
  {
    var p := InsertPos(x, s, key);
    assert s[..p] + s[p..] == s;
    assert forall i :: p <= i < |s| ==> KeyLe(key(x), key(s[i])) by {
      forall i | p <= i < |s| ensures KeyLe(key(x), key(s[i])) {
        KeyLeTotal(key(x), key(s[i]));
      }
    }
    SortedAround(x, s, p, key);
    s[..p] + [x] + s[p..]
  }

  /** A row placed between the rows with keys at most its own and those with
      keys at least its own keeps a sorted list sorted. */
  lemma SortedAround<T>(x: T, s: seq<T>, p: nat, key: T -> Key)
    requires Sorted(s, key) && p <= |s|
    requires forall i :: 0 <= i < p ==> KeyLe(key(s[i]), key(x))
    requires forall i :: p <= i < |s| ==> KeyLe(key(x), key(s[i]))
    ensures Sorted(s[..p] + [x] + s[p..], key)
  {
    var r := s[..p] + [x] + s[p..];
    assert forall i :: 0 <= i < |r| ==> r[i] == if i < p then s[i] else if i == p then x else s[i - 1];
    forall i, j | 0 <= i < j < |r| ensures KeyLe(key(r[i]), key(r[j])) {
      if i < p < j {
        KeyLeTrans(key(s[i]), key(x), key(s[j - 1]));
      }
    }
  }

  /** `drop_duplicates()` then `sort_values(by=key)`: the rows of `rows`,
      each once, ordered by key; rows with equal keys keep the order of
      their first occurrences (`DedupSortStable`). */
  function DedupSort<T(==, !new)>(rows: seq<T>, key: T -> Key): (r: seq<T>)
    ensures Sorted(r, key)
    ensures NoDuplicates(r)
    ensures forall x :: x in r <==> x in rows
    decreases |rows|
  {
    if rows == [] then []
    else
      var init := rows[..|rows| - 1];
      var x := rows[|rows| - 1];
      assert rows == init + [x];
      var acc := DedupSort(init, key);
      assert forall y :: y in rows <==> y in init || y == x;
      if x in acc then acc
      else
        var r := Insert(x, acc, key);
        assert forall y :: y in r <==> y in multiset(r);
        assert forall y :: y in acc <==> y in multiset(acc);
        assert multiset(acc)[x] == 0;
        r
  }

  /** The position of the first occurrence of `x` in `s`. */
  function FirstIndex<T(==)>(s: seq<T>, x: T): (i: nat)
    requires x in s
    ensures i < |s| && s[i] == x && x !in s[..i]
    decreases |s|
  {
    if s[0] == x then 0
    else
      var i := FirstIndex(s[1..], x);
      assert s[..i + 1] == [s[0]] + s[1..][..i];
      1 + i
  }

  /** A row found in `init` is first found at the same place after anything
      is appended to `init`. */
  lemma {:induction false} FirstIndexPrefix<T>(init: seq<T>, tail: seq<T>, x: T)
    requires x in init
    ensures FirstIndex(init + tail, x) == FirstIndex(init, x)
    decreases |init|
  {
    if init[0] != x {
      assert (init + tail)[1..] == init[1..] + tail;
      FirstIndexPrefix(init[1..], tail, x);
    }
  }

  /** Rows of `r` with equal keys appear in the order of their first
      occurrences in `rows`. */
  predicate TiesInOrder<T(==)>(r: seq<T>, rows: seq<T>, key: T -> Key)
    requires forall x :: x in r ==> x in rows
  {
    forall i, j :: 0 <= i < j < |r| && key(r[i]) == key(r[j]) ==>
      FirstIndex(rows, r[i]) < FirstIndex(rows, r[j])
  }

  /** Inserting a row that first occurs after every row of `s` keeps ties in
      order: it is placed after the rows with its key. */
  lemma InsertTiesInOrder<T>(x: T, s: seq<T>, key: T -> Key, rows: seq<T>)
    requires Sorted(s, key) && x !in s && x in rows
    requires forall y :: y in s ==> y in rows
    requires TiesInOrder(s, rows, key)
    requires forall y :: y in s ==> FirstIndex(rows, y) < FirstIndex(rows, x)
    ensures forall y :: y in Insert(x, s, key) ==> y in rows
    ensures TiesInOrder(Insert(x, s, key), rows, key)
  {
    var r := Insert(x, s, key);
    assert forall y :: y in r ==> y in multiset(r);
    forall i, j | 0 <= i < j < |r| && key(r[i]) == key(r[j])
      ensures FirstIndex(rows, r[i]) < FirstIndex(rows, r[j])
    {
      InsertTie(x, s, key, rows, i, j);
    }
  }

  /** One pair of equal-key rows after `Insert`, as above. */
  lemma InsertTie<T>(x: T, s: seq<T>, key: T -> Key, rows: seq<T>, i: nat, j: nat)
    requires Sorted(s, key) && x !in s && x in rows
    requires forall y :: y in s ==> y in rows
    requires TiesInOrder(s, rows, key)
    requires forall y :: y in s ==> FirstIndex(rows, y) < FirstIndex(rows, x)
    requires i < j < |Insert(x, s, key)|
    requires key(Insert(x, s, key)[i]) == key(Insert(x, s, key)[j])
    ensures Insert(x, s, key)[i] in rows && Insert(x, s, key)[j] in rows
    ensures FirstIndex(rows, Insert(x, s, key)[i]) < FirstIndex(rows, Insert(x, s, key)[j])
  {
    var p := InsertPos(x, s, key);
    var r := Insert(x, s, key);
    assert r == s[..p] + [x] + s[p..];
    if i == p {
      KeyLeTotal(key(x), key(x));
      assert false;
    } else if j == p {
      assert r[i] == s[i];
    } else {
      var i' := if i < p then i else i - 1;
      var j' := if j < p then j else j - 1;
      assert r[i] == s[i'] && r[j] == s[j'] && i' < j';
    }
  }

  /** pandas sorts on two columns with a stable sort, and `drop_duplicates`
      keeps each row's first occurrence: rows with equal keys come out in the
      order in which they first occur in the input. Together with the
      contract of `DedupSort` this fixes the result completely. */
  lemma {:induction false} DedupSortStable<T(!new)>(rows: seq<T>, key: T -> Key)
    ensures TiesInOrder(DedupSort(rows, key), rows, key)
    decreases |rows|
  {
    if rows != [] {
      var init := rows[..|rows| - 1];
      var x := rows[|rows| - 1];
      assert rows == init + [x];
      var acc := DedupSort(init, key);
      DedupSortStable(init, key);
      forall y | y in acc ensures FirstIndex(rows, y) == FirstIndex(init, y) {
        FirstIndexPrefix(init, [x], y);
      }
      assert TiesInOrder(acc, rows, key);
      if x !in acc {
        assert FirstIndex(rows, x) == |init| by {
          assert rows[..|init|] == init;
        }
        InsertTiesInOrder(x, acc, key, rows);
      }
    }
  }
}
