/** Sequences kept in the order of their string keys, as an ordered map or set holds them. */
module KeyOrder {
  /** Strings are compared character by character. */
  predicate LexLess(a: string, b: string) {
    b != [] && (a == [] || a[0] < b[0] || (a[0] == b[0] && LexLess(a[1..], b[1..])))
  }

  lemma {:induction false} LexTransitive(a: string, b: string, c: string)
    requires LexLess(a, b) && LexLess(b, c)
    ensures LexLess(a, c)
  {
    if a != [] && a[0] == b[0] == c[0] {
      LexTransitive(a[1..], b[1..], c[1..]);
    }
  }

  lemma {:induction false} LexTotal(a: string, b: string)
    ensures (if LexLess(a, b) then 1 else 0) + (if a == b then 1 else 0) + (if LexLess(b, a) then 1 else 0) == 1
  {
    if a != [] && b != [] {
      LexTotal(a[1..], b[1..]);
      assert a == b <==> a[0] == b[0] && a[1..] == b[1..] by {
        assert a == [a[0]] + a[1..] && b == [b[0]] + b[1..];
      }
    }
  }

  /** `a` is `b` up to position `k`, and ends there or has the smaller character. */
  ghost predicate FirstDiffersAt(a: string, b: string, k: nat) {
    k <= |a| && k < |b| && a[..k] == b[..k] && (k == |a| || a[k] < b[k])
  }

  /** The order is the dictionary order. */
  lemma LexIff(a: string, b: string)
    ensures LexLess(a, b) <==> exists k: nat :: FirstDiffersAt(a, b, k)
  {
    if LexLess(a, b) {
      var k := FirstDifference(a, b);
    }
    if k: nat :| FirstDiffersAt(a, b, k) {
      DifferenceDecides(a, b, k);
    }
  }

  lemma {:induction false} FirstDifference(a: string, b: string) returns (k: nat)
    requires LexLess(a, b)
    ensures FirstDiffersAt(a, b, k)
  {
    if a == [] || a[0] < b[0] {
      k := 0;
    } else {
      k := FirstDifference(a[1..], b[1..]);
      k := k + 1;
      assert a[..k] == [a[0]] + a[1..][..k - 1] && b[..k] == [b[0]] + b[1..][..k - 1];
    }
  }

  lemma {:induction false} DifferenceDecides(a: string, b: string, k: nat)
    requires FirstDiffersAt(a, b, k)
    ensures LexLess(a, b)
  {
    if k > 0 {
      assert a[..k][0] == b[..k][0] && a[..k][1..] == a[1..][..k - 1] && b[..k][1..] == b[1..][..k - 1];
      DifferenceDecides(a[1..], b[1..], k - 1);
    }
  }

  /** One row per key, in key order. */
  ghost predicate Ascending<T>(rows: seq<T>, key: T -> string) {
    forall i, j :: 0 <= i < j < |rows| ==> LexLess(key(rows[i]), key(rows[j]))
  }

  /** Inserting into an ascending sequence; a row with the same key is replaced. */
  function PutByKey<T>(rows: seq<T>, key: T -> string, r: T): seq<T> {
    if rows == [] || LexLess(key(rows[|rows| - 1]), key(r)) then rows + [r]
    else if key(rows[|rows| - 1]) == key(r) then rows[..|rows| - 1] + [r]
    else PutByKey(rows[..|rows| - 1], key, r) + [rows[|rows| - 1]]
  }

  /** Every key in the rows comes before this one. */
  ghost predicate AllBelow<T>(rows: seq<T>, key: T -> string, k: string) {
    forall x :: x in rows ==> LexLess(key(x), k)
  }

  lemma {:induction false} PutKeepsOrder<T>(rows: seq<T>, key: T -> string, r: T)
    requires Ascending(rows, key)
    ensures Ascending(PutByKey(rows, key, r), key)
    ensures forall x :: x in PutByKey(rows, key, r) <==> x == r || (x in rows && key(x) != key(r))
  {
    if rows == [] {
      assert PutByKey(rows, key, r) == [r];
    } else {
      var front, last := rows[..|rows| - 1], rows[|rows| - 1];
      assert rows == front + [last];
      FrontIsBelow(rows, key);
      LexTotal(key(last), key(r));
      if LexLess(key(last), key(r)) {
        AllFollow(rows, key, key(last), key(r));
        Appended(rows, key, r);
      } else if key(last) == key(r) {
        Appended(front, key, r);
      } else {
        PutKeepsOrder(front, key, r);
        assert AllBelow(PutByKey(front, key, r), key, key(last));
        Appended(PutByKey(front, key, r), key, last);
      }
    }
  }

  lemma FrontIsBelow<T>(rows: seq<T>, key: T -> string)
    requires Ascending(rows, key) && rows != []
    ensures AllBelow(rows[..|rows| - 1], key, key(rows[|rows| - 1]))
  {
  }

  lemma AllFollow<T>(rows: seq<T>, key: T -> string, last: string, k: string)
    requires rows != [] && key(rows[|rows| - 1]) == last && LexLess(last, k)
    requires AllBelow(rows[..|rows| - 1], key, last)
    ensures AllBelow(rows, key, k)
  {
    forall x | x in rows
      ensures LexLess(key(x), k)
    {
      assert rows == rows[..|rows| - 1] + [rows[|rows| - 1]];
      if x in rows[..|rows| - 1] {
        LexTransitive(key(x), last, k);
      }
    }
  }

  /** A row whose key follows all others goes last. */
  lemma Appended<T>(rows: seq<T>, key: T -> string, r: T)
    requires Ascending(rows, key) && AllBelow(rows, key, key(r))
    ensures Ascending(rows + [r], key)
    ensures forall x :: x in rows ==> key(x) != key(r)
  {
    assert forall k :: 0 <= k < |rows| ==> rows[k] in rows;
    forall x | x in rows
      ensures key(x) != key(r)
    {
      LexTotal(key(x), key(r));
    }
  }
}
