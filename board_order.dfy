/**
 * The ordering and filtering the board queries apply to the joined rows:
 * `orderBy('id', 'DESC')` as an insertion sort on ids, and
 * `where('boards.id', '<', $id)` as an order-preserving filter.
 */
module BoardOrder {
  import opened BoardTable

  /** Ids never increase along the sequence. */
  predicate NonIncreasing(s: seq<Row>)
  {
    forall i, j :: 0 <= i < j < |s| ==> s[i].id >= s[j].id
  }

  /** Ids strictly decrease along the sequence, so no id appears twice. */
  predicate StrictlyDesc(s: seq<Row>)
  {
    forall i, j :: 0 <= i < j < |s| ==> s[i].id > s[j].id
  }

  /** Every id of s is at most v. */
  predicate IdsAtMost(s: seq<Row>, v: int)
  {
    forall i :: 0 <= i < |s| ==> s[i].id <= v
  }

  /** Every id of s is below v. */
  predicate IdsBelow(s: seq<Row>, v: int)
  {
    forall i :: 0 <= i < |s| ==> s[i].id < v
  }

  lemma SameElementsIdsAtMost(s: seq<Row>, t: seq<Row>, v: int)
    requires multiset(s) == multiset(t) && IdsAtMost(s, v)
    ensures IdsAtMost(t, v)
  {
    forall i | 0 <= i < |t| ensures t[i].id <= v {
      assert t[i] in multiset(t);
      assert t[i] in s;
    }
  }

  lemma SameElementsIdsBelow(s: seq<Row>, t: seq<Row>, v: int)
    requires multiset(s) == multiset(t) && IdsBelow(s, v)
    ensures IdsBelow(t, v)
  {
    forall i | 0 <= i < |t| ensures t[i].id < v {
      assert t[i] in multiset(t);
      assert t[i] in s;
    }
  }

  lemma ConsStrictlyDesc(x: Row, s: seq<Row>)
    requires StrictlyDesc(s) && IdsBelow(s, x.id)
    ensures StrictlyDesc([x] + s)
  {
    var r := [x] + s;
    forall i, j | 0 <= i < j < |r| ensures r[i].id > r[j].id {
      assert r[j] == s[j - 1];
      if i > 0 {
        assert r[i] == s[i - 1];
      }
    }
  }

  lemma ConsNonIncreasing(x: Row, s: seq<Row>)
    requires NonIncreasing(s) && IdsAtMost(s, x.id)
    ensures NonIncreasing([x] + s)
  {
    var r := [x] + s;
    forall i, j | 0 <= i < j < |r| ensures r[i].id >= r[j].id {
      assert r[j] == s[j - 1];
      if i > 0 {
        assert r[i] == s[i - 1];
      }
    }
  }

  /** Puts x in front of the first row whose id is not larger than its own. */
  function Insert(x: Row, s: seq<Row>): (r: seq<Row>)
    ensures multiset(r) == multiset(s) + multiset{x}
    ensures |r| == |s| + 1
  {
    if s == [] || x.id >= s[0].id then [x] + s
    else
      assert s == [s[0]] + s[1..];
      [s[0]] + Insert(x, s[1..])
  }

  /** orderBy('id', 'DESC') on the joined rows: the same rows, re-ordered. */
  function SortDesc(s: seq<Row>): (r: seq<Row>)
    ensures multiset(r) == multiset(s)
    ensures |r| == |s|
  {
    if s == [] then []
    else
      assert s == [s[0]] + s[1..];
      Insert(s[0], SortDesc(s[1..]))
  }

  lemma {:induction false} InsertNonIncreasing(x: Row, s: seq<Row>)
    requires NonIncreasing(s)
    ensures NonIncreasing(Insert(x, s))
  {
    if s == [] || x.id >= s[0].id {
      assert IdsAtMost(s, x.id);
      ConsNonIncreasing(x, s);
    } else {
      var t := Insert(x, s[1..]);
      InsertNonIncreasing(x, s[1..]);
      assert s == [s[0]] + s[1..];
      assert IdsAtMost(s[1..] + [x], s[0].id);
      assert multiset(s[1..] + [x]) == multiset(t);
      SameElementsIdsAtMost(s[1..] + [x], t, s[0].id);
      ConsNonIncreasing(s[0], t);
    }
  }

  lemma {:induction false} InsertStrictlyDesc(x: Row, s: seq<Row>)
    requires StrictlyDesc(s)
    requires forall i :: 0 <= i < |s| ==> s[i].id != x.id
    ensures StrictlyDesc(Insert(x, s))
  {
    if s == [] || x.id >= s[0].id {
      assert IdsBelow(s, x.id);
      ConsStrictlyDesc(x, s);
    } else {
      var t := Insert(x, s[1..]);
      InsertStrictlyDesc(x, s[1..]);
      assert s == [s[0]] + s[1..];
      assert IdsBelow(s[1..] + [x], s[0].id);
      assert multiset(s[1..] + [x]) == multiset(t);
      SameElementsIdsBelow(s[1..] + [x], t, s[0].id);
      ConsStrictlyDesc(s[0], t);
    }
  }

  /** The sorted rows never increase in id. */
  lemma {:induction false} SortDescNonIncreasing(s: seq<Row>)
    ensures NonIncreasing(SortDesc(s))
  {
    if s != [] {
      SortDescNonIncreasing(s[1..]);
      InsertNonIncreasing(s[0], SortDesc(s[1..]));
    }
  }

  /** With unique ids the sorted rows strictly decrease in id. */
  lemma {:induction false} SortDescStrictlyDesc(s: seq<Row>)
    requires UniqueIds(s)
    ensures StrictlyDesc(SortDesc(s))
  {
    if s != [] {
      var tail := s[1..];
      assert UniqueIds(tail) by {
        forall i, j | 0 <= i < |tail| && 0 <= j < |tail| && i != j ensures tail[i].id != tail[j].id {
          assert tail[i] == s[i + 1] && tail[j] == s[j + 1];
        }
      }
      SortDescStrictlyDesc(tail);
      var t := SortDesc(tail);
      forall i | 0 <= i < |t| ensures t[i].id != s[0].id {
        assert t[i] in multiset(tail);
        var k :| 0 <= k < |tail| && tail[k] == t[i];
        assert s[k + 1] == t[i];
      }
      InsertStrictlyDesc(s[0], t);
    }
  }

  /** where('boards.id', '<', c): the rows with id below c, in their original order. */
  function Below(s: seq<Row>, c: int): (r: seq<Row>)
    ensures |r| <= |s|
    ensures IdsBelow(r, c)
  {
    if s == [] then []
    else if s[0].id < c then [s[0]] + Below(s[1..], c) else Below(s[1..], c)
  }

  /** A row is kept exactly when it is a row of s with id below c. */
  lemma {:induction false} BelowMembers(s: seq<Row>, c: int)
    ensures forall x :: x in Below(s, c) <==> x in s && x.id < c
  {
    if s != [] {
      BelowMembers(s[1..], c);
      assert s == [s[0]] + s[1..];
    }
  }

  /** Filtering keeps a strictly descending sequence strictly descending. */
  lemma {:induction false} BelowStrictlyDesc(s: seq<Row>, c: int)
    requires StrictlyDesc(s)
    ensures StrictlyDesc(Below(s, c))
  {
    if s != [] {
      var tail := s[1..];
      assert StrictlyDesc(tail) by {
        forall i, j | 0 <= i < j < |tail| ensures tail[i].id > tail[j].id {
          assert tail[i] == s[i + 1] && tail[j] == s[j + 1];
        }
      }
      BelowStrictlyDesc(tail, c);
      if s[0].id < c {
        var b := Below(tail, c);
        BelowMembers(tail, c);
        forall i | 0 <= i < |b| ensures b[i].id < s[0].id {
          assert b[i] in b;
          var k :| 0 <= k < |tail| && tail[k] == b[i];
          assert s[k + 1] == b[i];
        }
        ConsStrictlyDesc(s[0], b);
      }
    }
  }

  /** Filtering keeps a non-increasing sequence non-increasing. */
  lemma {:induction false} BelowNonIncreasing(s: seq<Row>, c: int)
    requires NonIncreasing(s)
    ensures NonIncreasing(Below(s, c))
  {
    if s != [] {
      var tail := s[1..];
      assert NonIncreasing(tail) by {
        forall i, j | 0 <= i < j < |tail| ensures tail[i].id >= tail[j].id {
          assert tail[i] == s[i + 1] && tail[j] == s[j + 1];
        }
      }
      BelowNonIncreasing(tail, c);
      if s[0].id < c {
        var b := Below(tail, c);
        BelowMembers(tail, c);
        forall i | 0 <= i < |b| ensures b[i].id <= s[0].id {
          assert b[i] in b;
          var k :| 0 <= k < |tail| && tail[k] == b[i];
          assert s[k + 1] == b[i];
        }
        ConsNonIncreasing(s[0], b);
      }
    }
  }

  /** Filtering a sorted sequence commutes with inserting into it. */
  lemma {:induction false} BelowInsert(x: Row, s: seq<Row>, c: int)
    requires NonIncreasing(s)
    ensures Below(Insert(x, s), c) == if x.id < c then Insert(x, Below(s, c)) else Below(s, c)
  {
    if s != [] {
      var tail := s[1..];
      assert s == [s[0]] + tail;
      var b := Below(tail, c);
      if x.id >= s[0].id {
        assert Insert(x, s) == [x] + s;
        if x.id < c && b != [] {
          assert b[0] in tail;
          var k :| 0 <= k < |tail| && tail[k] == b[0];
          assert s[k + 1] == b[0];
        }
      } else {
        assert NonIncreasing(tail) by {
          forall i, j | 0 <= i < j < |tail| ensures tail[i].id >= tail[j].id {
            assert tail[i] == s[i + 1] && tail[j] == s[j + 1];
          }
        }
        BelowInsert(x, tail, c);
      }
    }
  }

  /** Sorting the filtered rows gives the filtered sorted rows. */
  lemma {:induction false} SortBelow(s: seq<Row>, c: int)
    ensures SortDesc(Below(s, c)) == Below(SortDesc(s), c)
  {
    if s != [] {
      assert s == [s[0]] + s[1..];
      SortBelow(s[1..], c);
      SortDescNonIncreasing(s[1..]);
      BelowInsert(s[0], SortDesc(s[1..]), c);
    }
  }

  /** When every row of s lies below c, the filter keeps them all. */
  lemma {:induction false} BelowAll(s: seq<Row>, c: int)
    requires IdsBelow(s, c)
    ensures Below(s, c) == s
  {
    if s != [] {
      assert IdsBelow(s[1..], c) by {
        forall i | 0 <= i < |s[1..]| ensures s[1..][i].id < c {
          assert s[1..][i] == s[i + 1];
        }
      }
      BelowAll(s[1..], c);
    }
  }

  /** A stricter bound applied after a looser one is the stricter bound alone. */
  lemma {:induction false} BelowBelow(s: seq<Row>, v: int, c: int)
    requires v <= c
    ensures Below(Below(s, c), v) == Below(s, v)
  {
    if s != [] {
      BelowBelow(s[1..], v, c);
    }
  }

  /** Filtering distributes over concatenation. */
  lemma {:induction false} BelowAppend(a: seq<Row>, b: seq<Row>, c: int)
    ensures Below(a + b, c) == Below(a, c) + Below(b, c)
    decreases |a|
  {
    if a == [] {
      assert a + b == b;
    } else {
      var ab := a + b;
      var tail := a[1..] + b;
      assert ab[1..] == tail;
      assert ab[0] == a[0];
      BelowAppend(a[1..], b, c);
      var head := if a[0].id < c then [a[0]] else [];
      assert Below(ab, c) == head + Below(tail, c);
      assert Below(a, c) == head + Below(a[1..], c);
      assert head + (Below(a[1..], c) + Below(b, c)) == (head + Below(a[1..], c)) + Below(b, c);
    }
  }


  /**
   * In a strictly descending sequence, the rows below the id at position k - 1
   * are exactly the rows from position k on.
   */
  lemma {:induction false} BelowSuffix(s: seq<Row>, k: nat)
    requires StrictlyDesc(s)
    requires 0 < k <= |s|
    ensures Below(s, s[k - 1].id) == s[k..]
  {
    var tail := s[1..];
    assert s == [s[0]] + tail;
    if k == 1 {
      assert IdsBelow(tail, s[0].id) by {
        forall i | 0 <= i < |tail| ensures tail[i].id < s[0].id {
          assert tail[i] == s[i + 1];
        }
      }
      BelowAll(tail, s[0].id);
    } else {
      assert StrictlyDesc(tail) by {
        forall i, j | 0 <= i < j < |tail| ensures tail[i].id > tail[j].id {
          assert tail[i] == s[i + 1] && tail[j] == s[j + 1];
        }
      }
      assert tail[k - 2] == s[k - 1];
      BelowSuffix(tail, k - 1);
      assert tail[k - 1..] == s[k..];
    }
  }

  /** A row whose id exceeds every other id, added last, sorts first. */
  lemma {:induction false} SortAppendLargest(s: seq<Row>, x: Row)
    requires IdsBelow(s, x.id)
    ensures SortDesc(s + [x]) == [x] + SortDesc(s)
  {
    if s != [] {
      assert (s + [x])[1..] == s[1..] + [x];
      assert (s + [x])[0] == s[0];
      assert IdsBelow(s[1..], x.id) by {
        forall i | 0 <= i < |s[1..]| ensures s[1..][i].id < x.id {
          assert s[1..][i] == s[i + 1];
        }
      }
      SortAppendLargest(s[1..], x);
    }
  }
}
