/** Sorting by a total preorder: Python's `sorted(...)`, pandas' `sort_values` and SQL's
    `order by`. Only sortedness and being a permutation are promised; the order among equal
    elements is whatever the insertion sort below produces. */
module Sorting {
  import Text

  ghost predicate TotalPreorder<T(!new)>(le: (T, T) -> bool)
  {
    && (forall x, y :: le(x, y) || le(y, x))
    && (forall x, y, z :: le(x, y) && le(y, z) ==> le(x, z))
  }

  ghost predicate SortedBy<T>(s: seq<T>, le: (T, T) -> bool)
  {
    forall i, j :: 0 <= i < j < |s| ==> le(s[i], s[j])
  }

  function Insert<T(!new)>(x: T, s: seq<T>, le: (T, T) -> bool): (r: seq<T>)
    requires TotalPreorder(le) && SortedBy(s, le)
    ensures SortedBy(r, le)
    ensures multiset(r) == multiset(s) + multiset{x}
  {
    if |s| == 0 then [x]
    else if le(x, s[0]) then
      ConsSorted(x, s, le);
      [x] + s
    else
      SortedTail(s, le);
      var tail := Insert(x, s[1..], le);
      assert forall k :: 0 <= k < |tail| ==> le(s[0], tail[k]) by {
        forall k | 0 <= k < |tail| ensures le(s[0], tail[k]) {
          var y := tail[k];
          assert y in multiset(tail);
          if y != x {
            assert y in multiset(s[1..]);
            var m :| 0 <= m < |s[1..]| && s[1..][m] == y;
            assert s[m + 1] == y;
          }
        }
      }
      ConsSorted(s[0], tail, le);
      assert s == [s[0]] + s[1..];
      [s[0]] + tail
  }

  lemma SortedTail<T>(s: seq<T>, le: (T, T) -> bool)
    requires |s| > 0 && SortedBy(s, le)
    ensures SortedBy(s[1..], le)
  {
    var t := s[1..];
    forall i, j | 0 <= i < j < |t| ensures le(t[i], t[j]) {
      assert t[i] == s[i + 1] && t[j] == s[j + 1];
    }
  }

  /** A head that comes before every element of a sorted tail keeps the whole sorted. */
  lemma ConsSorted<T(!new)>(h: T, t: seq<T>, le: (T, T) -> bool)
    requires TotalPreorder(le) && SortedBy(t, le)
    requires (|t| > 0 && le(h, t[0])) || forall k :: 0 <= k < |t| ==> le(h, t[k])
    ensures SortedBy([h] + t, le)
  {
    var s := [h] + t;
    forall i, j | 0 <= i < j < |s| ensures le(s[i], s[j]) {
      assert s[j] == t[j - 1];
      if i > 0 {
        assert s[i] == t[i - 1];
      } else if |t| > 0 && le(h, t[0]) && j > 1 {
        assert le(t[0], t[j - 1]);
      }
    }
  }

  function Sort<T(!new)>(s: seq<T>, le: (T, T) -> bool): (r: seq<T>)
    requires TotalPreorder(le)
    ensures SortedBy(r, le)
    ensures multiset(r) == multiset(s)
  {
    if |s| == 0 then []
    else
      assert s == [s[0]] + s[1..];
      Insert(s[0], Sort(s[1..], le), le)
  }

  /** "at most" in Python's string order. */
  predicate LexAtMost(a: string, b: string)
  {
    !Text.LexLess(b, a)
  }

  lemma LexAtMostIsTotalPreorder()
    ensures TotalPreorder(LexAtMost)
  {
    forall x, y ensures LexAtMost(x, y) || LexAtMost(y, x) {
      if x != y { Text.LexLessTotal(x, y); } else { Text.LexLessIrreflexive(x); }
      if Text.LexLess(x, y) && Text.LexLess(y, x) {
        Text.LexLessTransitive(x, y, x);
        Text.LexLessIrreflexive(x);
      }
    }
    forall x, y, z | LexAtMost(x, y) && LexAtMost(y, z) ensures LexAtMost(x, z) {
      if Text.LexLess(z, x) {
        if x == y {
        } else if y == z {
        } else {
          Text.LexLessTotal(x, y);
          Text.LexLessTotal(y, z);
          Text.LexLessTransitive(x, y, z);
        }
      }
    }
  }

  /** `sorted(keys)` for distinct strings: strictly increasing in Python's string order. */
  function SortStrings(s: seq<string>): (r: seq<string>)
    ensures multiset(r) == multiset(s)
    ensures forall i, j :: 0 <= i < j < |r| ==> !Text.LexLess(r[j], r[i])
  {
    LexAtMostIsTotalPreorder();
    Sort(s, LexAtMost)
  }

  ghost predicate Descending<T>(s: seq<T>, key: T -> real)
  {
    forall i, j :: 0 <= i < j < |s| ==> key(s[i]) >= key(s[j])
  }

  /** Insert x before the first element whose key is not larger than its own. */
  function InsertDescending<T>(x: T, s: seq<T>, key: T -> real): seq<T>
  {
    if |s| == 0 then [x]
    else if key(x) >= key(s[0]) then [x] + s
    else [s[0]] + InsertDescending(x, s[1..], key)
  }

  /** Descending by a real-valued key (`sort_values(..., ascending=False)`, `order by ... desc`). */
  function SortDescending<T>(s: seq<T>, key: T -> real): seq<T>
  {
    if |s| == 0 then [] else InsertDescending(s[0], SortDescending(s[1..], key), key)
  }

  lemma {:induction false} InsertDescendingPermutes<T>(x: T, s: seq<T>, key: T -> real)
    ensures multiset(InsertDescending(x, s, key)) == multiset(s) + multiset{x}
  {
    if |s| > 0 && key(x) < key(s[0]) {
      InsertDescendingPermutes(x, s[1..], key);
      assert s == [s[0]] + s[1..];
    }
  }

  lemma ConsDescending<T>(h: T, t: seq<T>, key: T -> real)
    requires Descending(t, key) && forall k :: 0 <= k < |t| ==> key(h) >= key(t[k])
    ensures Descending([h] + t, key)
  {
    var s := [h] + t;
    forall i, j | 0 <= i < j < |s| ensures key(s[i]) >= key(s[j]) {
      assert s[j] == t[j - 1];
      if i > 0 {
        assert s[i] == t[i - 1];
      }
    }
  }

  /** Inserting into a descending sequence keeps it descending. */
  lemma {:induction false} InsertDescendingSorted<T>(x: T, s: seq<T>, key: T -> real)
    requires Descending(s, key)
    ensures Descending(InsertDescending(x, s, key), key)
  {
    if |s| == 0 {
      assert InsertDescending(x, s, key) == [x];
    } else if key(x) >= key(s[0]) {
      ConsDescending(x, s, key);
    } else {
      var rest := s[1..];
      var tail := InsertDescending(x, rest, key);
      assert Descending(rest, key) by {
        forall i, j | 0 <= i < j < |rest| ensures key(rest[i]) >= key(rest[j]) {
          assert rest[i] == s[i + 1] && rest[j] == s[j + 1];
        }
      }
      InsertDescendingSorted(x, rest, key);
      InsertDescendingPermutes(x, rest, key);
      forall k | 0 <= k < |tail| ensures key(s[0]) >= key(tail[k]) {
        var y := tail[k];
        assert y in multiset(tail);
        if y != x {
          assert y in multiset(rest);
          var m :| 0 <= m < |rest| && rest[m] == y;
          assert s[m + 1] == y;
        }
      }
      ConsDescending(s[0], tail, key);
    }
  }

  /** The sort keeps every element, as often as it occurs. */
  lemma {:induction false} SortDescendingPermutes<T>(s: seq<T>, key: T -> real)
    ensures multiset(SortDescending(s, key)) == multiset(s)
  {
    if |s| > 0 {
      SortDescendingPermutes(s[1..], key);
      InsertDescendingPermutes(s[0], SortDescending(s[1..], key), key);
      assert s == [s[0]] + s[1..];
    }
  }

  /** The sort puts larger keys first. */
  lemma {:induction false} SortDescendingSorted<T>(s: seq<T>, key: T -> real)
    ensures Descending(SortDescending(s, key), key)
  {
    if |s| > 0 {
      SortDescendingSorted(s[1..], key);
      InsertDescendingSorted(s[0], SortDescending(s[1..], key), key);
    }
  }
}
