/** The stable two-way partition behind MoveIndexPagesToEnd: the elements
    without the flag, in their order, then the flagged ones, in theirs. */
module Partition {

  /** `s.Where(x => key(x) == flag)`. */
  function Select<T>(s: seq<T>, key: T -> bool, flag: bool): seq<T> {
    if s == [] then []
    else if key(s[0]) == flag then [s[0]] + Select(s[1..], key, flag)
    else Select(s[1..], key, flag)
  }

  /** Unflagged elements first, flagged elements after. */
  function Partitioned<T>(s: seq<T>, key: T -> bool): seq<T> {
    Select(s, key, false) + Select(s, key, true)
  }

  /** No flagged element precedes an unflagged one. */
  predicate FlaggedLast<T>(s: seq<T>, key: T -> bool) {
    forall i, j :: 0 <= i < j < |s| && key(s[i]) ==> key(s[j])
  }

  /** No element occurs twice: there are as many elements as positions. */
  predicate Distinct<T(==)>(s: seq<T>) {
    |set x | x in s| == |s|
  }

  /** A sequence holds at most as many elements as it has positions. */
  lemma {:induction false} ElementsBound<T>(s: seq<T>)
    ensures |set x | x in s| <= |s|
  {
    if s != [] {
      ElementsBound(s[1..]);
      ElementsOfCons(s);
    }
  }

  lemma ElementsOfCons<T>(s: seq<T>)
    requires s != []
    ensures (set x | x in s) == {s[0]} + (set x | x in s[1..])
  {
    assert s == [s[0]] + s[1..];
  }

  /** Distinctness one element at a time: the first one is not among the
      rest, and the rest are distinct. */
  lemma DistinctStep<T>(s: seq<T>)
    requires s != []
    ensures Distinct(s) <==> s[0] !in s[1..] && Distinct(s[1..])
  {
    ElementsOfCons(s);
    ElementsBound(s[1..]);
    if s[0] in s[1..] {
      assert {s[0]} + (set x | x in s[1..]) == set x | x in s[1..];
    }
  }

  /** A new element at the end keeps a sequence distinct. */
  lemma DistinctSnoc<T>(s: seq<T>, x: T)
    requires Distinct(s) && x !in s
    ensures Distinct(s + [x])
  {
    assert (set y | y in s + [x]) == (set y | y in s) + {x};
  }

  /** Distinctness is the absence of two positions holding the same element. */
  lemma {:induction false} DistinctPairs<T>(s: seq<T>)
    ensures Distinct(s) <==> forall i, j :: 0 <= i < j < |s| ==> s[i] != s[j]
  {
    if s != [] {
      var t := s[1..];
      DistinctPairs(t);
      DistinctStep(s);
      if Distinct(s) {
        forall i, j | 0 <= i < j < |s| ensures s[i] != s[j] {
          assert s[j] == t[j - 1];
          if i > 0 {
            assert s[i] == t[i - 1];
          }
        }
      }
      if forall i, j :: 0 <= i < j < |s| ==> s[i] != s[j] {
        forall k | 0 <= k < |t| ensures t[k] != s[0] {
          assert t[k] == s[k + 1];
        }
        forall i, j | 0 <= i < j < |t| ensures t[i] != t[j] {
          assert t[i] == s[i + 1] && t[j] == s[j + 1];
        }
      }
    }
  }

  /** In a distinct sequence no other position holds the element at `i`. */
  lemma DistinctOthers<T>(s: seq<T>, i: int)
    requires Distinct(s) && 0 <= i < |s|
    ensures forall k :: 0 <= k < |s| && k != i ==> s[k] != s[i]
  {
    DistinctPairs(s);
  }

  /** Two distinct sequences with no common element join into a distinct one. */
  lemma {:induction false} DistinctAppend<T>(a: seq<T>, b: seq<T>)
    requires Distinct(a) && Distinct(b)
    requires forall x :: x in a ==> x !in b
    ensures Distinct(a + b)
  {
    if a == [] {
      assert a + b == b;
    } else {
      assert (a + b)[1..] == a[1..] + b;
      DistinctStep(a);
      DistinctAppend(a[1..], b);
      assert a[0] !in a[1..] + b;
      DistinctStep(a + b);
    }
  }

  lemma {:induction false} SelectKeeps<T>(s: seq<T>, key: T -> bool, flag: bool)
    ensures forall k :: 0 <= k < |Select(s, key, flag)| ==>
      key(Select(s, key, flag)[k]) == flag && Select(s, key, flag)[k] in s
  {
    if s != [] {
      SelectKeeps(s[1..], key, flag);
      var r, t := Select(s, key, flag), Select(s[1..], key, flag);
      forall k | 0 <= k < |r| ensures key(r[k]) == flag && r[k] in s {
        if key(s[0]) != flag {
          assert r[k] == t[k];
        } else if k > 0 {
          assert r[k] == t[k - 1];
        }
      }
    }
  }

  lemma {:induction false} SelectAppend<T>(a: seq<T>, b: seq<T>, key: T -> bool, flag: bool)
    ensures Select(a + b, key, flag) == Select(a, key, flag) + Select(b, key, flag)
  {
    if a == [] {
      assert a + b == b;
    } else {
      assert (a + b)[1..] == a[1..] + b;
      SelectAppend(a[1..], b, key, flag);
    }
  }

  /** The two selections split the multiset of the input between them. */
  lemma {:induction false} SelectionsSplit<T>(s: seq<T>, key: T -> bool)
    ensures multiset(Select(s, key, false)) + multiset(Select(s, key, true)) == multiset(s)
  {
    if s != [] {
      SelectionsSplit(s[1..], key);
      assert s == [s[0]] + s[1..];
    }
  }

  /** The result is a permutation of the input, so of the same length. */
  lemma PartitionIsPermutation<T>(s: seq<T>, key: T -> bool)
    ensures multiset(Partitioned(s, key)) == multiset(s)
    ensures |Partitioned(s, key)| == |s|
  {
    SelectionsSplit(s, key);
    assert |multiset(Partitioned(s, key))| == |multiset(s)|;
  }

  /** The result holds exactly the elements of the input. */
  lemma PartitionSameElements<T>(s: seq<T>, key: T -> bool)
    ensures forall x :: x in Partitioned(s, key) <==> x in s
  {
    PartitionIsPermutation(s, key);
    forall x ensures x in Partitioned(s, key) <==> x in s {
      assert x in multiset(Partitioned(s, key)) <==> x in multiset(s);
    }
  }

  /** Every flagged element comes after every unflagged one. */
  lemma PartitionPutsFlaggedLast<T>(s: seq<T>, key: T -> bool)
    ensures FlaggedLast(Partitioned(s, key), key)
  {
    var others, flagged := Select(s, key, false), Select(s, key, true);
    SelectKeeps(s, key, false);
    SelectKeeps(s, key, true);
    var r := others + flagged;
    forall i, j | 0 <= i < j < |r| && key(r[i]) ensures key(r[j]) {
      if j >= |others| {
        assert r[j] == flagged[j - |others|];
      }
    }
  }

  /** Selecting one group from a selection of one group. */
  lemma {:induction false} SelectSelect<T>(s: seq<T>, key: T -> bool, flag: bool, other: bool)
    ensures Select(Select(s, key, flag), key, other) == if flag == other then Select(s, key, flag) else []
  {
    if s != [] {
      SelectSelect(s[1..], key, flag, other);
      if key(s[0]) == flag {
        assert Select(s, key, flag)[1..] == Select(s[1..], key, flag);
      }
    }
  }

  /** Stability: within each group the order of the input is kept. */
  lemma PartitionIsStable<T>(s: seq<T>, key: T -> bool)
    ensures Select(Partitioned(s, key), key, false) == Select(s, key, false)
    ensures Select(Partitioned(s, key), key, true) == Select(s, key, true)
  {
    var others, flagged := Select(s, key, false), Select(s, key, true);
    SelectAppend(others, flagged, key, false);
    SelectAppend(others, flagged, key, true);
    SelectSelect(s, key, false, false);
    SelectSelect(s, key, false, true);
    SelectSelect(s, key, true, false);
    SelectSelect(s, key, true, true);
    assert others + [] == others;
    assert [] + flagged == flagged;
  }

  /** A sequence whose flagged elements already come last is its own
      partition. */
  lemma {:induction false} PartitionOfFlaggedLast<T>(s: seq<T>, key: T -> bool)
    requires FlaggedLast(s, key)
    ensures Partitioned(s, key) == s
  {
    if s != [] {
      var t := s[1..];
      if key(s[0]) {
        FlaggedFromFirst(s, key);
        AllFlagged(s, key);
        assert [] + s == s;
      } else {
        FlaggedLastTail(s, key);
        PartitionOfFlaggedLast(t, key);
        assert Partitioned(s, key) == [s[0]] + Select(t, key, false) + Select(t, key, true);
        assert [s[0]] + Select(t, key, false) + Select(t, key, true) == [s[0]] + Partitioned(t, key);
        assert s == [s[0]] + t;
      }
    }
  }

  /** Once the first element is flagged, all of them are. */
  lemma FlaggedFromFirst<T>(s: seq<T>, key: T -> bool)
    requires s != [] && FlaggedLast(s, key) && key(s[0])
    ensures forall j :: 0 <= j < |s| ==> key(s[j])
  {
    forall j | 0 < j < |s| ensures key(s[j]) {
      assert key(s[0]) ==> key(s[j]);
    }
  }

  /** The tail of a sequence with its flagged elements last has them last too. */
  lemma FlaggedLastTail<T>(s: seq<T>, key: T -> bool)
    requires s != [] && FlaggedLast(s, key)
    ensures FlaggedLast(s[1..], key)
  {
    forall i, j | 0 <= i < j < |s[1..]| && key(s[1..][i]) ensures key(s[1..][j]) {
      assert s[1..][i] == s[i + 1] && s[1..][j] == s[j + 1];
    }
  }

  /** A sequence of flagged elements only has no unflagged selection. */
  lemma {:induction false} AllFlagged<T>(s: seq<T>, key: T -> bool)
    requires forall j :: 0 <= j < |s| ==> key(s[j])
    ensures Select(s, key, false) == [] && Select(s, key, true) == s
  {
    if s != [] {
      AllFlagged(s[1..], key);
      assert s == [s[0]] + s[1..];
    }
  }

  /** Applying the partition twice is applying it once. */
  lemma PartitionIdempotent<T>(s: seq<T>, key: T -> bool)
    ensures Partitioned(Partitioned(s, key), key) == Partitioned(s, key)
  {
    PartitionPutsFlaggedLast(s, key);
    PartitionOfFlaggedLast(Partitioned(s, key), key);
  }

  lemma {:induction false} SelectDistinct<T>(s: seq<T>, key: T -> bool, flag: bool)
    requires Distinct(s)
    ensures Distinct(Select(s, key, flag))
    ensures forall x :: x in Select(s, key, flag) ==> x in s && key(x) == flag
  {
    if s != [] {
      DistinctStep(s);
      SelectDistinct(s[1..], key, flag);
      var t := Select(s[1..], key, flag);
      if key(s[0]) == flag {
        var r := [s[0]] + t;
        assert r[1..] == t;
        DistinctStep(r);
      }
    }
  }

  /** The partition of distinct elements is distinct: no page is listed twice. */
  lemma PartitionDistinct<T>(s: seq<T>, key: T -> bool)
    requires Distinct(s)
    ensures Distinct(Partitioned(s, key))
  {
    SelectDistinct(s, key, false);
    SelectDistinct(s, key, true);
    DistinctAppend(Select(s, key, false), Select(s, key, true));
  }
}
