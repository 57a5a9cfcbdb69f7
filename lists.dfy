/** The java.util.List operations the framework code relies on, on sequences. */
module Lists {
  import opened Wrappers

  /** No element occurs twice: what a list of fresh binder tokens or of distinct objects keeps. */
  predicate NoDuplicates<T(==)>(s: seq<T>)
  {
    forall i, j | 0 <= i < j < |s| :: s[i] != s[j]
  }

  /** ArrayList.remove(Object): drops the first occurrence, if there is one. */
  function RemoveFirst<T(==)>(s: seq<T>, x: T): (t: seq<T>)
    ensures x !in s ==> t == s
    ensures x in s ==> |t| == |s| - 1
    ensures forall y | y in t :: y in s
  {
    if s == [] then []
    else if s[0] == x then s[1..]
    else [s[0]] + RemoveFirst(s[1..], x)
  }

  /** Removing the first occurrence is cutting it out at its position. */
  lemma {:induction false} RemoveFirstAt<T>(s: seq<T>, k: int)
    requires 0 <= k < |s| && s[k] !in s[..k]
    ensures RemoveFirst(s, s[k]) == s[..k] + s[k + 1..]
  {
    if k > 0 {
      assert s[1..][k - 1] == s[k];
      assert s[..k] == [s[0]] + s[1..][..k - 1];
      RemoveFirstAt(s[1..], k - 1);
      assert s[1..][k..] == s[k + 1..];
    }
  }

  /** Removing one element keeps every other element that was there, and adds none. */
  lemma {:induction false} RemoveFirstKeepsOthers<T>(s: seq<T>, x: T, y: T)
    requires y != x
    ensures y in RemoveFirst(s, x) <==> y in s
  {
    if s != [] && s[0] != x {
      RemoveFirstKeepsOthers(s[1..], x, y);
      assert s == [s[0]] + s[1..];
    }
  }

  /** ArrayList.add(int, Object): IndexOutOfBoundsException unless 0 <= index <= size. */
  function InsertAt<T>(s: seq<T>, index: int, x: T): (r: Result<seq<T>, Exception>)
    ensures r.Failure? <==> index < 0 || |s| < index
    ensures r.Failure? ==> r.error == IndexOutOfBoundsException
    ensures r.Success? ==> |r.value| == |s| + 1 && r.value[index] == x
    ensures r.Success? ==> r.value[..index] == s[..index] && r.value[index + 1..] == s[index..]
  {
    if index < 0 || |s| < index then Failure(IndexOutOfBoundsException)
    else Success(s[..index] + [x] + s[index..])
  }

  lemma RemoveFirstOfNoDuplicates<T>(s: seq<T>, k: int)
    requires NoDuplicates(s) && 0 <= k < |s|
    ensures RemoveFirst(s, s[k]) == s[..k] + s[k + 1..]
    ensures NoDuplicates(RemoveFirst(s, s[k]))
  {
    assert s[k] !in s[..k];
    RemoveFirstAt(s, k);
  }

  lemma RemoveFirstKeepsNoDuplicates<T>(s: seq<T>, x: T)
    requires NoDuplicates(s)
    ensures NoDuplicates(RemoveFirst(s, x)) && x !in RemoveFirst(s, x)
  {
    if x in s {
      var k :| 0 <= k < |s| && s[k] == x;
      RemoveFirstOfNoDuplicates(s, k);
      forall j | 0 <= j < |s| && j != k
        ensures s[j] != x
      {
        if j < k { assert s[j] != s[k]; } else { assert s[k] != s[j]; }
      }
      assert x !in s[..k] + s[k + 1..];
    }
  }

  lemma InsertKeepsNoDuplicates<T>(s: seq<T>, index: int, x: T)
    requires NoDuplicates(s) && x !in s && 0 <= index <= |s|
    ensures NoDuplicates(s[..index] + [x] + s[index..])
  {
    var t := s[..index] + [x] + s[index..];
    forall i, j | 0 <= i < j < |t|
      ensures t[i] != t[j]
    {
      if i != index && j != index {
        var i' := if i < index then i else i - 1;
        var j' := if j < index then j else j - 1;
        assert t[i] == s[i'] && t[j] == s[j'];
      } else if i == index {
        assert t[j] == s[j - 1];
      } else {
        assert t[i] == s[i];
      }
    }
  }

  /** Cutting out an element that was inserted where it was absent gives back the original. */
  lemma RemoveInserted<T>(s: seq<T>, index: int, x: T)
    requires x !in s && 0 <= index <= |s|
    ensures RemoveFirst(s[..index] + [x] + s[index..], x) == s
  {
    var t := s[..index] + [x] + s[index..];
    assert t[index] == x && t[..index] == s[..index];
    RemoveFirstAt(t, index);
    assert t[index + 1..] == s[index..];
    assert s[..index] + s[index..] == s;
  }

  /** The elements of s not in gone, in order: what removing each of them one by one leaves. */
  function Without<T>(s: seq<T>, gone: set<T>): (r: seq<T>)
    ensures |r| <= |s|
    ensures forall x | x in r :: x in s && x !in gone
    ensures forall x | x in s && x !in gone :: x in r
  {
    if s == [] then []
    else (if s[0] in gone then [] else [s[0]]) + Without(s[1..], gone)
  }

  /** Removing one more element that occurs once is taking it out of the filter too. */
  lemma {:induction false} RemoveFirstWithout<T>(s: seq<T>, gone: set<T>, x: T)
    requires NoDuplicates(s) && x in s && x !in gone
    ensures RemoveFirst(Without(s, gone), x) == Without(s, gone + {x})
  {
    var rest := s[1..];
    assert s == [s[0]] + rest;
    if s[0] == x {
      assert x !in rest by {
        forall j | 0 <= j < |rest|
          ensures rest[j] != x
        {
          assert s[0] != s[j + 1];
        }
      }
      WithoutAbsent(rest, gone, x);
      assert Without(s, gone) == [x] + Without(rest, gone);
      assert Without(s, gone + {x}) == Without(rest, gone + {x});
    } else {
      assert x in rest;
      assert NoDuplicates(rest) by {
        forall i, j | 0 <= i < j < |rest|
          ensures rest[i] != rest[j]
        {
          assert s[i + 1] != s[j + 1];
        }
      }
      RemoveFirstWithout(rest, gone, x);
      if s[0] in gone {
        assert Without(s, gone) == Without(rest, gone);
        assert Without(s, gone + {x}) == Without(rest, gone + {x});
      } else {
        var w := Without(s, gone);
        assert w == [s[0]] + Without(rest, gone);
        assert w[0] == s[0] && w[1..] == Without(rest, gone);
        assert RemoveFirst(w, x) == [s[0]] + RemoveFirst(Without(rest, gone), x);
        assert Without(s, gone + {x}) == [s[0]] + Without(rest, gone + {x});
      }
    }
  }

  /** Filtering out an element that is not there changes nothing. */
  lemma {:induction false} WithoutAbsent<T>(s: seq<T>, gone: set<T>, x: T)
    requires x !in s
    ensures Without(s, gone + {x}) == Without(s, gone)
  {
    if s != [] {
      WithoutAbsent(s[1..], gone, x);
    }
  }

  /** Filtering out nothing keeps the sequence. */
  lemma {:induction false} WithoutNothing<T>(s: seq<T>)
    ensures Without(s, {}) == s
  {
    if s != [] {
      WithoutNothing(s[1..]);
      assert s == [s[0]] + s[1..];
    }
  }

  /** A non-empty set has a member; it serves as the witness when a loop picks one. */
  lemma SomeMember<T>(left: set<T>) returns (k: T)
    requires left != {}
    ensures k in left
  {
    if forall x :: x !in left {
      assert false;
    }
    k :| k in left;
  }

  /** A non-empty finite set of integers has a least member. */
  lemma LeastMember(s: set<int>) returns (m: int)
    requires s != {}
    ensures m in s && forall j | j in s :: m <= j
    decreases |s|
  {
    var x := SomeMember(s);
    if s == {x} {
      m := x;
    } else {
      var rest := LeastMember(s - {x});
      m := if x < rest then x else rest;
      forall j | j in s
        ensures m <= j
      {
        if j != x {
          assert j in s - {x};
        }
      }
    }
  }

  /** Removing a present element leaves nothing exactly when it was the only element. */
  lemma RemoveFirstEmpty<T>(s: seq<T>, x: T)
    requires x in s
    ensures RemoveFirst(s, x) == [] <==> s == [x]
  {
    if s[0] == x {
      assert RemoveFirst(s, x) == s[1..];
      assert s == [x] + s[1..];
    }
  }

  /** Inserting at position 0 is prepending. */
  lemma InsertAtFront<T>(s: seq<T>, x: T)
    ensures s[..0] + [x] + s[0..] == [x] + s
  {
    assert s[..0] == [] && s[0..] == s;
  }
}
