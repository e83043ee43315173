/** Stable sorting by a pair of coordinates, as std::stable_sort leaves a vector. */
module Sorting {
  type Key = (real, real)

  /** Lexicographic order, the order of std::pair. */
  predicate Less(a: Key, b: Key) { a.0 < b.0 || (a.0 == b.0 && a.1 < b.1) }

  function Insert<T>(x: T, s: seq<T>, key: T -> Key): seq<T> {
    if s == [] || !Less(key(s[0]), key(x)) then [x] + s else [s[0]] + Insert(x, s[1..], key)
  }

  function Sorted<T>(s: seq<T>, key: T -> Key): seq<T> {
    if s == [] then [] else Insert(s[0], Sorted(s[1..], key), key)
  }

  ghost predicate Ascends<T>(s: seq<T>, key: T -> Key) {
    forall i, j :: 0 <= i < j < |s| ==> !Less(key(s[j]), key(s[i]))
  }

  ghost function Ties<T>(s: seq<T>, key: T -> Key, k: Key): seq<T> {
    if s == [] then [] else (if key(s[0]) == k then [s[0]] else []) + Ties(s[1..], key, k)
  }

  lemma {:induction false} InsertPermutes<T>(x: T, s: seq<T>, key: T -> Key)
    ensures multiset(Insert(x, s, key)) == multiset{x} + multiset(s)
  {
    if s != [] && Less(key(s[0]), key(x)) {
      InsertPermutes(x, s[1..], key);
      assert s == [s[0]] + s[1..];
    }
  }

  lemma {:induction false} SortedPermutes<T>(s: seq<T>, key: T -> Key)
    ensures multiset(Sorted(s, key)) == multiset(s)
    ensures |Sorted(s, key)| == |s|
  {
    if s != [] {
      SortedPermutes(s[1..], key);
      InsertPermutes(s[0], Sorted(s[1..], key), key);
      assert s == [s[0]] + s[1..];
    }
    assert |multiset(Sorted(s, key))| == |multiset(s)|;
  }

  lemma MembersAgree<T>(s: seq<T>, t: seq<T>, x: T)
    requires multiset(s) == multiset(t)
    ensures x in s <==> x in t
  {
    assert x in s <==> x in multiset(s);
    assert x in t <==> x in multiset(t);
  }

  lemma {:induction false} InsertAscends<T>(x: T, s: seq<T>, key: T -> Key)
    requires Ascends(s, key)
    ensures Ascends(Insert(x, s, key), key)
  {
    if s != [] && Less(key(s[0]), key(x)) {
      InsertAscends(x, s[1..], key);
      InsertPermutes(x, s[1..], key);
      var r := Insert(x, s[1..], key);
      forall j | 0 <= j < |r| ensures !Less(key(r[j]), key(s[0])) {
        assert r[j] in multiset(r);
        assert r[j] == x || r[j] in s[1..];
      }
    } else {
      forall j | 0 <= j < |s| ensures !Less(key(s[j]), key(x)) {
        assert j > 0 ==> !Less(key(s[j]), key(s[0]));
      }
    }
  }

  lemma {:induction false} SortedAscends<T>(s: seq<T>, key: T -> Key)
    ensures Ascends(Sorted(s, key), key)
  {
    if s != [] {
      SortedAscends(s[1..], key);
      InsertAscends(s[0], Sorted(s[1..], key), key);
    }
  }

  lemma {:induction false} InsertLeads<T>(x: T, s: seq<T>, key: T -> Key, k: Key)
    requires Ascends(s, key)
    ensures Ties(Insert(x, s, key), key, k) == (if key(x) == k then [x] else []) + Ties(s, key, k)
  {
    var r := Insert(x, s, key);
    if s != [] && Less(key(s[0]), key(x)) {
      InsertLeads(x, s[1..], key, k);
      assert r[1..] == Insert(x, s[1..], key);
    } else {
      assert r[1..] == s;
    }
  }

  /** Elements with the same key keep their input order. */
  lemma {:induction false} SortedKeepsTies<T>(s: seq<T>, key: T -> Key, k: Key)
    ensures Ties(Sorted(s, key), key, k) == Ties(s, key, k)
  {
    if s != [] {
      SortedKeepsTies(s[1..], key, k);
      SortedAscends(s[1..], key);
      InsertLeads(s[0], Sorted(s[1..], key), key, k);
    }
  }

  // ----- Sorting the two sides of a cut apart sorts the whole.

  function Side<T>(s: seq<T>, key: T -> Key, at: real, before: bool): seq<T> {
    if s == [] then []
    else (if (key(s[0]).0 <= at) == before then [s[0]] else []) + Side(s[1..], key, at, before)
  }

  lemma {:induction false} SideIs<T>(s: seq<T>, key: T -> Key, at: real, before: bool)
    ensures forall x :: x in Side(s, key, at, before) <==> x in s && (key(x).0 <= at) == before
  {
    if s != [] {
      SideIs(s[1..], key, at, before);
      assert s == [s[0]] + s[1..];
    }
  }

  lemma SideStep<T>(s: seq<T>, head: T, rest: seq<T>, key: T -> Key, at: real, before: bool)
    requires s == [head] + rest
    ensures Side(s, key, at, before) == (if (key(head).0 <= at) == before then [head] else []) + Side(rest, key, at, before)
  {
    assert s[1..] == rest;
  }

  lemma {:induction false} SideGrows<T>(s: seq<T>, x: T, key: T -> Key, at: real, before: bool)
    ensures Side(s + [x], key, at, before) == Side(s, key, at, before) + (if (key(x).0 <= at) == before then [x] else [])
  {
    if s == [] {
      SideStep(s + [x], x, [], key, at, before);
    } else {
      SideGrows(s[1..], x, key, at, before);
      assert s + [x] == [s[0]] + (s[1..] + [x]);
      SideStep(s + [x], s[0], s[1..] + [x], key, at, before);
      SideStep(s, s[0], s[1..], key, at, before);
      hide Side;
    }
  }

  lemma {:induction false} SidesPermute<T>(s: seq<T>, key: T -> Key, at: real)
    ensures multiset(Side(s, key, at, true)) + multiset(Side(s, key, at, false)) == multiset(s)
    ensures |Side(s, key, at, true)| + |Side(s, key, at, false)| == |s|
  {
    if s != [] {
      SidesPermute(s[1..], key, at);
      assert s == [s[0]] + s[1..];
    }
  }

  lemma {:induction false} InsertLow<T>(x: T, low: seq<T>, high: seq<T>, key: T -> Key)
    requires forall y :: y in high ==> !Less(key(y), key(x))
    ensures Insert(x, low + high, key) == Insert(x, low, key) + high
  {
    var s := low + high;
    if low == [] {
      assert s == high;
    } else if Less(key(low[0]), key(x)) {
      assert s[1..] == low[1..] + high;
      InsertLow(x, low[1..], high, key);
    }
  }

  lemma {:induction false} InsertHigh<T>(x: T, low: seq<T>, high: seq<T>, key: T -> Key)
    requires forall y :: y in low ==> Less(key(y), key(x))
    ensures Insert(x, low + high, key) == low + Insert(x, high, key)
  {
    var s := low + high;
    if low == [] {
      assert s == high;
    } else {
      assert s[1..] == low[1..] + high;
      InsertHigh(x, low[1..], high, key);
    }
  }

  lemma {:induction false} SortedBySides<T>(s: seq<T>, key: T -> Key, at: real)
    ensures Sorted(s, key) == Sorted(Side(s, key, at, true), key) + Sorted(Side(s, key, at, false), key)
  {
    if s != [] {
      var x, rest := s[0], s[1..];
      SortedBySides(rest, key, at);
      var low, high := Sorted(Side(rest, key, at, true), key), Sorted(Side(rest, key, at, false), key);
      SortedPermutes(Side(rest, key, at, true), key);
      SortedPermutes(Side(rest, key, at, false), key);
      SideIs(rest, key, at, true);
      SideIs(rest, key, at, false);
      if key(x).0 <= at {
        forall y | y in high ensures !Less(key(y), key(x)) { MembersAgree(high, Side(rest, key, at, false), y); }
        InsertLow(x, low, high, key);
        assert Side(s, key, at, true) == [x] + Side(rest, key, at, true);
        assert Side(s, key, at, false) == Side(rest, key, at, false);
      } else {
        forall y | y in low ensures Less(key(y), key(x)) { MembersAgree(low, Side(rest, key, at, true), y); }
        InsertHigh(x, low, high, key);
        assert Side(s, key, at, false) == [x] + Side(rest, key, at, false);
        assert Side(s, key, at, true) == Side(rest, key, at, true);
      }
    }
  }

  /** A finite set of numbers has a least one. */
  lemma {:induction false} LeastOf(keys: set<int>) returns (least: int)
    requires keys != {}
    ensures least in keys && forall k :: k in keys ==> least <= k
    decreases |keys|
  {
    least := SomeOf(keys);
    var rest := keys - {least};
    if rest != {} {
      var other := LeastOf(rest);
      forall x | x in keys ensures x == least || x in rest {
      }
      if other < least { least := other; }
    } else {
      assert keys <= {least};
    }
  }

  lemma SomeOf(keys: set<int>) returns (k: int)
    requires keys != {}
    ensures k in keys
  {
    assert (forall x :: x !in keys) ==> keys == {};
    k :| k in keys;
  }
}
