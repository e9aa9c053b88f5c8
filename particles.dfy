/**
 * The observer list of a particle (src/particle.cpp): cells subscribe to a particle so that it can
 * tell them when it joins or leaves a cell. The observer type is a parameter; the cells use
 * nullable cell references.
 */
module Particles {
  import opened Wrappers

  /** `s` with every occurrence of `x` removed; the other entries keep their order. */
  function Without<T(==)>(s: seq<T>, x: T): (r: seq<T>)
    ensures x !in r
    ensures |r| <= |s|
  {
    if s == [] then []
    else if s[0] == x then Without(s[1..], x)
    else [s[0]] + Without(s[1..], x)
  }

  /** Exactly the entries different from `x` survive. */
  lemma {:induction false} WithoutMembers<T>(s: seq<T>, x: T)
    ensures forall i :: 0 <= i < |Without(s, x)| ==> Without(s, x)[i] in s
    ensures forall i :: 0 <= i < |s| && s[i] != x ==> s[i] in Without(s, x)
    decreases |s|
  {
    if s != [] {
      WithoutMembers(s[1..], x);
      assert forall i :: 1 <= i < |s| ==> s[i] == s[1..][i - 1];
    }
  }

  /** `a` can be obtained from `b` by deleting entries. */
  ghost predicate Subsequence<T>(a: seq<T>, b: seq<T>)
    decreases |b|
  {
    a == [] || (b != [] && ((a[0] == b[0] && Subsequence(a[1..], b[1..])) || Subsequence(a, b[1..])))
  }

  lemma {:induction false} WithoutIsSubsequence<T>(s: seq<T>, x: T)
    ensures Subsequence(Without(s, x), s)
    decreases |s|
  {
    if s != [] {
      WithoutIsSubsequence(s[1..], x);
      if s[0] != x {
        assert Without(s, x)[1..] == Without(s[1..], x);
      }
    }
  }

  /** Removing an observer that is not in the list is a silent no-op. */
  lemma {:induction false} WithoutAbsent<T>(s: seq<T>, x: T)
    requires x !in s
    ensures Without(s, x) == s
    decreases |s|
  {
    if s != [] {
      assert s[0] != x;
      WithoutAbsent(s[1..], x);
      assert [s[0]] + s[1..] == s;
    }
  }

  /** Every entry other than `x` keeps its number of occurrences. */
  lemma {:induction false} WithoutCounts<T>(s: seq<T>, x: T)
    ensures multiset(Without(s, x))[x] == 0
    ensures forall y :: y != x ==> multiset(Without(s, x))[y] == multiset(s)[y]
    decreases |s|
  {
    if s != [] {
      WithoutCounts(s[1..], x);
      assert s == [s[0]] + s[1..];
      assert multiset(s) == multiset{s[0]} + multiset(s[1..]);
    }
  }

  lemma WithoutStep<T>(s: seq<T>, i: nat, x: T)
    requires i < |s|
    ensures Without(s[i..], x) == if s[i] == x then Without(s[i + 1..], x) else [s[i]] + Without(s[i + 1..], x)
  {
    assert s[i..][0] == s[i];
    assert s[i..][1..] == s[i + 1..];
  }

  lemma RemoveAtKeepsPrefix<T>(s: seq<T>, i: nat)
    requires i < |s|
    ensures (s[..i] + s[i + 1..])[..i] == s[..i]
    ensures (s[..i] + s[i + 1..])[i..] == s[i + 1..]
  {
  }

  /**
   * The erase loop of removeObserver as written: after `erase(it)` the loop still executes
   * `it++`, so on a contiguous vector the entry that moved into the erased place is skipped,
   * and when the erased entry was the last one the iterator is moved past the end
   * (undefined behaviour, here None).
   */
  function EraseAsWritten<T(==)>(s: seq<T>, x: T): (r: Option<seq<T>>)
    decreases |s|
  {
    if s == [] then Some([])
    else if s[0] != x then
      match EraseAsWritten(s[1..], x)
      case None => None
      case Some(t) => Some([s[0]] + t)
    else if |s| == 1 then None
    else
      match EraseAsWritten(s[2..], x)
      case None => None
      case Some(t) => Some([s[1]] + t)
  }

  /** Two inputs on which the loop as written does not remove every occurrence. */
  lemma EraseAsWrittenCounterexamples(x: int, y: int)
    requires x != y
    ensures EraseAsWritten([x], x) == None
    ensures EraseAsWritten([x, x, y], x) == Some([x, y]) && x in [x, y]
    ensures Without([x, x, y], x) == [y]
  {
    var s := [x, x, y];
    assert s[1..] == [x, y] && s[2..] == [y];
    assert [y][1..] == [];
    assert EraseAsWritten([], x) == Some([]);
    assert EraseAsWritten([y], x) == Some([y] + []);
    assert [y] + [] == [y];
    assert s[0] == x && |s| == 3 && s[1] == x;
    assert EraseAsWritten(s, x) == Some([s[1]] + [y]);
    assert [s[1]] + [y] == [x, y];
    assert [x, y][1..] == [y];
    assert Without([y], x) == [y];
    assert Without([x, y], x) == [y];
  }

  /**
   * The erase loop of removeObserver and of a cell's LEAVE branch as intended: an erased entry is
   * not followed by an increment, so every entry is examined once.
   */
  method EraseAll<T(==)>(s: seq<T>, x: T) returns (r: seq<T>)
    ensures r == Without(s, x)
  {
    r := s;
    var i := 0;
    while i < |r|
      invariant 0 <= i <= |r|
      invariant r[..i] + Without(r[i..], x) == Without(s, x)
      decreases |r| - i
    {
      WithoutStep(r, i, x);
      if r[i] == x {
        RemoveAtKeepsPrefix(r, i);
        r := r[..i] + r[i + 1..];
      } else {
        assert r[..i + 1] == r[..i] + [r[i]];
        i := i + 1;
      }
    }
    assert r[i..] == [];
    assert r[..i] == r;
  }

  /** Adds `x` at the end unless it is already there (isObserver, then addObserver). */
  function Subscribe<T(==)>(s: seq<T>, x: T): (r: seq<T>)
    ensures x in r
  {
    if x in s then s else s + [x]
  }

  /** Subscribes the entries of `xs` one after the other. */
  function SubscribeAll<T(==)>(s: seq<T>, xs: seq<T>): seq<T>
    decreases |xs|
  {
    if xs == [] then s else Subscribe(SubscribeAll(s, xs[..|xs| - 1]), xs[|xs| - 1])
  }

  ghost predicate NoDuplicates<T>(s: seq<T>)
  {
    forall i, j :: 0 <= i < j < |s| ==> s[i] != s[j]
  }

  /**
   * Subscribing keeps the old list as a prefix, adds every entry of `xs`, adds nothing else and
   * never creates a duplicate.
   */
  lemma {:induction false} SubscribeAllSpec<T>(s: seq<T>, xs: seq<T>)
    ensures |s| <= |SubscribeAll(s, xs)| <= |s| + |xs|
    ensures SubscribeAll(s, xs)[..|s|] == s
    ensures forall j :: 0 <= j < |xs| ==> xs[j] in SubscribeAll(s, xs)
    ensures forall y :: y in SubscribeAll(s, xs) ==> y in s || y in xs
    ensures NoDuplicates(s) ==> NoDuplicates(SubscribeAll(s, xs))
    decreases |xs|
  {
    if xs != [] {
      var init := xs[..|xs| - 1];
      var last := xs[|xs| - 1];
      SubscribeAllSpec(s, init);
      var t := SubscribeAll(s, init);
      assert SubscribeAll(s, xs) == Subscribe(t, last);
      assert forall j :: 0 <= j < |xs| - 1 ==> xs[j] == init[j];
      if last !in t {
        assert (t + [last])[..|s|] == t[..|s|];
      }
      forall y | y in SubscribeAll(s, xs)
        ensures y in s || y in xs
      {
        if y in t {
          assert y in s || y in init;
          if y in init {
            var j :| 0 <= j < |init| && init[j] == y;
            assert xs[j] == y;
          }
        } else {
          assert y == last;
        }
      }
    }
  }

  /** A particle as the subject of the observer pattern: it keeps the list of its observers. */
  class Particle<O(==)> {
    var observers: seq<O>

    constructor()
      ensures observers == []
    {
      observers := [];
    }

    /** Appends `o` at the end of the list; an observer already present is added again. */
    method AddObserver(o: O)
      modifies this`observers
      ensures observers == old(observers) + [o]
    {
      observers := observers + [o];
    }

    /** Removes every occurrence of `o`, keeping the other observers in order. */
    method RemoveObserver(o: O)
      modifies this`observers
      ensures observers == Without(old(observers), o)
    {
      observers := EraseAll(observers, o);
    }

    /** Linear search of the list; it changes nothing. */
    method IsObserver(o: O) returns (found: bool)
      ensures found <==> o in observers
    {
      found := false;
      for i := 0 to |observers|
        invariant found <==> o in observers[..i]
      {
        assert observers[..i + 1] == observers[..i] + [observers[i]];
        if observers[i] == o {
          found := true;
        }
      }
      assert observers[..|observers|] == observers;
    }
  }
}
