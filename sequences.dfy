/** Option and Result, and the few list operations the timetable code
    leans on (`findIndex`, `splice`, `[...new Set(xs)]`). */
module Wrappers {

  datatype Option<+T> = None | Some(value: T)

  datatype Result<+T, +E> = Success(value: T) | Failure(error: E)
}

module Sequences {

  predicate NoDuplicates<T(==)>(s: seq<T>) {
    forall i, j :: 0 <= i < j < |s| ==> s[i] != s[j]
  }

  lemma ShiftFirst<T>(a: seq<T>, b: seq<T>)
    requires b != []
    ensures (a + [b[0]]) + b[1..] == a + b
  {}

  lemma HeadTail<T>(s: seq<T>)
    requires s != []
    ensures s == [s[0]] + s[1..]
    ensures forall y :: y in s <==> y == s[0] || y in s[1..]
  {
    assert s == [s[0]] + s[1..];
  }

  lemma AppendFresh<T>(s: seq<T>, x: T)
    requires NoDuplicates(s) && x !in s
    ensures NoDuplicates(s + [x])
  {
    var r := s + [x];
    forall i, j | 0 <= i < j < |r| ensures r[i] != r[j] {
      assert r[i] == s[i];
      if j == |s| {
        assert s[i] in s;
      } else {
        assert r[j] == s[j];
      }
    }
  }

  lemma HeadThenAppend<T>(s: seq<T>, y: T)
    requires s != []
    ensures [s[0]] + (s[1..] + [y]) == s + [y]
  {
    assert s == [s[0]] + s[1..];
  }

  lemma Assoc<T>(a: seq<T>, b: seq<T>, c: seq<T>)
    ensures a + (b + c) == (a + b) + c
  {}

  lemma InitLast<T>(s: seq<T>)
    requires s != []
    ensures s[..|s| - 1] + [s[|s| - 1]] == s
  {}

  /** `Array.prototype.findIndex`: the first position whose element
      satisfies `p`, or -1 when there is none. */
  function FirstIndex<T>(s: seq<T>, p: T -> bool): (i: int)
    ensures -1 <= i < |s|
    ensures 0 <= i ==> p(s[i]) && forall j :: 0 <= j < i ==> !p(s[j])
    ensures i == -1 ==> forall j :: 0 <= j < |s| ==> !p(s[j])
  {
    if s == [] then -1
    else if p(s[0]) then 0
    else
      var k := FirstIndex(s[1..], p);
      if k < 0 then -1 else k + 1
  }

  /** `xs.splice(index, 1)` for a non-negative index: removes the element
      at `index`, and does nothing when `index` is past the end. */
  function RemoveAt<T>(s: seq<T>, index: nat): (r: seq<T>)
    ensures index < |s| ==> |r| == |s| - 1
    ensures index < |s| ==> forall j :: 0 <= j < |r| ==> r[j] == if j < index then s[j] else s[j + 1]
    ensures index >= |s| ==> r == s
  {
    if index < |s| then s[..index] + s[index + 1..] else s
  }

  /** `[...new Set(s)]`: the elements of `s` in order of first occurrence. */
  function Dedupe<T(==)>(s: seq<T>): seq<T>
  {
    if s == [] then []
    else
      var r := Dedupe(s[..|s| - 1]);
      if s[|s| - 1] in r then r else r + [s[|s| - 1]]
  }

  lemma {:induction false} DedupeMembers<T>(s: seq<T>)
    ensures NoDuplicates(Dedupe(s))
    ensures forall x :: x in Dedupe(s) <==> x in s
  {
    if s != [] {
      DedupeMembers(s[..|s| - 1]);
      assert s == s[..|s| - 1] + [s[|s| - 1]];
    }
  }

  /** The position of the first occurrence of `y` in `s`, or `|s|` when
      `y` does not occur. */
  function FirstPos<T(==)>(s: seq<T>, y: T): (r: nat)
    ensures r <= |s|
    ensures r < |s| ==> s[r] == y
    ensures forall k :: 0 <= k < r ==> s[k] != y
    ensures r == |s| <==> y !in s
  {
    if s == [] then 0
    else if s[0] == y then 0
    else 1 + FirstPos(s[1..], y)
  }

  lemma FirstPosAppend<T>(s: seq<T>, x: T, y: T)
    ensures y in s ==> FirstPos(s + [x], y) == FirstPos(s, y)
    ensures y !in s && y == x ==> FirstPos(s + [x], y) == |s|
  {
    var i, r := FirstPos(s, y), FirstPos(s + [x], y);
    if y in s {
      assert (s + [x])[i] == y;
      forall k | 0 <= k < i ensures (s + [x])[k] != y {
        assert (s + [x])[k] == s[k];
      }
    } else if y == x {
      forall k | 0 <= k < |s| ensures (s + [x])[k] != y {
        assert (s + [x])[k] == s[k];
      }
    }
  }

  /** `[...new Set(s)]` lists the distinct elements in the order of their
      first occurrence in `s`. */
  lemma {:induction false} DedupeOrder<T>(s: seq<T>)
    ensures forall i, j :: 0 <= i < j < |Dedupe(s)| ==> FirstPos(s, Dedupe(s)[i]) < FirstPos(s, Dedupe(s)[j])
  {
    if s != [] {
      var init, x := s[..|s| - 1], s[|s| - 1];
      var d, r := Dedupe(init), Dedupe(s);
      DedupeOrder(init);
      DedupeMembers(init);
      assert s == init + [x];
      assert r == if x in d then d else d + [x];
      forall i, j | 0 <= i < j < |r| ensures FirstPos(s, r[i]) < FirstPos(s, r[j]) {
        assert r[i] == d[i] && d[i] in d;
        DedupeSubset(init, d[i]);
        FirstPosAppend(init, x, r[i]);
        assert FirstPos(s, r[i]) == FirstPos(init, d[i]) < |init|;
        if j < |d| {
          assert r[j] == d[j] && d[j] in d;
          DedupeSubset(init, d[j]);
          FirstPosAppend(init, x, r[j]);
          assert FirstPos(s, r[j]) == FirstPos(init, d[j]);
        } else {
          assert r[j] == x && x !in init;
          FirstPosAppend(init, x, x);
          assert FirstPos(s, r[j]) == |init|;
        }
      }
    }
  }

  lemma DedupeSubset<T>(s: seq<T>, y: T)
    requires y in Dedupe(s)
    ensures y in s
  {
    DedupeMembers(s);
  }

  /** Deduplicating `a + b` never reorders or drops the elements of a
      duplicate-free `a`: they stay first, in their own order. */
  lemma {:induction false} DedupeKeepsPrefix<T>(a: seq<T>, b: seq<T>)
    requires NoDuplicates(a)
    ensures |Dedupe(a + b)| >= |a| && Dedupe(a + b)[..|a|] == a
  {
    if b == [] {
      assert a + b == a;
      DedupeOfDistinct(a);
    } else {
      var b' := b[..|b| - 1];
      DedupeKeepsPrefix(a, b');
      assert (a + b)[..|a + b| - 1] == a + b';
    }
  }

  lemma {:induction false} DedupeOfDistinct<T>(a: seq<T>)
    requires NoDuplicates(a)
    ensures Dedupe(a) == a
  {
    if a != [] {
      var a' := a[..|a| - 1];
      DedupeOfDistinct(a');
      assert a[|a| - 1] !in a' by {
        forall j | 0 <= j < |a'| ensures a'[j] != a[|a| - 1] {
          assert a'[j] == a[j];
        }
      }
      assert a == a' + [a[|a| - 1]];
    }
  }
}
