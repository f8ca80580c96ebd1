/** Sequence operations the app relies on through JavaScript's Array methods:
    `filter` (Pick, keeping the elements whose flag is set), `indexOf`,
    `splice(i, 1)` (Erase) and the absence of duplicates in a selection array. */
module Seqs {

  /** No element occurs twice. */
  predicate NoDup<T(==)>(s: seq<T>) {
    forall i, j :: 0 <= i < j < |s| ==> s[i] != s[j]
  }

  /** The elements of `s` whose flag is set, in order: `filter` with the
      flags computed by its callback, and the export's collection of the
      checked rows. */
  function Pick<T>(s: seq<T>, flags: seq<bool>): seq<T>
    requires |s| == |flags|
  {
    if s == [] then []
    else Pick(s[..|s| - 1], flags[..|s| - 1]) + (if flags[|s| - 1] then [s[|s| - 1]] else [])
  }

  /** The positions whose flag is set, in increasing order. */
  function PickedIndices(flags: seq<bool>): seq<nat> {
    if flags == [] then []
    else PickedIndices(flags[..|flags| - 1]) + (if flags[|flags| - 1] then [|flags| - 1] else [])
  }

  /** `Array.prototype.indexOf`: the first position of `x`, or -1. */
  function IndexOf<T(==)>(s: seq<T>, x: T): (r: int)
    ensures r == -1 <==> x !in s
    ensures 0 <= r ==> r < |s| && s[r] == x && x !in s[..r]
    ensures -1 <= r
  {
    if s == [] then -1
    else if s[0] == x then 0
    else
      var k := IndexOf(s[1..], x);
      assert s[1..] + [] == s[1..];
      if k == -1 then -1
      else
        assert s[..k + 1] == [s[0]] + s[1..][..k];
        k + 1
  }

  /** `s` with every occurrence of `x` taken out, the others in order. */
  function Erase<T(==)>(s: seq<T>, x: T): seq<T> {
    if s == [] then []
    else Erase(s[..|s| - 1], x) + (if s[|s| - 1] == x then [] else [s[|s| - 1]])
  }

  /** The flagged positions are in range, flagged, strictly increasing,
      and every flagged position is among them. */
  lemma {:induction false} PickedIndicesAt(flags: seq<bool>)
    ensures var idx := PickedIndices(flags);
      && (forall k :: 0 <= k < |idx| ==> idx[k] < |flags| && flags[idx[k]])
      && (forall k, l :: 0 <= k < l < |idx| ==> idx[k] < idx[l])
      && (forall i :: 0 <= i < |flags| ==> (flags[i] <==> i in idx))
  {
    if flags != [] {
      var n := |flags| - 1;
      var front := flags[..n];
      PickedIndicesAt(front);
      var prev := PickedIndices(front);
      var idx := PickedIndices(flags);
      var tail: seq<nat> := if flags[n] then [n] else [];
      assert idx == prev + tail;
      forall k | 0 <= k < |idx| ensures idx[k] < |flags| && flags[idx[k]] {
        if k < |prev| {
          assert idx[k] == prev[k];
          assert front[prev[k]] == flags[prev[k]];
        }
      }
      forall i | 0 <= i < |flags| ensures flags[i] <==> i in idx {
        if i < n {
          assert front[i] == flags[i];
        }
      }
    }
  }

  /** Pick returns exactly the elements at the flagged positions. */
  lemma {:induction false} PickAt<T>(s: seq<T>, flags: seq<bool>)
    requires |s| == |flags|
    ensures var r, idx := Pick(s, flags), PickedIndices(flags);
      && |r| == |idx|
      && (forall k :: 0 <= k < |idx| ==> idx[k] < |s| && flags[idx[k]] && r[k] == s[idx[k]])
      && (forall k, l :: 0 <= k < l < |idx| ==> idx[k] < idx[l])
      && (forall i :: 0 <= i < |s| ==> (flags[i] <==> i in idx))
  {
    PickedIndicesAt(flags);
    if s != [] {
      var n := |s| - 1;
      PickAt(s[..n], flags[..n]);
      var prev := PickedIndices(flags[..n]);
      var r, idx := Pick(s, flags), PickedIndices(flags);
      assert r == Pick(s[..n], flags[..n]) + (if flags[n] then [s[n]] else []);
      assert idx == prev + (if flags[n] then [n] else []);
      forall k | 0 <= k < |idx| ensures r[k] == s[idx[k]] {
        if k < |prev| {
          assert r[k] == s[..n][prev[k]];
        }
      }
    }
  }

  /** Nothing is picked exactly when no flag is set. */
  lemma PickEmpty<T>(s: seq<T>, flags: seq<bool>)
    requires |s| == |flags|
    ensures Pick(s, flags) == [] <==> forall i :: 0 <= i < |flags| ==> !flags[i]
  {
    PickAt(s, flags);
    var idx := PickedIndices(flags);
    if Pick(s, flags) == [] {
      forall i | 0 <= i < |flags| ensures !flags[i] {
        assert i !in idx;
      }
    } else {
      assert flags[idx[0]];
    }
  }

  /** With every flag set, Pick keeps everything. */
  lemma {:induction false} PickAll<T>(s: seq<T>, flags: seq<bool>)
    requires |s| == |flags|
    requires forall i :: 0 <= i < |flags| ==> flags[i]
    ensures Pick(s, flags) == s
  {
    if s != [] {
      var n := |s| - 1;
      PickAll(s[..n], flags[..n]);
    }
  }

  /** Erase distributes over concatenation. */
  lemma {:induction false} EraseAppend<T>(a: seq<T>, b: seq<T>, x: T)
    ensures Erase(a + b, x) == Erase(a, x) + Erase(b, x)
  {
    if b == [] {
      assert a + b == a;
    } else {
      var n := |b| - 1;
      EraseAppend(a, b[..n], x);
      assert (a + b)[..|a + b| - 1] == a + b[..n];
    }
  }

  /** What Erase keeps: every element other than `x`, and nothing else. */
  lemma {:induction false} EraseMembership<T>(s: seq<T>, x: T)
    ensures forall y :: y in Erase(s, x) <==> y in s && y != x
  {
    if s != [] {
      var n := |s| - 1;
      EraseMembership(s[..n], x);
      assert s == s[..n] + [s[n]];
    }
  }

  /** Erasing an element that does not occur changes nothing. */
  lemma {:induction false} EraseAbsent<T>(s: seq<T>, x: T)
    requires x !in s
    ensures Erase(s, x) == s
  {
    if s != [] {
      var n := |s| - 1;
      EraseAbsent(s[..n], x);
      assert s == s[..n] + [s[n]];
    }
  }

  /** Erasing is idempotent. */
  lemma EraseTwice<T>(s: seq<T>, x: T)
    ensures Erase(Erase(s, x), x) == Erase(s, x)
  {
    EraseMembership(s, x);
    EraseAbsent(Erase(s, x), x);
  }

  /** Erasing keeps a sequence duplicate-free and takes exactly one element
      out of it when `x` occurs. */
  lemma {:induction false} EraseNoDup<T>(s: seq<T>, x: T)
    requires NoDup(s)
    ensures NoDup(Erase(s, x))
    ensures |Erase(s, x)| == if x in s then |s| - 1 else |s|
  {
    if s != [] {
      var n := |s| - 1;
      EraseNoDup(s[..n], x);
      EraseMembership(s[..n], x);
      assert s == s[..n] + [s[n]];
      assert s[n] !in s[..n];
    }
  }

  /** Taking out the first occurrence of an element of a duplicate-free
      sequence with `splice(i, 1)` is the same as erasing it everywhere. */
  lemma SpliceIsErase<T>(s: seq<T>, x: T)
    requires NoDup(s) && x in s
    ensures s[..IndexOf(s, x)] + s[IndexOf(s, x) + 1..] == Erase(s, x)
  {
    var i := IndexOf(s, x);
    var front, back := s[..i], s[i + 1..];
    assert s == front + [x] + back;
    assert Erase([x], x) == [] by {
      assert [x][..0] == [];
    }
    EraseAbsent(front, x);
    EraseAppend(front, [x], x);
    assert Erase(front + [x], x) == front;
    assert x !in back by {
      forall j | 0 <= j < |back| ensures back[j] != x {
        assert back[j] == s[i + 1 + j];
      }
    }
    EraseAbsent(back, x);
    EraseAppend(front + [x], back, x);
  }
}
