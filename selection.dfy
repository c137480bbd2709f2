/**
 * Selections over the dispatch list. A record is named by its handle, its
 * position in the dispatch list, just as the loop names it by a reference into
 * that list; a selection keeps the handles whose records meet a criterion,
 * in the order it meets them.
 */
module Selection {
  import opened Records

  /** What a selection keeps. */
  datatype Criterion =
    | ArrivesAt(t: int)       // admitted at the tick equal to its arrival time
    | ArrivedBefore(t: int)   // admitted once the clock has passed a non-negative arrival time
    | AtLevel(k: int)         // belongs to ready queue `k`

  /** Whether record `p` meets `keep`. A negative arrival time is never met
      by the tick counter, so such a record never counts as arrived. */
  predicate Holds(keep: Criterion, p: Process)
  {
    match keep
    case ArrivesAt(t) => p.arrivalTime == t
    case ArrivedBefore(t) => 0 <= p.arrivalTime < t
    case AtLevel(k) => p.priority == k
  }

  /** Handle `h` names a record of `dq` that meets `keep`. */
  predicate Meets(dq: seq<Process>, keep: Criterion, h: nat)
  {
    h < |dq| && Holds(keep, dq[h])
  }

  /** The handles of `hs` whose records meet `keep`, in the order of `hs`. */
  function Select(dq: seq<Process>, hs: seq<nat>, keep: Criterion): (r: seq<nat>)
    ensures |r| <= |hs|
  {
    if hs == [] then []
    else Select(dq, hs[..|hs| - 1], keep) + (if Meets(dq, keep, hs[|hs| - 1]) then [hs[|hs| - 1]] else [])
  }

  /** The handles of a dispatch list of `n` records, front to back. */
  function Handles(n: nat): (hs: seq<nat>)
    ensures |hs| == n && forall i :: 0 <= i < n ==> hs[i] == i
  {
    if n == 0 then [] else Handles(n - 1) + [n - 1]
  }

  /** Selecting from one more handle at the back: it is kept exactly when its
      record meets `keep`. */
  lemma SelectSnoc(dq: seq<Process>, hs: seq<nat>, h: nat, keep: Criterion)
    ensures Select(dq, hs + [h], keep) == Select(dq, hs, keep) + if Meets(dq, keep, h) then [h] else []
  {
    assert (hs + [h])[..|hs|] == hs;
  }

  /** Selection distributes over concatenation: what comes earlier in the
      input comes earlier in the output. */
  lemma {:induction false} SelectAppend(dq: seq<Process>, a: seq<nat>, b: seq<nat>, keep: Criterion)
    ensures Select(dq, a + b, keep) == Select(dq, a, keep) + Select(dq, b, keep)
    decreases |b|
  {
    if b == [] {
      assert a + b == a;
    } else {
      var init, last, ab := b[..|b| - 1], b[|b| - 1], a + b;
      assert ab[..|ab| - 1] == a + init && ab[|ab| - 1] == last;
      var tail := if Meets(dq, keep, last) then [last] else [];
      assert Select(dq, ab, keep) == Select(dq, a + init, keep) + tail;
      assert Select(dq, b, keep) == Select(dq, init, keep) + tail;
      SelectAppend(dq, a, init, keep);
    }
  }

  /** Membership in the selection, both directions. */
  lemma {:induction false} SelectMember(dq: seq<Process>, hs: seq<nat>, keep: Criterion, h: nat)
    ensures h in Select(dq, hs, keep) <==> h in hs && Meets(dq, keep, h)
    decreases |hs|
  {
    if hs != [] {
      var init := hs[..|hs| - 1];
      assert hs == init + [hs[|hs| - 1]];
      SelectMember(dq, init, keep, h);
    }
  }

  /** Everything selected comes from `hs` and meets `keep`. */
  lemma SelectSubset(dq: seq<Process>, hs: seq<nat>, keep: Criterion)
    ensures forall h :: h in Select(dq, hs, keep) ==> h in hs && Meets(dq, keep, h)
  {
    forall h | h in Select(dq, hs, keep) ensures h in hs && Meets(dq, keep, h) {
      SelectMember(dq, hs, keep, h);
    }
  }

  /** Nothing is dropped exactly when every handle meets `keep`, and then the
      selection is the input itself. */
  lemma {:induction false} SelectFull(dq: seq<Process>, hs: seq<nat>, keep: Criterion)
    ensures |Select(dq, hs, keep)| == |hs| <==> forall h :: h in hs ==> Meets(dq, keep, h)
    ensures (forall h :: h in hs ==> Meets(dq, keep, h)) ==> Select(dq, hs, keep) == hs
    decreases |hs|
  {
    if hs != [] {
      var init, last := hs[..|hs| - 1], hs[|hs| - 1];
      assert hs == init + [last];
      SelectFull(dq, init, keep);
      assert forall h :: h in init ==> h in hs;
      if !Meets(dq, keep, last) {
        assert |Select(dq, hs, keep)| <= |init|;
      }
    }
  }

  /** Everything is dropped when no handle meets `keep`. */
  lemma {:induction false} SelectEmpty(dq: seq<Process>, hs: seq<nat>, keep: Criterion)
    requires forall h :: h in hs ==> !Meets(dq, keep, h)
    ensures Select(dq, hs, keep) == []
    decreases |hs|
  {
    if hs != [] {
      var init := hs[..|hs| - 1];
      assert forall h :: h in init ==> h in hs;
      assert hs[|hs| - 1] in hs;
      SelectEmpty(dq, init, keep);
    }
  }

  /** A selection only looks at arrival times and priorities. */
  lemma {:induction false} SelectSameKeys(dq: seq<Process>, dq': seq<Process>, hs: seq<nat>, keep: Criterion)
    requires SameKeys(dq, dq')
    ensures Select(dq, hs, keep) == Select(dq', hs, keep)
    decreases |hs|
  {
    if hs != [] {
      SelectSameKeys(dq, dq', hs[..|hs| - 1], keep);
    }
  }

  /** The handles of `s` rise strictly: `s` lists records front to back. */
  ghost predicate Increasing(s: seq<nat>)
  {
    forall i, j :: 0 <= i < j < |s| ==> s[i] < s[j]
  }

  /** Selecting from handles listed front to back keeps them front to back. */
  lemma {:induction false} SelectIncreasing(dq: seq<Process>, hs: seq<nat>, keep: Criterion)
    requires Increasing(hs)
    ensures Increasing(Select(dq, hs, keep))
    decreases |hs|
  {
    if hs != [] {
      var init, last := hs[..|hs| - 1], hs[|hs| - 1];
      var before := Select(dq, init, keep);
      SelectIncreasing(dq, init, keep);
      SelectSubset(dq, init, keep);
      forall i | 0 <= i < |before| ensures before[i] < last {
        assert before[i] in init;
      }
    }
  }

  /** No element occurs twice in `s`. */
  ghost predicate Unique<T>(s: seq<T>)
  {
    forall i, j :: 0 <= i < j < |s| ==> s[i] != s[j]
  }

  /** Two duplicate-free sequences with no element in common concatenate to
      a duplicate-free sequence. */
  lemma UniqueAppend<T>(a: seq<T>, b: seq<T>)
    requires Unique(a) && Unique(b) && forall x :: x in a ==> x !in b
    ensures Unique(a + b)
  {
    var c := a + b;
    forall i, j | 0 <= i < j < |c| ensures c[i] != c[j] {
      if j < |a| {
        assert c[i] == a[i] && c[j] == a[j];
      } else if i < |a| {
        assert c[i] == a[i] && c[j] == b[j - |a|];
        assert a[i] in a;
      } else {
        assert c[i] == b[i - |a|] && c[j] == b[j - |a|];
      }
    }
  }

  /** The parts of a duplicate-free concatenation are duplicate-free and
      have no element in common. */
  lemma UniqueSplit<T>(a: seq<T>, b: seq<T>)
    requires Unique(a + b)
    ensures Unique(a) && Unique(b) && forall x :: x in a ==> x !in b
  {
    var c := a + b;
    forall i, j | 0 <= i < j < |a| ensures a[i] != a[j] {
      assert a[i] == c[i] && a[j] == c[j];
    }
    forall i, j | 0 <= i < j < |b| ensures b[i] != b[j] {
      assert b[i] == c[|a| + i] && b[j] == c[|a| + j];
    }
    forall x | x in a ensures x !in b {
      var i :| 0 <= i < |a| && a[i] == x;
      forall j | 0 <= j < |b| ensures b[j] != x {
        assert c[i] == a[i] && c[|a| + j] == b[j];
      }
    }
  }

  /** Selecting from a duplicate-free sequence keeps it duplicate-free. */
  lemma {:induction false} SelectUnique(dq: seq<Process>, hs: seq<nat>, keep: Criterion)
    requires Unique(hs)
    ensures Unique(Select(dq, hs, keep))
    decreases |hs|
  {
    if hs != [] {
      var init, last := hs[..|hs| - 1], hs[|hs| - 1];
      assert hs == init + [last];
      UniqueSplit(init, [last]);
      SelectUnique(dq, init, keep);
      SelectMember(dq, init, keep, last);
      UniqueAppend(Select(dq, init, keep), if Meets(dq, keep, last) then [last] else []);
    }
  }
}
