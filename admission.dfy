/**
 * Which records the tick loop has admitted by a given tick, in the order it
 * admitted them, and the bounds that make the loop finite.
 */
module Admission {
  import opened Records
  import opened Selection

  /** The handles of the records of `dq` arriving at tick `t`, front to
      back: the records admission picks at that tick. */
  function Arrivals(dq: seq<Process>, t: int): (hs: seq<nat>)
  {
    Select(dq, Handles(|dq|), ArrivesAt(t))
  }

  /** The handles of a list of `n` records are exactly 0 .. n-1. */
  lemma HandlesMember(n: nat, h: nat)
    ensures h in Handles(n) <==> h < n
  {
    if h < n {
      assert Handles(n)[h] == h;
    }
  }

  /** Exactly the records with arrival time `t` arrive at `t`, front to back. */
  lemma ArrivalsExact(dq: seq<Process>, t: int)
    ensures Increasing(Arrivals(dq, t))
    ensures forall h: nat :: h in Arrivals(dq, t) <==> h < |dq| && dq[h].arrivalTime == t
  {
    SelectIncreasing(dq, Handles(|dq|), ArrivesAt(t));
    forall h: nat ensures h in Arrivals(dq, t) <==> h < |dq| && dq[h].arrivalTime == t {
      SelectMember(dq, Handles(|dq|), ArrivesAt(t), h);
      HandlesMember(|dq|, h);
    }
  }

  /**
   * The handles of `hs` admitted by the ticks before `t`, in the order
   * admission appends them: those arriving at tick 0 in the order of `hs`,
   * then those arriving at tick 1, and so on.
   */
  function AdmittedFrom(dq: seq<Process>, hs: seq<nat>, t: int): (a: seq<nat>)
    decreases t
  {
    if t <= 0 then [] else AdmittedFrom(dq, hs, t - 1) + Select(dq, hs, ArrivesAt(t - 1))
  }

  /** The records of the dispatch list admitted by the ticks before `t`. */
  function Admitted(dq: seq<Process>, t: int): (hs: seq<nat>)
  {
    AdmittedFrom(dq, Handles(|dq|), t)
  }

  /** A handle has been admitted exactly when it is listed and its record's
      arrival time lies in 0 .. t-1. */
  lemma {:induction false} AdmittedFromMember(dq: seq<Process>, hs: seq<nat>, t: int, h: nat)
    ensures h in AdmittedFrom(dq, hs, t) <==> h in hs && Meets(dq, ArrivedBefore(t), h)
    decreases t
  {
    if t <= 0 {
      assert AdmittedFrom(dq, hs, t) == [];
    } else {
      var before, now := AdmittedFrom(dq, hs, t - 1), Select(dq, hs, ArrivesAt(t - 1));
      assert AdmittedFrom(dq, hs, t) == before + now;
      AdmittedFromMember(dq, hs, t - 1, h);
      SelectMember(dq, hs, ArrivesAt(t - 1), h);
      InAppend(h, before, now);
      assert Meets(dq, ArrivedBefore(t), h) <==> Meets(dq, ArrivedBefore(t - 1), h) || Meets(dq, ArrivesAt(t - 1), h);
    }
  }

  /** An element of a concatenation is an element of one of its parts. */
  lemma InAppend<T>(x: T, a: seq<T>, b: seq<T>)
    ensures x in a + b <==> x in a || x in b
  {
  }

  /** What was admitted before tick `u` does not arrive again at `u`. */
  lemma AdmittedThenArrives(dq: seq<Process>, hs: seq<nat>, u: int)
    ensures forall h :: h in AdmittedFrom(dq, hs, u) ==> h !in Select(dq, hs, ArrivesAt(u))
  {
    forall h | h in AdmittedFrom(dq, hs, u) ensures h !in Select(dq, hs, ArrivesAt(u)) {
      AdmittedFromMember(dq, hs, u, h);
      SelectMember(dq, hs, ArrivesAt(u), h);
    }
  }

  /** A record has been admitted before tick `t` exactly when its arrival
      time lies in 0 .. t-1. */
  lemma AdmittedMember(dq: seq<Process>, t: int, h: nat)
    ensures h in Admitted(dq, t) <==> h < |dq| && 0 <= dq[h].arrivalTime < t
  {
    AdmittedFromMember(dq, Handles(|dq|), t, h);
    HandlesMember(|dq|, h);
  }

  /** A handle listed once is admitted at most once. */
  lemma {:induction false} AdmittedFromUnique(dq: seq<Process>, hs: seq<nat>, t: int)
    requires Unique(hs)
    ensures Unique(AdmittedFrom(dq, hs, t))
    decreases t
  {
    if t > 0 {
      var before, now := AdmittedFrom(dq, hs, t - 1), Select(dq, hs, ArrivesAt(t - 1));
      assert AdmittedFrom(dq, hs, t) == before + now;
      AdmittedFromUnique(dq, hs, t - 1);
      SelectUnique(dq, hs, ArrivesAt(t - 1));
      AdmittedThenArrives(dq, hs, t - 1);
      UniqueAppend(before, now);
    }
  }

  /** No record is admitted twice. */
  lemma AdmittedUnique(dq: seq<Process>, t: int)
    ensures Unique(Admitted(dq, t))
  {
    var hs := Handles(|dq|);
    assert Unique(hs) by {
      forall i, j | 0 <= i < j < |hs| ensures hs[i] != hs[j] {
        assert hs[i] == i && hs[j] == j;
      }
    }
    AdmittedFromUnique(dq, hs, t);
  }

  /** Advancing the clock from `t` to `t + 1` admits exactly the records
      arriving at `t`, so the count of those arrived grows by their number. */
  lemma {:induction false} ArrivedStep(dq: seq<Process>, hs: seq<nat>, t: int)
    requires 0 <= t
    decreases |hs|
    ensures |Select(dq, hs, ArrivedBefore(t + 1))|
         == |Select(dq, hs, ArrivedBefore(t))| + |Select(dq, hs, ArrivesAt(t))|
  {
    if hs != [] {
      ArrivedStep(dq, hs[..|hs| - 1], t);
    }
  }

  /** As many handles have been admitted as there are listed records with an
      arrival time in 0 .. t-1. */
  lemma {:induction false} AdmittedCount(dq: seq<Process>, hs: seq<nat>, t: int)
    requires 0 <= t
    ensures |AdmittedFrom(dq, hs, t)| == |Select(dq, hs, ArrivedBefore(t))|
    decreases t
  {
    if t == 0 {
      SelectEmpty(dq, hs, ArrivedBefore(0));
    } else {
      AdmittedCount(dq, hs, t - 1);
      ArrivedStep(dq, hs, t - 1);
      assert AdmittedFrom(dq, hs, t) == AdmittedFrom(dq, hs, t - 1) + Select(dq, hs, ArrivesAt(t - 1));
    }
  }

  /** Everything listed has been admitted before tick `t` exactly when every
      arrival time lies in 0 .. t-1. */
  lemma AdmittedAll(dq: seq<Process>, t: int)
    requires 0 <= t
    ensures |Admitted(dq, t)| == |dq| <==> forall i :: 0 <= i < |dq| ==> 0 <= dq[i].arrivalTime < t
  {
    var hs := Handles(|dq|);
    AdmittedCount(dq, hs, t);
    SelectFull(dq, hs, ArrivedBefore(t));
    if forall i :: 0 <= i < |dq| ==> 0 <= dq[i].arrivalTime < t {
      forall h | h in hs ensures Meets(dq, ArrivedBefore(t), h) {
        HandlesMember(|dq|, h);
      }
    }
    if forall h :: h in hs ==> Meets(dq, ArrivedBefore(t), h) {
      forall i | 0 <= i < |dq| ensures 0 <= dq[i].arrivalTime < t {
        assert hs[i] == i;
        assert Meets(dq, ArrivedBefore(t), hs[i]);
      }
    }
  }

  /** Once every arrival time lies before `t`, nothing arrives any more. */
  lemma NothingArrives(dq: seq<Process>, t: int)
    requires forall i :: 0 <= i < |dq| ==> dq[i].arrivalTime < t
    ensures Arrivals(dq, t) == []
  {
    SelectEmpty(dq, Handles(|dq|), ArrivesAt(t));
  }

  /** Admission only looks at arrival times. */
  lemma {:induction false} AdmittedSameKeys(dq: seq<Process>, dq': seq<Process>, hs: seq<nat>, t: int)
    requires SameKeys(dq, dq')
    ensures AdmittedFrom(dq, hs, t) == AdmittedFrom(dq', hs, t)
    decreases t
  {
    if t > 0 {
      AdmittedSameKeys(dq, dq', hs, t - 1);
      SelectSameKeys(dq, dq', hs, ArrivesAt(t - 1));
    }
  }

  /** The tick at `t` admits the records arriving at `t` after those admitted
      before, whatever run times and pids the records have come to hold. */
  lemma AdmittedNext(dq: seq<Process>, dq': seq<Process>, t: int)
    requires SameKeys(dq, dq') && 0 <= t
    ensures Admitted(dq', t + 1) == Admitted(dq, t) + Arrivals(dq, t)
  {
    AdmittedSameKeys(dq, dq', Handles(|dq|), t + 1);
    assert AdmittedFrom(dq, Handles(|dq|), t + 1) == Admitted(dq, t) + Arrivals(dq, t);
  }

  /** The latest arrival time in `dq`, 0 if there is none later: the ticks
      still needed to admit everything are bounded by it. */
  function LastArrival(dq: seq<Process>): (m: int)
    ensures 0 <= m
  {
    if dq == [] then 0
    else
      var rest := LastArrival(dq[1..]);
      if dq[0].arrivalTime > rest then dq[0].arrivalTime else rest
  }

  /** No record arrives after the latest arrival time. */
  lemma {:induction false} LastArrivalBound(dq: seq<Process>)
    ensures forall i :: 0 <= i < |dq| ==> dq[i].arrivalTime <= LastArrival(dq)
  {
    if dq != [] {
      LastArrivalBound(dq[1..]);
      forall i | 1 <= i < |dq| ensures dq[i].arrivalTime <= LastArrival(dq) {
        assert dq[i] == dq[1..][i - 1];
      }
    }
  }

  /** The bound only looks at arrival times. */
  lemma {:induction false} LastArrivalSameKeys(a: seq<Process>, b: seq<Process>)
    requires SameKeys(a, b)
    ensures LastArrival(a) == LastArrival(b)
  {
    if a != [] {
      assert SameKeys(a[1..], b[1..]) by {
        forall i | 0 <= i < |a| - 1
          ensures a[1..][i].arrivalTime == b[1..][i].arrivalTime && a[1..][i].priority == b[1..][i].priority
        {
          assert a[1..][i] == a[i + 1] && b[1..][i] == b[i + 1];
        }
      }
      LastArrivalSameKeys(a[1..], b[1..]);
      assert a[0].arrivalTime == b[0].arrivalTime;
    }
  }
}
