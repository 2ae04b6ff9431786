/** The order in which account mutexes are taken and released, as data.
    A trace lists every pthread_mutex_lock / pthread_mutex_unlock on an account
    index, in program order. */
module LockOrder {

  datatype LockEvent = Lock(account: int) | Unlock(account: int)

  /** Replaying `events` from the set `held` of locks already taken: every lock is
      taken in ascending index order (above everything still held, so never twice),
      only held locks are released, and nothing is held at the end. Ascending
      acquisition is the global order that rules out a circular wait. */
  predicate Disciplined(held: set<int>, events: seq<LockEvent>)
    decreases |events|
  {
    if events == [] then held == {}
    else match events[0]
      case Lock(i) =>
        i !in held && (forall h :: h in held ==> h < i) && Disciplined(held + {i}, events[1..])
      case Unlock(i) =>
        i in held && Disciplined(held - {i}, events[1..])
  }

  /** The indices locked by `events`, in order. */
  function Locked(events: seq<LockEvent>): (r: seq<int>)
    ensures |r| <= |events|
  {
    if events == [] then []
    else (if events[0].Lock? then [events[0].account] else []) + Locked(events[1..])
  }

  /** The indices unlocked by `events`, in order. */
  function Unlocked(events: seq<LockEvent>): (r: seq<int>)
    ensures |r| <= |events|
  {
    if events == [] then []
    else (if events[0].Unlock? then [events[0].account] else []) + Unlocked(events[1..])
  }

  /** `s` back to front. */
  function Reverse(s: seq<int>): (r: seq<int>)
    ensures |r| == |s|
  {
    if s == [] then [] else Reverse(s[1..]) + [s[0]]
  }

  predicate StrictlyAscending(s: seq<int>)
  {
    forall i, j :: 0 <= i < j < |s| ==> s[i] < s[j]
  }

  /** Locks taken by a transfer between account indices `from` and `to` (exe.c:218-232):
      the lower index first, and a single lock when both are the same account. */
  function TransferAcquire(from: int, to: int): (r: seq<LockEvent>)
    ensures |r| == if from == to then 1 else 2
    ensures forall k :: 0 <= k < |r| ==> r[k].Lock? && (r[k].account == from || r[k].account == to)
  {
    if from < to then [Lock(from), Lock(to)]
    else if from > to then [Lock(to), Lock(from)]
    else [Lock(from)]
  }

  /** Unlocks after a successful transfer (exe.c:257-270). */
  function TransferRelease(from: int, to: int): (r: seq<LockEvent>)
    ensures |r| == if from == to then 1 else 2
    ensures forall k :: 0 <= k < |r| ==> r[k].Unlock? && (r[k].account == from || r[k].account == to)
  {
    if from < to then [Unlock(to), Unlock(from)]
    else if from > to then [Unlock(from), Unlock(to)]
    else [Unlock(from)]
  }

  /** Unlocks after a transfer rejected for insufficient funds (exe.c:239-247):
      the source first, then the target, whatever order they were taken in. */
  function RejectRelease(from: int, to: int): (r: seq<LockEvent>)
    ensures |r| == if from == to then 1 else 2
    ensures r[0] == Unlock(from) && r[|r| - 1] == Unlock(to)
  {
    if from != to then [Unlock(from), Unlock(to)] else [Unlock(from)]
  }

  /** Locked/Unlocked of a trace are taken event by event. */
  lemma LockedCons(e: LockEvent, rest: seq<LockEvent>)
    ensures Locked([e] + rest) == (if e.Lock? then [e.account] else []) + Locked(rest)
    ensures Unlocked([e] + rest) == (if e.Unlock? then [e.account] else []) + Unlocked(rest)
  {
    assert ([e] + rest)[1..] == rest;
  }

  lemma LockedPair(a: LockEvent, b: LockEvent)
    ensures Locked([a, b]) == (if a.Lock? then [a.account] else []) + (if b.Lock? then [b.account] else [])
    ensures Unlocked([a, b]) == (if a.Unlock? then [a.account] else []) + (if b.Unlock? then [b.account] else [])
  {
    LockedCons(a, [b]);
    LockedCons(b, []);
    assert [a, b] == [a] + [b];
    assert [b] == [b] + [];
  }

  /** A transfer locks exactly its two accounts (one lock when they coincide), in
      strictly ascending index order, and releases nothing while acquiring. */
  lemma TransferAcquireOrdered(from: int, to: int)
    ensures StrictlyAscending(Locked(TransferAcquire(from, to)))
    ensures Unlocked(TransferAcquire(from, to)) == []
    ensures forall i :: i in Locked(TransferAcquire(from, to)) <==> i == from || i == to
    ensures |Locked(TransferAcquire(from, to))| == 1 <==> from == to
  {
    if from < to {
      LockedPair(Lock(from), Lock(to));
    } else if from > to {
      LockedPair(Lock(to), Lock(from));
    }
  }

  /** A successful transfer releases its locks in the reverse of the acquisition order,
      and its whole trace keeps the discipline. */
  lemma TransferTraceOrdered(from: int, to: int)
    ensures Unlocked(TransferRelease(from, to)) == Reverse(Locked(TransferAcquire(from, to)))
    ensures Locked(TransferRelease(from, to)) == []
    ensures Disciplined({}, TransferAcquire(from, to) + TransferRelease(from, to))
  {
    if from < to {
      LockedPair(Lock(from), Lock(to));
      LockedPair(Unlock(to), Unlock(from));
      ReversePair(from, to);
      TwoLockTrace(from, to, to, from);
    } else if from > to {
      LockedPair(Lock(to), Lock(from));
      LockedPair(Unlock(from), Unlock(to));
      ReversePair(to, from);
      TwoLockTrace(to, from, from, to);
    } else {
      OneLockTrace(from);
    }
  }

  lemma ReversePair(x: int, y: int)
    ensures Reverse([x, y]) == [y, x]
  {
    assert [y][1..] == [];
    assert Reverse([y]) == [y];
    assert [x, y][1..] == [y];
  }

  /** Taking a < b and then releasing both, in either order, keeps the discipline. */
  lemma TwoLockTrace(a: int, b: int, u: int, v: int)
    requires a < b && ((u == a && v == b) || (u == b && v == a))
    ensures Disciplined({}, [Lock(a), Lock(b)] + [Unlock(u), Unlock(v)])
  {
    var t := [Lock(a), Lock(b)] + [Unlock(u), Unlock(v)];
    assert t == [Lock(a), Lock(b), Unlock(u), Unlock(v)];
    assert {v} - {v} == {};
    assert Disciplined({v}, t[3..]) by { assert t[3..][1..] == []; }
    assert {a, b} - {u} == {v};
    assert Disciplined({a, b}, t[2..]) by { assert t[2..][1..] == t[3..]; }
    assert {} + {a} == {a} && {a} + {b} == {a, b};
    assert Disciplined({a}, t[1..]) by { assert t[1..][1..] == t[2..]; }
  }

  lemma OneLockTrace(a: int)
    ensures Disciplined({}, [Lock(a)] + [Unlock(a)])
  {
    var t := [Lock(a)] + [Unlock(a)];
    assert t == [Lock(a), Unlock(a)];
    assert {a} - {a} == {};
    assert Disciplined({a}, t[1..]) by { assert t[1..][1..] == []; }
    assert {} + {a} == {a};
  }

  /** The rejected-transfer trace also keeps the discipline and releases exactly
      the locks it took. */
  lemma RejectTraceDisciplined(from: int, to: int)
    ensures Disciplined({}, TransferAcquire(from, to) + RejectRelease(from, to))
    ensures forall i :: i in Unlocked(RejectRelease(from, to)) <==> i in Locked(TransferAcquire(from, to))
  {
    if from < to {
      LockedPair(Lock(from), Lock(to));
      LockedPair(Unlock(from), Unlock(to));
      TwoLockTrace(from, to, from, to);
    } else if from > to {
      LockedPair(Lock(to), Lock(from));
      LockedPair(Unlock(from), Unlock(to));
      TwoLockTrace(to, from, from, to);
    } else {
      OneLockTrace(from);
    }
  }

  /** Locks on indices lo, lo + 1, ..., hi - 1, in that order (exe.c:118-121). */
  function AscendingLocks(lo: int, hi: int): (r: seq<LockEvent>)
    ensures |r| == if lo >= hi then 0 else hi - lo
    ensures forall k :: 0 <= k < |r| ==> r[k] == Lock(lo + k)
    decreases hi - lo
  {
    if lo >= hi then [] else [Lock(lo)] + AscendingLocks(lo + 1, hi)
  }

  /** Unlocks on indices hi - 1, hi - 2, ..., lo, in that order (exe.c:130-133). */
  function DescendingUnlocks(lo: int, hi: int): (r: seq<LockEvent>)
    ensures |r| == if lo >= hi then 0 else hi - lo
    ensures forall k :: 0 <= k < |r| ==> r[k] == Unlock(hi - 1 - k)
    decreases hi - lo
  {
    if lo >= hi then [] else [Unlock(hi - 1)] + DescendingUnlocks(lo, hi - 1)
  }

  /** The whole trace of print_accounts over `n` accounts. */
  function PrintTrace(n: nat): (r: seq<LockEvent>)
    ensures |r| == 2 * n
  {
    AscendingLocks(0, n) + DescendingUnlocks(0, n)
  }

  /** The ascending loop's next step appends one lock at the end. */
  lemma {:induction false} AscendingLocksSnoc(lo: int, hi: int)
    requires lo <= hi
    ensures AscendingLocks(lo, hi + 1) == AscendingLocks(lo, hi) + [Lock(hi)]
    decreases hi - lo
  {
    if lo < hi {
      AscendingLocksSnoc(lo + 1, hi);
    }
  }

  /** The descending loop's next step appends one unlock at the end. */
  lemma {:induction false} DescendingUnlocksSnoc(lo: int, hi: int)
    requires lo < hi
    ensures DescendingUnlocks(lo, hi) == DescendingUnlocks(lo + 1, hi) + [Unlock(lo)]
    decreases hi - lo
  {
    if lo + 1 < hi {
      DescendingUnlocksSnoc(lo, hi - 1);
    }
  }

  /** The set {0, ..., n - 1}. */
  function Below(n: int): (r: set<int>)
    ensures forall x :: x in r <==> 0 <= x < n
    decreases n
  {
    if n <= 0 then {} else Below(n - 1) + {n - 1}
  }

  lemma {:induction false} AscendingDisciplined(lo: int, hi: int, rest: seq<LockEvent>)
    requires 0 <= lo <= hi
    requires Disciplined(Below(hi), rest)
    ensures Disciplined(Below(lo), AscendingLocks(lo, hi) + rest)
    decreases hi - lo
  {
    if lo < hi {
      AscendingDisciplined(lo + 1, hi, rest);
      assert Below(lo) + {lo} == Below(lo + 1);
      var t := AscendingLocks(lo, hi) + rest;
      assert t[0] == Lock(lo);
      assert t[1..] == AscendingLocks(lo + 1, hi) + rest;
      assert lo !in Below(lo);
      assert forall h :: h in Below(lo) ==> h < lo;
      assert Disciplined(Below(lo) + {lo}, t[1..]);
    } else {
      assert AscendingLocks(lo, hi) + rest == rest;
    }
  }

  lemma {:induction false} DescendingDisciplined(hi: int)
    requires 0 <= hi
    ensures Disciplined(Below(hi), DescendingUnlocks(0, hi))
    decreases hi
  {
    if hi > 0 {
      DescendingDisciplined(hi - 1);
      assert Below(hi) - {hi - 1} == Below(hi - 1);
    } else {
      assert Below(0) == {};
    }
  }

  lemma {:induction false} LockedAscending(lo: int, hi: int)
    ensures Locked(AscendingLocks(lo, hi)) == Range(lo, hi)
    ensures Unlocked(AscendingLocks(lo, hi)) == []
    decreases hi - lo
  {
    if lo < hi {
      LockedAscending(lo + 1, hi);
    }
  }

  lemma {:induction false} UnlockedDescending(lo: int, hi: int)
    ensures Unlocked(DescendingUnlocks(lo, hi)) == Reverse(Range(lo, hi))
    ensures Locked(DescendingUnlocks(lo, hi)) == []
    decreases hi - lo
  {
    if lo < hi {
      UnlockedDescending(lo, hi - 1);
      RangeSnoc(lo, hi - 1);
      ReverseSnoc(Range(lo, hi - 1), hi - 1);
    }
  }

  /** lo, lo + 1, ..., hi - 1. */
  function Range(lo: int, hi: int): (r: seq<int>)
    ensures |r| == if lo >= hi then 0 else hi - lo
    ensures forall k :: 0 <= k < |r| ==> r[k] == lo + k
    decreases hi - lo
  {
    if lo >= hi then [] else [lo] + Range(lo + 1, hi)
  }

  lemma {:induction false} RangeSnoc(lo: int, hi: int)
    requires lo <= hi
    ensures Range(lo, hi + 1) == Range(lo, hi) + [hi]
    decreases hi - lo
  {
    if lo < hi {
      RangeSnoc(lo + 1, hi);
    }
  }

  lemma {:induction false} ReverseSnoc(s: seq<int>, x: int)
    ensures Reverse(s + [x]) == [x] + Reverse(s)
    decreases |s|
  {
    if s != [] {
      assert (s + [x])[1..] == s[1..] + [x];
      ReverseSnoc(s[1..], x);
    } else {
      assert s + [x] == [x];
    }
  }

  lemma {:induction false} LockedAppend(a: seq<LockEvent>, b: seq<LockEvent>)
    ensures Locked(a + b) == Locked(a) + Locked(b)
    ensures Unlocked(a + b) == Unlocked(a) + Unlocked(b)
    decreases |a|
  {
    if a == [] {
      assert a + b == b;
    } else {
      assert a + b == [a[0]] + (a[1..] + b);
      assert a == [a[0]] + a[1..];
      LockedCons(a[0], a[1..] + b);
      LockedCons(a[0], a[1..]);
      LockedAppend(a[1..], b);
    }
  }

  /** print_accounts takes every account lock, in ascending order 0..n-1, before it
      releases any, releases them in exactly the reverse order, and keeps the discipline. */
  lemma PrintTraceOrdered(n: nat)
    ensures Locked(PrintTrace(n)) == Range(0, n)
    ensures Unlocked(PrintTrace(n)) == Reverse(Locked(PrintTrace(n)))
    ensures Disciplined({}, PrintTrace(n))
  {
    LockedAppend(AscendingLocks(0, n), DescendingUnlocks(0, n));
    LockedAscending(0, n);
    UnlockedDescending(0, n);
    DescendingDisciplined(n);
    AscendingDisciplined(0, n, DescendingUnlocks(0, n));
    assert Below(0) == {};
  }
}
