/**
  The worker pool's routing: round-robin, hashed round-robin, and least-loaded. The
  shared counter is an unsigned 64-bit word that wraps around.
*/
module Pool {
  import opened Numbers
  import opened Wrappers

  /** The pool's size is a usize, and a pool has at least one worker. */
  predicate IsPoolSize(n: nat) {
    0 < n < U64_RANGE
  }

  datatype PoolRouting = RoundRobin | Random | KeyBased | LeastLoaded

  // ----- The hash -----

  predicate Odd(b: bv64) { b & 1 == 1 }

  function Half(b: bv64): bv64 { b >> 1 }

  /** `c`, moved up by one bit, with `odd` as its lowest bit. */
  function Join(c: bv64, odd: bool): bv64 { (c << 1) | if odd then 1 else 0 }

  /** The number that the low `n` bits of `b` spell. */
  function OfDigits(b: bv64, n: nat): (x: nat)
    ensures x < Power2(n)
  {
    if n == 0 then 0 else 2 * OfDigits(Half(b), n - 1) + if Odd(b) then 1 else 0
  }

  /** The word whose low `n` bits spell `x`. */
  function ToDigits(x: nat, n: nat): bv64 {
    if n == 0 then 0 else Join(ToDigits(x / 2, n - 1), x % 2 == 1)
  }

  function ToBits(x: U64): bv64 { ToDigits(x, 64) }

  function OfBits(b: bv64): U64 {
    WordRange();
    OfDigits(b, 64)
  }

  lemma WordRange()
    ensures Power2(64) == U64_RANGE
  {
    SmallPowers();
    hide Power2;
    PowerOfSum(4, 4);
    assert Power2(8) == 0x100;
    PowerOfSum(8, 8);
    assert Power2(16) == 0x1_0000;
    PowerOfSum(16, 16);
    assert Power2(32) == 0x1_0000_0000;
    PowerOfSum(32, 32);
  }

  lemma SmallPowers()
    ensures Power2(4) == 16
  {
    assert Power2(2) == 4;
  }

  lemma {:induction false} PowerOfSum(a: nat, b: nat)
    ensures Power2(a + b) == Power2(a) * Power2(b)
  {
    if a > 0 {
      PowerOfSum(a - 1, b);
      assert Power2(a) * Power2(b) == 2 * (Power2(a - 1) * Power2(b));
    }
  }

  // The steps of splitmix64; `+` and `*` wrap around.

  function Add(x: bv64): bv64 { x + 0x9e3779b97f4a7c15 }

  function Fold30(x: bv64): bv64 { x ^ (x >> 30) }

  function Times1(x: bv64): bv64 { x * 0xbf58476d1ce4e5b9 }

  function Fold27(x: bv64): bv64 { x ^ (x >> 27) }

  function Times2(x: bv64): bv64 { x * 0x94d049bb133111eb }

  function Fold31(x: bv64): bv64 { x ^ (x >> 31) }

  function Splitmix64(x: bv64): bv64 {
    var a := Times1(Fold30(Add(x)));
    var b := Times2(Fold27(a));
    Fold31(b)
  }

  // ----- The choices, on values -----

  function Advance(counter: U64, steps: nat): U64 {
    (counter + steps) % U64_RANGE
  }

  function RoundRobinIndex(counter: U64, n: nat): nat
    requires n > 0
  {
    counter % n
  }

  function RandomIndex(counter: U64, n: nat): nat
    requires n > 0
  {
    OfBits(Splitmix64(ToBits(counter))) % n
  }

  function LeastLoad(loads: seq<nat>): (m: nat)
    requires loads != []
    ensures m in loads && forall i :: 0 <= i < |loads| ==> m <= loads[i]
  {
    if |loads| == 1 then loads[0]
    else
      var m := LeastLoad(loads[1..]);
      if loads[0] <= m then loads[0] else m
  }

  /** The indices below `k` of the workers with load `m`, in order. */
  function Candidates(loads: seq<nat>, m: nat, k: nat): (c: seq<nat>)
    requires k <= |loads|
    ensures forall j :: 0 <= j < |c| ==> c[j] < k && loads[c[j]] == m
    ensures forall j, j' :: 0 <= j < j' < |c| ==> c[j] < c[j']
    ensures forall i :: 0 <= i < k && loads[i] == m ==> i in c
  {
    if k == 0 then []
    else if loads[k - 1] == m then Candidates(loads, m, k - 1) + [k - 1]
    else Candidates(loads, m, k - 1)
  }

  /**
    The choice and the new counter. `loads` and `reread` are the two readings of the
    workers' pending messages; with no candidate the source divides by zero and panics.
  */
  function LeastLoadedIndex(counter: U64, loads: seq<nat>, reread: seq<nat>): (Option<nat>, U64)
    requires loads != [] && |reread| == |loads|
  {
    var c := Candidates(reread, LeastLoad(loads), |reread|);
    if |c| == 1 then (Some(c[0]), counter)
    else (if c == [] then None else Some(c[counter % |c|]), Advance(counter, 1))
  }

  function Select(routing: PoolRouting, counter: U64, loads: seq<nat>, reread: seq<nat>): (Option<nat>, U64)
    requires loads != [] && |reread| == |loads|
  {
    match routing
    case RoundRobin => (Some(RoundRobinIndex(counter, |loads|)), Advance(counter, 1))
    case KeyBased => (Some(RoundRobinIndex(counter, |loads|)), Advance(counter, 1))
    case Random => (Some(RandomIndex(counter, |loads|)), Advance(counter, 1))
    case LeastLoaded => LeastLoadedIndex(counter, loads, reread)
  }

  // ----- The pool -----

  class PoolRef {
    const workers: nat
    const routing: PoolRouting
    var counter: U64

    constructor (workers: nat, routing: PoolRouting)
      requires workers > 0
      ensures this.workers == workers && this.routing == routing && counter == 0
    {
      this.workers := workers;
      this.routing := routing;
      counter := 0;
    }

    /** Adds one, wrapping around, and returns the value before. */
    method FetchAdd() returns (before: U64)
      modifies this
      ensures before == old(counter) && counter == Advance(old(counter), 1)
    {
      before := counter;
      counter := if counter == U64_RANGE - 1 then 0 else counter + 1;
    }

    method NextRoundRobin() returns (index: nat)
      requires workers > 0
      modifies this
      ensures index == RoundRobinIndex(old(counter), workers) && counter == Advance(old(counter), 1)
    {
      var raw := FetchAdd();
      index := raw % workers;
    }

    method NextRandom() returns (index: nat)
      requires workers > 0
      modifies this
      ensures index == RandomIndex(old(counter), workers) && counter == Advance(old(counter), 1)
    {
      hide Splitmix64;
      var raw := FetchAdd();
      var mixed := OfBits(Splitmix64(ToBits(raw)));
      index := mixed % workers;
    }

    /** None stands for the panic. */
    method NextLeastLoaded(loads: seq<nat>, reread: seq<nat>) returns (index: Option<nat>)
      requires workers > 0 && |loads| == |reread| == workers
      modifies this
      ensures (index, counter) == LeastLoadedIndex(old(counter), loads, reread)
    {
      var minLoad := loads[0];
      for i := 1 to |loads|
        invariant minLoad in loads[..i] && forall j :: 0 <= j < i ==> minLoad <= loads[j]
      {
        if loads[i] < minLoad { minLoad := loads[i]; }
        assert loads[..i + 1] == loads[..i] + [loads[i]];
      }
      assert loads[..|loads|] == loads;
      var candidates: seq<nat> := [];
      for i := 0 to |reread|
        invariant candidates == Candidates(reread, minLoad, i)
      {
        if reread[i] == minLoad { candidates := candidates + [i]; }
      }
      if |candidates| == 1 {
        index := Some(candidates[0]);
      } else {
        var raw := FetchAdd();
        index := if candidates == [] then None else Some(candidates[raw % |candidates|]);
      }
    }

    method SelectWorker(loads: seq<nat>, reread: seq<nat>) returns (index: Option<nat>)
      requires workers > 0 && |loads| == |reread| == workers
      modifies this
      ensures (index, counter) == Select(routing, old(counter), loads, reread)
    {
      match routing {
        case LeastLoaded =>
          index := NextLeastLoaded(loads, reread);
        case Random =>
          var i := NextRandom();
          index := Some(i);
        case _ =>
          var i := NextRoundRobin();
          index := Some(i);
      }
    }
  }
}

/** The hash is a bijection on 64-bit words. */
module PoolHash {
  import opened Pool

  // ----- What undoes each step -----

  function Subtract(x: bv64): bv64 { x - 0x9e3779b97f4a7c15 }

  function Unfold30(x: bv64): bv64 { x ^ (x >> 30) ^ (x >> 60) }

  function Over1(x: bv64): bv64 { x * 0x96de1b173f119089 }

  function Unfold27(x: bv64): bv64 { x ^ (x >> 27) ^ (x >> 54) }

  function Over2(x: bv64): bv64 { x * 0x319642b2d24d8ec3 }

  function Unfold31(x: bv64): bv64 { x ^ (x >> 31) ^ (x >> 62) }

  // Each step and its inverse, first on the plain expression of one of them, then on both.

  lemma SubtractAfterAdd(x: bv64)
    ensures Subtract(Add(x)) == x
  {
    hide Subtract;
    assert Subtract(x + 0x9e3779b97f4a7c15) == x by { SubtractOnWordAdd(x); }
  }

  lemma SubtractOnWordAdd(x: bv64)
    ensures Subtract(x + 0x9e3779b97f4a7c15) == x
  {
  }

  lemma AddAfterSubtract(x: bv64)
    ensures Add(Subtract(x)) == x
  {
    hide Add;
    assert Add(x - 0x9e3779b97f4a7c15) == x by { AddOnWordSubtract(x); }
  }

  lemma AddOnWordSubtract(x: bv64)
    ensures Add(x - 0x9e3779b97f4a7c15) == x
  {
  }

  lemma Unfold30AfterFold30(x: bv64)
    ensures Unfold30(Fold30(x)) == x
  {
    hide Unfold30;
    assert Unfold30(x ^ (x >> 30)) == x by { Unfold30OnWordFold30(x); }
  }

  lemma Unfold30OnWordFold30(x: bv64)
    ensures Unfold30(x ^ (x >> 30)) == x
  {
  }

  lemma Fold30AfterUnfold30(x: bv64)
    ensures Fold30(Unfold30(x)) == x
  {
    hide Fold30;
    assert Fold30(x ^ (x >> 30) ^ (x >> 60)) == x by { Fold30OnWordUnfold30(x); }
  }

  lemma Fold30OnWordUnfold30(x: bv64)
    ensures Fold30(x ^ (x >> 30) ^ (x >> 60)) == x
  {
  }

  lemma Over1AfterTimes1(x: bv64)
    ensures Over1(Times1(x)) == x
  {
    hide Over1;
    assert Over1(x * 0xbf58476d1ce4e5b9) == x by { Over1OnWordTimes1(x); }
  }

  lemma Over1OnWordTimes1(x: bv64)
    ensures Over1(x * 0xbf58476d1ce4e5b9) == x
  {
  }

  lemma Times1AfterOver1(x: bv64)
    ensures Times1(Over1(x)) == x
  {
    hide Times1;
    assert Times1(x * 0x96de1b173f119089) == x by { Times1OnWordOver1(x); }
  }

  lemma Times1OnWordOver1(x: bv64)
    ensures Times1(x * 0x96de1b173f119089) == x
  {
  }

  lemma Unfold27AfterFold27(x: bv64)
    ensures Unfold27(Fold27(x)) == x
  {
    hide Unfold27;
    assert Unfold27(x ^ (x >> 27)) == x by { Unfold27OnWordFold27(x); }
  }

  lemma Unfold27OnWordFold27(x: bv64)
    ensures Unfold27(x ^ (x >> 27)) == x
  {
  }

  lemma Fold27AfterUnfold27(x: bv64)
    ensures Fold27(Unfold27(x)) == x
  {
    hide Fold27;
    assert Fold27(x ^ (x >> 27) ^ (x >> 54)) == x by { Fold27OnWordUnfold27(x); }
  }

  lemma Fold27OnWordUnfold27(x: bv64)
    ensures Fold27(x ^ (x >> 27) ^ (x >> 54)) == x
  {
  }

  lemma Over2AfterTimes2(x: bv64)
    ensures Over2(Times2(x)) == x
  {
    hide Over2;
    assert Over2(x * 0x94d049bb133111eb) == x by { Over2OnWordTimes2(x); }
  }

  lemma Over2OnWordTimes2(x: bv64)
    ensures Over2(x * 0x94d049bb133111eb) == x
  {
  }

  lemma Times2AfterOver2(x: bv64)
    ensures Times2(Over2(x)) == x
  {
    hide Times2;
    assert Times2(x * 0x319642b2d24d8ec3) == x by { Times2OnWordOver2(x); }
  }

  lemma Times2OnWordOver2(x: bv64)
    ensures Times2(x * 0x319642b2d24d8ec3) == x
  {
  }

  lemma Unfold31AfterFold31(x: bv64)
    ensures Unfold31(Fold31(x)) == x
  {
    hide Unfold31;
    assert Unfold31(x ^ (x >> 31)) == x by { Unfold31OnWordFold31(x); }
  }

  lemma Unfold31OnWordFold31(x: bv64)
    ensures Unfold31(x ^ (x >> 31)) == x
  {
  }

  lemma Fold31AfterUnfold31(x: bv64)
    ensures Fold31(Unfold31(x)) == x
  {
    hide Fold31;
    assert Fold31(x ^ (x >> 31) ^ (x >> 62)) == x by { Fold31OnWordUnfold31(x); }
  }

  lemma Fold31OnWordUnfold31(x: bv64)
    ensures Fold31(x ^ (x >> 31) ^ (x >> 62)) == x
  {
  }

  /** The steps of the hash undone, last to first. */
  function Unmix(z: bv64): bv64 {
    var b := Unfold31(z);
    var a := Unfold27(Over2(b));
    Subtract(Unfold30(Over1(a)))
  }

  /** The hash loses nothing: `Unmix` gives back every word that was hashed. */
  lemma UnmixUndoesHash(x: bv64)
    ensures Unmix(Splitmix64(x)) == x
  {
    hide Add, Fold30, Times1, Fold27, Times2, Fold31, Subtract, Unfold30, Over1, Unfold27, Over2, Unfold31;
    var folded := Fold30(Add(x));
    var a := Times1(folded);
    var b := Times2(Fold27(a));
    Unfold31AfterFold31(b);
    Over2AfterTimes2(Fold27(a));
    Unfold27AfterFold27(a);
    Over1AfterTimes1(folded);
    Unfold30AfterFold30(Add(x));
    SubtractAfterAdd(x);
  }

  /** And it misses nothing: every word is the hash of its `Unmix`. */
  lemma HashUndoesUnmix(z: bv64)
    ensures Splitmix64(Unmix(z)) == z
  {
    hide Add, Fold30, Times1, Fold27, Times2, Fold31, Subtract, Unfold30, Over1, Unfold27, Over2, Unfold31;
    var b := Unfold31(z);
    var a := Unfold27(Over2(b));
    AddAfterSubtract(Unfold30(Over1(a)));
    Fold30AfterUnfold30(Over1(a));
    Times1AfterOver1(a);
    Fold27AfterUnfold27(Over2(b));
    Times2AfterOver2(b);
    Fold31AfterUnfold31(z);
  }
}
