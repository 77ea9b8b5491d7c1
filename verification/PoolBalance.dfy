/** How evenly the strategies spread messages over the workers. */
module PoolBalance {
  import opened Numbers
  import opened Wrappers
  import opened Pool
  import opened PoolHash
  import opened PoolWords

  // ----- Counting hits -----

  /** How many of the first `k` picks fall on worker `i`. */
  function Hits(pick: nat -> nat, k: nat, i: nat): nat {
    if k == 0 then 0 else Hits(pick, k - 1, i) + if pick(k - 1) == i then 1 else 0
  }

  /** How many numbers below `m` leave remainder `i`: the quotient m/n, rounded up or down. */
  function Share(m: nat, n: nat, i: nat): (s: nat)
    requires i < n
  {
    (m + n - 1 - i) / n
  }

  lemma ShareStep(m: nat, n: nat, i: nat)
    requires i < n
    ensures Share(m + 1, n, i) == Share(m, n, i) + if m % n == i then 1 else 0
  {
    SumOfQuotients(m, n - 1 - i, n);
    SmallQuotient(n - 1 - i, n);
    SumOfQuotients(m, n - i, n);
    if i > 0 { SmallQuotient(n - i, n); } else { Quotient(n, n, 1, 0); }
    ShareSplit(m, n, i);
    ShareSplit(m + 1, n, i);
    hide *;
    assert m + 1 + (n - 1 - i) == m + (n - i);
    assert m % n < n by { Division(m, n); }
  }

  lemma ShareSplit(m: nat, n: nat, i: nat)
    requires i < n
    ensures Share(m, n, i) == (m + (n - 1 - i)) / n
  {
    assert m + (n - 1 - i) == m + n - 1 - i;
  }

  lemma ShareBounds(c: nat, k: nat, n: nat, i: nat)
    requires i < n
    ensures k / n <= Share(c + k, n, i) - Share(c, n, i) <= k / n + if k % n == 0 then 0 else 1
  {
    SumOfQuotients(c + (n - 1 - i), k, n);
    ShareSplit(c, n, i);
    ShareSplit(c + k, n, i);
    assert c + (n - 1 - i) + k == c + k + (n - 1 - i);
    hide *;
  }

  // ----- Round-robin -----

  /** The pick made when the counter, starting at `c`, has been advanced `t` times. */
  function RoundRobinFrom(c: U64, n: nat): nat -> nat
    requires n > 0
  {
    (t: nat) => RoundRobinIndex(Advance(c, t), n)
  }

  /** Any two workers have been hit equally often, give or take one, over any stretch of picks. */
  ghost predicate AlwaysEven(n: nat)
    requires n > 0
  {
    forall c: U64, k: nat, i: nat, j: nat :: i < n && j < n ==>
                                               Hits(RoundRobinFrom(c, n), k, i) <= Hits(RoundRobinFrom(c, n), k, j) + 1
  }

  lemma PickUntilWrap(c: U64, t: nat, n: nat)
    requires n > 0 && (c + t < U64_RANGE || U64_RANGE % n == 0)
    ensures RoundRobinFrom(c, n)(t) == (c + t) % n
  {
    if c + t >= U64_RANGE { RemainderOfRemainder(c + t, n); }
  }

  lemma {:induction false} HitsUntilWrap(c: U64, k: nat, n: nat, i: nat)
    requires i < n && (c + k <= U64_RANGE || U64_RANGE % n == 0)
    ensures Hits(RoundRobinFrom(c, n), k, i) == Share(c + k, n, i) - Share(c, n, i)
  {
    hide Share, RoundRobinFrom;
    if k > 0 {
      HitsUntilWrap(c, k - 1, n, i);
      ShareStep(c + k - 1, n, i);
      PickUntilWrap(c, k - 1, n);
      assert c + k - 1 + 1 == c + k;
    }
  }

  lemma RemainderOfRemainder(x: nat, n: nat)
    requires n > 0 && U64_RANGE % n == 0
    ensures (x % U64_RANGE) % n == x % n
  {
    var p := U64_RANGE / n;
    var w := x / U64_RANGE;
    var y := x % U64_RANGE;
    var q := y / n;
    assert U64_RANGE == p * n && x == w * U64_RANGE + y && y == q * n + y % n;
    assert (w * p + q) * n == w * (p * n) + q * n;
    Quotient(x, n, w * p + q, y % n);
  }

  /** Until the counter wraps around, worker counts over any stretch of picks differ by at most one. */
  lemma RoundRobinIsEven(c: U64, k: nat, n: nat, i: nat)
    requires i < n && (c + k <= U64_RANGE || U64_RANGE % n == 0)
    ensures k / n <= Hits(RoundRobinFrom(c, n), k, i) <= k / n + if k % n == 0 then 0 else 1
  {
    HitsUntilWrap(c, k, n, i);
    ShareBounds(c, k, n, i);
  }

  /** Also across the wrap exactly when the pool's size divides 2^64. */
  lemma WrapIsHarmlessIff(n: nat)
    requires IsPoolSize(n)
    ensures AlwaysEven(n) <==> U64_RANGE % n == 0
  {
    if U64_RANGE % n == 0 {
      forall c: U64, k: nat, i: nat, j: nat | i < n && j < n
        ensures Hits(RoundRobinFrom(c, n), k, i) <= Hits(RoundRobinFrom(c, n), k, j) + 1
      {
        RoundRobinIsEven(c, k, n, i);
        RoundRobinIsEven(c, k, n, j);
      }
    } else {
      UnevenAcrossWrap(n);
    }
  }

  /**
    Otherwise the last U64_RANGE % n picks before the wrap and as many after it hit worker 0
    twice and the last worker never.
  */
  lemma UnevenAcrossWrap(n: nat)
    requires IsPoolSize(n) && U64_RANGE % n != 0
    ensures var r := U64_RANGE % n;
            && Hits(RoundRobinFrom(U64_RANGE - r, n), 2 * r, 0) == 2
            && Hits(RoundRobinFrom(U64_RANGE - r, n), 2 * r, n - 1) == 0
  {
    var r := U64_RANGE % n;
    var pick := RoundRobinFrom(U64_RANGE - r, n);
    forall t: nat | t < 2 * r ensures pick(t) == if t < r then t else t - r {
      PickAroundWrap(n, t);
    }
    hide RoundRobinFrom;
    HitsOfTwoRounds(pick, r, n, r);
    HitsOfTwoRounds(pick, r, n, 2 * r);
  }

  lemma PickAroundWrap(n: nat, t: nat)
    requires IsPoolSize(n) && U64_RANGE % n != 0 && t < 2 * (U64_RANGE % n)
    ensures var r := U64_RANGE % n; RoundRobinFrom(U64_RANGE - r, n)(t) == if t < r then t else t - r
  {
    var q, r := U64_RANGE / n, U64_RANGE % n;
    var qn := q * n;
    assert U64_RANGE == qn + r;
    if t < r {
      PickUntilWrap(U64_RANGE - r, t, n);
      Quotient(qn + t, n, q, t);
    } else {
      assert Advance(U64_RANGE - r, t) == t - r;
      SmallQuotient(t - r, n);
    }
  }

  lemma {:induction false} HitsOfTwoRounds(pick: nat -> nat, r: nat, n: nat, k: nat)
    requires 0 < r < n && k <= 2 * r
    requires forall t: nat :: t < 2 * r ==> pick(t) == if t < r then t else t - r
    ensures Hits(pick, k, 0) == (if k == 0 then 0 else if k <= r then 1 else 2)
    ensures Hits(pick, k, n - 1) == 0
  {
    if k > 0 { HitsOfTwoRounds(pick, r, n, k - 1); }
  }

  // ----- Hashed round-robin -----

  /** `Random` is round-robin with the counter values reordered by a bijection. */
  lemma RandomIsReorderedRoundRobin(z: bv64, n: nat)
    requires n > 0
    ensures RandomIndex(OfBits(Unmix(z)), n) == RoundRobinIndex(OfBits(z), n)
    ensures RandomIndex(OfBits(z), n) == RoundRobinIndex(OfBits(Splitmix64(z)), n)
  {
    hide Splitmix64, Unmix, OfBits, ToBits;
    WordOfBits(z);
    WordOfBits(Unmix(z));
    HashUndoesUnmix(z);
  }

  function HashWord(x: U64): U64 { OfBits(Splitmix64(ToBits(x))) }

  function UnhashWord(z: U64): U64 { OfBits(Unmix(ToBits(z))) }

  lemma HashWordIsInvertible(x: U64)
    ensures UnhashWord(HashWord(x)) == x && HashWord(UnhashWord(x)) == x
  {
    hide Splitmix64, Unmix, OfBits, ToBits;
    UnmixUndoesHash(ToBits(x));
    HashUndoesUnmix(ToBits(x));
    WordOfBits(Splitmix64(ToBits(x)));
    WordOfBits(Unmix(ToBits(x)));
    BitsOfWord(x);
  }

  /** The pick made at counter value `t`. */
  function RandomPick(n: nat): nat -> nat
    requires n > 0
  {
    (t: nat) => RandomIndex(t % U64_RANGE, n)
  }

  /** The picks of worker `i` among the first `k`. */
  function HitSet(pick: nat -> nat, k: nat, i: nat): set<nat> {
    set t: nat | t < k && pick(t) == i
  }

  lemma HitSetGrows(pick: nat -> nat, k: nat, i: nat)
    requires k > 0
    ensures |HitSet(pick, k, i)| == |HitSet(pick, k - 1, i)| + if pick(k - 1) == i then 1 else 0
  {
    var before := HitSet(pick, k - 1, i);
    if pick(k - 1) == i {
      assert HitSet(pick, k, i) == before + {k - 1};
    } else {
      assert HitSet(pick, k, i) == before;
    }
  }

  lemma {:induction false} HitSetSize(pick: nat -> nat, k: nat, i: nat)
    ensures |HitSet(pick, k, i)| == Hits(pick, k, i)
  {
    if k > 0 {
      HitSetSize(pick, k - 1, i);
      HitSetGrows(pick, k, i);
    }
    hide HitSet;
  }

  lemma {:induction false} SameSize(a: set<nat>, b: set<nat>, f: nat -> nat, g: nat -> nat)
    requires forall x :: x in a ==> f(x) in b && g(f(x)) == x
    requires forall y :: y in b ==> g(y) in a && f(g(y)) == y
    ensures |a| == |b|
  {
    if a == {} {
      assert forall y :: y in b ==> g(y) in a;
      assert b == {};
    } else {
      var x :| x in a;
      SameSize(a - {x}, b - {f(x)}, f, g);
    }
  }

  lemma RandomPickIs(t: nat, n: nat)
    requires n > 0 && t < U64_RANGE
    ensures RandomPick(n)(t) == RoundRobinFrom(0, n)(HashWord(t))
  {
    hide OfBits, ToBits, Splitmix64;
    assert t % U64_RANGE == t && Advance(0, HashWord(t)) == HashWord(t);
    assert RandomPick(n)(t) == RandomIndex(t, n) == RoundRobinIndex(HashWord(t), n);
    hide HashWord, Advance, RoundRobinIndex, RandomIndex;
  }

  /** Over a whole period random routing picks each worker as often as round-robin does. */
  lemma RandomHitsAsRoundRobin(n: nat, i: nat)
    requires n > 0
    ensures Hits(RandomPick(n), U64_RANGE, i) == Hits(RoundRobinFrom(0, n), U64_RANGE, i)
  {
    hide HashWord, UnhashWord, RandomPick, RoundRobinFrom, Hits;
    var random, inTurn := RandomPick(n), RoundRobinFrom(0, n);
    var f := (t: nat) => HashWord(t % U64_RANGE);
    var g := (t: nat) => UnhashWord(t % U64_RANGE);
    forall t: nat | t < U64_RANGE ensures random(t) == inTurn(HashWord(t)) && UnhashWord(HashWord(t)) == t {
      RandomPickIs(t, n);
      HashWordIsInvertible(t);
    }
    forall t: nat | t < U64_RANGE ensures HashWord(UnhashWord(t)) == t {
      HashWordIsInvertible(t);
    }
    SameSize(HitSet(random, U64_RANGE, i), HitSet(inTurn, U64_RANGE, i), f, g);
    HitSetSize(random, U64_RANGE, i);
    HitSetSize(inTurn, U64_RANGE, i);
  }

  /** So random routing serves every worker its share of the period: equally often, give or take one. */
  lemma RandomIsEvenOverPeriod(n: nat, i: nat)
    requires i < n
    ensures Hits(RandomPick(n), U64_RANGE, i) == Share(U64_RANGE, n, i)
    ensures U64_RANGE / n <= Share(U64_RANGE, n, i) <= U64_RANGE / n + if U64_RANGE % n == 0 then 0 else 1
  {
    hide RandomPick, RoundRobinFrom, Hits, Share;
    RandomHitsAsRoundRobin(n, i);
    HitsUntilWrap(0, U64_RANGE, n, i);
    NoShareOfNothing(n, i);
    ShareBounds(0, U64_RANGE, n, i);
  }

  lemma NoShareOfNothing(n: nat, i: nat)
    requires i < n
    ensures Share(0, n, i) == 0
  {
    SmallQuotient(n - 1 - i, n);
  }

  // ----- Least loaded -----

  /** With one reading of the loads the pick is a least loaded worker; the counter moves only on a tie. */
  lemma PicksLeastLoaded(counter: U64, loads: seq<nat>)
    requires loads != []
    ensures var (index, counter') := LeastLoadedIndex(counter, loads, loads);
            && index.Some? && index.value < |loads|
            && (forall j :: 0 <= j < |loads| ==> loads[index.value] <= loads[j])
            && (counter' == counter <==>
                forall j :: 0 <= j < |loads| && j != index.value ==> loads[index.value] < loads[j])
  {
    var c := Candidates(loads, LeastLoad(loads), |loads|);
    assert c != [];
    if |c| > 1 { assert c[0] != c[1]; }
  }

  /** It panics exactly when no worker's second reading is the minimum of the first. */
  lemma PanicsIff(counter: U64, loads: seq<nat>, reread: seq<nat>)
    requires loads != [] && |reread| == |loads|
    ensures LeastLoadedIndex(counter, loads, reread).0 == None <==> LeastLoad(loads) !in reread
  {
    var c := Candidates(reread, LeastLoad(loads), |reread|);
    if c != [] { assert reread[c[0]] == LeastLoad(loads); }
  }

  /** A message that reaches the only worker between the two readings. */
  lemma StaleReadingPanics(counter: U64)
    ensures LeastLoadedIndex(counter, [0], [1]).0 == None
  {
    PanicsIff(counter, [0], [1]);
  }

  lemma {:induction false} AllAreCandidates(loads: seq<nat>, m: nat, k: nat)
    requires k <= |loads| && forall i :: 0 <= i < |loads| ==> loads[i] == m
    ensures |Candidates(loads, m, k)| == k
    ensures forall i :: 0 <= i < k ==> Candidates(loads, m, k)[i] == i
  {
    if k > 0 { AllAreCandidates(loads, m, k - 1); }
  }

  /** Workers that report equal loads are served in turn. */
  lemma EqualLoadsMeanRoundRobin(counter: U64, loads: seq<nat>, m: nat)
    requires loads != [] && forall i :: 0 <= i < |loads| ==> loads[i] == m
    ensures LeastLoadedIndex(counter, loads, loads)
         == (Some(RoundRobinIndex(counter, |loads|)), if |loads| == 1 then counter else Advance(counter, 1))
  {
    AllAreCandidates(loads, m, |loads|);
  }

  /** The worker that gets the next message. */
  function Target(counter: U64, loads: seq<nat>): (i: nat)
    requires loads != []
    ensures i < |loads|
  {
    PicksLeastLoaded(counter, loads);
    LeastLoadedIndex(counter, loads, loads).0.value
  }

  function WithOneMore(loads: seq<nat>, i: nat): (r: seq<nat>)
    requires i < |loads|
    ensures |r| == |loads|
  {
    loads[i := loads[i] + 1]
  }

  /** The loads after `k` messages have been routed and none completed. */
  function Loaded(counter: U64, loads: seq<nat>, k: nat): (r: seq<nat>)
    requires loads != []
    ensures |r| == |loads|
    decreases k
  {
    if k == 0 then loads
    else Loaded(LeastLoadedIndex(counter, loads, loads).1, WithOneMore(loads, Target(counter, loads)), k - 1)
  }

  predicate Level(loads: seq<nat>) {
    forall i, j :: 0 <= i < |loads| && 0 <= j < |loads| ==> loads[i] <= loads[j] + 1
  }

  function Total(loads: seq<nat>): nat {
    if loads == [] then 0 else loads[0] + Total(loads[1..])
  }

  lemma {:induction false} TotalOfUpdate(loads: seq<nat>, i: nat)
    requires i < |loads|
    ensures Total(WithOneMore(loads, i)) == Total(loads) + 1
  {
    var loads' := WithOneMore(loads, i);
    if i == 0 {
      assert loads'[1..] == loads[1..];
    } else {
      TotalOfUpdate(loads[1..], i - 1);
      assert loads'[1..] == WithOneMore(loads[1..], i - 1);
    }
  }

  lemma OneMoreStaysLevel(counter: U64, loads: seq<nat>)
    requires loads != [] && Level(loads)
    ensures Level(WithOneMore(loads, Target(counter, loads)))
  {
    PicksLeastLoaded(counter, loads);
    hide LeastLoadedIndex;
  }

  /** Routing to the least loaded worker keeps the loads level and adds one for each message. */
  lemma {:induction false} LoadsStayLevel(counter: U64, loads: seq<nat>, k: nat)
    requires loads != [] && Level(loads)
    ensures Level(Loaded(counter, loads, k)) && Total(Loaded(counter, loads, k)) == Total(loads) + k
    decreases k
  {
    hide LeastLoadedIndex, Target, WithOneMore, Level, Total;
    if k > 0 {
      var i := Target(counter, loads);
      OneMoreStaysLevel(counter, loads);
      TotalOfUpdate(loads, i);
      LoadsStayLevel(LeastLoadedIndex(counter, loads, loads).1, WithOneMore(loads, i), k - 1);
    }
  }

  /** The workers with load `m`. */
  function CountAt(loads: seq<nat>, m: nat): nat {
    if loads == [] then 0 else CountAt(loads[1..], m) + if loads[0] == m then 1 else 0
  }

  lemma {:induction false} TotalOfLevel(loads: seq<nat>, m: nat)
    requires forall i :: 0 <= i < |loads| ==> m <= loads[i] <= m + 1
    ensures Total(loads) == m * |loads| + CountAt(loads, m + 1)
  {
    if loads != [] {
      TotalOfLevel(loads[1..], m);
      assert m * |loads| == m * |loads[1..]| + m;
    }
  }

  /** The workers with load `m` are all of them, some, or none. */
  lemma {:induction false} CountsSome(loads: seq<nat>, m: nat, i: nat)
    requires i < |loads|
    ensures loads[i] == m ==> 0 < CountAt(loads, m)
    ensures loads[i] != m ==> CountAt(loads, m) < |loads|
    ensures CountAt(loads, m) <= |loads|
  {
    if |loads| > 1 {
      CountsSome(loads[1..], m, if i == 0 then 0 else i - 1);
    }
  }

  /** Level loads are the average, and as many of them one above it as the division leaves over. */
  lemma LevelIsAverage(loads: seq<nat>, n: nat, i: nat)
    requires Level(loads) && i < n == |loads|
    ensures Total(loads) / n <= loads[i] <= Total(loads) / n + if Total(loads) % n == 0 then 0 else 1
    ensures CountAt(loads, Total(loads) / n + 1) == Total(loads) % n
  {
    var m := LeastLoad(loads);
    var low :| 0 <= low < |loads| && loads[low] == m;
    assert forall j :: 0 <= j < |loads| ==> loads[j] <= loads[low] + 1;
    TotalOfLevel(loads, m);
    CountsSome(loads, m + 1, low);
    CountsSome(loads, m + 1, i);
    Quotient(Total(loads), n, m, CountAt(loads, m + 1));
  }

  /**
    So from loads within one of each other, `k` messages leave every worker with the average
    load, except that as many workers as the division leaves over have one more.
  */
  lemma LeastLoadedIsEven(counter: U64, loads: seq<nat>, k: nat, i: nat)
    requires i < |loads| && Level(loads)
    ensures var total, n, after := Total(loads) + k, |loads|, Loaded(counter, loads, k);
            && total / n <= after[i] <= total / n + (if total % n == 0 then 0 else 1)
            && CountAt(after, total / n + 1) == total % n
  {
    hide Level, Total, Loaded, CountAt;
    LoadsStayLevel(counter, loads, k);
    LevelIsAverage(Loaded(counter, loads, k), |loads|, i);
  }

  // ----- What each strategy chooses -----

  /** Candidate j has j workers at the load before it. */
  lemma {:induction false} CandidateRank(loads: seq<nat>, m: nat, k: nat, j: nat)
    requires k <= |loads| && j < |Candidates(loads, m, k)|
    ensures CountAt(loads[..Candidates(loads, m, k)[j]], m) == j
    ensures |Candidates(loads, m, k)| == CountAt(loads[..k], m)
  {
    CandidateCount(loads, m, k);
    if loads[k - 1] != m || j < |Candidates(loads, m, k)| - 1 {
      CandidateRank(loads, m, k - 1, j);
    } else {
      CandidateCount(loads, m, k - 1);
    }
  }

  lemma {:induction false} CandidateCount(loads: seq<nat>, m: nat, k: nat)
    requires k <= |loads|
    ensures |Candidates(loads, m, k)| == CountAt(loads[..k], m)
  {
    if k > 0 {
      CandidateCount(loads, m, k - 1);
      CountOneMore(loads[..k - 1], loads[k - 1], m);
      assert loads[..k] == loads[..k - 1] + [loads[k - 1]];
    }
  }

  lemma {:induction false} CountOneMore(loads: seq<nat>, x: nat, m: nat)
    ensures CountAt(loads + [x], m) == CountAt(loads, m) + if x == m then 1 else 0
  {
    if loads == [] {
      assert ([] + [x])[1..] == [];
    } else {
      CountOneMore(loads[1..], x, m);
      assert (loads + [x])[1..] == loads[1..] + [x];
    }
  }

  /**
    What a pool of n workers chooses at a counter value, when both readings of the loads
    agree. By turns and by key: the worker that the value points to. At random: the one that
    its hash points to. By load: one with the least load, and of several the one that the value
    points to among them. The counter moves by one, except past a single least loaded worker.
  */
  lemma StrategyChooses(routing: PoolRouting, counter: U64, loads: seq<nat>)
    requires loads != []
    ensures var (index, counter') := Select(routing, counter, loads, loads);
            var next := if counter == 0xffff_ffff_ffff_ffff then 0 else counter + 1;
            && index.Some? && index.value < |loads|
            && match routing
               case RoundRobin => index.value == counter % |loads| && counter' == next
               case KeyBased => index.value == counter % |loads| && counter' == next
               case Random => index.value == HashWord(counter) % |loads| && counter' == next
               case LeastLoaded =>
                 var m := loads[index.value];
                 var tied := CountAt(loads, m);
                 && (forall j :: 0 <= j < |loads| ==> m <= loads[j])
                 && tied > 0
                 && CountAt(loads[..index.value], m) == counter % tied
                 && counter' == if tied == 1 then counter else next
  {
    assert loads[..|loads|] == loads;
    assert Advance(counter, 1) == if counter == 0xffff_ffff_ffff_ffff then 0 else counter + 1;
    if routing.LeastLoaded? {
      PicksLeastLoaded(counter, loads);
      var c := Candidates(loads, LeastLoad(loads), |loads|);
      assert c != [];
      CandidateRank(loads, LeastLoad(loads), |loads|, counter % |c|);
    }
    hide Splitmix64, ToBits, OfBits, CountAt;
  }

  /** The hash is that of the reference implementation: the first value of a generator that starts at zero. */
  lemma HashOfZero()
    ensures Splitmix64(0) == 0xe220a8397b1dcdaf
  {
  }
}
