/**
 The bot's crash minimizer.  Running the target on an input is an oracle: a fixed verdict for
 every input, which may also be an error.  Cancellation of the context is a predicate on the
 number of oracle calls made so far.
 */
module Minimizer {
  import opened Common

  newtype Byte = b: int | 0 <= b < 256

  datatype Verdict = Crash | NoCrash | OracleError

  type Oracle = seq<Byte> -> Verdict

  // ---------------------------------------------------------------- delta debugging, as functions

  /** `s` without the chunk of size `c` that starts at `i`; the last chunk may be shorter. */
  function Cut(s: seq<Byte>, i: nat, c: nat): (t: seq<Byte>)
    requires i < |s|
    ensures |t| == |s| - Min(c, |s| - i)
  {
    s[..i] + s[Min(i + c, |s|)..]
  }

  /** Try the chunks of size `c` from position `i` on; the first removable one goes. */
  function Scan(oracle: Oracle, s: seq<Byte>, c: nat, i: nat): Option<seq<Byte>>
    requires c >= 1
    decreases |s| - i
  {
    if i >= |s| then None
    else if oracle(Cut(s, i, c)).Crash? then Some(Cut(s, i, c))
    else Scan(oracle, s, c, i + c)
  }

  /** Halve the chunk size until some chunk can go. */
  function Pass(oracle: Oracle, s: seq<Byte>, c: nat): Option<seq<Byte>> {
    if c == 0 then None
    else
      var t := Scan(oracle, s, c, 0);
      if t.Some? then t else Pass(oracle, s, c / 2)
  }

  /** At most `budget` improving rounds, each starting over at half the current length. */
  function Shrink(oracle: Oracle, s: seq<Byte>, budget: nat): seq<Byte>
    decreases budget
  {
    if budget == 0 then s
    else
      var t := Pass(oracle, s, |s| / 2);
      if t.None? then s else Shrink(oracle, t.value, budget - 1)
  }

  /** The configured number of iterations: zero means the default, a negative one means none. */
  function Budget(configured: int, default: nat): nat {
    if configured == 0 then default else if configured < 0 then 0 else configured
  }

  /** No chunk of any size the algorithm tries can be removed. */
  predicate Stuck(oracle: Oracle, s: seq<Byte>) {
    Pass(oracle, s, |s| / 2).None?
  }

  /** No single byte can be removed. */
  ghost predicate OneMinimal(oracle: Oracle, s: seq<Byte>) {
    forall i | 0 <= i < |s| :: !oracle(s[..i] + s[i + 1..]).Crash?
  }

  // ---------------------------------------------------------------- subsequences

  ghost predicate Embeds(p: seq<nat>, a: seq<Byte>, b: seq<Byte>) {
    |p| == |a| &&
    (forall i | 0 <= i < |p| :: p[i] < |b| && a[i] == b[p[i]]) &&
    (forall i, j | 0 <= i < j < |p| :: p[i] < p[j])
  }

  ghost predicate Subsequence(a: seq<Byte>, b: seq<Byte>) {
    exists p :: Embeds(p, a, b)
  }

  lemma SubsequenceRefl(a: seq<Byte>)
    ensures Subsequence(a, a)
  {
    assert Embeds(seq(|a|, i => i), a, a);
  }

  lemma CutIsSubsequence(s: seq<Byte>, i: nat, c: nat)
    requires i < |s|
    ensures Subsequence(Cut(s, i, c), s)
  {
    var n := Min(c, |s| - i);
    assert Embeds(seq(|s| - n, k requires 0 <= k < |s| - n => if k < i then k else k + n), Cut(s, i, c), s);
  }

  lemma SubsequenceTrans(a: seq<Byte>, b: seq<Byte>, c: seq<Byte>)
    requires Subsequence(a, b) && Subsequence(b, c)
    ensures Subsequence(a, c)
  {
    var p :| Embeds(p, a, b);
    var q :| Embeds(q, b, c);
    assert Embeds(seq(|p|, i requires 0 <= i < |p| => q[p[i]]), a, c);
  }

  // ---------------------------------------------------------------- what one scan and one pass do

  ghost predicate Improves(oracle: Oracle, t: seq<Byte>, s: seq<Byte>) {
    oracle(t).Crash? && |t| < |s| && Subsequence(t, s)
  }

  lemma {:induction false} ScanImproves(oracle: Oracle, s: seq<Byte>, c: nat, i: nat)
    requires c >= 1
    ensures Scan(oracle, s, c, i).Some? ==>
              Improves(oracle, Scan(oracle, s, c, i).value, s) && |s| - c <= |Scan(oracle, s, c, i).value|
    decreases |s| - i
  {
    if i < |s| {
      if oracle(Cut(s, i, c)).Crash? {
        CutIsSubsequence(s, i, c);
      } else {
        ScanImproves(oracle, s, c, i + c);
      }
    }
  }

  /** A pass that succeeds yields a shorter, non-empty, crashing subsequence. */
  lemma {:induction false} PassImproves(oracle: Oracle, s: seq<Byte>, c: nat)
    requires c <= |s| / 2
    ensures Pass(oracle, s, c).Some? ==>
              Improves(oracle, Pass(oracle, s, c).value, s) && |Pass(oracle, s, c).value| >= 1
  {
    if c > 0 {
      ScanImproves(oracle, s, c, 0);
      PassImproves(oracle, s, c / 2);
    }
  }

  lemma {:induction false} ScanOnesExhaustive(oracle: Oracle, s: seq<Byte>, i: nat, k: nat)
    requires Scan(oracle, s, 1, i).None? && i <= k < |s|
    ensures !oracle(Cut(s, k, 1)).Crash?
    decreases |s| - i
  {
    if i < k {
      ScanOnesExhaustive(oracle, s, i + 1, k);
    }
  }

  lemma {:induction false} PassEndsAtOne(oracle: Oracle, s: seq<Byte>, c: nat)
    requires c >= 1 && Pass(oracle, s, c).None?
    ensures Scan(oracle, s, 1, 0).None?
    decreases c
  {
    if c > 1 {
      PassEndsAtOne(oracle, s, c / 2);
    }
  }

  /** Where the algorithm is stuck, with at least two bytes left, every byte is needed. */
  lemma StuckIsOneMinimal(oracle: Oracle, s: seq<Byte>)
    requires |s| >= 2 && Stuck(oracle, s)
    ensures OneMinimal(oracle, s)
  {
    PassEndsAtOne(oracle, s, |s| / 2);
    forall i | 0 <= i < |s|
      ensures !oracle(s[..i] + s[i + 1..]).Crash?
    {
      ScanOnesExhaustive(oracle, s, 0, i);
      assert Cut(s, i, 1) == s[..i] + s[i + 1..];
    }
  }

  // ---------------------------------------------------------------- which chunk a round removes

  /** The chunk sizes of a round are |s| / 2, |s| / 4, |s| / 8 and so on down to one. */
  ghost function Size(n: nat, k: nat): nat {
    if k == 0 then n else Size(n, k - 1) / 2
  }

  /** The chunks of one size follow each other from the start of the input. */
  ghost function Start(c: nat, j: nat): nat {
    j * c
  }

  ghost predicate IsChunk(s: seq<Byte>, c: nat, j: nat) {
    c >= 1 && Start(c, j) < |s|
  }

  /** The input without its j-th chunk of size `c`. */
  ghost function Rest(s: seq<Byte>, c: nat, j: nat): seq<Byte>
    requires IsChunk(s, c, j)
  {
    if Start(c, j) + c < |s| then s[..Start(c, j)] + s[Start(c, j) + c..] else s[..Start(c, j)]
  }

  ghost predicate Removable(oracle: Oracle, s: seq<Byte>, c: nat, j: nat) {
    IsChunk(s, c, j) && oracle(Rest(s, c, j)).Crash?
  }

  /** No chunk of the k-th size or a smaller one can be removed. */
  ghost predicate NoneFrom(oracle: Oracle, s: seq<Byte>, k: nat) {
    forall m: nat, j: nat | k <= m :: !Removable(oracle, s, Size(|s|, m), j)
  }

  /** Of the chunks of the k-th size or smaller ones, the j-th of the m-th size is the first that
      can be removed: no larger one can, nor an earlier one of its size. */
  ghost predicate FirstFrom(oracle: Oracle, s: seq<Byte>, k: nat, m: nat, j: nat) {
    k <= m && Removable(oracle, s, Size(|s|, m), j) &&
    (forall l: nat, i: nat | k <= l < m :: !Removable(oracle, s, Size(|s|, l), i)) &&
    (forall i: nat | i < j :: !Removable(oracle, s, Size(|s|, m), i))
  }

  /** A round takes `s` to `t`: it removes the first removable chunk of the largest size that has one. */
  ghost predicate Round(oracle: Oracle, s: seq<Byte>, t: seq<Byte>) {
    exists m: nat, j: nat :: FirstFrom(oracle, s, 1, m, j) && t == Rest(s, Size(|s|, m), j)
  }

  lemma {:induction false} SizesVanish(n: nat, k: nat, m: nat)
    requires Size(n, k) == 0 && k <= m
    ensures Size(n, m) == 0
    decreases m
  {
    if k < m {
      SizesVanish(n, k, m - 1);
    }
  }

  /** A scan finds the first removable chunk from the j-th on, or none if there is none. */
  lemma {:induction false} ScanExact(oracle: Oracle, s: seq<Byte>, c: nat, j: nat)
    requires c >= 1
    ensures Scan(oracle, s, c, Start(c, j)).None? ==> forall i: nat | j <= i :: !Removable(oracle, s, c, i)
    ensures Scan(oracle, s, c, Start(c, j)).Some? ==>
              exists i: nat :: j <= i && Removable(oracle, s, c, i) &&
                               Scan(oracle, s, c, Start(c, j)).value == Rest(s, c, i) &&
                               forall h: nat | j <= h < i :: !Removable(oracle, s, c, h)
    decreases |s| - Start(c, j)
  {
    if Start(c, j) >= |s| {
      forall i: nat | j <= i
        ensures !Removable(oracle, s, c, i)
      {
        MulMonotone(j, i, c);
      }
    } else {
      assert Cut(s, Start(c, j), c) == Rest(s, c, j);
      if !oracle(Rest(s, c, j)).Crash? {
        assert Start(c, j + 1) == Start(c, j) + c;
        ScanExact(oracle, s, c, j + 1);
      } else {
        assert Removable(oracle, s, c, j);
      }
    }
  }

  /** A pass from the k-th size on: the first removable chunk, or none if there is none. */
  lemma {:induction false} PassExact(oracle: Oracle, s: seq<Byte>, k: nat)
    ensures Pass(oracle, s, Size(|s|, k)).None? ==> NoneFrom(oracle, s, k)
    ensures Pass(oracle, s, Size(|s|, k)).Some? ==>
              exists m: nat, j: nat :: FirstFrom(oracle, s, k, m, j) &&
                                       Pass(oracle, s, Size(|s|, k)).value == Rest(s, Size(|s|, m), j)
    decreases Size(|s|, k)
  {
    var c := Size(|s|, k);
    if c == 0 {
      forall m: nat, j: nat | k <= m
        ensures !Removable(oracle, s, Size(|s|, m), j)
      {
        SizesVanish(|s|, k, m);
      }
    } else {
      assert Start(c, 0) == 0;
      ScanExact(oracle, s, c, 0);
      if Scan(oracle, s, c, 0).Some? {
        var j: nat :| Removable(oracle, s, c, j) && Scan(oracle, s, c, 0).value == Rest(s, c, j) &&
                      forall h: nat | h < j :: !Removable(oracle, s, c, h);
        assert FirstFrom(oracle, s, k, k, j);
      } else {
        PassExact(oracle, s, k + 1);
        if Pass(oracle, s, c).Some? {
          var m: nat, j: nat :| FirstFrom(oracle, s, k + 1, m, j) &&
                                Pass(oracle, s, Size(|s|, k + 1)).value == Rest(s, Size(|s|, m), j);
          assert FirstFrom(oracle, s, k, m, j);
        }
      }
    }
  }

  /** A round improves exactly when some chunk of some size can be removed. */
  lemma StuckIff(oracle: Oracle, s: seq<Byte>)
    ensures Stuck(oracle, s) <==> NoneFrom(oracle, s, 1)
  {
    assert Size(|s|, 1) == |s| / 2;
    PassExact(oracle, s, 1);
  }

  /** ... and then it removes the first removable chunk of the largest size that has one. */
  lemma RoundIff(oracle: Oracle, s: seq<Byte>, t: seq<Byte>)
    ensures Pass(oracle, s, |s| / 2) == Some(t) <==> Round(oracle, s, t)
  {
    assert Size(|s|, 1) == |s| / 2;
    PassExact(oracle, s, 1);
    if Round(oracle, s, t) {
      var m: nat, j: nat :| FirstFrom(oracle, s, 1, m, j) && t == Rest(s, Size(|s|, m), j);
      var l: nat, i: nat :| FirstFrom(oracle, s, 1, l, i) &&
                            Pass(oracle, s, |s| / 2).value == Rest(s, Size(|s|, l), i);
      assert l == m && i == j;
    }
  }

  /** A whole minimization: round after round, until the budget is used up or nothing can go. */
  ghost predicate Trace(oracle: Oracle, trace: seq<seq<Byte>>, rounds: nat, budget: nat) {
    |trace| == rounds + 1 && rounds <= budget &&
    (forall i | 0 <= i < rounds :: Round(oracle, trace[i], trace[i + 1])) &&
    (rounds < budget ==> NoneFrom(oracle, trace[rounds], 1))
  }

  ghost predicate Minimization(oracle: Oracle, s: seq<Byte>, t: seq<Byte>, rounds: nat, budget: nat) {
    exists trace :: Trace(oracle, trace, rounds, budget) && trace[0] == s && trace[rounds] == t
  }

  lemma OneRoundMore(oracle: Oracle, s: seq<Byte>, t: seq<Byte>, u: seq<Byte>, rounds: nat, budget: nat)
    requires Round(oracle, s, t) && Minimization(oracle, t, u, rounds, budget)
    ensures Minimization(oracle, s, u, rounds + 1, budget + 1)
  {
    var rest :| Trace(oracle, rest, rounds, budget) && rest[0] == t && rest[rounds] == u;
    var trace := [s] + rest;
    forall i | 0 <= i < rounds + 1
      ensures Round(oracle, trace[i], trace[i + 1])
    {
      assert i > 0 ==> Round(oracle, rest[i - 1], rest[i]);
    }
    assert Trace(oracle, trace, rounds + 1, budget + 1);
  }

  lemma {:induction false} ShrinkTrace(oracle: Oracle, s: seq<Byte>, budget: nat)
    ensures Minimization(oracle, s, Shrink(oracle, s, budget), ShrinkRounds(oracle, s, budget), budget)
    decreases budget
  {
    var t := Pass(oracle, s, |s| / 2);
    if budget == 0 || t.None? {
      StuckIff(oracle, s);
      assert Trace(oracle, [s], 0, budget);
    } else {
      RoundIff(oracle, s, t.value);
      ShrinkTrace(oracle, t.value, budget - 1);
      OneRoundMore(oracle, s, t.value, Shrink(oracle, s, budget),
                   ShrinkRounds(oracle, t.value, budget - 1), budget - 1);
    }
  }

  // ---------------------------------------------------------------- the whole minimization

  /** The result is a subsequence of the input, crashes if the input does, and is empty only
      if the input is. */
  lemma {:induction false} ShrinkSound(oracle: Oracle, s: seq<Byte>, budget: nat)
    ensures Subsequence(Shrink(oracle, s, budget), s)
    ensures oracle(s).Crash? ==> oracle(Shrink(oracle, s, budget)).Crash?
    ensures Shrink(oracle, s, budget) == s || oracle(Shrink(oracle, s, budget)).Crash?
    ensures |s| >= 1 ==> |Shrink(oracle, s, budget)| >= 1
    decreases budget
  {
    SubsequenceRefl(s);
    if budget > 0 {
      PassImproves(oracle, s, |s| / 2);
      var t := Pass(oracle, s, |s| / 2);
      if t.Some? {
        ShrinkSound(oracle, t.value, budget - 1);
        SubsequenceTrans(Shrink(oracle, s, budget), t.value, s);
      }
    }
  }

  /** Every round costs at least a byte, so a budget one short of the input length is enough
      to get stuck. */
  lemma {:induction false} ShrinkGetsStuck(oracle: Oracle, s: seq<Byte>, budget: nat)
    requires |s| <= budget + 1
    ensures Stuck(oracle, Shrink(oracle, s, budget))
    decreases budget
  {
    if |s| >= 2 {
      PassImproves(oracle, s, |s| / 2);
      var t := Pass(oracle, s, |s| / 2);
      if t.Some? {
        ShrinkGetsStuck(oracle, t.value, budget - 1);
      }
    }
  }

  /** Delta debugging is 1-minimal whenever the budget is at least the input length less one. */
  lemma ShrinkOneMinimal(oracle: Oracle, s: seq<Byte>, budget: nat)
    requires |s| <= budget + 1 && |Shrink(oracle, s, budget)| >= 2
    ensures OneMinimal(oracle, Shrink(oracle, s, budget))
  {
    ShrinkGetsStuck(oracle, s, budget);
    StuckIsOneMinimal(oracle, Shrink(oracle, s, budget));
  }

  // ---------------------------------------------------------------- cost

  function ScanCalls(oracle: Oracle, s: seq<Byte>, c: nat, i: nat): nat
    requires c >= 1
    decreases |s| - i
  {
    if i >= |s| then 0
    else if oracle(Cut(s, i, c)).Crash? then 1
    else 1 + ScanCalls(oracle, s, c, i + c)
  }

  function PassCalls(oracle: Oracle, s: seq<Byte>, c: nat): nat {
    if c == 0 then 0
    else ScanCalls(oracle, s, c, 0) +
         if Scan(oracle, s, c, 0).Some? then 0 else PassCalls(oracle, s, c / 2)
  }

  function ShrinkCalls(oracle: Oracle, s: seq<Byte>, budget: nat): nat
    decreases budget
  {
    if budget == 0 then 0
    else
      var t := Pass(oracle, s, |s| / 2);
      PassCalls(oracle, s, |s| / 2) + if t.None? then 0 else ShrinkCalls(oracle, t.value, budget - 1)
  }

  function ShrinkRounds(oracle: Oracle, s: seq<Byte>, budget: nat): nat
    decreases budget
  {
    if budget == 0 then 0
    else
      var t := Pass(oracle, s, |s| / 2);
      if t.None? then 0 else 1 + ShrinkRounds(oracle, t.value, budget - 1)
  }

  lemma MulMonotone(x: int, y: int, h: int)
    requires h >= 0 && x <= y
    ensures x * h <= y * h
  {
  }

  lemma MulCancel(x: int, y: int, h: int)
    requires h >= 1 && x * h < y * h
    ensures x < y
  {
  }

  lemma DivStep(a: int, c: int)
    requires c >= 1
    ensures (a + c) / c == a / c + 1
  {
    var q, p := a / c, (a + c) / c;
    assert (p - q - 1) * c == a % c - (a + c) % c;
    MulCancel(p - q - 1, 1, c);
    MulCancel(-1, p - q - 1, c);
  }

  lemma HalvingCore(n: nat, c: nat, h: nat, q: nat, p: nat)
    requires 1 <= h && 2 * h <= c && q * c <= n < p * h + h
    ensures 2 * q <= p
  {
    MulMonotone(2 * h, c, q);
    assert (2 * h) * q == (2 * q) * h;
    assert (p + 1) * h == p * h + h;
    MulCancel(2 * q, p + 1, h);
  }

  /** Halving the divisor at least doubles the quotient. */
  lemma HalvingDoubles(n: nat, c: nat)
    requires c >= 2
    ensures n / (c / 2) >= 2 * (n / c)
  {
    DivBounds(n, c);
    DivBounds(n, c / 2);
    HalvingCore(n, c, c / 2, n / c, n / (c / 2));
  }

  lemma DivBounds(n: nat, c: nat)
    requires c >= 1
    ensures 0 <= n / c && (n / c) * c <= n < (n / c) * c + c
  {
  }

  lemma {:induction false} ScanCallsBound(oracle: Oracle, s: seq<Byte>, c: nat, i: nat)
    requires c >= 1 && i <= |s| + c
    ensures ScanCalls(oracle, s, c, i) <= (|s| + c - i) / c
    decreases |s| - i
  {
    if i < |s| {
      if i + c <= |s| + c {
        ScanCallsBound(oracle, s, c, i + c);
      }
      DivStep(|s| - i, c);
    }
  }

  lemma {:induction false} PassCallsBound(oracle: Oracle, s: seq<Byte>, c: nat)
    requires c >= 1
    ensures PassCalls(oracle, s, c) <= 2 * |s| - |s| / c + c
    decreases c
  {
    ScanCallsBound(oracle, s, c, 0);
    DivStep(|s|, c);
    if c >= 2 {
      PassCallsBound(oracle, s, c / 2);
      HalvingDoubles(|s|, c);
    }
  }

  lemma PassCallsLinear(oracle: Oracle, s: seq<Byte>, c: nat)
    ensures PassCalls(oracle, s, c) <= 2 * |s| + c
  {
    if c >= 1 {
      PassCallsBound(oracle, s, c);
      DivBounds(|s|, c);
    }
  }

  /** One round asks the oracle at most three times per byte. */
  lemma RoundCost(oracle: Oracle, s: seq<Byte>)
    ensures PassCalls(oracle, s, |s| / 2) <= 3 * |s|
  {
    PassCallsLinear(oracle, s, |s| / 2);
  }

  /** Every improving round shortens the input by at least a byte. */
  lemma {:induction false} RoundsBound(oracle: Oracle, s: seq<Byte>, budget: nat)
    ensures ShrinkRounds(oracle, s, budget) <= budget
    ensures ShrinkRounds(oracle, s, budget) + |Shrink(oracle, s, budget)| <= |s|
    decreases budget
  {
    if budget > 0 {
      PassImproves(oracle, s, |s| / 2);
      var t := Pass(oracle, s, |s| / 2);
      if t.Some? {
        RoundsBound(oracle, t.value, budget - 1);
      }
    }
  }

  lemma CostStep(m: nat, n: nat, k: nat, first: nat, rest: nat)
    requires m <= n && first <= 3 * n && rest <= 3 * (m * (k + 1))
    ensures first + rest <= 3 * (n * (k + 2))
  {
  }

  /** The oracle calls of a whole minimization, last fruitless round included. */
  lemma {:induction false} TotalCost(oracle: Oracle, s: seq<Byte>, budget: nat)
    ensures ShrinkCalls(oracle, s, budget) <= 3 * (|s| * (ShrinkRounds(oracle, s, budget) + 1))
    decreases budget
  {
    if budget > 0 {
      RoundCost(oracle, s);
      PassImproves(oracle, s, |s| / 2);
      var t := Pass(oracle, s, |s| / 2);
      if t.Some? {
        TotalCost(oracle, t.value, budget - 1);
        CostStep(|t.value|, |s|, ShrinkRounds(oracle, t.value, budget - 1),
                 PassCalls(oracle, s, |s| / 2), ShrinkCalls(oracle, t.value, budget - 1));
      }
    }
  }

  // ---------------------------------------------------------------- the budget is tight

  /** Of the chunks of at most `c` bytes of `s` only those can go that leave `t`. */
  ghost predicate Only(oracle: Oracle, s: seq<Byte>, t: seq<Byte>, c: nat) {
    forall i: nat, d: nat | i < |s| && 1 <= d <= c && oracle(Cut(s, i, d)).Crash? :: Cut(s, i, d) == t
  }

  lemma {:induction false} ScanOnly(oracle: Oracle, s: seq<Byte>, t: seq<Byte>, c: nat, i: nat)
    requires c >= 1 && Only(oracle, s, t, c)
    ensures Scan(oracle, s, c, i).Some? ==> Scan(oracle, s, c, i).value == t
    decreases |s| - i
  {
    if i < |s| && !oracle(Cut(s, i, c)).Crash? {
      ScanOnly(oracle, s, t, c, i + c);
    }
  }

  /** If some byte can go, and every removable chunk leaves `t`, a round yields `t`. */
  lemma {:induction false} PassOnly(oracle: Oracle, s: seq<Byte>, t: seq<Byte>, c: nat, k: nat)
    requires c >= 1 && Only(oracle, s, t, c) && k < |s| && oracle(Cut(s, k, 1)).Crash?
    ensures Pass(oracle, s, c) == Some(t)
    decreases c
  {
    ScanOnly(oracle, s, t, c, 0);
    if c >= 2 {
      PassOnly(oracle, s, t, c / 2, k);
    } else if Scan(oracle, s, 1, 0).None? {
      ScanOnesExhaustive(oracle, s, 0, k);
      assert false;
    }
  }

  /** When every round takes `chain[i]` to `chain[i + 1]`, the rounds walk along the chain. */
  lemma {:induction false} ShrinkFollows(oracle: Oracle, chain: seq<seq<Byte>>)
    requires |chain| >= 1
    requires forall i | 0 <= i < |chain| - 1 :: Pass(oracle, chain[i], |chain[i]| / 2) == Some(chain[i + 1])
    ensures Shrink(oracle, chain[0], |chain| - 1) == chain[|chain| - 1]
    decreases |chain|
  {
    if |chain| > 1 {
      ShrinkFollows(oracle, chain[1..]);
    }
  }

  /** An input of `n` bytes, zero but for a mark in the middle, with `k` bytes stripped from the
      two ends in turn, front first. */
  function Peeled(n: nat, k: nat): (s: seq<Byte>)
    requires k < n
    ensures |s| == n - k
  {
    seq(n - k, i requires 0 <= i < n - k => if (k + 1) / 2 + i == n / 2 then 1 else 0)
  }

  /** Crashes on the peeled inputs only. */
  ghost function PeelingOracle(n: nat): Oracle {
    s => if 1 <= |s| <= n && s == Peeled(n, n - |s|) then Crash else NoCrash
  }

  /** Cutting two bytes or more moves the mark too far, or removes it. */
  lemma CutMovesMark(n: nat, k: nat, i: nat, d: nat)
    requires i < n - k && 1 <= d && k + d < n && i + d <= n - k
    requires Cut(Peeled(n, k), i, d) == Peeled(n, k + d)
    ensures d == 1
  {
    var s, t := Peeled(n, k), Peeled(n, k + d);
    var p := n / 2 - (k + d + 1) / 2;
    assert t[p] == 1;
    assert Cut(s, i, d)[p] == s[if p < i then p else p + d];
  }

  /** From a peeled input nothing but the next peeled input can be reached. */
  lemma OnlyPeels(n: nat, k: nat, c: nat)
    requires k + 2 <= n
    ensures Only(PeelingOracle(n), Peeled(n, k), Peeled(n, k + 1), c)
  {
    var s := Peeled(n, k);
    forall i: nat, d: nat | i < |s| && 1 <= d <= c && PeelingOracle(n)(Cut(s, i, d)).Crash?
      ensures Cut(s, i, d) == Peeled(n, k + 1)
    {
      var gone := Min(d, |s| - i);
      assert Cut(s, i, d) == Cut(s, i, gone);
      CutMovesMark(n, k, i, gone);
    }
  }

  /** The end that is due next. */
  function Due(n: nat, k: nat): nat
    requires k + 2 <= n
  {
    if k % 2 == 0 then 0 else n - k - 1
  }

  lemma DuePeels(n: nat, k: nat)
    requires k + 2 <= n
    ensures PeelingOracle(n)(Cut(Peeled(n, k), Due(n, k), 1)).Crash?
  {
    assert Cut(Peeled(n, k), Due(n, k), 1) == Peeled(n, k + 1);
  }

  lemma RoundPeels(n: nat, k: nat)
    requires k + 2 <= n
    ensures Pass(PeelingOracle(n), Peeled(n, k), |Peeled(n, k)| / 2) == Some(Peeled(n, k + 1))
  {
    OnlyPeels(n, k, (n - k) / 2);
    DuePeels(n, k);
    PassOnly(PeelingOracle(n), Peeled(n, k), Peeled(n, k + 1), (n - k) / 2, Due(n, k));
  }

  ghost function PeelChain(n: nat, budget: nat): (chain: seq<seq<Byte>>)
    requires budget < n
    ensures |chain| == budget + 1 && forall k | 0 <= k <= budget :: chain[k] == Peeled(n, k)
  {
    seq(budget + 1, k requires 0 <= k <= budget => Peeled(n, k))
  }

  lemma ChainFollows(n: nat, budget: nat, i: nat)
    requires budget < n && i < budget
    ensures var chain := PeelChain(n, budget);
            Pass(PeelingOracle(n), chain[i], |chain[i]| / 2) == Some(chain[i + 1])
  {
    RoundPeels(n, i);
  }

  lemma ShrinkPeels(n: nat, budget: nat)
    requires budget < n
    ensures Shrink(PeelingOracle(n), Peeled(n, 0), budget) == Peeled(n, budget)
  {
    forall i: nat | i < budget {
      ChainFollows(n, budget, i);
    }
    ShrinkFollows(PeelingOracle(n), PeelChain(n, budget));
  }

  /** A smaller budget is not enough: for every length and every budget below the length less one
      there is a crash that is left with a removable byte.  The default budget of 100 rounds
      therefore falls short from 102 bytes on. */
  lemma BudgetIsTight(n: nat, budget: nat)
    requires budget + 2 <= n
    ensures PeelingOracle(n)(Peeled(n, 0)).Crash?
    ensures var r := Shrink(PeelingOracle(n), Peeled(n, 0), budget);
            |r| >= 2 && !OneMinimal(PeelingOracle(n), r)
  {
    ShrinkPeels(n, budget);
    DuePeels(n, budget);
  }

  /** The minimization of this crash ends with one byte or with every byte needed. */
  ghost predicate Minimized(oracle: Oracle, s: seq<Byte>, budget: nat) {
    oracle(s).Crash? ==>
      |Shrink(oracle, s, budget)| <= 1 || OneMinimal(oracle, Shrink(oracle, s, budget))
  }

  /** For inputs of a given length, 1-minimality is guaranteed for every oracle and every input if
      and only if the budget is at least the length less one. */
  lemma GuaranteedIff(n: nat, budget: nat)
    ensures (forall oracle: Oracle, s: seq<Byte> | |s| == n :: Minimized(oracle, s, budget)) <==> n <= budget + 1
  {
    if n <= budget + 1 {
      forall oracle: Oracle, s: seq<Byte> | |s| == n
        ensures Minimized(oracle, s, budget)
      {
        if |Shrink(oracle, s, budget)| >= 2 {
          ShrinkOneMinimal(oracle, s, budget);
        }
      }
    } else {
      BudgetIsTight(n, budget);
      assert !Minimized(PeelingOracle(n), Peeled(n, 0), budget);
    }
  }

  // ---------------------------------------------------------------- delta debugging, as loops

  /** The innermost loop: the chunks of one size.  `removed` is the shortened input, `stopped`
      says that the context was cancelled. */
  method TryChunks(oracle: Oracle, cancelled: nat -> bool, s: seq<Byte>, chunkSize: nat, calls0: nat)
    returns (removed: Option<seq<Byte>>, stopped: bool, calls: nat)
    requires chunkSize >= 1
    ensures !stopped ==> removed == Scan(oracle, s, chunkSize, 0)
    ensures !stopped ==> calls == calls0 + ScanCalls(oracle, s, chunkSize, 0)
    ensures stopped ==> cancelled(calls)
  {
    calls := calls0;
    var i := 0;
    while i < |s|
      invariant Scan(oracle, s, chunkSize, 0) == Scan(oracle, s, chunkSize, i)
      invariant calls0 + ScanCalls(oracle, s, chunkSize, 0) == calls + ScanCalls(oracle, s, chunkSize, i)
    {
      if cancelled(calls) {
        return None, true, calls;
      }
      var end := if i + chunkSize > |s| then |s| else i + chunkSize;
      var test := s[..i] + s[end..];
      assert test == Cut(s, i, chunkSize);
      var verdict := oracle(test);
      calls := calls + 1;
      if verdict == Crash {
        return Some(test), false, calls;
      }
      i := i + chunkSize;
    }
    return None, false, calls;
  }

  /** The middle loop: halve the chunk size until a chunk goes. */
  method TryRound(oracle: Oracle, cancelled: nat -> bool, s: seq<Byte>, calls0: nat)
    returns (removed: Option<seq<Byte>>, stopped: bool, calls: nat)
    ensures !stopped ==> removed == Pass(oracle, s, |s| / 2)
    ensures !stopped ==> calls == calls0 + PassCalls(oracle, s, |s| / 2)
    ensures stopped ==> cancelled(calls)
  {
    removed, stopped, calls := None, false, calls0;
    var chunkSize: nat := |s| / 2;
    while chunkSize >= 1
      invariant !stopped && removed.None?
      invariant Pass(oracle, s, |s| / 2) == Pass(oracle, s, chunkSize)
      invariant calls0 + PassCalls(oracle, s, |s| / 2) == calls + PassCalls(oracle, s, chunkSize)
    {
      removed, stopped, calls := TryChunks(oracle, cancelled, s, chunkSize, calls);
      if stopped || removed.Some? {
        return;
      }
      chunkSize := chunkSize / 2;
    }
  }

  const DELTA_ITERATIONS: nat := 100

  /** Delta debugging.  Unless the context is cancelled it returns a crashing subsequence of the
      input, 1-minimal when the budget reaches the input length less one. */
  method DeltaDebugMinimize(oracle: Oracle, cancelled: nat -> bool, input: seq<Byte>, maxIterations: int)
    returns (r: Option<seq<Byte>>, iterations: nat, calls: nat)
    ensures r.None? ==> cancelled(calls)
    ensures r.Some? ==> r.value == Shrink(oracle, input, Budget(maxIterations, DELTA_ITERATIONS))
    ensures r.Some? ==> Minimization(oracle, input, r.value, iterations,
                                     if maxIterations == 0 then 100 else Max(maxIterations, 0))
    ensures r.Some? ==> Subsequence(r.value, input) && (oracle(input).Crash? ==> oracle(r.value).Crash?)
    ensures r.Some? && |input| >= 1 ==> |r.value| >= 1
    ensures r.Some? ==> iterations + |r.value| <= |input| && calls <= 3 * (|input| * (iterations + 1))
    ensures r.Some? && |r.value| >= 2 && |input| <= (if maxIterations == 0 then 100 else maxIterations) + 1 ==>
              OneMinimal(oracle, r.value)
  {
    var budget := Budget(maxIterations, DELTA_ITERATIONS);
    var current := input;
    iterations, calls := 0, 0;
    while iterations < budget
      invariant iterations <= budget
      invariant Shrink(oracle, input, budget) == Shrink(oracle, current, budget - iterations)
      invariant ShrinkRounds(oracle, input, budget) ==
                iterations + ShrinkRounds(oracle, current, budget - iterations)
      invariant ShrinkCalls(oracle, input, budget) ==
                calls + ShrinkCalls(oracle, current, budget - iterations)
      decreases budget - iterations
    {
      ghost var left := budget - iterations;
      var removed, stopped, total := TryRound(oracle, cancelled, current, calls);
      if stopped {
        return None, iterations, total;
      }
      if removed.None? {
        assert Shrink(oracle, current, left) == current;
        assert ShrinkRounds(oracle, current, left) == 0;
        assert ShrinkCalls(oracle, current, left) == total - calls;
        DeltaDebugFacts(oracle, input, budget);
        return Some(current), iterations, total;
      }
      current, calls := removed.value, total;
      iterations := iterations + 1;
    }
    DeltaDebugFacts(oracle, input, budget);
    return Some(current), iterations, calls;
  }

  lemma DeltaDebugFacts(oracle: Oracle, s: seq<Byte>, budget: nat)
    ensures var r := Shrink(oracle, s, budget);
            && Subsequence(r, s) && (oracle(s).Crash? ==> oracle(r).Crash?) && (|s| >= 1 ==> |r| >= 1)
            && ShrinkRounds(oracle, s, budget) + |r| <= |s|
            && ShrinkCalls(oracle, s, budget) <= 3 * (|s| * (ShrinkRounds(oracle, s, budget) + 1))
            && (|r| >= 2 && |s| <= budget + 1 ==> OneMinimal(oracle, r))
            && Minimization(oracle, s, r, ShrinkRounds(oracle, s, budget), budget)
  {
    ShrinkTrace(oracle, s, budget);
    ShrinkSound(oracle, s, budget);
    RoundsBound(oracle, s, budget);
    TotalCost(oracle, s, budget);
    if |Shrink(oracle, s, budget)| >= 2 && |s| <= budget + 1 {
      ShrinkOneMinimal(oracle, s, budget);
    }
  }

  // ---------------------------------------------------------------- binary search over prefixes

  const BINARY_ITERATIONS: nat := 50

  /** A longer prefix crashes whenever a shorter one does. */
  ghost predicate PrefixMonotone(oracle: Oracle, s: seq<Byte>) {
    forall p, q | 0 <= p <= q <= |s| && oracle(s[..p]).Crash? :: oracle(s[..q]).Crash?
  }

  /** The gap doubled so many times. */
  ghost function Doubled(gap: int, times: nat): int {
    if times == 0 then gap else 2 * Doubled(gap, times - 1)
  }

  lemma {:induction false} HalfDoubled(gap: int, half: int, times: nat)
    requires 2 * half <= gap
    ensures Doubled(half, times + 1) <= Doubled(gap, times)
  {
    if times > 0 {
      HalfDoubled(gap, half, times - 1);
    }
  }

  /** What `calls` oracle calls have established: the prefix of length `low` less one does not crash,
      and the gap up to `high` has been halved with each call. */
  ghost predicate Bracket(oracle: Oracle, s: seq<Byte>, low: int, high: int, calls: nat) {
    0 <= low <= high <= |s| && (low > 0 ==> !oracle(s[..low - 1]).Crash?) && Doubled(high - low, calls) <= |s|
  }

  /** A gap this wide is closed by so many calls that, with those spent, `k` suffice for an input
      shorter than 2^k. */
  ghost predicate WithinCalls(gap: int, spent: int, length: nat) {
    forall k: nat | length < Pow2(k) :: spent <= k && gap < Pow2(k - spent)
  }

  /** One more call halves the gap, from either side. */
  lemma Narrow(oracle: Oracle, s: seq<Byte>, low: int, high: int, left: int, right: int, calls: nat)
    requires Bracket(oracle, s, low, high, calls) && WithinCalls(high - low, calls, |s|) && low < high
    requires (left == low && right == (low + high) / 2) ||
             (left == (low + high) / 2 + 1 && right == high && !oracle(s[..left - 1]).Crash?)
    ensures Bracket(oracle, s, left, right, calls + 1) && WithinCalls(right - left, calls + 1, |s|)
  {
    HalfDoubled(high - low, right - left, calls);
    forall k: nat | |s| < Pow2(k)
      ensures calls + 1 <= k && right - left < Pow2(k - (calls + 1))
    {
      assert high - low < Pow2(k - calls);
    }
  }

  /** The state of the search: the prefix of length `right` crashes if the whole input does. */
  ghost predicate Searching(oracle: Oracle, s: seq<Byte>, left: int, right: int, calls: nat) {
    Bracket(oracle, s, left, right, calls) && WithinCalls(right - left, calls, |s|) &&
    (oracle(s).Crash? ==> oracle(s[..right]).Crash?)
  }

  /** The loop of the binary search.  An oracle error is not counted as an iteration, but it halves
      the interval all the same. */
  method SearchPrefix(oracle: Oracle, cancelled: nat -> bool, input: seq<Byte>, budget: nat)
    returns (left: nat, right: nat, stopped: bool, iterations: nat, calls: nat)
    ensures Searching(oracle, input, left, right, calls)
    ensures stopped ==> cancelled(calls)
    ensures iterations <= calls && iterations <= budget
    ensures !stopped ==> left == right || iterations == budget
  {
    left, right := 0, |input|;
    iterations, calls, stopped := 0, 0, false;
    assert input[..|input|] == input;
    while left < right && iterations < budget
      invariant Searching(oracle, input, left, right, calls) && !stopped
      invariant iterations <= budget && iterations <= calls
      decreases right - left
    {
      if cancelled(calls) {
        stopped := true;
        return;
      }
      var mid := (left + right) / 2;
      var verdict := oracle(input[..mid]);
      if verdict == OracleError {
        Narrow(oracle, input, left, right, mid + 1, right, calls);
        left := mid + 1;
        calls := calls + 1;
        continue;
      }
      if verdict == Crash {
        Narrow(oracle, input, left, right, left, mid, calls);
        right := mid;
      } else {
        Narrow(oracle, input, left, right, mid + 1, right, calls);
        left := mid + 1;
      }
      calls, iterations := calls + 1, iterations + 1;
    }
  }

  /** Binary search for a crashing prefix.  `completed` says that the search interval was
      exhausted before the iteration budget was. */
  method BinarySearchMinimize(oracle: Oracle, cancelled: nat -> bool, input: seq<Byte>, maxIterations: int)
    returns (r: Option<seq<Byte>>, completed: bool, iterations: nat, calls: nat)
    ensures r.None? ==> cancelled(calls)
    ensures r.Some? ==> |r.value| <= |input| && r.value == input[..|r.value|]
    ensures r.Some? && oracle(input).Crash? ==> oracle(r.value).Crash?
    ensures r.Some? && completed && |r.value| > 0 ==> !oracle(input[..|r.value| - 1]).Crash?
    ensures r.Some? && completed && PrefixMonotone(oracle, input) ==>
              forall p | 0 <= p < |r.value| :: !oracle(input[..p]).Crash?
    ensures r.Some? ==> exists low :: Bracket(oracle, input, low, |r.value|, calls)
    ensures iterations <= calls && forall k: nat | |input| < Pow2(k) :: calls <= k
    ensures iterations <= if maxIterations == 0 then 50 else Max(maxIterations, 0)
    ensures r.Some? && !completed ==> iterations == if maxIterations == 0 then 50 else Max(maxIterations, 0)
    ensures r.Some? && |input| < Pow2(if maxIterations == 0 then 50 else Max(maxIterations, 0)) ==> completed
  {
    var budget := Budget(maxIterations, BINARY_ITERATIONS);
    var left, right, stopped;
    left, right, stopped, iterations, calls := SearchPrefix(oracle, cancelled, input, budget);
    if stopped {
      return None, false, iterations, calls;
    }
    completed := left == right;
    assert |input| < Pow2(budget) ==> calls <= budget && right - left < Pow2(budget - calls);
    return Some(input[..right]), completed, iterations, calls;
  }
}
