/**
 Trimming a corpus directory to a byte budget: sort the files by modification time, oldest
 first, and delete from the front until enough has been freed.  A file may refuse deletion, in
 which case the next one is tried.
 */
module CorpusTrim {
  import opened Common

  datatype File = File(path: string, size: nat, modTime: int)

  function Total(s: seq<File>): nat {
    if s == [] then 0 else Total(s[..|s| - 1]) + s[|s| - 1].size
  }

  /** The bytes of the files whose flag is `want`. */
  function SumWhere(s: seq<File>, flags: seq<bool>, want: bool): nat
    requires |s| == |flags|
  {
    if s == [] then 0
    else SumWhere(s[..|s| - 1], flags[..|s| - 1], want) + if flags[|s| - 1] == want then s[|s| - 1].size else 0
  }

  ghost predicate OldestFirst(s: seq<File>) {
    forall i, j | 0 <= i < j < |s| :: s[i].modTime <= s[j].modTime
  }

  ghost predicate Permutation(a: seq<File>, b: seq<File>) {
    multiset(a) == multiset(b)
  }

  // ---------------------------------------------------------------- sums

  /** The sums are what they should be: additive, and right for a single file. */
  lemma {:induction false} SumsAreAdditive(a: seq<File>, b: seq<File>, f: seq<bool>, g: seq<bool>, want: bool)
    requires |a| == |f| && |b| == |g|
    ensures Total(a + b) == Total(a) + Total(b)
    ensures SumWhere(a + b, f + g, want) == SumWhere(a, f, want) + SumWhere(b, g, want)
    ensures |b| == 1 ==> Total(b) == b[0].size && SumWhere(b, g, want) == if g[0] == want then b[0].size else 0
    decreases |b|
  {
    if b == [] {
      assert a + b == a && f + g == f;
    } else {
      var n := |b| - 1;
      SumsAreAdditive(a, b[..n], f, g[..n], want);
      assert (a + b)[..|a + b| - 1] == a + b[..n] && (f + g)[..|a + b| - 1] == f + g[..n];
      assert |b| == 1 ==> Total(b[..n]) == 0 && SumWhere(b[..n], g[..n], want) == 0;
    }
  }

  /** Nothing is lost: what was freed and what was kept add up. */
  lemma {:induction false} SumsAddUp(s: seq<File>, flags: seq<bool>)
    requires |s| == |flags|
    ensures SumWhere(s, flags, true) + SumWhere(s, flags, false) == Total(s)
  {
    if s != [] {
      SumsAddUp(s[..|s| - 1], flags[..|s| - 1]);
    }
  }

  lemma {:induction false} TakeOutTotal(s: seq<File>, k: nat)
    requires k < |s|
    ensures Total(s[..k] + s[k + 1..]) + s[k].size == Total(s)
    decreases |s|
  {
    var front, rest := s[..|s| - 1], s[..k] + s[k + 1..];
    if k == |s| - 1 {
      assert rest == front;
    } else {
      TakeOutTotal(front, k);
      assert rest[..|rest| - 1] == front[..k] + front[k + 1..];
      assert rest[|rest| - 1] == s[|s| - 1];
    }
  }

  lemma TakeOutRest(s: seq<File>, k: nat)
    requires k < |s|
    ensures multiset(s[..k] + s[k + 1..]) == multiset(s) - multiset{s[k]}
  {
    assert s == s[..k] + [s[k]] + s[k + 1..];
  }

  lemma HeadOccurs(a: seq<File>, b: seq<File>) returns (k: nat)
    requires Permutation(a, b) && a != []
    ensures k < |b| && b[k] == a[0]
    ensures Permutation(a[1..], b[..k] + b[k + 1..])
  {
    assert a[0] in multiset(b);
    k :| k < |b| && b[k] == a[0];
    assert a == [a[0]] + a[1..];
    TakeOutRest(b, k);
  }

  /** The total does not depend on the order. */
  lemma {:induction false} TotalPermutes(a: seq<File>, b: seq<File>)
    requires Permutation(a, b)
    ensures Total(a) == Total(b)
    decreases |a|
  {
    if a == [] {
      assert |b| == |multiset(b)|;
    } else {
      var k := HeadOccurs(a, b);
      TakeOutTotal(b, k);
      TakeOutTotal(a, 0);
      assert a[..0] + a[1..] == a[1..];
      TotalPermutes(a[1..], b[..k] + b[k + 1..]);
    }
  }

  lemma SumExtend(s: seq<File>, flags: seq<bool>, flag: bool)
    requires |flags| < |s|
    ensures SumWhere(s[..|flags| + 1], flags + [flag], true) ==
            SumWhere(s[..|flags|], flags, true) + if flag then s[|flags|].size else 0
  {
    assert s[..|flags| + 1][..|flags|] == s[..|flags|];
    assert (flags + [flag])[..|flags|] == flags;
  }

  lemma {:induction false} SumPad(s: seq<File>, flags: seq<bool>, n: nat)
    requires |flags| <= n <= |s|
    ensures SumWhere(s[..n], Padded(flags, n), true) == SumWhere(s[..|flags|], flags, true)
    decreases n
  {
    if n == |flags| {
      assert Padded(flags, n) == flags;
    } else {
      SumPad(s, flags, n - 1);
      assert s[..n][..n - 1] == s[..n - 1];
      assert Padded(flags, n)[..n - 1] == Padded(flags, n - 1);
    }
  }

  /** The flags with `false` for every file not visited. */
  function Padded(flags: seq<bool>, n: nat): (p: seq<bool>)
    requires |flags| <= n
    ensures |p| == n
  {
    flags + seq(n - |flags|, _ => false)
  }

  // ---------------------------------------------------------------- the sort

  function Exchange(s: seq<File>, i: nat, j: nat): (t: seq<File>)
    requires i < j < |s|
    ensures |t| == |s|
  {
    if s[i].modTime > s[j].modTime then s[i := s[j]][j := s[i]] else s
  }

  /** The inner loop, from `j` on: an oldest file of the rest comes to position `i`. */
  function Settle(s: seq<File>, i: nat, j: nat): (t: seq<File>)
    requires i < j
    ensures |t| == |s|
    decreases |s| - j
  {
    if j >= |s| then s else Settle(Exchange(s, i, j), i, j + 1)
  }

  function Sort(s: seq<File>, i: nat): (t: seq<File>)
    ensures |t| == |s|
    decreases |s| - i
  {
    if i + 1 >= |s| then s else Sort(Settle(s, i, i + 1), i + 1)
  }

  lemma ExchangePermutes(s: seq<File>, i: nat, j: nat)
    requires i < j < |s|
    ensures Permutation(Exchange(s, i, j), s)
  {
  }

  lemma {:induction false} SettlePermutes(s: seq<File>, i: nat, j: nat)
    requires i < j
    ensures Permutation(Settle(s, i, j), s)
    decreases |s| - j
  {
    if j < |s| {
      ExchangePermutes(s, i, j);
      SettlePermutes(Exchange(s, i, j), i, j + 1);
    }
  }

  lemma {:induction false} SortPermutes(s: seq<File>, i: nat)
    ensures Permutation(Sort(s, i), s)
    decreases |s| - i
  {
    if i + 1 < |s| {
      SettlePermutes(s, i, i + 1);
      SortPermutes(Settle(s, i, i + 1), i + 1);
    }
  }

  /** The files before `i` stay, and a bound on the files from `i` on stays a bound. */
  lemma {:induction false} SettleKeeps(s: seq<File>, i: nat, j: nat, bound: int)
    requires i < j
    ensures forall k | 0 <= k < i && k < |s| :: Settle(s, i, j)[k] == s[k]
    ensures (forall k | i <= k < |s| :: bound <= s[k].modTime) ==>
              forall k | i <= k < |s| :: bound <= Settle(s, i, j)[k].modTime
    decreases |s| - j
  {
    if j < |s| {
      SettleKeeps(Exchange(s, i, j), i, j + 1, bound);
    }
  }

  lemma {:induction false} SettleSelects(s: seq<File>, i: nat, j: nat)
    requires i < j && i < |s| && forall k | i <= k < j && k < |s| :: s[i].modTime <= s[k].modTime
    ensures forall k | i <= k < |s| :: Settle(s, i, j)[i].modTime <= Settle(s, i, j)[k].modTime
    decreases |s| - j
  {
    if j < |s| {
      SettleSelects(Exchange(s, i, j), i, j + 1);
    }
  }

  /** The files before `i` are in place: none is newer than any file after it. */
  ghost predicate InPlace(s: seq<File>, i: nat) {
    forall k, m | 0 <= k < i && k < m < |s| :: s[k].modTime <= s[m].modTime
  }

  lemma SettleAdvances(s: seq<File>, i: nat)
    requires i + 1 < |s| && InPlace(s, i)
    ensures InPlace(Settle(s, i, i + 1), i + 1)
  {
    var t := Settle(s, i, i + 1);
    SettleSelects(s, i, i + 1);
    forall k, m | 0 <= k < i + 1 && k < m < |t|
      ensures t[k].modTime <= t[m].modTime
    {
      if k < i {
        SettleKeeps(s, i, i + 1, s[k].modTime);
      }
    }
  }

  lemma {:induction false} SortSorts(s: seq<File>, i: nat)
    requires InPlace(s, i)
    ensures OldestFirst(Sort(s, i))
    decreases |s| - i
  {
    if i + 1 < |s| {
      SettleAdvances(s, i);
      SortSorts(Settle(s, i, i + 1), i + 1);
    }
  }

  /** The exchange sort, in place: a time-ordered permutation. */
  method ExchangeSort(a: array<File>)
    modifies a
    ensures a[..] == Sort(old(a[..]), 0)
    ensures OldestFirst(a[..]) && Permutation(a[..], old(a[..]))
  {
    ghost var s := a[..];
    SortSorts(s, 0);
    SortPermutes(s, 0);
    var i := 0;
    while i < a.Length - 1
      invariant 0 <= i && Sort(s, 0) == Sort(a[..], i)
    {
      ghost var t := a[..];
      var j := i + 1;
      while j < a.Length
        invariant i < j <= a.Length
        invariant Settle(t, i, i + 1) == Settle(a[..], i, j)
      {
        ghost var u := a[..];
        if a[i].modTime > a[j].modTime {
          a[i], a[j] := a[j], a[i];
        }
        assert a[..] == Exchange(u, i, j);
        j := j + 1;
      }
      i := i + 1;
    }
  }

  // ---------------------------------------------------------------- the deletion

  /** The outcome of a trim: the files in deletion order and which of them are gone. */
  datatype Trimmed = Trimmed(files: seq<File>, gone: seq<bool>)

  /** What a trim that ran to its end promises, whatever files refuse to be deleted. */
  ghost predicate GoodTrim(t: Trimmed, files: seq<File>, maxSize: int, freed: nat, deletes: File -> bool) {
    && |t.gone| == |t.files| && Permutation(t.files, files) && OldestFirst(t.files)
    && freed == SumWhere(t.files, t.gone, true)
    && (forall i | 0 <= i < |t.gone| && t.gone[i] :: deletes(t.files[i]))
    && (forall i, j | 0 <= i < |t.gone| && 0 <= j < |t.gone| && t.gone[i] && !t.gone[j] && deletes(t.files[j]) ::
          i < j && t.files[i].modTime <= t.files[j].modTime)
    && (forall i | 0 <= i < |t.gone| && t.gone[i] && (forall j | i < j < |t.gone| :: !t.gone[j]) ::
          SumWhere(t.files, t.gone, false) + t.files[i].size > maxSize)
  }

  /** The deletion loop visited `n` files and freed `freed` bytes of the `target`. */
  ghost predicate Deleting(order: seq<File>, flags: seq<bool>, freed: nat, target: int, deletes: File -> bool) {
    && |flags| <= |order| && freed == SumWhere(order[..|flags|], flags, true)
    && (forall i | 0 <= i < |flags| :: flags[i] <==> deletes(order[i]))
    && (forall i | 0 <= i < |flags| && flags[i] && (forall j | i < j < |flags| :: !flags[j]) ::
          freed - order[i].size < target)
  }

  lemma DeleteStep(order: seq<File>, flags: seq<bool>, freed: nat, target: int, deletes: File -> bool)
    requires Deleting(order, flags, freed, target, deletes) && |flags| < |order| && freed < target
    ensures var f := order[|flags|];
            Deleting(order, flags + [deletes(f)], if deletes(f) then freed + f.size else freed, target, deletes)
  {
    var n, flag := |flags|, deletes(order[|flags|]);
    var next := flags + [flag];
    SumExtend(order, flags, flag);
    forall i | 0 <= i < |next| && next[i] && (forall j | i < j < |next| :: !next[j])
      ensures (if flag then freed + order[n].size else freed) - order[i].size < target
    {
      if i < n {
        assert !next[n];
        assert forall j | i < j < n :: flags[j] == next[j];
      }
    }
  }

  lemma DeletingIsGood(order: seq<File>, flags: seq<bool>, freed: nat, files: seq<File>, maxSize: int,
                       deletes: File -> bool)
    requires OldestFirst(order) && Permutation(order, files)
    requires Deleting(order, flags, freed, Total(files) - maxSize, deletes)
    ensures GoodTrim(Trimmed(order, Padded(flags, |order|)), files, maxSize, freed, deletes)
  {
    var gone := Padded(flags, |order|);
    SumPad(order, flags, |order|);
    assert order[..|order|] == order;
    TotalPermutes(order, files);
    SumsAddUp(order, gone);
    forall i | 0 <= i < |gone| && gone[i] && (forall j | i < j < |gone| :: !gone[j])
      ensures SumWhere(order, gone, false) + order[i].size > maxSize
    {
      assert i < |flags| && flags[i];
      assert forall j | i < j < |flags| :: flags[j] == gone[j];
    }
  }

  /** The limit is met, or every file that can be deleted is gone. */
  ghost predicate LimitMet(t: Trimmed, maxSize: int, deletes: File -> bool)
    requires |t.gone| == |t.files|
  {
    SumWhere(t.files, t.gone, false) <= maxSize ||
    forall i | 0 <= i < |t.files| :: t.gone[i] <==> deletes(t.files[i])
  }

  /** When every file can be deleted, the limit is met. */
  lemma LimitMetWhenDeletable(t: Trimmed, maxSize: int, deletes: File -> bool)
    requires |t.gone| == |t.files| && LimitMet(t, maxSize, deletes) && maxSize >= 0
    requires forall i | 0 <= i < |t.files| :: deletes(t.files[i])
    ensures SumWhere(t.files, t.gone, false) <= maxSize
  {
    if forall i | 0 <= i < |t.files| :: t.gone[i] {
      AllGone(t.files, t.gone);
    }
  }

  lemma {:induction false} AllGone(s: seq<File>, flags: seq<bool>)
    requires |s| == |flags| && forall i | 0 <= i < |flags| :: flags[i]
    ensures SumWhere(s, flags, false) == 0
  {
    if s != [] {
      AllGone(s[..|s| - 1], flags[..|s| - 1]);
    }
  }

  /** The walk over the directory adds up the sizes. */
  method TotalSize(files: seq<File>) returns (totalSize: nat)
    ensures totalSize == Total(files)
  {
    totalSize := 0;
    for i := 0 to |files|
      invariant totalSize == Total(files[..i])
    {
      assert files[..i + 1][..i] == files[..i];
      totalSize := totalSize + files[i].size;
    }
    assert files[..|files|] == files;
  }

  /** The deletion loop. */
  method DeleteOldest(order: seq<File>, target: int, deletes: File -> bool, cancelled: nat -> bool)
    returns (freed: nat, complete: bool, flags: seq<bool>)
    ensures Deleting(order, flags, freed, target, deletes)
    ensures complete ==> freed >= target || |flags| == |order|
    ensures !complete ==> cancelled(|flags|)
  {
    flags, freed := [], 0;
    while |flags| < |order|
      invariant Deleting(order, flags, freed, target, deletes)
    {
      if cancelled(|flags|) {
        return freed, false, flags;
      }
      if freed >= target {
        break;
      }
      DeleteStep(order, flags, freed, target, deletes);
      var f := order[|flags|];
      if deletes(f) {
        freed := freed + f.size;
        flags := flags + [true];
      } else {
        flags := flags + [false];
      }
    }
    return freed, true, flags;
  }

  /** Removes oldest files until the directory is under the limit; `None` means that it already
      is.  `deletes` says which removals succeed, `cancelled` whether the context is done when the
      n-th file is reached. */
  method TrimCorpus(files: seq<File>, maxSize: int, deletes: File -> bool, cancelled: nat -> bool)
    returns (freed: nat, complete: bool, r: Option<Trimmed>)
    ensures r.None? <==> Total(files) <= maxSize
    ensures r.None? ==> freed == 0 && complete
    ensures r.Some? ==> GoodTrim(r.value, files, maxSize, freed, deletes)
    ensures r.Some? ==> freed + SumWhere(r.value.files, r.value.gone, false) == Total(files)
    ensures r.Some? && complete ==> LimitMet(r.value, maxSize, deletes)
    ensures (forall n :: !cancelled(n)) ==> complete
  {
    var totalSize := TotalSize(files);
    if totalSize <= maxSize {
      return 0, true, None;
    }
    var a := new File[|files|](i requires 0 <= i < |files| => files[i]);
    assert a[..] == files;
    ExchangeSort(a);
    var order := a[..];
    var flags;
    freed, complete, flags := DeleteOldest(order, totalSize - maxSize, deletes, cancelled);
    DeletingIsGood(order, flags, freed, files, maxSize, deletes);
    var t := Trimmed(order, Padded(flags, |order|));
    TotalPermutes(order, files);
    SumsAddUp(order, t.gone);
    return freed, complete, Some(t);
  }
}
