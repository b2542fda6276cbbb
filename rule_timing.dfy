/**
 Per-rule timing aggregation over the `--time` output of one or more
 repositories (perf/RepositoryTimePerRule.py).  Times are exact reals.
 */
module RuleTiming {
  import opened Wrappers
  import opened PyDict
  import opened DescendingSort

  /** A total time and the number of targets it was summed over. */
  datatype TotalTimeAndTargetNum = TotalTimeAndTargetNum(totalRuleTime: real, numTargets: int)

  /** The default-constructed value, `TotalTimeAndTargetNum()`. */
  const Zero: TotalTimeAndTargetNum := TotalTimeAndTargetNum(0.0, 0)

  /** `a + b`. */
  function Add(a: TotalTimeAndTargetNum, b: TotalTimeAndTargetNum): TotalTimeAndTargetNum {
    TotalTimeAndTargetNum(a.totalRuleTime + b.totalRuleTime, a.numTargets + b.numTargets)
  }

  lemma AddCommutes(a: TotalTimeAndTargetNum, b: TotalTimeAndTargetNum)
    ensures Add(a, b) == Add(b, a)
  {
  }

  lemma AddAssociates(a: TotalTimeAndTargetNum, b: TotalTimeAndTargetNum, c: TotalTimeAndTargetNum)
    ensures Add(Add(a, b), c) == Add(a, Add(b, c))
  {
  }

  lemma ZeroIsIdentity(a: TotalTimeAndTargetNum)
    ensures Add(Zero, a) == a && Add(a, Zero) == a
  {
  }

  /** `return_average`; Python raises ZeroDivisionError when the count is 0. */
  function ReturnAverage(a: TotalTimeAndTargetNum): (average: real)
    requires a.numTargets != 0
    ensures average * (a.numTargets as real) == a.totalRuleTime
    ensures a.numTargets > 0 && a.totalRuleTime > 0.0 ==> average > 0.0
  {
    a.totalRuleTime / (a.numTargets as real)
  }

  // ---------------------------------------------------------------------
  // The already-parsed timing document

  /** One element of `time.rules`; only its `id` is used. */
  datatype RuleInfo = RuleInfo(id: string)

  /** One element of `time.targets`: `parse_times[i]` belongs to rule `i`. */
  datatype TargetTimes = TargetTimes(parseTimes: seq<real>)

  /** The `time` object. */
  datatype TimeSection = TimeSection(rules: seq<RuleInfo>, targets: seq<TargetTimes>)

  /** The bytes given to `times_per_file_to_times_per_rule`, after decoding. */
  datatype Document = Undecodable | Decoded(time: Option<TimeSection>)

  /**
   How a call ends: recorded, or one of the ways the source stops before it
   writes anything (`sys.exit(1)` after a diagnostic, or an IndexError).
   */
  datatype Outcome = Recorded | NotJson | NoTimeKey | RuleIndexOutOfRange

  // ---------------------------------------------------------------------
  // Per-repository totals

  /** `rule_ids`, collected from `time.rules` in order. */
  function RuleIds(rules: seq<RuleInfo>): (ids: seq<string>)
    ensures |ids| == |rules|
    ensures forall i :: 0 <= i < |rules| ==> ids[i] == rules[i].id
  {
    if rules == [] then [] else RuleIds(rules[..|rules| - 1]) + [rules[|rules| - 1].id]
  }

  /** `[0] * n`. */
  function Zeros(n: nat): seq<real> {
    seq(n, _ => 0.0)
  }

  /** `list(map(add, a, b))`: elementwise sums, as long as the shorter list. */
  function ZipAdd(a: seq<real>, b: seq<real>): seq<real> {
    seq(if |a| <= |b| then |a| else |b|, i requires 0 <= i < |a| && 0 <= i < |b| => a[i] + b[i])
  }

  /** `total_time_per_rule` after the first `n` targets. */
  function Totals(ids: seq<string>, targets: seq<TargetTimes>, n: nat): seq<real>
    requires n <= |targets|
  {
    if n == 0 then Zeros(|ids|) else ZipAdd(targets[n - 1].parseTimes, Totals(ids, targets, n - 1))
  }

  /** Every target has one parse time per rule. */
  predicate Rectangular(ids: seq<string>, targets: seq<TargetTimes>) {
    forall t :: 0 <= t < |targets| ==> |targets[t].parseTimes| == |ids|
  }

  predicate Distinct(ids: seq<string>) {
    forall i, j :: 0 <= i < j < |ids| ==> ids[i] != ids[j]
  }

  /** Reference definition: the sum of column `i` over the first `n` targets. */
  function ColumnSum(targets: seq<TargetTimes>, n: nat, i: nat): real
    requires n <= |targets|
    requires forall t :: 0 <= t < n ==> i < |targets[t].parseTimes|
  {
    if n == 0 then 0.0 else targets[n - 1].parseTimes[i] + ColumnSum(targets, n - 1, i)
  }

  /** The vector accumulator holds, per rule, the sum of that rule's column. */
  lemma {:induction false} TotalsAreColumnSums(ids: seq<string>, targets: seq<TargetTimes>, n: nat)
    requires n <= |targets| && Rectangular(ids, targets)
    ensures |Totals(ids, targets, n)| == |ids|
    ensures forall i :: 0 <= i < |ids| ==> Totals(ids, targets, n)[i] == ColumnSum(targets, n, i)
  {
    if n > 0 {
      TotalsAreColumnSums(ids, targets, n - 1);
    }
  }

  /** `dict(zip(keys, values))` over the first `n` pairs. */
  function ZipDict(keys: seq<string>, values: seq<real>, n: nat): Dict<string, real>
    requires n <= |keys| && n <= |values|
  {
    if n == 0 then [] else Put(ZipDict(keys, values, n - 1), keys[n - 1], values[n - 1])
  }

  /** `dict(zip(keys, values))`: `zip` stops at the shorter list. */
  function ZipToDict(keys: seq<string>, values: seq<real>): Dict<string, real> {
    ZipDict(keys, values, if |keys| <= |values| then |keys| else |values|)
  }

  /** With distinct keys no pair overwrites another: the dict is the zipped list. */
  lemma {:induction false} ZipDictOfDistinct(keys: seq<string>, values: seq<real>, n: nat)
    requires n <= |keys| && n <= |values| && Distinct(keys)
    ensures |ZipDict(keys, values, n)| == n
    ensures forall i :: 0 <= i < n ==> ZipDict(keys, values, n)[i] == (keys[i], values[i])
  {
    if n > 0 {
      var d := ZipDict(keys, values, n - 1);
      ZipDictOfDistinct(keys, values, n - 1);
      PutNextKey(d, keys, values, n - 1);
      var r := ZipDict(keys, values, n);
      assert r == d + [(keys[n - 1], values[n - 1])];
      forall i | 0 <= i < n ensures r[i] == (keys[i], values[i]) {
        if i < n - 1 { assert r[i] == d[i]; }
      }
    }
  }

  /** Assigning the next of distinct keys to the zipped prefix appends it. */
  lemma PutNextKey(d: Dict<string, real>, keys: seq<string>, values: seq<real>, m: nat)
    requires m < |keys| && m < |values| && Distinct(keys)
    requires |d| == m && forall i :: 0 <= i < m ==> d[i] == (keys[i], values[i])
    ensures Put(d, keys[m], values[m]) == d + [(keys[m], values[m])]
  {
    forall j | 0 <= j < |d| ensures d[j].0 != keys[m] {
      assert d[j].0 == keys[j];
    }
    GetAbsent(d, keys[m]);
  }

  /** The value stored for a repository: its per-rule totals, sorted by descending time. */
  function RepoTimes(section: TimeSection): Dict<string, real> {
    var ids := RuleIds(section.rules);
    SortByTimeDesc(ZipToDict(ids, Totals(ids, section.targets, |section.targets|)))
  }

  /** The rules with their summed times, in rule-id order. */
  function ByRuleOrder(section: TimeSection): Dict<string, real>
    requires Rectangular(RuleIds(section.rules), section.targets)
  {
    var ids := RuleIds(section.rules);
    seq(|ids|, i requires 0 <= i < |ids| => (ids[i], ColumnSum(section.targets, |section.targets|, i)))
  }

  lemma RepoTimesIsSortedColumnSums(section: TimeSection)
    requires Rectangular(RuleIds(section.rules), section.targets) && Distinct(RuleIds(section.rules))
    ensures RepoTimes(section) == SortByTimeDesc(ByRuleOrder(section))
  {
    var ids := RuleIds(section.rules);
    var n := |section.targets|;
    var totals := Totals(ids, section.targets, n);
    TotalsAreColumnSums(ids, section.targets, n);
    ZipDictOfDistinct(ids, totals, |ids|);
    assert ZipToDict(ids, totals) == ByRuleOrder(section) by {
      forall i | 0 <= i < |ids| ensures ZipToDict(ids, totals)[i] == ByRuleOrder(section)[i] {
      }
    }
  }

  /**
   With one parse time per rule in every target and distinct rule ids, the
   stored entry maps each rule id to the sum of its column (0.0 when there are
   no targets), and to nothing else.
   */
  lemma RepoTimesHoldsColumnSums(section: TimeSection)
    requires Rectangular(RuleIds(section.rules), section.targets) && Distinct(RuleIds(section.rules))
    ensures |RepoTimes(section)| == |section.rules| && DistinctKeys(RepoTimes(section))
    ensures forall i :: 0 <= i < |section.rules| ==>
      Get(RepoTimes(section), section.rules[i].id) == Some(ColumnSum(section.targets, |section.targets|, i))
    ensures forall k :: Get(RepoTimes(section), k).Some? ==> k in RuleIds(section.rules)
  {
    var ids := RuleIds(section.rules);
    var items := ByRuleOrder(section);
    RepoTimesIsSortedColumnSums(section);
    SortByTimeDescSpec(items);
    SortKeepsItems(items);
    forall i | 0 <= i < |ids| ensures Get(RepoTimes(section), ids[i]) == Some(ColumnSum(section.targets, |section.targets|, i)) {
      GetAt(items, i);
    }
    forall k | Get(RepoTimes(section), k).Some? ensures k in ids {
      GetFound(items, k);
    }
  }

  /**
   The stored entry is ordered by non-increasing time, and rules with equal
   time keep their rule-id order.
   */
  lemma RepoTimesOrder(section: TimeSection, t: real)
    requires Rectangular(RuleIds(section.rules), section.targets) && Distinct(RuleIds(section.rules))
    ensures NonIncreasing(RepoTimes(section))
    ensures WithTime(RepoTimes(section), t) == WithTime(ByRuleOrder(section), t)
  {
    RepoTimesIsSortedColumnSums(section);
    SortByTimeDescSpec(ByRuleOrder(section));
  }

  // ---------------------------------------------------------------------
  // The positive-only times

  /** No positive time sits at an index that has no rule id. */
  predicate NoStrayTime(ids: seq<string>, parseTimes: seq<real>) {
    forall i :: 0 <= i < |parseTimes| && parseTimes[i] > 0.0 ==> i < |ids|
  }

  predicate AllInRange(ids: seq<string>, targets: seq<TargetTimes>) {
    InRangeUpTo(ids, targets, |targets|)
  }

  /** No stray positive time in the first `n` targets. */
  predicate InRangeUpTo(ids: seq<string>, targets: seq<TargetTimes>, n: nat) {
    forall t :: 0 <= t < n && t < |targets| ==> NoStrayTime(ids, targets[t].parseTimes)
  }

  /** `repo_time_per_rule_no_zeroes` after the first `m` times of one more target. */
  function AccumTarget(ids: seq<string>, acc: Dict<string, TotalTimeAndTargetNum>, parseTimes: seq<real>, m: nat)
    : Dict<string, TotalTimeAndTargetNum>
    requires m <= |parseTimes|
    requires forall i :: 0 <= i < m && parseTimes[i] > 0.0 ==> i < |ids|
  {
    if m == 0 then acc
    else
      var a := AccumTarget(ids, acc, parseTimes, m - 1);
      if parseTimes[m - 1] > 0.0 then
        Put(a, ids[m - 1], Add(GetOr(a, ids[m - 1], Zero), TotalTimeAndTargetNum(parseTimes[m - 1], 1)))
      else a
  }

  /** `repo_time_per_rule_no_zeroes` after the first `n` targets. */
  function NoZeroes(ids: seq<string>, targets: seq<TargetTimes>, n: nat): Dict<string, TotalTimeAndTargetNum>
    requires n <= |targets| && InRangeUpTo(ids, targets, n)
  {
    if n == 0 then [] else AccumTarget(ids, NoZeroes(ids, targets, n - 1), targets[n - 1].parseTimes, |targets[n - 1].parseTimes|)
  }

  /** What time `i` of a target contributes to rule `k`: itself and a count of 1 only when positive. */
  function Contribution(ids: seq<string>, parseTimes: seq<real>, i: nat, k: string): TotalTimeAndTargetNum
    requires i < |parseTimes|
  {
    if parseTimes[i] > 0.0 && i < |ids| && ids[i] == k then TotalTimeAndTargetNum(parseTimes[i], 1) else Zero
  }

  /** Reference definition: rule `k`'s positive times among the first `m` of one target. */
  function PositivePart(ids: seq<string>, parseTimes: seq<real>, m: nat, k: string): TotalTimeAndTargetNum
    requires m <= |parseTimes|
  {
    if m == 0 then Zero else Add(PositivePart(ids, parseTimes, m - 1, k), Contribution(ids, parseTimes, m - 1, k))
  }

  /** Reference definition: rule `k`'s positive times over the first `n` targets, and how many there were. */
  function PositiveTotal(ids: seq<string>, targets: seq<TargetTimes>, n: nat, k: string): TotalTimeAndTargetNum
    requires n <= |targets|
  {
    if n == 0 then Zero
    else Add(PositiveTotal(ids, targets, n - 1, k), PositivePart(ids, targets[n - 1].parseTimes, |targets[n - 1].parseTimes|, k))
  }

  /** A sum of positive contributions: a zero count means nothing was added, a positive one a positive time. */
  predicate PositiveOrZero(p: TotalTimeAndTargetNum) {
    p.numTargets >= 0 && (p.numTargets == 0 ==> p == Zero) && (p.numTargets > 0 ==> p.totalRuleTime > 0.0)
  }

  /** A table entry after `p` is added to it, where adding nothing leaves it (even absent) alone. */
  function AddTo(entry: Option<TotalTimeAndTargetNum>, p: TotalTimeAndTargetNum): Option<TotalTimeAndTargetNum> {
    if p.numTargets == 0 then entry
    else match entry
      case Some(e) => Some(Add(e, p))
      case None => Some(p)
  }

  lemma AddToTwice(entry: Option<TotalTimeAndTargetNum>, a: TotalTimeAndTargetNum, b: TotalTimeAndTargetNum)
    requires PositiveOrZero(a) && PositiveOrZero(b)
    ensures PositiveOrZero(Add(a, b))
    ensures AddTo(AddTo(entry, a), b) == AddTo(entry, Add(a, b))
  {
  }

  /** `d[key] = d[key] + p` adds `p` to `key`'s entry and leaves every other key alone. */
  lemma PutAddGet(d: Dict<string, TotalTimeAndTargetNum>, key: string, p: TotalTimeAndTargetNum, k: string)
    requires p.numTargets >= 1
    ensures Get(Put(d, key, Add(GetOr(d, key, Zero), p)), k) == AddTo(Get(d, k), if key == k then p else Zero)
  {
    GetPut(d, key, Add(GetOr(d, key, Zero), p), k);
  }

  lemma {:induction false} PositivePartIsPositiveOrZero(ids: seq<string>, parseTimes: seq<real>, m: nat, k: string)
    requires m <= |parseTimes|
    ensures PositiveOrZero(PositivePart(ids, parseTimes, m, k))
  {
    if m > 0 {
      PositivePartIsPositiveOrZero(ids, parseTimes, m - 1, k);
    }
  }

  lemma {:induction false} PositiveTotalIsPositiveOrZero(ids: seq<string>, targets: seq<TargetTimes>, n: nat, k: string)
    requires n <= |targets|
    ensures PositiveOrZero(PositiveTotal(ids, targets, n, k))
  {
    if n > 0 {
      PositiveTotalIsPositiveOrZero(ids, targets, n - 1, k);
      PositivePartIsPositiveOrZero(ids, targets[n - 1].parseTimes, |targets[n - 1].parseTimes|, k);
    }
  }

  lemma {:induction false} AccumTargetGet(
    ids: seq<string>, acc: Dict<string, TotalTimeAndTargetNum>, parseTimes: seq<real>, m: nat, k: string)
    requires m <= |parseTimes| && NoStrayTime(ids, parseTimes)
    ensures Get(AccumTarget(ids, acc, parseTimes, m), k) == AddTo(Get(acc, k), PositivePart(ids, parseTimes, m, k))
  {
    if m > 0 {
      var a := AccumTarget(ids, acc, parseTimes, m - 1);
      AccumTargetGet(ids, acc, parseTimes, m - 1, k);
      PositivePartIsPositiveOrZero(ids, parseTimes, m - 1, k);
      var c := Contribution(ids, parseTimes, m - 1, k);
      if parseTimes[m - 1] > 0.0 {
        PutAddGet(a, ids[m - 1], TotalTimeAndTargetNum(parseTimes[m - 1], 1), k);
      }
      AddToTwice(Get(acc, k), PositivePart(ids, parseTimes, m - 1, k), c);
    }
  }

  /**
   The positive-only table of one document holds, for each rule with at least
   one positive time, exactly the sum of its positive times and their number;
   rules without a positive time have no entry.
   */
  lemma {:induction false} NoZeroesGet(ids: seq<string>, targets: seq<TargetTimes>, n: nat, k: string)
    requires n <= |targets| && AllInRange(ids, targets)
    ensures Get(NoZeroes(ids, targets, n), k) == AddTo(None, PositiveTotal(ids, targets, n, k))
  {
    if n > 0 {
      var pt := targets[n - 1].parseTimes;
      NoZeroesGet(ids, targets, n - 1, k);
      AccumTargetGet(ids, NoZeroes(ids, targets, n - 1), pt, |pt|, k);
      PositiveTotalIsPositiveOrZero(ids, targets, n - 1, k);
      PositivePartIsPositiveOrZero(ids, pt, |pt|, k);
      AddToTwice(None, PositiveTotal(ids, targets, n - 1, k), PositivePart(ids, pt, |pt|, k));
    }
  }

  /** Every entry of a table counts at least one target and a positive time. */
  predicate AllCounted(table: Dict<string, TotalTimeAndTargetNum>) {
    forall i :: 0 <= i < |table| ==> table[i].1.numTargets >= 1 && table[i].1.totalRuleTime > 0.0
  }

  /** Adding a counted amount to a key of a counted table keeps it counted and its keys distinct. */
  lemma PutAddCounted(table: Dict<string, TotalTimeAndTargetNum>, k: string, p: TotalTimeAndTargetNum)
    requires AllCounted(table) && DistinctKeys(table)
    requires p.numTargets >= 1 && p.totalRuleTime > 0.0
    ensures AllCounted(Put(table, k, Add(GetOr(table, k, Zero), p)))
    ensures DistinctKeys(Put(table, k, Add(GetOr(table, k, Zero), p)))
  {
    GetFound(table, k);
    PutItems(table, k, Add(GetOr(table, k, Zero), p));
    PutDistinct(table, k, Add(GetOr(table, k, Zero), p));
  }

  lemma {:induction false} AccumTargetCounted(
    ids: seq<string>, acc: Dict<string, TotalTimeAndTargetNum>, parseTimes: seq<real>, m: nat)
    requires m <= |parseTimes| && NoStrayTime(ids, parseTimes)
    requires AllCounted(acc) && DistinctKeys(acc)
    ensures AllCounted(AccumTarget(ids, acc, parseTimes, m)) && DistinctKeys(AccumTarget(ids, acc, parseTimes, m))
  {
    if m > 0 {
      var a := AccumTarget(ids, acc, parseTimes, m - 1);
      AccumTargetCounted(ids, acc, parseTimes, m - 1);
      var r := AccumTarget(ids, acc, parseTimes, m);
      if parseTimes[m - 1] > 0.0 {
        var k, p := ids[m - 1], TotalTimeAndTargetNum(parseTimes[m - 1], 1);
        assert r == Put(a, k, Add(GetOr(a, k, Zero), p));
        PutAddCounted(a, k, p);
      } else {
        assert r == a;
      }
    }
  }

  lemma {:induction false} NoZeroesCounted(ids: seq<string>, targets: seq<TargetTimes>, n: nat)
    requires n <= |targets| && AllInRange(ids, targets)
    ensures AllCounted(NoZeroes(ids, targets, n)) && DistinctKeys(NoZeroes(ids, targets, n))
  {
    if n > 0 {
      var pt := targets[n - 1].parseTimes;
      NoZeroesCounted(ids, targets, n - 1);
      AccumTargetCounted(ids, NoZeroes(ids, targets, n - 1), pt, |pt|);
    }
  }

  // ---------------------------------------------------------------------
  // Folding one repository into the cross-repository table

  /** `rules_to_total_time_num_files` after the first `n` items of `noZeroes` were added. */
  function MergeInto(table: Dict<string, TotalTimeAndTargetNum>, noZeroes: Dict<string, TotalTimeAndTargetNum>, n: nat)
    : Dict<string, TotalTimeAndTargetNum>
    requires n <= |noZeroes|
  {
    if n == 0 then table
    else
      var m := MergeInto(table, noZeroes, n - 1);
      var k := noZeroes[n - 1].0;
      Put(m, k, Add(GetOr(m, k, Zero), noZeroes[n - 1].1))
  }

  /** The cross-repository table after recording `section`. */
  function NewTable(table: Dict<string, TotalTimeAndTargetNum>, section: TimeSection): Dict<string, TotalTimeAndTargetNum>
    requires AllInRange(RuleIds(section.rules), section.targets)
  {
    var noZeroes := NoZeroes(RuleIds(section.rules), section.targets, |section.targets|);
    MergeInto(table, noZeroes, |noZeroes|)
  }

  /** Reference definition: the sum of the first `n` items of `d` whose key is `k`. */
  function KeyTotal(d: Dict<string, TotalTimeAndTargetNum>, n: nat, k: string): TotalTimeAndTargetNum
    requires n <= |d|
  {
    if n == 0 then Zero else Add(KeyTotal(d, n - 1, k), if d[n - 1].0 == k then d[n - 1].1 else Zero)
  }

  lemma {:induction false} MergeIntoGet(
    table: Dict<string, TotalTimeAndTargetNum>, noZeroes: Dict<string, TotalTimeAndTargetNum>, n: nat, k: string)
    requires n <= |noZeroes| && AllCounted(noZeroes)
    ensures PositiveOrZero(KeyTotal(noZeroes, n, k))
    ensures Get(MergeInto(table, noZeroes, n), k) == AddTo(Get(table, k), KeyTotal(noZeroes, n, k))
  {
    if n > 0 {
      var m := MergeInto(table, noZeroes, n - 1);
      var key := noZeroes[n - 1].0;
      var p := noZeroes[n - 1].1;
      var c := if key == k then p else Zero;
      MergeIntoGet(table, noZeroes, n - 1, k);
      PutAddGet(m, key, p, k);
      AddToTwice(Get(table, k), KeyTotal(noZeroes, n - 1, k), c);
    }
  }

  lemma {:induction false} KeyTotalOfDistinct(d: Dict<string, TotalTimeAndTargetNum>, n: nat, k: string)
    requires n <= |d| && DistinctKeys(d)
    ensures KeyTotal(d, n, k) == GetOr(d[..n], k, Zero)
  {
    if n > 0 {
      KeyTotalOfDistinct(d, n - 1, k);
      assert d[..n] == d[..n - 1] + [d[n - 1]];
      GetAppend(d[..n - 1], d[n - 1], k);
      if d[n - 1].0 == k {
        GetAbsent(d[..n - 1], k);
      }
    }
  }

  /**
   Recording a document adds to each rule exactly the sum of its strictly
   positive times and the number of them; a rule with none keeps its entry
   (or its absence) untouched.
   */
  lemma NewTableGet(table: Dict<string, TotalTimeAndTargetNum>, section: TimeSection, k: string)
    requires AllInRange(RuleIds(section.rules), section.targets)
    ensures PositiveOrZero(PositiveTotal(RuleIds(section.rules), section.targets, |section.targets|, k))
    ensures Get(NewTable(table, section), k)
         == AddTo(Get(table, k), PositiveTotal(RuleIds(section.rules), section.targets, |section.targets|, k))
  {
    var ids := RuleIds(section.rules);
    var n := |section.targets|;
    var noZeroes := NoZeroes(ids, section.targets, n);
    NoZeroesCounted(ids, section.targets, n);
    MergeIntoGet(table, noZeroes, |noZeroes|, k);
    KeyTotalOfDistinct(noZeroes, |noZeroes|, k);
    assert noZeroes[..|noZeroes|] == noZeroes;
    NoZeroesGet(ids, section.targets, n, k);
    PositiveTotalIsPositiveOrZero(ids, section.targets, n, k);
  }

  /** Reference definition: the strictly positive times in column `i` of the first `n` targets, and how many. */
  function PositiveColumn(targets: seq<TargetTimes>, n: nat, i: nat): TotalTimeAndTargetNum
    requires n <= |targets|
    requires forall t :: 0 <= t < n ==> i < |targets[t].parseTimes|
  {
    if n == 0 then Zero
    else
      var x := targets[n - 1].parseTimes[i];
      Add(PositiveColumn(targets, n - 1, i), if x > 0.0 then TotalTimeAndTargetNum(x, 1) else Zero)
  }

  lemma {:induction false} PositivePartOfDistinct(ids: seq<string>, parseTimes: seq<real>, m: nat, i: nat)
    requires m <= |parseTimes| && i < |ids| && Distinct(ids)
    ensures PositivePart(ids, parseTimes, m, ids[i])
         == if i < m && parseTimes[i] > 0.0 then TotalTimeAndTargetNum(parseTimes[i], 1) else Zero
  {
    if m > 0 {
      var prev := PositivePart(ids, parseTimes, m - 1, ids[i]);
      var c := Contribution(ids, parseTimes, m - 1, ids[i]);
      PositivePartOfDistinct(ids, parseTimes, m - 1, i);
      ContributionOfDistinct(ids, parseTimes, m - 1, i);
      assert PositivePart(ids, parseTimes, m, ids[i]) == Add(prev, c);
      if i < m - 1 {
        assert c == Zero;
      } else if i == m - 1 {
        assert prev == Zero;
      } else {
        assert prev == Zero && c == Zero;
      }
    }
  }

  lemma ContributionOfDistinct(ids: seq<string>, parseTimes: seq<real>, j: nat, i: nat)
    requires j < |parseTimes| && i < |ids| && Distinct(ids)
    ensures Contribution(ids, parseTimes, j, ids[i])
         == if j == i && parseTimes[i] > 0.0 then TotalTimeAndTargetNum(parseTimes[i], 1) else Zero
  {
    if j != i && j < |ids| {
      assert ids[j] != ids[i] by {
        if j < i { assert ids[j] != ids[i]; } else { assert ids[i] != ids[j]; }
      }
    }
  }

  lemma {:induction false} PositiveTotalOfDistinct(ids: seq<string>, targets: seq<TargetTimes>, n: nat, i: nat)
    requires n <= |targets| && i < |ids| && Distinct(ids) && Rectangular(ids, targets)
    ensures PositiveTotal(ids, targets, n, ids[i]) == PositiveColumn(targets, n, i)
  {
    if n > 0 {
      PositiveTotalOfDistinct(ids, targets, n - 1, i);
      PositivePartOfDistinct(ids, targets[n - 1].parseTimes, |targets[n - 1].parseTimes|, i);
    }
  }

  /**
   With one time per rule in every target and distinct rule ids: the rule at
   index `i` gains the sum of its positive times and the number of targets
   where it was positive; if it was positive nowhere, its entry is unchanged.
   */
  lemma NewTableGetRule(table: Dict<string, TotalTimeAndTargetNum>, section: TimeSection, i: nat)
    requires Rectangular(RuleIds(section.rules), section.targets) && Distinct(RuleIds(section.rules))
    requires i < |section.rules|
    ensures AllInRange(RuleIds(section.rules), section.targets)
    ensures Get(NewTable(table, section), section.rules[i].id)
         == AddTo(Get(table, section.rules[i].id), PositiveColumn(section.targets, |section.targets|, i))
    ensures PositiveColumn(section.targets, |section.targets|, i).numTargets == 0
         ==> Get(NewTable(table, section), section.rules[i].id) == Get(table, section.rules[i].id)
  {
    var ids := RuleIds(section.rules);
    NewTableGet(table, section, ids[i]);
    PositiveTotalOfDistinct(ids, section.targets, |section.targets|, i);
  }

  /** Zero (and negative) times never contribute: such a rule's entry stays as it was. */
  lemma {:induction false} NonPositiveTimesLeaveEntry(table: Dict<string, TotalTimeAndTargetNum>, section: TimeSection, k: string)
    requires AllInRange(RuleIds(section.rules), section.targets)
    requires forall t, i ::
      (0 <= t < |section.targets| && 0 <= i < |section.targets[t].parseTimes| && i < |section.rules| && section.rules[i].id == k)
      ==> section.targets[t].parseTimes[i] <= 0.0
    ensures Get(NewTable(table, section), k) == Get(table, k)
  {
    var ids := RuleIds(section.rules);
    NewTableGet(table, section, k);
    NoPositiveIsZero(ids, section.targets, |section.targets|, k);
  }

  lemma {:induction false} NoPositiveIsZero(ids: seq<string>, targets: seq<TargetTimes>, n: nat, k: string)
    requires n <= |targets|
    requires forall t, i ::
      (0 <= t < |targets| && 0 <= i < |targets[t].parseTimes| && i < |ids| && ids[i] == k)
      ==> targets[t].parseTimes[i] <= 0.0
    ensures PositiveTotal(ids, targets, n, k) == Zero
  {
    if n > 0 {
      NoPositiveIsZero(ids, targets, n - 1, k);
      NoPositivePartIsZero(ids, targets[n - 1].parseTimes, |targets[n - 1].parseTimes|, k);
    }
  }

  lemma {:induction false} NoPositivePartIsZero(ids: seq<string>, parseTimes: seq<real>, m: nat, k: string)
    requires m <= |parseTimes|
    requires forall i :: 0 <= i < |parseTimes| && i < |ids| && ids[i] == k ==> parseTimes[i] <= 0.0
    ensures PositivePart(ids, parseTimes, m, k) == Zero
  {
    if m > 0 {
      NoPositivePartIsZero(ids, parseTimes, m - 1, k);
    }
  }

  /** Recording keeps every entry counted (never 0 targets) and the keys distinct. */
  lemma {:induction false} MergeIntoCounted(
    table: Dict<string, TotalTimeAndTargetNum>, noZeroes: Dict<string, TotalTimeAndTargetNum>, n: nat)
    requires n <= |noZeroes| && AllCounted(noZeroes)
    requires AllCounted(table) && DistinctKeys(table)
    ensures AllCounted(MergeInto(table, noZeroes, n)) && DistinctKeys(MergeInto(table, noZeroes, n))
  {
    if n > 0 {
      MergeIntoCounted(table, noZeroes, n - 1);
      PutAddCounted(MergeInto(table, noZeroes, n - 1), noZeroes[n - 1].0, noZeroes[n - 1].1);
    }
  }

  // ---------------------------------------------------------------------
  // Averages

  predicate NoneUncounted(table: Dict<string, TotalTimeAndTargetNum>) {
    forall i :: 0 <= i < |table| ==> table[i].1.numTargets != 0
  }

  /** `time_per_rule_dict` before sorting: each rule's average, in table order. */
  function Averages(table: Dict<string, TotalTimeAndTargetNum>): Dict<string, real>
    requires NoneUncounted(table)
  {
    seq(|table|, i requires 0 <= i < |table| && table[i].1.numTargets != 0 => (table[i].0, ReturnAverage(table[i].1)))
  }

  /** The result of `_calculate_time_per_rule`. */
  function TimePerRule(table: Dict<string, TotalTimeAndTargetNum>): Dict<string, real>
    requires NoneUncounted(table)
  {
    SortByTimeDesc(Averages(table))
  }

  /**
   `_calculate_time_per_rule` yields exactly the table's rules, each with its
   average, in non-increasing order of average.
   */
  lemma TimePerRuleSpec(table: Dict<string, TotalTimeAndTargetNum>)
    requires DistinctKeys(table) && NoneUncounted(table)
    ensures NonIncreasing(TimePerRule(table))
    ensures DistinctKeys(TimePerRule(table)) && |TimePerRule(table)| == |table|
    ensures forall k :: Get(TimePerRule(table), k).Some? <==> Get(table, k).Some?
    ensures forall i :: 0 <= i < |table| ==> Get(TimePerRule(table), table[i].0) == Some(ReturnAverage(table[i].1))
  {
    var averages := Averages(table);
    SortByTimeDescSpec(averages);
    SortKeepsItems(averages);
    forall i | 0 <= i < |table| ensures Get(TimePerRule(table), table[i].0) == Some(ReturnAverage(table[i].1)) {
      GetAt(averages, i);
    }
    forall k ensures Get(TimePerRule(table), k).Some? <==> Get(table, k).Some? {
      GetAbsent(table, k);
      GetAbsent(averages, k);
    }
  }

  // ---------------------------------------------------------------------
  // The stateful object

  /** The record `print_repo_to_times_per_rule` serialises. */
  datatype Output = Output(repositoryToTimesPerRule: Dict<string, Dict<string, real>>, timePerRuleAverage: Dict<string, real>)

  /**
   `RepositoryTimePerRule`: a per-repository table of per-rule times and a
   cross-repository table of positive-only (time, target count) sums.
   */
  class RepositoryTimePerRule {
    const outputFile: string
    var repoToTimesPerRule: Dict<string, Dict<string, real>>
    var rulesToTotalTimeNumFiles: Dict<string, TotalTimeAndTargetNum>

    /** Both tables are dicts, and no cross-repository entry has a zero count. */
    ghost predicate Valid()
      reads this
    {
      DistinctKeys(repoToTimesPerRule) && DistinctKeys(rulesToTotalTimeNumFiles) && AllCounted(rulesToTotalTimeNumFiles)
    }

    constructor (outputFile: string)
      ensures Valid()
      ensures this.outputFile == outputFile
      ensures repoToTimesPerRule == [] && rulesToTotalTimeNumFiles == []
    {
      this.outputFile := outputFile;
      repoToTimesPerRule := [];
      rulesToTotalTimeNumFiles := [];
    }

    /** `_calculate_time_per_rule`. */
    method CalculateTimePerRule() returns (timePerRule: Dict<string, real>)
      requires Valid()
      ensures timePerRule == TimePerRule(rulesToTotalTimeNumFiles)
      ensures NonIncreasing(timePerRule)
      ensures DistinctKeys(timePerRule) && |timePerRule| == |rulesToTotalTimeNumFiles|
      ensures forall k :: Get(timePerRule, k).Some? <==> Get(rulesToTotalTimeNumFiles, k).Some?
      ensures forall i :: 0 <= i < |rulesToTotalTimeNumFiles| ==>
        Get(timePerRule, rulesToTotalTimeNumFiles[i].0) == Some(ReturnAverage(rulesToTotalTimeNumFiles[i].1))
    {
      var table := rulesToTotalTimeNumFiles;
      var timePerRuleDict: Dict<string, real> := [];
      for j := 0 to |table|
        invariant timePerRuleDict == Averages(table[..j])
      {
        var (ruleId, totalTimeTargetNum) := table[j];
        GetAbsent(timePerRuleDict, ruleId);
        timePerRuleDict := Put(timePerRuleDict, ruleId, ReturnAverage(totalTimeTargetNum));
      }
      assert table[..|table|] == table;
      timePerRule := SortByTimeDesc(timePerRuleDict);
      TimePerRuleSpec(table);
    }

    /** The `output` record of `print_repo_to_times_per_rule`, before it is written as JSON. */
    method OutputRecord() returns (output: Output)
      requires Valid()
      ensures output.repositoryToTimesPerRule == repoToTimesPerRule
      ensures output.timePerRuleAverage == TimePerRule(rulesToTotalTimeNumFiles)
      ensures NonIncreasing(output.timePerRuleAverage)
    {
      var timePerRule := CalculateTimePerRule();
      output := Output(repoToTimesPerRule, timePerRule);
    }

    /** `times_per_file_to_times_per_rule(repo_name, ...)` on the decoded document. */
    method TimesPerFileToTimesPerRule(repoName: string, doc: Document) returns (outcome: Outcome)
      requires Valid()
      modifies this
      ensures Valid()
      ensures outcome == ExpectedOutcome(doc)
      ensures outcome != Recorded ==>
        repoToTimesPerRule == old(repoToTimesPerRule) && rulesToTotalTimeNumFiles == old(rulesToTotalTimeNumFiles)
      ensures outcome == Recorded ==>
        && doc.Decoded? && doc.time.Some?
        && AllInRange(RuleIds(doc.time.value.rules), doc.time.value.targets)
        && repoToTimesPerRule == Put(old(repoToTimesPerRule), repoName, RepoTimes(doc.time.value))
        && rulesToTotalTimeNumFiles == NewTable(old(rulesToTotalTimeNumFiles), doc.time.value)
    {
      if doc.Undecodable? {
        return NotJson;
      }
      if doc.time.None? {
        return NoTimeKey;
      }
      var section := doc.time.value;
      var ruleIds := CollectRuleIds(section.rules);
      var targets := section.targets;
      var inRange, totalTimePerRule, noZeroes := AccumulateTargets(ruleIds, targets);
      if !inRange {
        return RuleIndexOutOfRange;
      }
      repoToTimesPerRule := Put(repoToTimesPerRule, repoName, SortByTimeDesc(ZipToDict(ruleIds, totalTimePerRule)));
      PutDistinct(old(repoToTimesPerRule), repoName, SortByTimeDesc(ZipToDict(ruleIds, totalTimePerRule)));

      // add to the overall per-rule statistics
      NoZeroesCounted(ruleIds, targets, |targets|);
      rulesToTotalTimeNumFiles := MergeCounts(rulesToTotalTimeNumFiles, noZeroes);
      outcome := Recorded;
    }
  }

  /** Lines 50-52: `rule_ids`, one id per element of `time.rules`. */
  method CollectRuleIds(rules: seq<RuleInfo>) returns (ruleIds: seq<string>)
    ensures ruleIds == RuleIds(rules)
  {
    ruleIds := [];
    for j := 0 to |rules|
      invariant ruleIds == RuleIds(rules[..j])
    {
      assert rules[..j + 1][..j] == rules[..j];
      ruleIds := ruleIds + [rules[j].id];
    }
    assert rules[..|rules|] == rules;
  }

  /**
   Lines 55-62: the loop over the targets, building `total_time_per_rule` and
   `repo_time_per_rule_no_zeroes`.  `inRange` is false when `rule_ids[idx]`
   would raise IndexError; the source then stops with nothing written.
   */
  method AccumulateTargets(ruleIds: seq<string>, targets: seq<TargetTimes>)
    returns (inRange: bool, totalTimePerRule: seq<real>, noZeroes: Dict<string, TotalTimeAndTargetNum>)
    ensures inRange == AllInRange(ruleIds, targets)
    ensures inRange ==> totalTimePerRule == Totals(ruleIds, targets, |targets|)
    ensures inRange ==> noZeroes == NoZeroes(ruleIds, targets, |targets|)
  {
    totalTimePerRule := Zeros(|ruleIds|);
    noZeroes := [];
    for t := 0 to |targets|
      invariant InRangeUpTo(ruleIds, targets, t)
      invariant totalTimePerRule == Totals(ruleIds, targets, t)
      invariant noZeroes == NoZeroes(ruleIds, targets, t)
    {
      var parseTimes := targets[t].parseTimes;
      totalTimePerRule := ZipAdd(parseTimes, totalTimePerRule);
      var targetInRange;
      targetInRange, noZeroes := AccumulateTarget(ruleIds, noZeroes, parseTimes);
      if !targetInRange {
        assert !AllInRange(ruleIds, targets) by {
          assert !NoStrayTime(ruleIds, targets[t].parseTimes);
        }
        return false, totalTimePerRule, noZeroes;
      }
      assert InRangeUpTo(ruleIds, targets, t + 1) by {
        forall u | 0 <= u < t + 1 && u < |targets| ensures NoStrayTime(ruleIds, targets[u].parseTimes) {
          if u == t { assert targets[u].parseTimes == parseTimes; }
        }
      }
      assert noZeroes == NoZeroes(ruleIds, targets, t + 1);
      assert totalTimePerRule == Totals(ruleIds, targets, t + 1);
    }
    inRange := true;
  }

  /**
   The inner loop over one target's `parse_times`: each positive time is added,
   with a count of 1, to its rule's entry; a positive time with no rule id at
   its index raises IndexError, reported as `inRange == false`.
   */
  method AccumulateTarget(ruleIds: seq<string>, acc: Dict<string, TotalTimeAndTargetNum>, parseTimes: seq<real>)
    returns (inRange: bool, noZeroes: Dict<string, TotalTimeAndTargetNum>)
    ensures inRange == NoStrayTime(ruleIds, parseTimes)
    ensures inRange ==> noZeroes == AccumTarget(ruleIds, acc, parseTimes, |parseTimes|)
  {
    noZeroes := acc;
    for idx := 0 to |parseTimes|
      invariant forall i :: 0 <= i < idx && parseTimes[i] > 0.0 ==> i < |ruleIds|
      invariant noZeroes == AccumTarget(ruleIds, acc, parseTimes, idx)
    {
      if parseTimes[idx] > 0.0 {
        if idx >= |ruleIds| {
          // `rule_ids[idx]` raises IndexError
          return false, noZeroes;
        }
        var ruleId := ruleIds[idx];
        noZeroes := Put(noZeroes, ruleId, Add(GetOr(noZeroes, ruleId, Zero), TotalTimeAndTargetNum(parseTimes[idx], 1)));
      }
    }
    inRange := true;
  }

  /**
   The loop that adds each entry of `repo_time_per_rule_no_zeroes` to the
   cross-repository table; it keeps every entry of the table counted.
   */
  method MergeCounts(table: Dict<string, TotalTimeAndTargetNum>, noZeroes: Dict<string, TotalTimeAndTargetNum>)
    returns (merged: Dict<string, TotalTimeAndTargetNum>)
    requires AllCounted(table) && DistinctKeys(table) && AllCounted(noZeroes)
    ensures merged == MergeInto(table, noZeroes, |noZeroes|)
    ensures AllCounted(merged) && DistinctKeys(merged)
  {
    merged := table;
    for j := 0 to |noZeroes|
      invariant merged == MergeInto(table, noZeroes, j)
      invariant AllCounted(merged) && DistinctKeys(merged)
    {
      var (ruleId, positive) := noZeroes[j];
      PutAddCounted(merged, ruleId, positive);
      var changedResults := Add(GetOr(merged, ruleId, Zero), positive);
      merged := Put(merged, ruleId, changedResults);
    }
  }

  /** What the call makes of a document. */
  function ExpectedOutcome(doc: Document): Outcome {
    match doc
    case Undecodable => NotJson
    case Decoded(None) => NoTimeKey
    case Decoded(Some(section)) =>
      if AllInRange(RuleIds(section.rules), section.targets) then Recorded else RuleIndexOutOfRange
  }
}
