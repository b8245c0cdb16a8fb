/**
 * The per-stage metrics registry of utils/classes/Thresholds.class.js.
 *
 * The source keeps its metric sinks in dictionaries keyed by generated
 * names (`y_failed_request_stage_3_TCP`, `y_iterations_stage_0`, ...); the
 * model keeps the same names as `map<string, Sink>` keys, so that looking a
 * sink up for a stage that was never created fails exactly as `undefined.add`
 * does in the source. A sink is abstracted to the state the metrics backend
 * aggregates: a sum, a true/total pair, a last value or the list of samples.
 */
module Thresholds {
  import opened Wrappers
  import opened JsText
  import opened Constants

  // ---------------------------------------------------------------------
  // Error-code classification
  // ---------------------------------------------------------------------

  /** The ordered chain of inclusive range checks on a k6 `error_code`. */
  function Classify(errorCode: int): (c: ErrorCategory)
    ensures c == Text <==> errorCode == 0
    ensures c == Tcp <==> 1100 <= errorCode <= 1199
    ensures c == Tls <==> 1200 <= errorCode <= 1299
    ensures c == Http4xx <==> 1400 <= errorCode <= 1499
    ensures c == Http5xx <==> 1500 <= errorCode <= 1599
    ensures c == General <==>
      errorCode != 0 && !(1100 <= errorCode <= 1299) && !(1400 <= errorCode <= 1599)
    ensures c != Dns && c != Http2
  {
    if errorCode == 0 then Text
    else if 1100 <= errorCode <= 1199 then Tcp
    else if 1200 <= errorCode <= 1299 then Tls
    else if 1400 <= errorCode <= 1499 then Http4xx
    else if 1500 <= errorCode <= 1599 then Http5xx
    else General
  }

  /** One row of the classification table: an inclusive code range and its category. */
  datatype CodeRange = CodeRange(lo: int, hi: int, category: ErrorCategory)

  /** The classification written as a table, in the order the source tests the ranges. */
  const CodeRanges: seq<CodeRange> := [
    CodeRange(0, 0, Text),
    CodeRange(1100, 1199, Tcp),
    CodeRange(1200, 1299, Tls),
    CodeRange(1400, 1499, Http4xx),
    CodeRange(1500, 1599, Http5xx)
  ]

  /** First row of `table` whose range holds `code`; `General` when none does. */
  function FirstMatch(table: seq<CodeRange>, code: int): ErrorCategory {
    if table == [] then General
    else if table[0].lo <= code <= table[0].hi then table[0].category
    else FirstMatch(table[1..], code)
  }

  /** The ranges of the table do not overlap, so the order of the checks does not matter. */
  lemma CodeRangesDisjoint(i: nat, j: nat, code: int)
    requires i < j < |CodeRanges|
    ensures !(CodeRanges[i].lo <= code <= CodeRanges[i].hi && CodeRanges[j].lo <= code <= CodeRanges[j].hi)
  {
  }

  /** The if/else chain agrees with the table on every code. */
  lemma ClassifyIsTableLookup(code: int)
    ensures Classify(code) == FirstMatch(CodeRanges, code)
  {
    var t := CodeRanges;
    var t1, t2, t3, t4, t5 := t[1..], t[2..], t[3..], t[4..], t[5..];
    assert t1 == [t[1], t[2], t[3], t[4]] && t1[1..] == t2;
    assert t2 == [t[2], t[3], t[4]] && t2[1..] == t3;
    assert t3 == [t[3], t[4]] && t3[1..] == t4;
    assert t4 == [t[4]] && t4[1..] == t5;
    assert t5 == [];
    assert FirstMatch(t4, code) == if 1500 <= code <= 1599 then Http5xx else General;
    assert FirstMatch(t3, code) == if 1400 <= code <= 1499 then Http4xx else FirstMatch(t4, code);
    assert FirstMatch(t2, code) == if 1200 <= code <= 1299 then Tls else FirstMatch(t3, code);
    assert FirstMatch(t1, code) == if 1100 <= code <= 1199 then Tcp else FirstMatch(t2, code);
  }

  // ---------------------------------------------------------------------
  // Metric names
  // ---------------------------------------------------------------------

  /** `${prefix}${i}`: the name of a stage-scoped sink. */
  function StageKey(prefix: string, i: int): string {
    prefix + IntToString(i)
  }

  /** A failure counter of a stage: the base counter, or the counter of one category. */
  datatype FailSlot = Base | Of(category: ErrorCategory)

  /** `${prefix}{i}` for the base counter, `${prefix}{i}_{CODE}` for a category counter. */
  function FailKey(prefix: string, i: int, slot: FailSlot): string {
    match slot
    case Base => prefix + IntToString(i)
    case Of(c) => prefix + IntToString(i) + "_" + TypeErrorCode(c)
  }

  /**
   * `y_failed_request_stage_{i}` or `y_failed_request_stage_{i}_{CODE}`,
   * never the name of the cross-stage Rate.
   */
  function FailName(i: int, slot: FailSlot): (name: string)
    ensures name != MetricFailedRequest
  {
    NamesSeparated();
    FailKeyNotRate(MetricFailedRequest, FailedRequestStage, i, slot);
    FailKey(FailedRequestStage, i, slot)
  }

  predicate NoUnderscore(s: string) {
    forall k :: 0 <= k < |s| ==> s[k] != '_'
  }

  /** Length of the longest prefix of s without '_'. */
  function LeadLength(s: string): nat {
    if s == [] || s[0] == '_' then 0 else 1 + LeadLength(s[1..])
  }

  lemma {:induction false} LeadLengthOfConcat(a: string, x: string)
    requires NoUnderscore(a)
    requires x == [] || x[0] == '_'
    ensures LeadLength(a + x) == |a|
    decreases |a|
  {
    if a != [] {
      assert (a + x)[1..] == a[1..] + x;
      LeadLengthOfConcat(a[1..], x);
    } else {
      assert a + x == x;
    }
  }

  /** Two strings free of '_', each followed by nothing or by '_' and more, can only be split one way. */
  lemma SplitAtUnderscore(a: string, x: string, b: string, y: string)
    requires NoUnderscore(a) && NoUnderscore(b)
    requires x == [] || x[0] == '_'
    requires y == [] || y[0] == '_'
    requires a + x == b + y
    ensures a == b && x == y
  {
    LeadLengthOfConcat(a, x);
    LeadLengthOfConcat(b, y);
    assert a == (a + x)[..|a|] && b == (b + y)[..|b|];
  }

  lemma IntToStringNoUnderscore(i: int)
    ensures NoUnderscore(IntToString(i))
  {
    var s := IntToString(i);
    if i < 0 {
      forall k | 0 <= k < |s| ensures s[k] != '_' {
        if k > 0 {
          assert s[k] == s[1..][k - 1];
        }
      }
    }
  }

  /** What a slot appends after the stage index: nothing, or `_` and the category's code. */
  function SlotSuffix(slot: FailSlot): (x: string)
    ensures x == [] || x[0] == '_'
  {
    if slot.Base? then "" else "_" + TypeErrorCode(slot.category)
  }

  lemma FailKeyLayout(prefix: string, i: int, slot: FailSlot)
    ensures FailKey(prefix, i, slot) == prefix + (IntToString(i) + SlotSuffix(slot))
  {
  }

  lemma SlotSuffixInjective(s: FailSlot, t: FailSlot)
    requires SlotSuffix(s) == SlotSuffix(t)
    ensures s == t
  {
    if s.Of? && t.Of? {
      assert TypeErrorCode(s.category) == SlotSuffix(s)[1..];
      assert TypeErrorCode(t.category) == SlotSuffix(t)[1..];
      TypeErrorCodeInjective(s.category, t.category);
    }
  }

  lemma CancelPrefix(p: string, a: string, b: string)
    requires p + a == p + b
    ensures a == b
  {
    assert a == (p + a)[|p|..];
    assert b == (p + b)[|p|..];
  }

  /** All failure-counter names are distinct: the name determines the stage and the slot. */
  lemma FailKeyInjective(prefix: string, i: int, s: FailSlot, j: int, t: FailSlot)
    ensures FailKey(prefix, i, s) == FailKey(prefix, j, t) <==> i == j && s == t
  {
    if FailKey(prefix, i, s) == FailKey(prefix, j, t) {
      FailKeyLayout(prefix, i, s);
      FailKeyLayout(prefix, j, t);
      CancelPrefix(prefix, IntToString(i) + SlotSuffix(s), IntToString(j) + SlotSuffix(t));
      IntToStringNoUnderscore(i);
      IntToStringNoUnderscore(j);
      SplitAtUnderscore(IntToString(i), SlotSuffix(s), IntToString(j), SlotSuffix(t));
      IntToStringInjective(i, j);
      SlotSuffixInjective(s, t);
    }
  }

  /** A rate name and a counter prefix that differ in their first character. */
  predicate Separated(rate: string, prefix: string) {
    rate != [] && prefix != [] && rate[0] != prefix[0]
  }

  lemma NamesSeparated()
    ensures Separated(MetricFailedRequest, FailedRequestStage)
  {
  }

  /** The cross-stage Rate's name is none of the failure-counter names. */
  lemma FailKeyNotRate(rate: string, prefix: string, i: int, s: FailSlot)
    requires Separated(rate, prefix)
    ensures FailKey(prefix, i, s) != rate
  {
    assert FailKey(prefix, i, s)[0] == prefix[0];
  }

  lemma StageKeyInjective(prefix: string, i: int, j: int)
    ensures StageKey(prefix, i) == StageKey(prefix, j) <==> i == j
  {
    if StageKey(prefix, i) == StageKey(prefix, j) {
      assert IntToString(i) == StageKey(prefix, i)[|prefix|..];
      assert IntToString(j) == StageKey(prefix, j)[|prefix|..];
      IntToStringInjective(i, j);
    }
  }

  // ---------------------------------------------------------------------
  // The names the builders create
  // ---------------------------------------------------------------------

  /** Names `${prefix}0` .. `${prefix}{n-1}`. */
  function StageKeys(prefix: string, n: int): set<string>
    decreases n
  {
    if n <= 0 then {} else StageKeys(prefix, n - 1) + {StageKey(prefix, n - 1)}
  }

  /** A stage-scoped sink exists exactly for the stages 0 .. n-1. */
  lemma {:induction false} StageKeysMember(prefix: string, n: int, s: int)
    ensures StageKey(prefix, s) in StageKeys(prefix, n) <==> 0 <= s < n
    decreases n
  {
    if n > 0 {
      StageKeysMember(prefix, n - 1, s);
      StageKeyInjective(prefix, s, n - 1);
    }
  }

  /** There are exactly n stage-scoped names (none of them repeated). */
  lemma {:induction false} StageKeysCount(prefix: string, n: int)
    ensures |StageKeys(prefix, n)| == if n <= 0 then 0 else n
    decreases n
  {
    if n > 0 {
      StageKeysCount(prefix, n - 1);
      StageKeysMember(prefix, n - 1, n - 1);
    }
  }

  /** The failure counters of each stage, in the order the builder creates them. */
  const StageSlots: seq<FailSlot> :=
    [Base, Of(Text), Of(General), Of(Tcp), Of(Tls), Of(Http4xx), Of(Http5xx)]

  /** Every classification lands on a category that has a per-stage counter. */
  lemma ClassifyHasStageCounter(code: int)
    ensures Of(Classify(code)) in StageSlots
  {
  }

  /** The names of the counters `slots` of stage i. */
  function SlotKeys(prefix: string, i: int, slots: seq<FailSlot>): set<string>
    decreases |slots|
  {
    if slots == [] then {} else {FailKey(prefix, i, slots[0])} + SlotKeys(prefix, i, slots[1..])
  }

  /** The keys of a `failRates` table for n stages: the Rate `rate` and the counters `slots` of each stage. */
  function RateTableKeys(rate: string, prefix: string, slots: seq<FailSlot>, n: int): (keys: set<string>)
    ensures rate in keys
    decreases n
  {
    if n <= 0 then {rate} else RateTableKeys(rate, prefix, slots, n - 1) + SlotKeys(prefix, n - 1, slots)
  }

  /** The keys of the registry's `failRates` table. */
  function FailRateKeys(n: int): set<string> {
    RateTableKeys(MetricFailedRequest, FailedRequestStage, StageSlots, n)
  }

  predicate Distinct(slots: seq<FailSlot>) {
    forall p, q :: 0 <= p < q < |slots| ==> slots[p] != slots[q]
  }

  lemma StageSlotsDistinct()
    ensures Distinct(StageSlots)
  {
  }

  lemma {:induction false} SlotKeysMember(prefix: string, i: int, slots: seq<FailSlot>, j: int, slot: FailSlot)
    ensures FailKey(prefix, j, slot) in SlotKeys(prefix, i, slots) <==> j == i && slot in slots
    decreases |slots|
  {
    if slots != [] {
      FailKeyInjective(prefix, j, slot, i, slots[0]);
      SlotKeysMember(prefix, i, slots[1..], j, slot);
    }
  }

  /** Distinct slots of one stage have distinct names. */
  lemma {:induction false} SlotKeysCount(prefix: string, i: int, slots: seq<FailSlot>)
    requires Distinct(slots)
    ensures |SlotKeys(prefix, i, slots)| == |slots|
    decreases |slots|
  {
    if slots != [] {
      SlotKeysCount(prefix, i, slots[1..]);
      SlotKeysMember(prefix, i, slots[1..], i, slots[0]);
    }
  }

  /** A failure counter exists exactly for the stages 0 .. n-1 and the given slots. */
  lemma {:induction false} RateTableKeysMember(rate: string, prefix: string, slots: seq<FailSlot>, n: int, s: int, slot: FailSlot)
    requires Separated(rate, prefix)
    ensures FailKey(prefix, s, slot) in RateTableKeys(rate, prefix, slots, n) <==> 0 <= s < n && slot in slots
    decreases n
  {
    FailKeyNotRate(rate, prefix, s, slot);
    if n > 0 {
      RateTableKeysMember(rate, prefix, slots, n - 1, s, slot);
      SlotKeysMember(prefix, n - 1, slots, s, slot);
    }
  }

  /** The counters a stage adds are not already in the table of the stages before it. */
  lemma {:induction false} SlotKeysFresh(rate: string, prefix: string, slots: seq<FailSlot>, n: int, added: seq<FailSlot>)
    requires Separated(rate, prefix) && n >= 0
    ensures SlotKeys(prefix, n, added) !! RateTableKeys(rate, prefix, slots, n)
    decreases |added|
  {
    if added != [] {
      RateTableKeysMember(rate, prefix, slots, n, n, added[0]);
      SlotKeysFresh(rate, prefix, slots, n, added[1..]);
    }
  }

  lemma DisjointUnionCount<T>(a: set<T>, b: set<T>)
    requires a !! b
    ensures |a + b| == |a| + |b|
  {
  }

  lemma MulStep(a: nat, n: int)
    requires n > 0
    ensures a * n == a * (n - 1) + a
  {
  }

  /** One Rate plus |slots| counters per stage, all names distinct. */
  lemma {:induction false} RateTableKeysCount(rate: string, prefix: string, slots: seq<FailSlot>, n: int)
    requires Separated(rate, prefix) && Distinct(slots)
    ensures |RateTableKeys(rate, prefix, slots, n)| == 1 + |slots| * (if n <= 0 then 0 else n)
    decreases n
  {
    if n > 0 {
      var before, added := RateTableKeys(rate, prefix, slots, n - 1), SlotKeys(prefix, n - 1, slots);
      RateTableKeysCount(rate, prefix, slots, n - 1);
      SlotKeysFresh(rate, prefix, slots, n - 1, slots);
      SlotKeysCount(prefix, n - 1, slots);
      DisjointUnionCount(before, added);
      MulStep(|slots|, n);
    }
  }

  /** The names of the seven counters of stage i, as the builder writes them out. */
  lemma StageSlotKeys(prefix: string, i: int)
    ensures SlotKeys(prefix, i, StageSlots) ==
      {FailKey(prefix, i, Base), FailKey(prefix, i, Of(Text)), FailKey(prefix, i, Of(General)),
       FailKey(prefix, i, Of(Tcp)), FailKey(prefix, i, Of(Tls)), FailKey(prefix, i, Of(Http4xx)),
       FailKey(prefix, i, Of(Http5xx))}
  {
    var t := StageSlots;
    assert t[1..][1..][1..][1..][1..][1..][1..] == [];
  }

  /**
   * `names` holds a per-category counter name exactly for stages 0 .. n-1
   * and the six categories the classification produces.
   */
  ghost predicate CategoryCountersFor(names: set<string>, n: int) {
    forall s: int, c: ErrorCategory :: FailName(s, Of(c)) in names <==> 0 <= s < n && c != Dns && c != Http2
  }

  lemma FailRateKeysCategoryCounters(n: int)
    ensures CategoryCountersFor(FailRateKeys(n), n)
  {
    forall s: int, c: ErrorCategory
      ensures FailName(s, Of(c)) in FailRateKeys(n) <==> 0 <= s < n && c != Dns && c != Http2
    {
      FailRateKeysMember(n, s, Of(c));
    }
  }

  /** The registry's `failRates` table has a counter exactly for stages 0 .. n-1 and the seven slots. */
  lemma FailRateKeysMember(n: int, s: int, slot: FailSlot)
    ensures FailName(s, slot) in FailRateKeys(n) <==> 0 <= s < n && slot in StageSlots
  {
    NamesSeparated();
    RateTableKeysMember(MetricFailedRequest, FailedRequestStage, StageSlots, n, s, slot);
  }

  /** Building stage i adds exactly its seven counter names. */
  lemma FailRateKeysStep(i: int)
    requires i >= 0
    ensures FailRateKeys(i + 1) == FailRateKeys(i) +
      {FailName(i, Base), FailName(i, Of(Text)), FailName(i, Of(General)), FailName(i, Of(Tcp)),
       FailName(i, Of(Tls)), FailName(i, Of(Http4xx)), FailName(i, Of(Http5xx))}
  {
    StageSlotKeys(FailedRequestStage, i);
  }

  /** A `failRates` table as built for stages 0 .. n-1: the Rate and every counter at zero. */
  predicate FreshRateTable(table: map<string, Sink>, n: int) {
    && table.Keys == FailRateKeys(n)
    && table[MetricFailedRequest] == Rate(0, 0)
    && forall k :: k in table && k != MetricFailedRequest ==> table[k] == Counter(0)
  }

  /** Setting seven names other than the Rate's to zero counters keeps every counter at zero. */
  lemma AddZeroCounters(before: map<string, Sink>, after: map<string, Sink>, rate: string,
                        k0: string, k1: string, k2: string, k3: string, k4: string, k5: string, k6: string)
    requires rate in before && before[rate] == Rate(0, 0)
    requires forall k :: k in before && k != rate ==> before[k] == Counter(0)
    requires rate !in {k0, k1, k2, k3, k4, k5, k6}
    requires after == before[k0 := Counter(0)][k1 := Counter(0)][k2 := Counter(0)][k3 := Counter(0)]
                            [k4 := Counter(0)][k5 := Counter(0)][k6 := Counter(0)]
    ensures after.Keys == before.Keys + {k0, k1, k2, k3, k4, k5, k6}
    ensures after[rate] == Rate(0, 0)
    ensures forall k :: k in after && k != rate ==> after[k] == Counter(0)
  {
  }

  /** Adding the seven zero counters of stage i extends a fresh table for i stages to i + 1. */
  lemma AddStageCounters(before: map<string, Sink>, after: map<string, Sink>, i: int)
    requires i >= 0 && FreshRateTable(before, i)
    requires after == before[FailName(i, Base) := Counter(0)]
                            [FailName(i, Of(Text)) := Counter(0)]
                            [FailName(i, Of(General)) := Counter(0)]
                            [FailName(i, Of(Tcp)) := Counter(0)]
                            [FailName(i, Of(Tls)) := Counter(0)]
                            [FailName(i, Of(Http4xx)) := Counter(0)]
                            [FailName(i, Of(Http5xx)) := Counter(0)]
    ensures FreshRateTable(after, i + 1)
  {
    AddZeroCounters(before, after, MetricFailedRequest,
      FailName(i, Base), FailName(i, Of(Text)), FailName(i, Of(General)), FailName(i, Of(Tcp)),
      FailName(i, Of(Tls)), FailName(i, Of(Http4xx)), FailName(i, Of(Http5xx)));
    FailRateKeysStep(i);
  }

  /** The loop's exit state: i stages built means numStages stages built. */
  lemma FreshRateTableBuilt(table: map<string, Sink>, i: int, numStages: int)
    requires FreshRateTable(table, i)
    requires 0 <= i <= (if numStages < 0 then 0 else numStages) && !(i < numStages)
    ensures FreshRateTable(table, numStages)
  {
    if numStages < 0 {
      FailRateKeysNonPositive(numStages);
      FailRateKeysNonPositive(i);
    } else {
      assert i == numStages;
    }
  }

  /** With no stages the table holds only the cross-stage Rate. */
  lemma FailRateKeysNonPositive(n: int)
    requires n <= 0
    ensures FailRateKeys(n) == {MetricFailedRequest}
  {
  }

  /** The registry's `failRates` table holds one Rate and 7·n counters, all names distinct. */
  lemma FailRateKeysCount(n: int)
    ensures |FailRateKeys(n)| == 1 + 7 * (if n <= 0 then 0 else n)
  {
    NamesSeparated();
    StageSlotsDistinct();
    RateTableKeysCount(MetricFailedRequest, FailedRequestStage, StageSlots, n);
  }

  // ---------------------------------------------------------------------
  // Sinks
  // ---------------------------------------------------------------------

  /** The aggregate state of one k6 metric. */
  datatype Sink =
    | Counter(sum: int)
    | Rate(trues: nat, total: nat)
    | Gauge(last: Option<int>)
    | Trend(samples: seq<int>)

  /** `rate.add(b)`: one more observation, counted as true when b is. */
  function RateAdd(r: Sink, b: bool): (r': Sink)
    requires r.Rate?
    ensures r'.Rate? && r'.total == r.total + 1
    ensures r'.trues == if b then r.trues + 1 else r.trues
  {
    Rate(if b then r.trues + 1 else r.trues, r.total + 1)
  }

  /**
   * The `failRates` table after one request whose counter name is `key`: the
   * Rate sees the outcome, and a failure adds one to the counter when the
   * table has it. No name is added or removed and no other sink changes.
   */
  function RecordOutcome(rates: map<string, Sink>, key: string, isError: bool): (r: map<string, Sink>)
    requires MetricFailedRequest in rates && rates[MetricFailedRequest].Rate?
    requires key != MetricFailedRequest && (key in rates ==> rates[key].Counter?)
    ensures r.Keys == rates.Keys
    ensures r[MetricFailedRequest] == RateAdd(rates[MetricFailedRequest], isError)
    ensures key in r ==> r[key] == if isError then Counter(rates[key].sum + 1) else rates[key]
    ensures forall k :: k in r && k != MetricFailedRequest && k != key ==> r[k] == rates[k]
  {
    var fed := rates[MetricFailedRequest := RateAdd(rates[MetricFailedRequest], isError)];
    if isError && key in rates then fed[key := Counter(rates[key].sum + 1)] else fed
  }

  /** The stage a failure is recorded under: the looked-up index, 0 when the lookup threw. */
  function StageOrDefault(lookup: Option<int>): (stage: int)
    ensures lookup.Some? ==> stage == lookup.value
    ensures lookup.None? ==> stage == 0
  {
    if lookup.Some? then lookup.value else 0
  }

  // ---------------------------------------------------------------------
  // The registry
  // ---------------------------------------------------------------------

  class Thresholds {
    const stages: int
    /** The names of the `failRates` table, fixed at construction to `FailRateKeys(stages)`. */
    ghost const failNames: set<string>
    var sqlReqDuration: Sink
    var failRates: map<string, Sink>
    var durationStages: map<string, Sink>
    var iterationsStages: map<string, Sink>
    var httpRequestDurationStages: map<string, Sink>

    /** Every table holds exactly the names built for `stages`, each with a sink of its kind. */
    ghost predicate Valid()
      reads this
    {
      && sqlReqDuration.Trend?
      && failRates.Keys == failNames
      && CategoryCountersFor(failNames, stages)
      && MetricFailedRequest in failRates
      && failRates[MetricFailedRequest].Rate?
      && (forall k :: k in failRates && k != MetricFailedRequest ==> failRates[k].Counter?)
      && durationStages.Keys == StageKeys(DurationStage, stages)
      && (forall k :: k in durationStages ==> durationStages[k].Gauge?)
      && iterationsStages.Keys == StageKeys(IterationsStage, stages)
      && (forall k :: k in iterationsStages ==> iterationsStages[k].Counter?)
      && httpRequestDurationStages.Keys == StageKeys(ReqDurationStage, stages)
      && (forall k :: k in httpRequestDurationStages ==> httpRequestDurationStages[k].Trend?)
    }

    /** Builds every sink for `n` stages, each in its initial state. */
    constructor (n: int)
      ensures Valid() && stages == n && failNames == FailRateKeys(n)
      ensures sqlReqDuration == Trend([])
      ensures failRates[MetricFailedRequest] == Rate(0, 0)
      ensures forall k :: k in failRates && k != MetricFailedRequest ==> failRates[k] == Counter(0)
      ensures forall k :: k in durationStages ==> durationStages[k] == Gauge(None)
      ensures forall k :: k in iterationsStages ==> iterationsStages[k] == Counter(0)
      ensures forall k :: k in httpRequestDurationStages ==> httpRequestDurationStages[k] == Trend([])
      ensures |failRates| == 1 + 7 * (if n <= 0 then 0 else n)
      ensures |durationStages| == |iterationsStages| == |httpRequestDurationStages| == if n <= 0 then 0 else n
    {
      var rates := CreateRateByStages(n);
      var durations := CreateByStage(DurationStage, n, Gauge(None));
      var iterations := CreateByStage(IterationsStage, n, Counter(0));
      var requestDurations := CreateByStage(ReqDurationStage, n, Trend([]));
      stages := n;
      failNames := FailRateKeys(n);
      FailRateKeysCategoryCounters(n);
      sqlReqDuration := Trend([]);
      failRates := rates;
      durationStages := durations;
      iterationsStages := iterations;
      httpRequestDurationStages := requestDurations;
    }

    /** The `failRates` table: the cross-stage Rate and seven counters per stage. */
    static method CreateRateByStages(numStages: int) returns (table: map<string, Sink>)
      ensures table.Keys == FailRateKeys(numStages)
      ensures |table| == 1 + 7 * (if numStages <= 0 then 0 else numStages)
      ensures table[MetricFailedRequest] == Rate(0, 0)
      ensures forall k :: k in table && k != MetricFailedRequest ==> table[k] == Counter(0)
    {
      table := map[MetricFailedRequest := Rate(0, 0)];
      var i := 0;
      while i < numStages
        invariant 0 <= i <= if numStages < 0 then 0 else numStages
        invariant FreshRateTable(table, i)
      {
        var nameStage, nameText, nameGeneral := FailName(i, Base), FailName(i, Of(Text)), FailName(i, Of(General));
        var nameTcp, nameTls := FailName(i, Of(Tcp)), FailName(i, Of(Tls));
        var nameHttp4xx, nameHttp5xx := FailName(i, Of(Http4xx)), FailName(i, Of(Http5xx));
        ghost var before := table;
        table := table[nameStage := Counter(0)];
        table := table[nameText := Counter(0)];
        table := table[nameGeneral := Counter(0)];
        table := table[nameTcp := Counter(0)];
        table := table[nameTls := Counter(0)];
        table := table[nameHttp4xx := Counter(0)];
        table := table[nameHttp5xx := Counter(0)];
        AddStageCounters(before, table, i);
        i := i + 1;
      }
      FreshRateTableBuilt(table, i, numStages);
      FailRateKeysCount(numStages);
    }

    /** One sink per stage, named `${prefix}{i}`, all in the state `initial`. */
    static method CreateByStage(prefix: string, numStages: int, initial: Sink) returns (table: map<string, Sink>)
      ensures table.Keys == StageKeys(prefix, numStages)
      ensures |table| == if numStages <= 0 then 0 else numStages
      ensures forall k :: k in table ==> table[k] == initial
    {
      table := map[];
      var i := 0;
      while i < numStages
        invariant 0 <= i <= if numStages < 0 then 0 else numStages
        invariant table.Keys == StageKeys(prefix, i)
        invariant forall k :: k in table ==> table[k] == initial
      {
        table := table[StageKey(prefix, i) := initial];
        i := i + 1;
      }
      StageKeysCount(prefix, numStages);
    }

    /**
     * Records the outcome of one request. `stageLookup` is what the stage
     * lookup produced, `None` when it threw. The result is false exactly
     * when the source throws: a failure for a stage that has no counters
     * (the Rate has been fed by then).
     */
    method HandleTypeErrorRequest(errorCode: int, isError: bool, stageLookup: Option<int>) returns (ok: bool)
      requires Valid()
      modifies this
      ensures Valid()
      ensures ok <==> !isError || FailName(StageOrDefault(stageLookup), Of(Classify(errorCode))) in old(failRates)
      ensures ok <==> !isError || 0 <= StageOrDefault(stageLookup) < stages
      ensures failRates == RecordOutcome(old(failRates), FailName(StageOrDefault(stageLookup), Of(Classify(errorCode))), isError)
      ensures sqlReqDuration == old(sqlReqDuration) && durationStages == old(durationStages)
      ensures iterationsStages == old(iterationsStages) && httpRequestDurationStages == old(httpRequestDurationStages)
    {
      var numberStage := 0;
      if stageLookup.Some? {
        numberStage := stageLookup.value;
      }
      ghost var before := failRates;
      failRates := failRates[MetricFailedRequest := RateAdd(failRates[MetricFailedRequest], isError)];
      var category := Classify(errorCode);
      var nameCategory := FailName(numberStage, Of(category));
      assert numberStage == StageOrDefault(stageLookup);
      ok := true;
      if isError {
        if nameCategory in failRates {
          assert failRates[nameCategory] == before[nameCategory];
          failRates := failRates[nameCategory := Counter(failRates[nameCategory].sum + 1)];
        } else {
          ok := false;
        }
      }
      assert failRates == RecordOutcome(before, nameCategory, isError);
    }

    /** Appends a request duration to the trend of `numberStage`; false when that stage has none. */
    method HandleRequestDurationByStage(respDuration: int, numberStage: int) returns (ok: bool)
      requires Valid()
      modifies this
      ensures Valid()
      ensures ok <==> StageKey(ReqDurationStage, numberStage) in old(httpRequestDurationStages)
      ensures ok <==> 0 <= numberStage < stages
      ensures var key := StageKey(ReqDurationStage, numberStage);
              httpRequestDurationStages ==
                if ok then old(httpRequestDurationStages)[key := Trend(old(httpRequestDurationStages[key].samples) + [respDuration])]
                else old(httpRequestDurationStages)
      ensures sqlReqDuration == old(sqlReqDuration) && failRates == old(failRates)
      ensures durationStages == old(durationStages) && iterationsStages == old(iterationsStages)
    {
      var key := ReqDurationStage + IntToString(numberStage);
      StageKeysMember(ReqDurationStage, stages, numberStage);
      if key in httpRequestDurationStages {
        httpRequestDurationStages := httpRequestDurationStages[key := Trend(httpRequestDurationStages[key].samples + [respDuration])];
        ok := true;
      } else {
        ok := false;
      }
    }

    /** Appends a duration to the single SQL trend. */
    method AddSqlReqDuration(durationTime: int)
      requires Valid()
      modifies this
      ensures Valid()
      ensures sqlReqDuration == Trend(old(sqlReqDuration.samples) + [durationTime])
      ensures failRates == old(failRates) && durationStages == old(durationStages)
      ensures iterationsStages == old(iterationsStages) && httpRequestDurationStages == old(httpRequestDurationStages)
    {
      sqlReqDuration := Trend(sqlReqDuration.samples + [durationTime]);
    }

    /** Adds 1 to the iteration counter of `indexStage`; false when that stage has none. */
    method AddIterationByStage(indexStage: int) returns (ok: bool)
      requires Valid()
      modifies this
      ensures Valid()
      ensures ok <==> StageKey(IterationsStage, indexStage) in old(iterationsStages)
      ensures ok <==> 0 <= indexStage < stages
      ensures var key := StageKey(IterationsStage, indexStage);
              iterationsStages ==
                if ok then old(iterationsStages)[key := Counter(old(iterationsStages[key].sum) + 1)]
                else old(iterationsStages)
      ensures sqlReqDuration == old(sqlReqDuration) && failRates == old(failRates)
      ensures durationStages == old(durationStages) && httpRequestDurationStages == old(httpRequestDurationStages)
    {
      var key := IterationsStage + IntToString(indexStage);
      StageKeysMember(IterationsStage, stages, indexStage);
      if key in iterationsStages {
        iterationsStages := iterationsStages[key := Counter(iterationsStages[key].sum + 1)];
        ok := true;
      } else {
        ok := false;
      }
    }

    /**
     * Sets the gauge of `indexStage` to the run duration so far
     * (`currentTestRunDuration`, read from the execution context by the
     * source); false when that stage has none.
     */
    method AddDurationByStage(indexStage: int, currentTestRunDuration: int) returns (ok: bool)
      requires Valid()
      modifies this
      ensures Valid()
      ensures ok <==> StageKey(DurationStage, indexStage) in old(durationStages)
      ensures ok <==> 0 <= indexStage < stages
      ensures var key := StageKey(DurationStage, indexStage);
              durationStages ==
                if ok then old(durationStages)[key := Gauge(Some(currentTestRunDuration))]
                else old(durationStages)
      ensures sqlReqDuration == old(sqlReqDuration) && failRates == old(failRates)
      ensures iterationsStages == old(iterationsStages) && httpRequestDurationStages == old(httpRequestDurationStages)
    {
      var key := DurationStage + IntToString(indexStage);
      StageKeysMember(DurationStage, stages, indexStage);
      if key in durationStages {
        durationStages := durationStages[key := Gauge(Some(currentTestRunDuration))];
        ok := true;
      } else {
        ok := false;
      }
    }
  }

  /** A failed text-check request in a configured stage feeds the Rate and that stage's TEXT counter. */
  method FailedRequestInStage(t: Thresholds, stage: int)
    requires t.Valid() && 0 <= stage < t.stages
    modifies t
  {
    var key := FailName(stage, Of(Text));
    assert key in t.failRates;
    var rate, count := t.failRates[MetricFailedRequest], t.failRates[key].sum;
    var ok := t.HandleTypeErrorRequest(0, true, Some(stage));
    assert ok;
    assert t.failRates[MetricFailedRequest] == Rate(rate.trues + 1, rate.total + 1);
    assert t.failRates[key] == Counter(count + 1);
  }

  /** A successful request feeds only the Rate, even when the stage lookup threw. */
  method SuccessfulRequestWithoutStage(t: Thresholds, errorCode: int)
    requires t.Valid()
    modifies t
  {
    var rate := t.failRates[MetricFailedRequest];
    var ok := t.HandleTypeErrorRequest(errorCode, false, None);
    assert ok && t.failRates[MetricFailedRequest] == Rate(rate.trues, rate.total + 1);
  }

  /** A failed request while no stage is configured has nowhere to be counted. */
  method FailedRequestWithoutStages(n: int, errorCode: int)
    requires n <= 0
  {
    var t := new Thresholds(n);
    var ok := t.HandleTypeErrorRequest(errorCode, true, None);
    assert !ok && t.failRates[MetricFailedRequest] == Rate(1, 1);
  }

  /** A stage index past the configured stages has no sink. */
  method IterationPastLastStage(n: int) {
    var t := new Thresholds(n);
    var ok := t.AddIterationByStage(n);
    assert !ok;
  }

  /** A stage's duration gauge keeps the last value set. */
  method DurationGaugeKeepsLast(n: int, stage: int)
    requires 0 <= stage < n
  {
    var t := new Thresholds(n);
    var ok := t.AddDurationByStage(stage, 100);
    ok := t.AddDurationByStage(stage, 250);
    assert t.durationStages[StageKey(DurationStage, stage)] == Gauge(Some(250));
  }
}
