/** The copy-on-write measurement: its settings, its two statistics and its verdict. Durations are
    whole nanoseconds. */
module CopyOnWrite {
  const DEFAULT_SMALL_BYTES := 8 * 0x10_0000
  const DEFAULT_LARGE_BYTES := 512 * 0x10_0000
  const DEFAULT_SAMPLES := 3
  const MIN_RATIO := 16
  const MIN_SAMPLES := 2
  const MIN_LARGE_BYTES := 64 * 0x10_0000

  const NOISE_FLOOR := 250_000_000
  const SPREAD_FACTOR := 2

  // ---------------------------------------------------------------------------
  // Settings
  // ---------------------------------------------------------------------------

  const TWO_63 := 0x8000_0000_0000_0000
  const TWO_64 := 0x1_0000_0000_0000_0000

  type int64 = x: int | -TWO_63 <= x < TWO_63

  /** What a 64-bit register keeps of a number. */
  function Wrapped(x: int): int64 {
    (x + TWO_63) % TWO_64 - TWO_63
  }

  /** An environment override: absent, unreadable or not positive, or a number. */
  datatype Override = Unset | Rejected | Given(value: int64)

  function Read(text: Override): Override {
    if text.Given? && text.value <= 0 then Rejected else text
  }

  datatype Settings =
    | Settings(small: int64, large: int64, samples: int64)
    | BadOverride
    | LargeTooSmall
    | RatioTooSmall
    | TooFewSamples

  function Chosen(option: int64, override: Override, default: int64): int64
    requires !override.Rejected?
  {
    var v := if override.Given? then override.value else option;
    if v <= 0 then default else v
  }

  /** Options, overrides and defaults resolved, or the first floor they fall below. The ratio test
      multiplies in 64 bits. */
  method CopyOnWriteSettings(smallOption: int64, largeOption: int64, samplesOption: int64,
                             smallEnv: Override, largeEnv: Override, samplesEnv: Override) returns (s: Settings)
    ensures s == Resolved(smallOption, largeOption, samplesOption, smallEnv, largeEnv, samplesEnv)
  {
    var small, large := smallOption, largeOption;
    var v := Read(smallEnv);
    if v.Rejected? { return BadOverride; }
    if v.Given? { small := v.value; }
    v := Read(largeEnv);
    if v.Rejected? { return BadOverride; }
    if v.Given? { large := v.value; }
    if small <= 0 { small := DEFAULT_SMALL_BYTES; }
    if large <= 0 { large := DEFAULT_LARGE_BYTES; }
    var samples := samplesOption;
    v := Read(samplesEnv);
    if v.Rejected? { return BadOverride; }
    if v.Given? { samples := v.value; }
    if samples <= 0 { samples := DEFAULT_SAMPLES; }
    if large < MIN_LARGE_BYTES { return LargeTooSmall; }
    if large < Wrapped(small * MIN_RATIO) { return RatioTooSmall; }
    if samples < MIN_SAMPLES { return TooFewSamples; }
    return Settings(small, large, samples);
  }

  function Resolved(smallOption: int64, largeOption: int64, samplesOption: int64,
                    smallEnv: Override, largeEnv: Override, samplesEnv: Override): Settings
  {
    if Read(smallEnv).Rejected? || Read(largeEnv).Rejected? || Read(samplesEnv).Rejected? then BadOverride
    else
      var small := Chosen(smallOption, smallEnv, DEFAULT_SMALL_BYTES);
      var large := Chosen(largeOption, largeEnv, DEFAULT_LARGE_BYTES);
      var samples := Chosen(samplesOption, samplesEnv, DEFAULT_SAMPLES);
      if large < MIN_LARGE_BYTES then LargeTooSmall
      else if large < Wrapped(small * MIN_RATIO) then RatioTooSmall
      else if samples < MIN_SAMPLES then TooFewSamples
      else Settings(small, large, samples)
  }

  /** A size or count: what the environment gives, else what the options give, else the default. */
  predicate IsChosen(v: int, option: int, override: Override, default: int) {
    match override
    case Given(n) => v == n && n > 0
    case Unset => v == if option > 0 then option else default
    case Rejected => false
  }

  predicate CanBeRead(override: Override) {
    override.Unset? || (override.Given? && override.value > 0)
  }

  /** The settings are those given, with eight and 512 megabytes and three samples by default; they
      are accepted exactly when every override can be read, the large size is 64 megabytes or more and
      no less than the wrapped sixteenfold of the small one, and there are two samples or more. */
  lemma SettingsAreAcceptedExactlyWhen(
      smallOption: int64, largeOption: int64, samplesOption: int64,
      smallEnv: Override, largeEnv: Override, samplesEnv: Override, small: int64, large: int64, samples: int64)
    requires CanBeRead(smallEnv) ==> IsChosen(small, smallOption, smallEnv, 8388608)
    requires CanBeRead(largeEnv) ==> IsChosen(large, largeOption, largeEnv, 536870912)
    requires CanBeRead(samplesEnv) ==> IsChosen(samples, samplesOption, samplesEnv, 3)
    ensures
      var s := Resolved(smallOption, largeOption, samplesOption, smallEnv, largeEnv, samplesEnv);
      var read := CanBeRead(smallEnv) && CanBeRead(largeEnv) && CanBeRead(samplesEnv);
      && (s.BadOverride? <==> !read)
      && (s.LargeTooSmall? <==> read && large < 67108864)
      && (s.RatioTooSmall? <==> read && large >= 67108864 && large < Wrapped(small * 16))
      && (s.TooFewSamples? <==> read && large >= 67108864 && large >= Wrapped(small * 16) && samples < 2)
      && (s.Settings? ==> s == Settings(small, large, samples))
  {
  }

  /** A register keeps a number up to multiples of 2^64, and a number that fits as it is. */
  lemma WrappedIsCongruent(x: int)
    ensures (x - Wrapped(x)) % 0x1_0000_0000_0000_0000 == 0
    ensures -0x8000_0000_0000_0000 <= x < 0x8000_0000_0000_0000 ==> Wrapped(x) == x
  {
  }

  /** The largest small size whose sixteenfold still fits in 64 bits. */
  const WIDEST_SMALL := TWO_63 / MIN_RATIO - 1

  /** Accepted settings really are sixteenfold apart exactly when the product did not wrap. */
  lemma RatioHoldsExactlyWithoutWrapping(smallOption: int64, largeOption: int64, samplesOption: int64,
                                         smallEnv: Override, largeEnv: Override, samplesEnv: Override)
    requires Resolved(smallOption, largeOption, samplesOption, smallEnv, largeEnv, samplesEnv).Settings?
    ensures
      var s := Resolved(smallOption, largeOption, samplesOption, smallEnv, largeEnv, samplesEnv);
      && s.small > 0 && s.samples >= MIN_SAMPLES
      && (s.large >= s.small * MIN_RATIO <==> s.small <= WIDEST_SMALL)
  {
    var s := Resolved(smallOption, largeOption, samplesOption, smallEnv, largeEnv, samplesEnv);
    if s.small <= WIDEST_SMALL { assert Wrapped(s.small * MIN_RATIO) == s.small * MIN_RATIO; }
  }

  /** Go's integer division by two: towards zero. */
  function Half(x: int): int {
    if x >= 0 then x / 2 else -(-x / 2)
  }

  /** The goldens that were published differ by too little of what was asked. */
  predicate DeltaTooSmall(small: int64, large: int64, smallBytes: int64, largeBytes: int64) {
    largeBytes - smallBytes < Half(large - small)
  }

  /** That is, by less than half of it, of an odd number of bytes the smaller half. */
  lemma DeltaTooSmallExactlyWhen(small: int64, large: int64, smallBytes: int64, largeBytes: int64)
    ensures DeltaTooSmall(small, large, smallBytes, largeBytes) <==>
      if large >= small then 2 * (largeBytes - smallBytes) + 2 <= large - small
      else 2 * (largeBytes - smallBytes) < large - small
  {
  }

  /** With accepted settings whose product did not wrap, a run that gets as far as timing divides by
      a positive amount of extra data. */
  lemma DeltaIsPositive(s: Settings, smallBytes: int64, largeBytes: int64)
    requires s.Settings? && 0 < s.small <= WIDEST_SMALL && s.large >= MIN_LARGE_BYTES
    requires s.large >= Wrapped(s.small * MIN_RATIO)
    requires !DeltaTooSmall(s.small, s.large, smallBytes, largeBytes)
    ensures largeBytes - smallBytes >= 15 * MIN_LARGE_BYTES / 32 > 0
  {
    assert Wrapped(s.small * MIN_RATIO) == s.small * MIN_RATIO;
  }

  /** A small size of 2^60 bytes wraps to nothing: the settings are accepted with the small golden
      the larger one, and no delta is then too small. */
  lemma WrappedRatioIsAccepted()
    ensures
      var s := Resolved(0x1000_0000_0000_0000, MIN_LARGE_BYTES, 0, Unset, Unset, Unset);
      && s.Settings? && s.large < s.small
      && !DeltaTooSmall(s.small, s.large, 1, 1)
  {
    assert Wrapped(0x1000_0000_0000_0000 * MIN_RATIO) == 0;
  }

  // ---------------------------------------------------------------------------
  // The two statistics
  // ---------------------------------------------------------------------------

  predicate IsBest(best: int, times: seq<int>) {
    best in times && forall t :: t in times ==> best <= t
  }

  /** The second best reading: the least of what is left when one best reading is taken away. */
  predicate IsSecond(second: int, best: int, times: multiset<int>) {
    var rest := times - multiset{best};
    second in rest && forall t :: t in rest ==> second <= t
  }

  function Min(a: int, b: int): int {
    if b < a then b else a
  }

  function Max(a: int, b: int): int {
    if b > a then b else a
  }

  function Best(times: seq<int>): (best: int)
    requires times != []
    ensures IsBest(best, times)
  {
    var n := |times| - 1;
    assert times == times[..n] + [times[n]];
    if n == 0 then times[0] else Min(Best(times[..n]), times[n])
  }

  function Second(times: seq<int>): (second: int)
    requires |times| >= 2
  {
    var n := |times| - 1;
    if n == 1 then Max(times[0], times[1])
    else Max(Best(times[..n]), Min(Second(times[..n]), times[n]))
  }

  lemma OneMoreReading(times: multiset<int>, best: int, second: int, t: int)
    requires best in times && forall u :: u in times ==> best <= u
    requires IsSecond(second, best, times)
    ensures IsSecond(Max(best, Min(second, t)), Min(best, t), times + multiset{t})
  {
    if t < best {
      assert times + multiset{t} - multiset{t} == times;
    } else {
      assert times + multiset{t} - multiset{best} == times - multiset{best} + multiset{t};
    }
  }

  lemma TwoReadings(a: int, b: int)
    ensures Best([a, b]) == Min(a, b) && Second([a, b]) == Max(a, b)
    ensures IsSecond(Max(a, b), Min(a, b), multiset{a, b})
  {
    assert [a, b][..1] == [a];
    assert multiset{a, b} - multiset{Min(a, b)} == multiset{Max(a, b)};
  }

  lemma {:induction false} SecondIsSecond(times: seq<int>)
    requires |times| >= 2
    ensures IsSecond(Second(times), Best(times), multiset(times))
  {
    if |times| == 2 {
      TwoReadings(times[0], times[1]);
      assert times == [times[0], times[1]];
    } else {
      var before, t := times[..|times| - 1], times[|times| - 1];
      assert times == before + [t];
      SecondIsSecond(before);
      forall u | u in multiset(before) ensures Best(before) <= u { assert u in before; }
      OneMoreReading(multiset(before), Best(before), Second(before), t);
    }
  }

  /** Best and second best depend on the readings alone, not on their order. */
  lemma StatisticsAreUnique(best: int, second: int, times: seq<int>)
    requires |times| >= 2 && IsBest(best, times) && IsSecond(second, best, multiset(times))
    ensures best == Best(times) && second == Second(times)
  {
    SecondIsSecond(times);
  }

  method MinDuration(times: seq<int>) returns (best: int)
    requires times != []
    ensures best == Best(times)
  {
    best := times[0];
    for i := 1 to |times|
      invariant best in times
      invariant forall k :: 0 <= k < i ==> best <= times[k]
    {
      if times[i] < best { best := times[i]; }
    }
  }

  predicate SortedRun(s: seq<int>) {
    forall i, j :: 0 <= i < j < |s| ==> s[i] <= s[j]
  }

  method SwapDown(a: array<int>, j: nat)
    requires 0 < j < a.Length
    modifies a
    ensures a[..] == old(a[..])[j - 1 := old(a[j])][j := old(a[j - 1])]
    ensures multiset(a[..]) == multiset(old(a[..]))
  {
    a[j - 1], a[j] := a[j], a[j - 1];
  }

  method Sink(a: array<int>, i: nat)
    requires i < a.Length && SortedRun(a[..i])
    modifies a
    ensures SortedRun(a[..i + 1])
    ensures multiset(a[..]) == multiset(old(a[..]))
  {
    var j := i;
    while j > 0 && a[j - 1] > a[j]
      invariant 0 <= j <= i
      invariant multiset(a[..]) == multiset(old(a[..]))
      invariant forall p, q :: 0 <= p < q <= i && q != j ==> a[..][p] <= a[..][q]
    {
      SwapDown(a, j);
      j := j - 1;
    }
  }

  /** The library sort: the array ends up ascending, with the same elements. */
  method SortSlice(a: array<int>)
    modifies a
    ensures SortedRun(a[..])
    ensures multiset(a[..]) == multiset(old(a[..]))
  {
    for i := 0 to a.Length
      invariant SortedRun(a[..i])
      invariant multiset(a[..]) == multiset(old(a[..]))
    {
      Sink(a, i);
    }
    assert a[..a.Length] == a[..];
  }

  method MinimaGap(times: seq<int>) returns (gap: int)
    requires |times| >= 2
    ensures gap == Second(times) - Best(times)
  {
    var sorted := new int[|times|](i requires 0 <= i < |times| => times[i]);
    assert sorted[..] == times;
    SortSlice(sorted);
    gap := sorted[1] - sorted[0];
    FirstTwoAreBest(sorted[..], times);
  }

  lemma FirstTwoAreBest(sorted: seq<int>, times: seq<int>)
    requires |sorted| >= 2 && SortedRun(sorted) && multiset(sorted) == multiset(times)
    ensures |times| >= 2 && sorted[0] == Best(times) && sorted[1] == Second(times)
  {
    BestAtStatistics(sorted, 0, 1);
    SameReadingsSameStatistics(sorted, times);
  }

  // ---------------------------------------------------------------------------
  // The verdict
  // ---------------------------------------------------------------------------

  function Allowance(smallTimes: seq<int>): int
    requires |smallTimes| >= 2
  {
    Max((Second(smallTimes) - Best(smallTimes)) * SPREAD_FACTOR, NOISE_FLOOR)
  }

  /** The allowance for noise is a quarter of a second, or twice the distance between the two best
      small readings if that is more. */
  lemma AllowanceIs(smallTimes: seq<int>, best: int, second: int)
    requires |smallTimes| >= 2 && IsBest(best, smallTimes) && IsSecond(second, best, multiset(smallTimes))
    ensures Allowance(smallTimes) >= 250_000_000 && Allowance(smallTimes) >= 2 * (second - best)
    ensures Allowance(smallTimes) in {250_000_000, 2 * (second - best)}
  {
    StatisticsAreUnique(best, second, smallTimes);
  }

  function Grown(smallTimes: seq<int>, largeTimes: seq<int>): int
    requires smallTimes != [] && largeTimes != []
  {
    Best(largeTimes) - Best(smallTimes)
  }

  /** Whether the growth test refuses a provider that declares copy on write, or that declares none. */
  predicate GrowthRefuses(declares: bool, smallTimes: seq<int>, largeTimes: seq<int>)
    requires |smallTimes| >= 2 && |largeTimes| >= 2
  {
    if declares then Grown(smallTimes, largeTimes) > Allowance(smallTimes)
    else Grown(smallTimes, largeTimes) <= Allowance(smallTimes)
  }

  datatype Verdict = Passed | DeltaRefused | GrowthRefused | LatencyRefused | FlatnessRefused

  method CopyOnWriteAllowance(smallTimes: seq<int>) returns (allowance: int)
    requires |smallTimes| >= 2
    ensures allowance == Allowance(smallTimes)
  {
    var gap := MinimaGap(smallTimes);
    allowance := gap * SPREAD_FACTOR;
    if allowance < NOISE_FLOOR { allowance := NOISE_FLOOR; }
  }

  /** One run over what it measured, with accepted settings `s`. A latency of nought is undeclared. */
  method CopyOnWriteMatchesTheDeclaration(
      declares: bool, latency: int, s: Settings, smallBytes: int64, largeBytes: int64,
      smallTimes: seq<int>, largeTimes: seq<int>) returns (v: Verdict)
    requires s.Settings? && s.samples >= MIN_SAMPLES && |smallTimes| == |largeTimes| == s.samples
    ensures v.DeltaRefused? <==> DeltaTooSmall(s.small, s.large, smallBytes, largeBytes)
    ensures !v.DeltaRefused? ==>
      (v.GrowthRefused? || v.FlatnessRefused? <==> GrowthRefuses(declares, smallTimes, largeTimes))
    ensures v.GrowthRefused? ==> declares
    ensures v.FlatnessRefused? ==> !declares
    ensures v.LatencyRefused? <==>
      && !DeltaTooSmall(s.small, s.large, smallBytes, largeBytes)
      && declares && !GrowthRefuses(declares, smallTimes, largeTimes)
      && latency > 0 && forall t :: t in largeTimes ==> t > latency
  {
    var delta := largeBytes - smallBytes;
    if delta < Half(s.large - s.small) { return DeltaRefused; }
    var ts := MinDuration(smallTimes);
    var tl := MinDuration(largeTimes);
    var grown := tl - ts;
    var allowance := CopyOnWriteAllowance(smallTimes);
    if declares {
      if grown > allowance { return GrowthRefused; }
      if latency > 0 && tl > latency { return LatencyRefused; }
      return Passed;
    }
    if grown <= allowance { return FlatnessRefused; }
    return Passed;
  }

  // ---------------------------------------------------------------------------
  // What the verdict depends on
  // ---------------------------------------------------------------------------

  /** The same readings in another order give the same verdict. */
  lemma VerdictIgnoresOrder(declares: bool, small: seq<int>, small': seq<int>, large: seq<int>, large': seq<int>)
    requires |small| >= 2 && |large| >= 2
    requires multiset(small) == multiset(small') && multiset(large) == multiset(large')
    ensures |small'| >= 2 && |large'| >= 2
    ensures GrowthRefuses(declares, small, large) <==> GrowthRefuses(declares, small', large')
  {
    SameReadingsSameStatistics(small, small');
    SameReadingsSameStatistics(large, large');
  }

  lemma SameReadingsSameStatistics(times: seq<int>, times': seq<int>)
    requires |times| >= 2 && multiset(times) == multiset(times')
    ensures |times'| >= 2 && Best(times) == Best(times') && Second(times) == Second(times')
  {
    assert |times'| == |multiset(times')| == |multiset(times)| == |times|;
    SecondIsSecond(times);
    forall t | t in times' ensures t in times { assert t in multiset(times); }
    assert Best(times) in multiset(times');
    StatisticsAreUnique(Best(times), Second(times), times');
  }

  function Delayed(times: seq<int>, d: int): seq<int> {
    seq(|times|, i requires 0 <= i < |times| => times[i] + d)
  }

  lemma {:induction false} DelayedStatistics(times: seq<int>, d: int)
    requires times != []
    ensures Best(Delayed(times, d)) == Best(times) + d
    ensures |times| >= 2 ==> Second(Delayed(times, d)) == Second(times) + d
  {
    var n := |times| - 1;
    if n > 0 {
      assert Delayed(times, d)[..n] == Delayed(times[..n], d);
      DelayedStatistics(times[..n], d);
    }
  }

  /** A delay common to every sample of both arms leaves the verdict as it was. */
  lemma VerdictIgnoresACommonDelay(declares: bool, small: seq<int>, large: seq<int>, d: int)
    requires |small| >= 2 && |large| >= 2
    ensures GrowthRefuses(declares, Delayed(small, d), Delayed(large, d)) <==> GrowthRefuses(declares, small, large)
  {
    DelayedStatistics(small, d);
    DelayedStatistics(large, d);
  }

  /** No sample of `times'` is faster than in `times`. */
  predicate Slower(times: seq<int>, times': seq<int>) {
    |times'| == |times| && forall i :: 0 <= i < |times| ==> times[i] <= times'[i]
  }

  /** Samples `i` and `j` are the two best, in that order. */
  predicate BestAt(times: seq<int>, i: nat, j: nat) {
    && i < |times| && j < |times| && i != j && times[i] <= times[j]
    && forall k :: 0 <= k < |times| && k != i && k != j ==> times[j] <= times[k]
  }

  function Without(times: seq<int>, i: nat): seq<int>
    requires i < |times|
  {
    times[..i] + times[i + 1..]
  }

  lemma WithoutOne(times: seq<int>, i: nat)
    requires i < |times|
    ensures multiset(times) - multiset{times[i]} == multiset(Without(times, i))
  {
    assert times == times[..i] + [times[i]] + times[i + 1..];
  }

  lemma SecondLeadsTheRest(times: seq<int>, i: nat, j: nat)
    requires BestAt(times, i, j)
    ensures times[j] in Without(times, i) && forall t :: t in Without(times, i) ==> times[j] <= t
  {
    var rest := Without(times, i);
    assert rest[if j < i then j else j - 1] == times[j];
    forall k | 0 <= k < |rest| ensures times[j] <= rest[k] {
      assert rest[k] == times[if k < i then k else k + 1];
    }
  }

  lemma BestAtStatistics(times: seq<int>, i: nat, j: nat)
    requires BestAt(times, i, j)
    ensures Best(times) == times[i] && Second(times) == times[j]
  {
    var rest := Without(times, i);
    WithoutOne(times, i);
    SecondLeadsTheRest(times, i, j);
    forall t | t in multiset(rest) ensures times[j] <= t { assert t in rest; }
    StatisticsAreUnique(times[i], times[j], times);
  }

  lemma SlowerKeepsBest(times: seq<int>, times': seq<int>, k: nat)
    requires k < |times| && times[k] == Best(times) && Slower(times, times') && times'[k] == times[k]
    ensures Best(times') == Best(times)
  {
    forall m | 0 <= m < |times'| ensures times[k] <= times'[m] { assert times[m] in times; }
    assert IsBest(times[k], times') && IsBest(Best(times'), times');
  }

  /** Slowing any samples but the small arm's two best and the large arm's best changes nothing. */
  lemma VerdictIgnoresSlowSamples(declares: bool, small: seq<int>, small': seq<int>, large: seq<int>, large': seq<int>,
                                  i: nat, j: nat, k: nat)
    requires |small| >= 2 && |large| >= 2
    requires BestAt(small, i, j) && Slower(small, small') && small'[i] == small[i] && small'[j] == small[j]
    requires k < |large| && large[k] == Best(large) && Slower(large, large') && large'[k] == large[k]
    ensures GrowthRefuses(declares, small', large') <==> GrowthRefuses(declares, small, large)
  {
    BestAtStatistics(small, i, j);
    BestAtStatistics(small', i, j);
    SlowerKeepsBest(large, large', k);
  }

  /** Branch times that are a fixed cost plus noise: the same for both arms but for the copy. */
  predicate Costs(times: seq<int>, cost: int, noise: seq<int>) {
    |times| == |noise| && forall i :: 0 <= i < |noise| ==> times[i] == noise[i] + cost
  }

  lemma CostsAreDelays(times: seq<int>, cost: int, noise: seq<int>)
    requires |noise| >= 2 && Costs(times, cost, noise)
    ensures Best(times) == Best(noise) + cost && Second(times) == Second(noise) + cost
  {
    assert times == Delayed(noise, cost);
    DelayedStatistics(noise, cost);
  }

  /** If a branch costs `base` plus `copy` for the extra data plus noise, the growth test refuses
      copy on write exactly when the copy beats the allowance by more than the difference of the
      best noise in the two arms; in that case, and no other, it accepts the opposite declaration. */
  lemma CopyIsRefusedExactlyWhen(
      small: seq<int>, large: seq<int>, base: int, copy: int, smallNoise: seq<int>, largeNoise: seq<int>)
    requires |smallNoise| >= 2 && Costs(small, base, smallNoise)
    requires |largeNoise| >= 2 && Costs(large, base + copy, largeNoise)
    ensures
      var seen := copy > Allowance(small) + Best(smallNoise) - Best(largeNoise);
      && (GrowthRefuses(true, small, large) <==> seen)
      && (GrowthRefuses(false, small, large) <==> !seen)
  {
    CostsAreDelays(small, base, smallNoise);
    CostsAreDelays(large, base + copy, largeNoise);
  }

  /** The published figure is not a guarantee: a copy that costs more than the allowance is accepted
      as shared storage when every small sample was delayed a little. */
  lemma SlowCopyMayPass(base: int)
    ensures
      var small, large := [base + 2, base + 2], [base + NOISE_FLOOR + 1, base + NOISE_FLOOR + 1];
      && Costs(small, base, [2, 2]) && Costs(large, base + (NOISE_FLOOR + 1), [0, 0])
      && NOISE_FLOOR + 1 > Allowance(small) && !GrowthRefuses(true, small, large)
  {
    BestAtStatistics([base + 2, base + 2], 0, 1);
    BestAtStatistics([base + NOISE_FLOOR + 1, base + NOISE_FLOOR + 1], 0, 1);
  }
}
