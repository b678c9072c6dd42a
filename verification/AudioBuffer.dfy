/** The audio jitter buffer of src/client.rs: a bounded queue of samples with a histogram of its
    occupancy, from which samples are dropped adaptively.  The ring buffer is foreign; it is
    given the contract of a bounded queue.  Clock readings are inputs. */
module AudioBuffer {
  import opened Common

  const AUDIO_BUFFER_MS := 3000
  const BUCKETS := 30
  const GATE_MS := 12000

  type Sample = real

  // ---------------------------------------------------------------- the ring buffer

  function Newest<T>(s: seq<T>, n: nat): seq<T> {
    if |s| <= n then s else s[|s| - n..]
  }

  class Ring {
    var cap: nat
    var samples: seq<Sample>

    ghost predicate Valid()
      reads this
    {
      |samples| <= cap
    }

    constructor (capacity: nat)
      ensures Valid() && cap == capacity && samples == []
    {
      cap, samples := capacity, [];
    }

    /** `*lock = HeapRb::new(capacity)` */
    method Replace(capacity: nat)
      modifies this
      ensures Valid() && cap == capacity && samples == []
    {
      cap, samples := capacity, [];
    }

    /** Drops the oldest samples. */
    method Skip(n: nat)
      requires Valid()
      modifies this
      ensures Valid() && cap == old(cap)
      ensures samples == old(samples)[if n < |old(samples)| then n else |old(samples)|..]
    {
      samples := samples[if n < |samples| then n else |samples|..];
    }

    /** Keeps the newest samples. */
    method PushSliceOverwrite(buffer: seq<Sample>)
      requires Valid()
      modifies this
      ensures Valid() && cap == old(cap) && samples == Newest(old(samples) + buffer, cap)
      ensures var all := old(samples) + buffer; if |all| <= cap then samples == all else samples == all[|all| - cap..]
    {
      samples := Newest(samples + buffer, cap);
    }

    method PopSlice(n: nat) returns (elems: seq<Sample>)
      requires Valid() && n <= |samples|
      modifies this
      ensures Valid() && cap == old(cap)
      ensures elems == old(samples)[..n] && samples == old(samples)[n..]
    {
      elems := samples[..n];
      samples := samples[n..];
    }
  }

  // ---------------------------------------------------------------- the histogram

  type Histogram = h: seq<nat> | |h| == 30 witness EMPTY

  const EMPTY: seq<nat> := [0, 0, 0, 0, 0, 0, 0, 0, 0, 0, 0, 0, 0, 0, 0, 0, 0, 0, 0, 0, 0, 0, 0, 0, 0, 0, 0, 0, 0, 0]

  /** Tenths of a second that `having` samples last, up to the last bucket. */
  function Bucket(having: nat, rate: nat): nat
    requires rate > 0
  {
    if having * 10 / rate > 29 then 29 else having * 10 / rate
  }

  /** Bucket `k` takes what lasts k to k + 1 tenths of a second, and the last one all that lasts longer. */
  lemma BucketMeaning(having: nat, rate: nat)
    requires rate > 0
    ensures var k := Bucket(having, rate);
      k <= 29 && k * rate <= 10 * having && (k < 29 ==> 10 * having < (k + 1) * rate)
  {
    var q := having * 10 / rate;
    assert q * rate <= having * 10 < (q + 1) * rate;
    if q > 29 { MulMono(29, q, rate); }
  }

  /** Length of the leading run of empty buckets among the first n. */
  function Leading(h: Histogram, n: nat): nat
    requires n <= BUCKETS
  {
    if n == 0 then 0
    else if Leading(h, n - 1) == n - 1 && h[n - 1] == 0 then n
    else Leading(h, n - 1)
  }

  /** The fullest of buckets 1..n-1, the first one on a tie, 0 if they are all empty. */
  function Peak(h: Histogram, n: nat): (p: nat)
    requires n <= BUCKETS
    ensures p == 0 || p < n
  {
    if n <= 1 then 0
    else
      var p := Peak(h, n - 1);
      if h[n - 1] > (if p == 0 then 0 else h[p]) then n - 1 else p
  }

  lemma {:induction false} LeadingMeaning(h: Histogram, n: nat)
    requires n <= BUCKETS
    ensures Leading(h, n) <= n
    ensures forall k :: 0 <= k < Leading(h, n) ==> h[k] == 0
    ensures Leading(h, n) < n ==> h[Leading(h, n)] > 0
  {
    if n > 0 { LeadingMeaning(h, n - 1); }
  }

  lemma {:induction false} PeakMeaning(h: Histogram, n: nat)
    requires n <= BUCKETS
    ensures var p := Peak(h, n);
      && (p == 0 <==> forall k :: 1 <= k < n ==> h[k] == 0)
      && (p > 0 ==> && (forall k :: 1 <= k < p ==> h[k] < h[p])
                    && (forall k :: p <= k < n ==> h[k] <= h[p]))
  {
    if n > 1 { PeakMeaning(h, n - 1); }
  }

  /** The scan as written: bucket 0 is compared with itself and cleared, every bucket that is
      not the running peak is cleared, and the running peak is cleared when it is beaten. */
  method ScanHistogram(hist: array<nat>) returns (zero: nat, max: nat)
    requires hist.Length == BUCKETS
    modifies hist
    ensures zero == Leading(old(hist[..]), BUCKETS) && max == Peak(old(hist[..]), BUCKETS)
    ensures hist[..] == EMPTY
  {
    zero, max := 0, 0;
    ghost var h: Histogram := hist[..];
    for i := 0 to BUCKETS
      invariant zero == Leading(h, i) && max == Peak(h, i) && max < BUCKETS
      invariant forall k :: i <= k < BUCKETS ==> hist[k] == h[k]
      invariant forall k :: 0 <= k < i && k != max ==> hist[k] == 0
      invariant i > 0 ==> hist[max] == if max == 0 then 0 else h[max]
    {
      if hist[i] == 0 && zero == i {
        zero := zero + 1;
      }
      if hist[i] > hist[max] {
        hist[max] := 0;
        max := i;
      } else {
        hist[i] := 0;
      }
    }
    hist[max] := 0;
    AllEmpty(hist[..]);
  }

  lemma AllEmpty(h: Histogram)
    requires forall k :: 0 <= k < BUCKETS ==> h[k] == 0
    ensures h == EMPTY
  {
  }

  // ---------------------------------------------------------------- how much to drop

  /** `x & !1` */
  function EvenBelow(x: nat): nat { x - x % 2 }

  /** Samples to drop, given the capacity, the leading empty run and the peak. */
  function Plan(cap: nat, zero: nat, max: nat): nat {
    var z := zero * 2 / 3;
    if max < 6 then 0
    else
      var m := if max > z * 4 then z * 4 else max;
      EvenBelow(cap * m / (30 * 4) + 1)
  }

  /** Exactly when and how much is dropped, in terms of the leading empty run and the peak: nothing for a
      peak below 600 ms; else the even number at or below a quarter-bucket share of the capacity, if it
      is positive and less than a third of what is buffered. */
  ghost predicate DropRule(cap: nat, having: nat, zero: nat, peak: nat, dropped: nat) {
    if peak < 6 then dropped == 0
    else
      exists d: nat ::
        && d % 2 == 0 && IsShare(cap, zero, peak, d)
        && dropped == if 0 < d && 3 * d < having then d else 0
  }

  /** `d` is within two below cap * m / 120 + 1, for the lesser `m` of the peak and four times two thirds of
      the leading run. */
  ghost predicate IsShare(cap: nat, zero: nat, peak: nat, d: nat) {
    var z := 2 * zero / 3;
    var m := if peak < 4 * z then peak else 4 * z;
    d <= cap * m / 120 + 1 < d + 2
  }

  lemma PlanShare(cap: nat, zero: nat, peak: nat)
    requires peak >= 6
    ensures Plan(cap, zero, peak) % 2 == 0 && IsShare(cap, zero, peak, Plan(cap, zero, peak))
  {
  }

  lemma {:induction false} DropsByRule(cap: nat, having: nat, h: Histogram)
    ensures DropRule(cap, having, Leading(h, BUCKETS), Peak(h, BUCKETS), Dropped(cap, having, h))
  {
    var zero, peak := Leading(h, BUCKETS), Peak(h, BUCKETS);
    if peak >= 6 { PlanShare(cap, zero, peak); }
  }

  /** Samples actually dropped. */
  function Dropped(cap: nat, having: nat, h: Histogram): nat {
    var skip := Plan(cap, Leading(h, BUCKETS), Peak(h, BUCKETS));
    if having > skip * 3 && skip > 0 then skip else 0
  }

  /** An occupancy that was recorded, and the rate it was recorded at. */
  datatype Reading = Reading(having: nat, rate: nat)

  ghost predicate Counted(r: Reading, h: Histogram) {
    r.rate > 0 && h[Bucket(r.having, r.rate)] > 0
  }

  /** `d` samples play for at most two thirds of the time the reading stood for, plus one sample. */
  ghost predicate WithinTwoThirds(d: nat, rate: nat, r: Reading) {
    d > 0 ==> 3 * (d - 1) * r.rate <= 2 * r.having * rate
  }

  lemma MulMono(a: nat, b: nat, w: nat)
    requires a <= b
    ensures a * w <= b * w
  {
  }

  lemma DivisionBound(a: nat, b: nat)
    requires b > 0
    ensures a / b * b <= a
  {
  }

  /** In playing time, a plan is at most two thirds of any counted occupancy, plus one sample. */
  lemma PlanBound(rate: nat, zero: nat, max: nat, r: Reading)
    requires r.rate > 0 && zero <= Bucket(r.having, r.rate)
    ensures WithinTwoThirds(Plan(3 * rate, zero, max), rate, r)
  {
    var skip := Plan(3 * rate, zero, max);
    if skip > 0 {
      DivisionBound(r.having * 10, r.rate);
      MulMono(zero, r.having * 10 / r.rate, r.rate);
      var z := zero * 2 / 3;
      var m := if max > z * 4 then z * 4 else max;
      assert 3 * m <= 8 * zero;
      DivisionBound(3 * rate * m, 120);
      assert 120 * (skip - 1) <= 3 * rate * m;
      PlanArithmetic(skip - 1, rate, m, zero, r.rate, r.having);
    }
  }

  lemma PlanArithmetic(d: nat, rate: nat, m: nat, zero: nat, r: nat, having: nat)
    requires 120 * d <= 3 * rate * m && 3 * m <= 8 * zero && zero * r <= having * 10
    ensures 3 * d * r <= 2 * having * rate
  {
    MulMono(3 * m, 8 * zero, rate);
    assert 120 * d <= 8 * zero * rate by { assert 3 * m * rate == 3 * rate * m; }
    MulMono(120 * d, 8 * zero * rate, r);
    MulMono(zero * r, having * 10, 8 * rate);
    assert 8 * zero * rate * r == zero * r * (8 * rate);
    assert having * 10 * (8 * rate) == 40 * (2 * having * rate);
    assert 120 * d * r == 40 * (3 * d * r);
  }

  /** Every drop is even, less than a third of what is buffered, and at most two thirds of the
      lowest counted occupancy, plus one sample. */
  lemma DropBounds(rate: nat, having: nat, h: Histogram, r: Reading)
    requires Counted(r, h)
    ensures var d := Dropped(3 * rate, having, h);
      d % 2 == 0 && (d > 0 ==> 3 * d < having) && WithinTwoThirds(d, rate, r)
  {
    LeadingMeaning(h, BUCKETS);
    PlanBound(rate, Leading(h, BUCKETS), Peak(h, BUCKETS), r);
    DroppedFits(3 * rate, having, h);
    DropWithin(Dropped(3 * rate, having, h), Plan(3 * rate, Leading(h, BUCKETS), Peak(h, BUCKETS)), rate, r);
  }

  lemma DropWithin(d: nat, plan: nat, rate: nat, r: Reading)
    requires (d == 0 || d == plan) && WithinTwoThirds(plan, rate, r)
    ensures WithinTwoThirds(d, rate, r)
  {
  }

  lemma AllWithin(readings: seq<Reading>, rate: nat, having: nat, h: Histogram)
    requires forall r :: r in readings ==> Counted(r, h)
    ensures var d := Dropped(3 * rate, having, h);
      && d % 2 == 0 && (d > 0 ==> 3 * d < having)
      && forall r :: r in readings ==> WithinTwoThirds(d, rate, r)
  {
    forall r | r in readings
      ensures WithinTwoThirds(Dropped(3 * rate, having, h), rate, r)
    {
      DropBounds(rate, having, h, r);
    }
    assert Dropped(3 * rate, having, h) % 2 == 0;
  }

  // ---------------------------------------------------------------- the gate

  /** The function-level static shared by all buffers. */
  class Gate {
    var tms: int

    constructor ()
      ensures tms == 0
    {
      tms := 0;
    }
  }

  predicate Passes(tms: int, dt: int) { tms != 0 && dt >= tms + GATE_MS }

  function NextTms(tms: int, dt: int): int {
    if tms == 0 || Passes(tms, dt) then dt else tms
  }

  function TmsAfter(readings: seq<int>): int {
    if readings == [] then 0 else NextTms(TmsAfter(readings[..|readings| - 1]), readings[|readings| - 1])
  }

  /** The readings at which the gate opened, over any calls on any buffers. */
  function PassTimes(readings: seq<int>): seq<int> {
    if readings == [] then []
    else
      var before, dt := readings[..|readings| - 1], readings[|readings| - 1];
      PassTimes(before) + if Passes(TmsAfter(before), dt) then [dt] else []
  }

  /** Consecutive times are at least one period of the gate apart. */
  ghost predicate Apart(times: seq<int>) {
    forall i :: 1 <= i < |times| ==> times[i] >= times[i - 1] + GATE_MS
  }

  /** A clock that never reads less than `least`; it may jump. */
  ghost predicate AtLeast(readings: seq<int>, least: int) {
    forall i :: 0 <= i < |readings| ==> readings[i] >= least
  }

  /** On such a clock every pass comes after the epoch, so a pass never looks like "not yet started". */
  lemma {:induction false} PassesApart(readings: seq<int>, least: int)
    requires least > -GATE_MS && AtLeast(readings, least)
    ensures TmsAfter(readings) != 0 ==> TmsAfter(readings) >= least
    ensures Apart(PassTimes(readings))
    ensures PassTimes(readings) != [] ==> TmsAfter(readings) == PassTimes(readings)[|PassTimes(readings)| - 1] > 0
  {
    if readings != [] { PassesApart(readings[..|readings| - 1], least); }
  }

  lemma TooClose(times: seq<int>)
    requires |times| == 2 && times[1] < times[0] + GATE_MS
    ensures !Apart(times)
  {
    assert times[1] < times[1 - 1] + GATE_MS;
  }

  ghost predicate PassesAlwaysApart(least: int) {
    forall readings | AtLeast(readings, least) :: Apart(PassTimes(readings))
  }

  lemma PassAtZero()
    ensures PassTimes([-12000, 0, -1, 11999]) == [0, 11999]
  {
    assert [-12000, 0, -1, 11999][..3] == [-12000, 0, -1];
    assert [-12000, 0, -1][..2] == [-12000, 0];
    assert [-12000, 0][..1] == [-12000];
    assert [-12000][..0] == [];
  }

  /** Passes are 12 seconds apart on every run of a clock, however it jumps, exactly if the clock
      stays within 12 seconds of the epoch or after it.  A pass at zero needs a clock that was
      12 seconds before the epoch, and is then taken for "not yet started". */
  lemma PassesApartExactly(least: int)
    ensures PassesAlwaysApart(least) <==> least > -GATE_MS
  {
    if least > -GATE_MS {
      forall readings | AtLeast(readings, least)
        ensures Apart(PassTimes(readings))
      {
        PassesApart(readings, least);
      }
    } else {
      PassAtZero();
      TooClose([0, 11999]);
      assert AtLeast([-12000, 0, -1, 11999], least);
    }
  }

  // ---------------------------------------------------------------- the buffer as a value

  datatype Buffer = Buffer(cap: nat, rate: nat, samples: seq<Sample>, hist: Histogram)

  /** Capacity is three seconds of samples, and is never exceeded. */
  ghost predicate Sound(b: Buffer) {
    b.rate > 0 && b.cap == 3 * b.rate && |b.samples| <= b.cap
  }

  function Resized(b: Buffer, sampleRate: nat, channels: nat): Buffer {
    var capacity := sampleRate * channels * AUDIO_BUFFER_MS / 1000;
    if capacity != b.cap then b.(cap := capacity, rate := sampleRate * channels, samples := []) else b
  }

  function Appended(b: Buffer, buffer: seq<Sample>): Buffer {
    b.(samples := Newest(b.samples + buffer, b.cap))
  }

  function Recorded(b: Buffer, having: nat): Histogram
    requires b.rate > 0
  {
    b.hist[Bucket(having, b.rate) := b.hist[Bucket(having, b.rate)] + 1]
  }

  /** Appending loses the oldest samples, and none while there is room. */
  lemma AppendedMeaning(b: Buffer, buffer: seq<Sample>)
    ensures var all := b.samples + buffer;
      Appended(b, buffer) == b.(samples := if |all| <= b.cap then all else all[|all| - b.cap..])
  {
  }

  /** Recording counts one occupancy, in its bucket. */
  lemma RecordedCounts(b: Buffer, having: nat, k: nat)
    requires b.rate > 0 && k < 30
    ensures Recorded(b, having)[k] == b.hist[k] + if k == Bucket(having, b.rate) then 1 else 0
  {
  }

  function Shrunk(b: Buffer, having: nat, tms: int, dt: int): Buffer
    requires b.rate > 0
  {
    var h := Recorded(b, having);
    if Passes(tms, dt) then
      var d := Dropped(b.cap, |b.samples|, h);
      DroppedFits(b.cap, |b.samples|, h);
      b.(samples := b.samples[d..], hist := EMPTY)
    else b.(hist := h)
  }

  lemma DroppedFits(cap: nat, having: nat, h: Histogram)
    ensures Dropped(cap, having, h) <= having && Dropped(cap, having, h) % 2 == 0
    ensures Dropped(cap, having, h) > 0 ==> 3 * Dropped(cap, having, h) < having
  {
  }

  /** Samples a callback that wants n samples takes. */
  function Taken(b: Buffer, n: nat): nat { if |b.samples| < n then |b.samples| else n }

  function Played(b: Buffer, n: nat): Buffer { b.(samples := b.samples[Taken(b, n)..]) }

  /** A resize leaves the rate it was asked for, whether or not the buffer is replaced. */
  lemma ResizedSound(b: Buffer, sampleRate: nat, channels: nat)
    requires Sound(b) && sampleRate * channels > 0
    ensures Sound(Resized(b, sampleRate, channels)) && Resized(b, sampleRate, channels).rate == sampleRate * channels
  {
  }

  /** Dropping what does not fit before an append leaves what an overwriting append leaves. */
  lemma RoomMade(samples: seq<Sample>, buffer: seq<Sample>, cap: nat)
    requires |samples| <= cap && |buffer| <= cap
    ensures var k: nat := if |samples| + |buffer| > cap then |samples| + |buffer| - cap else 0;
      && k <= |samples|
      && Newest(samples[k..] + buffer, cap) == Newest(samples + buffer, cap)
      && |Newest(samples + buffer, cap)| == |samples| + |buffer| - k
  {
  }

  // ---------------------------------------------------------------- the buffer object

  class AudioBuffer {
    const ring: Ring
    var rate: nat
    const hist: array<nat>
    ghost var readings: seq<Reading> // occupancies recorded since the histogram was last cleared

    ghost predicate Valid()
      reads this, ring, hist
    {
      && hist.Length == BUCKETS
      && Sound(View())
      && forall r :: r in readings ==> Counted(r, hist[..])
    }

    ghost function View(): Buffer
      requires hist.Length == BUCKETS
      reads this, ring, hist
    {
      Buffer(ring.cap, rate, ring.samples, hist[..])
    }

    constructor ()
      ensures Valid() && fresh(ring) && fresh(hist)
      ensures View() == Buffer(288000, 96000, [], EMPTY) == Start(DEFAULT_DEVICE).buffer && readings == []
    {
      ring := new Ring(48000 * 2 * AUDIO_BUFFER_MS / 1000);
      rate := 48000 * 2;
      hist := new nat[30](_ => 0);
      readings := [];
      new;
      assert hist[..] == EMPTY;
    }

    method Resize(sampleRate: nat, channels: nat)
      requires Valid() && sampleRate * channels > 0
      modifies `rate, ring
      ensures Valid() && View() == Resized(old(View()), sampleRate, channels) && readings == old(readings)
      ensures rate == sampleRate * channels && ring.cap == 3 * rate && hist[..] == old(hist[..])
      ensures ring.samples == if sampleRate * channels == old(rate) then old(ring.samples) else []
    {
      ResizedSound(View(), sampleRate, channels);
      var capacity := sampleRate * channels * AUDIO_BUFFER_MS / 1000;
      var oldCapacity := ring.cap;
      if capacity != oldCapacity {
        ring.Replace(capacity);
        rate := sampleRate * channels;
      }
    }

    /** `having` is the occupancy seen by an earlier append; the lock was free in between. */
    method TryShrink(having: nat, gate: Gate, dt: int)
      requires Valid()
      modifies this`readings, ring, hist, gate
      ensures Valid() && View() == Shrunk(old(View()), having, old(gate.tms), dt)
      ensures gate.tms == NextTms(old(gate.tms), dt)
      ensures readings == if Passes(old(gate.tms), dt) then [] else old(readings) + [Reading(having, rate)]
      ensures if old(gate.tms) != 0 && dt >= old(gate.tms) + 12000 then
                && hist[..] == EMPTY
                && var h := Recorded(old(View()), having);
                DropRule(ring.cap, |old(ring.samples)|, Leading(h, BUCKETS), Peak(h, BUCKETS),
                         |old(ring.samples)| - |ring.samples|)
              else
                ring.samples == old(ring.samples) && hist[..] == Recorded(old(View()), having)
      ensures var d := |old(ring.samples)| - |ring.samples|; d > 0 ==>
                && Passes(old(gate.tms), dt) && d % 2 == 0 && 3 * d < |old(ring.samples)|
                && forall r :: r in old(readings) + [Reading(having, rate)] ==> WithinTwoThirds(d, rate, r)
    {
      Record(having);
      if gate.tms == 0 {
        gate.tms := dt;
        return;
      } else if dt < gate.tms + 12000 {
        return;
      }
      gate.tms := dt;
      AllWithin(readings, rate, |ring.samples|, hist[..]);
      Drop();
    }

    /** Count one more occupancy. */
    method Record(having: nat)
      requires Valid()
      modifies this`readings, hist
      ensures Valid() && View() == old(View()).(hist := Recorded(old(View()), having))
      ensures readings == old(readings) + [Reading(having, rate)]
    {
      ghost var h := hist[..];
      var i := having * 10 / rate;
      if i > 29 {
        i := 29;
      }
      hist[i] := hist[i] + 1;
      readings := readings + [Reading(having, rate)];
      assert hist[..] == h[i := h[i] + 1];
    }

    /** Clear the histogram and drop what it advises. */
    method Drop()
      requires Valid()
      modifies this`readings, ring, hist
      ensures Valid() && readings == []
      ensures var b := old(View()); var d := Dropped(b.cap, |b.samples|, b.hist);
              d <= |b.samples| && View() == b.(samples := b.samples[d..], hist := EMPTY)
      ensures var b := old(View());
              DropRule(b.cap, |b.samples|, Leading(b.hist, BUCKETS), Peak(b.hist, BUCKETS),
                       |b.samples| - |ring.samples|)
    {
      ghost var before := View();
      DroppedFits(before.cap, |before.samples|, before.hist);
      DropsByRule(before.cap, |before.samples|, before.hist);
      var zero, max := ScanHistogram(hist);
      readings := [];
      var cap := ring.cap;
      var having := |ring.samples|;
      var skip := HowMuch(cap, zero, max);
      if having > skip * 3 && skip > 0 {
        ring.Skip(skip);
      }
    }

    static method HowMuch(cap: nat, zero: nat, max: nat) returns (skip: nat)
      ensures skip == Plan(cap, zero, max)
    {
      var zero', max' := zero * 2 / 3, max;
      if max' < 6 {
        return 0;
      } else if max' > zero' * 4 {
        max' := zero' * 4;
      }
      return EvenBelow(cap * max' / (30 * 4) + 1);
    }

    method AppendPcm2(buffer: seq<Sample>) returns (having: nat)
      requires Valid()
      modifies ring
      ensures Valid() && View() == Appended(old(View()), buffer) && having == |View().samples|
    {
      var cap := ring.cap;
      if |buffer| > cap {
        ring.PushSliceOverwrite(buffer);
        return cap;
      }
      RoomMade(ring.samples, buffer, cap);
      var total := |ring.samples| + |buffer|;
      if total > cap {
        ring.Skip(total - cap);
      }
      ring.PushSliceOverwrite(buffer);
      return |ring.samples|;
    }

    method AppendPcm(buffer: seq<Sample>, gate: Gate, dt: int)
      requires Valid()
      modifies this`readings, ring, hist, gate
      ensures Valid()
      ensures var b := Appended(old(View()), buffer); View() == Shrunk(b, |b.samples|, old(gate.tms), dt)
      ensures gate.tms == NextTms(old(gate.tms), dt)
      ensures var having := |Appended(old(View()), buffer).samples|;
              var all := old(readings) + [Reading(having, rate)];
              && readings == (if Passes(old(gate.tms), dt) then [] else all)
              && var d := having - |ring.samples|;
              d > 0 ==>
                && Passes(old(gate.tms), dt) && d % 2 == 0 && 3 * d < having
                && forall r :: r in all ==> WithinTwoThirds(d, rate, r)
    {
      var having := AppendPcm2(buffer);
      TryShrink(having, gate, dt);
    }

    /** The part of the output callback under the (last) lock: play what there is, then silence. */
    method Playback(n: nat) returns (data: seq<Sample>)
      requires Valid()
      modifies ring
      ensures Valid() && View() == Played(old(View()), n)
      ensures |data| == n
      ensures forall k :: 0 <= k < n ==> data[k] == if k < |old(ring.samples)| then old(ring.samples)[k] else 0.0
      ensures ring.samples == if n < |old(ring.samples)| then old(ring.samples)[n..] else []
    {
      var count := n;
      var having := |ring.samples|;
      if having < count {
        count := having;
      }
      var elems := ring.PopSlice(count);
      data := elems;
      while |data| < n
        invariant count <= |data| <= n && data[..count] == elems
        invariant forall k :: count <= k < |data| ==> data[k] == 0.0
      {
        data := data + [0.0];
      }
    }
  }

  // ---------------------------------------------------------------- runs

  datatype Event =
    | Append(buffer: seq<Sample>)
    | Shrink(having: nat, dt: int)
    | Resize(sampleRate: nat, channels: nat)
    | Play(n: nat)

  /** A buffer with the history of what was appended to it and played from it. */
  datatype History = History(buffer: Buffer, tms: int, appended: seq<Sample>, played: seq<Sample>)

  function Step(s: History, e: Event): History {
    match e
    case Append(b) => s.(buffer := Appended(s.buffer, b), appended := s.appended + b)
    case Shrink(having, dt) =>
      if s.buffer.rate == 0 then s
      else s.(buffer := Shrunk(s.buffer, having, s.tms, dt), tms := NextTms(s.tms, dt))
    case Resize(sampleRate, channels) => s.(buffer := Resized(s.buffer, sampleRate, channels))
    case Play(n) =>
      s.(buffer := Played(s.buffer, n), played := s.played + s.buffer.samples[..Taken(s.buffer, n)])
  }

  function Run(s: History, events: seq<Event>): History {
    if events == [] then s else Step(Run(s, events[..|events| - 1]), events[|events| - 1])
  }

  /** A device has a positive rate and at least one channel. */
  ghost predicate RealDevices(events: seq<Event>) {
    forall i :: 0 <= i < |events| && events[i].Resize? ==> events[i].sampleRate * events[i].channels > 0
  }

  ghost predicate Fresh(s: History) {
    Sound(s.buffer) && s.buffer.samples == [] && s.appended == [] && s.played == []
  }

  /** `a` is `b` with some elements left out. */
  ghost predicate Subsequence<T>(a: seq<T>, b: seq<T>)
    decreases b
  {
    || a == []
    || (&& b != []
        && (|| Subsequence(a, b[..|b| - 1])
            || (a[|a| - 1] == b[|b| - 1] && Subsequence(a[..|a| - 1], b[..|b| - 1]))))
  }

  lemma {:induction false} SkipMore<T>(a: seq<T>, b: seq<T>, c: seq<T>)
    requires Subsequence(a, b)
    ensures Subsequence(a, b + c)
    decreases |c|
  {
    if c != [] {
      SkipMore(a, b, c[..|c| - 1]);
      assert (b + c)[..|b + c| - 1] == b + c[..|c| - 1];
    } else {
      assert b + c == b;
    }
  }

  lemma {:induction false} TakeMore<T>(a: seq<T>, b: seq<T>, c: seq<T>)
    requires Subsequence(a, b)
    ensures Subsequence(a + c, b + c)
    decreases |c|
  {
    if c != [] {
      TakeMore(a, b, c[..|c| - 1]);
      assert (b + c)[..|b + c| - 1] == b + c[..|c| - 1];
      assert (a + c)[..|a + c| - 1] == a + c[..|c| - 1];
    } else {
      assert b + c == b && a + c == a;
    }
  }

  /** What has left the buffer, and what was played of it. */
  ghost predicate InOrder(s: History) {
    var b := s.buffer.samples;
    && |b| <= |s.appended|
    && b == s.appended[|s.appended| - |b|..]
    && Subsequence(s.played, s.appended[..|s.appended| - |b|])
  }

  /** Dropping the oldest `k` samples, or taking them to play, keeps the order. */
  lemma LeaveInOrder(s: History, t: History, k: nat, taken: bool)
    requires InOrder(s) && k <= |s.buffer.samples|
    requires t.appended == s.appended && t.buffer.samples == s.buffer.samples[k..]
    requires t.played == if taken then s.played + s.buffer.samples[..k] else s.played
    ensures InOrder(t)
  {
    var b := s.buffer.samples;
    var gone := s.appended[..|s.appended| - |b|];
    if taken { TakeMore(s.played, gone, b[..k]); } else { SkipMore(s.played, gone, b[..k]); }
    assert s.appended[..|s.appended| - |b| + k] == gone + b[..k];
  }

  lemma AppendInOrder(s: History, buffer: seq<Sample>)
    requires InOrder(s)
    ensures InOrder(Step(s, Append(buffer)))
  {
    var b := s.buffer.samples;
    var grown := s.(buffer := s.buffer.(samples := b + buffer), appended := s.appended + buffer);
    assert grown.appended[..|grown.appended| - |b + buffer|] == s.appended[..|s.appended| - |b|];
    assert InOrder(grown);
    var k := if |b + buffer| <= s.buffer.cap then 0 else |b + buffer| - s.buffer.cap;
    LeaveInOrder(grown, Step(s, Append(buffer)), k, false);
  }

  lemma StepKeeps(s: History, e: Event)
    requires Sound(s.buffer) && InOrder(s)
    requires e.Resize? ==> e.sampleRate * e.channels > 0
    ensures Sound(Step(s, e).buffer) && InOrder(Step(s, e))
  {
    match e
    case Append(buffer) => AppendInOrder(s, buffer);
    case Shrink(having, dt) =>
      var d := Dropped(s.buffer.cap, |s.buffer.samples|, Recorded(s.buffer, having));
      DroppedFits(s.buffer.cap, |s.buffer.samples|, Recorded(s.buffer, having));
      LeaveInOrder(s, Step(s, e), if Passes(s.tms, dt) then d else 0, false);
    case Resize(sampleRate, channels) =>
      ResizedSound(s.buffer, sampleRate, channels);
      LeaveInOrder(s, Step(s, e), if Step(s, e).buffer == s.buffer then 0 else |s.buffer.samples|, false);
    case Play(n) =>
      LeaveInOrder(s, Step(s, e), Taken(s.buffer, n), true);
  }

  /** Under every interleaving the occupancy stays within three seconds, and what was played
      followed by what is buffered is an in-order subsequence of what was appended; what is
      buffered is always the newest part of it. */
  lemma {:induction false} RunInOrder(s: History, events: seq<Event>)
    requires Fresh(s) && RealDevices(events)
    ensures Sound(Run(s, events).buffer) && InOrder(Run(s, events))
    ensures Subsequence(Run(s, events).played + Run(s, events).buffer.samples, Run(s, events).appended)
  {
    if events != [] {
      var last := events[|events| - 1];
      RunInOrder(s, events[..|events| - 1]);
      StepKeeps(Run(s, events[..|events| - 1]), last);
    }
    var r := Run(s, events);
    var k := |r.appended| - |r.buffer.samples|;
    TakeMore(r.played, r.appended[..k], r.buffer.samples);
    assert r.appended[..k] + r.buffer.samples == r.appended;
  }

  // ---------------------------------------------------------------- drops of many buffers

  /** Several buffers under the one gate. */
  datatype Pool = Pool(buffers: seq<Buffer>, tms: int)

  datatype Turn = Turn(who: nat, event: Event)

  function PoolStep(p: Pool, t: Turn): Pool {
    if t.who >= |p.buffers| then p
    else
      var s := Step(History(p.buffers[t.who], p.tms, [], []), t.event);
      Pool(p.buffers[t.who := s.buffer], s.tms)
  }

  function PoolRun(p: Pool, turns: seq<Turn>): Pool {
    if turns == [] then p else PoolStep(PoolRun(p, turns[..|turns| - 1]), turns[|turns| - 1])
  }

  /** A shrink that takes samples away. */
  predicate Drops(p: Pool, t: Turn) {
    && t.who < |p.buffers| && t.event.Shrink?
    && |PoolStep(p, t).buffers[t.who].samples| < |p.buffers[t.who].samples|
  }

  /** The clock readings at which any buffer dropped samples. */
  function DropTimes(p: Pool, turns: seq<Turn>): seq<int> {
    if turns == [] then []
    else
      var before, t := turns[..|turns| - 1], turns[|turns| - 1];
      DropTimes(p, before) + if Drops(PoolRun(p, before), t) then [t.event.dt] else []
  }

  ghost predicate ClockAtLeast(turns: seq<Turn>, least: int) {
    forall i :: 0 <= i < |turns| && turns[i].event.Shrink? ==> turns[i].event.dt >= least
  }

  /** The static holds a reading of the clock, and after a drop it is one from that drop on. */
  ghost predicate GateKept(tms: int, drops: seq<int>, least: int) {
    && Apart(drops)
    && (tms != 0 ==> tms >= least)
    && (drops != [] ==> tms > 0 && drops[|drops| - 1] <= tms)
  }

  lemma TurnGate(p: Pool, t: Turn)
    ensures PoolStep(p, t).tms == p.tms || (t.event.Shrink? && PoolStep(p, t).tms == NextTms(p.tms, t.event.dt))
    ensures Drops(p, t) ==> Passes(p.tms, t.event.dt) && PoolStep(p, t).tms == t.event.dt
  {
  }

  lemma GateStep(tms: int, drops: seq<int>, dt: int, least: int)
    requires GateKept(tms, drops, least) && least > -GATE_MS && dt >= least
    ensures GateKept(NextTms(tms, dt), drops, least)
    ensures Passes(tms, dt) ==> GateKept(dt, drops + [dt], least)
  {
  }

  lemma {:induction false} DropsApart(p: Pool, turns: seq<Turn>, least: int)
    requires p.tms == 0 && least > -GATE_MS && ClockAtLeast(turns, least)
    ensures GateKept(PoolRun(p, turns).tms, DropTimes(p, turns), least)
  {
    if turns != [] {
      var before, t := turns[..|turns| - 1], turns[|turns| - 1];
      DropsApart(p, before, least);
      TurnGate(PoolRun(p, before), t);
      if t.event.Shrink? { GateStep(PoolRun(p, before).tms, DropTimes(p, before), t.event.dt, least); }
      assert DropTimes(p, before) + [] == DropTimes(p, before);
    }
  }

  ghost predicate AllSound(buffers: seq<Buffer>) {
    forall i :: 0 <= i < |buffers| ==> Sound(buffers[i])
  }

  ghost predicate DropsAlwaysApart(least: int) {
    forall buffers, turns | AllSound(buffers) && ClockAtLeast(turns, least) :: Apart(DropTimes(Pool(buffers, 0), turns))
  }

  /** Drops by any buffers, under every interleaving, are 12 seconds apart exactly if the clock
      never reads 12 seconds or more before the epoch. */
  lemma DropsApartExactly(least: int)
    ensures DropsAlwaysApart(least) <==> least > -GATE_MS
  {
    if least > -GATE_MS {
      forall buffers, turns | AllSound(buffers) && ClockAtLeast(turns, least)
        ensures Apart(DropTimes(Pool(buffers, 0), turns))
      {
        DropsApart(Pool(buffers, 0), turns, least);
      }
    } else {
      var buffers, turns := TwoDrops();
      TooClose([0, 11999]);
      assert ClockAtLeast(turns, least);
    }
  }

  /** A histogram with one bucket in use. */
  lemma {:induction false} OneBucket(h: Histogram, k: nat)
    requires 1 <= k < BUCKETS && h[k] > 0 && forall i :: 0 <= i < BUCKETS && i != k ==> h[i] == 0
    ensures Leading(h, BUCKETS) == k && Peak(h, BUCKETS) == k
  {
    LeadingMeaning(h, BUCKETS);
    PeakMeaning(h, BUCKETS);
  }

  /** Two shrinks of a quiet buffer: the first is counted, the second passes and drops. */
  lemma CountAndDrop(b: Buffer, k: nat, d: nat, tms: int, dt0: int, dt1: int)
    requires b.cap == 288000 && b.rate == 96000 && b.hist == EMPTY
    requires 6 <= k < BUCKETS && Bucket(|b.samples|, 96000) == k
    requires d == Plan(288000, k, k) && 0 < d && 3 * d < |b.samples|
    requires !Passes(tms, dt0) && Passes(NextTms(tms, dt0), dt1)
    ensures var c := Shrunk(b, |b.samples|, tms, dt0);
      && c.samples == b.samples
      && Shrunk(c, |b.samples|, NextTms(tms, dt0), dt1) == b.(samples := b.samples[d..])
  {
    var c := Shrunk(b, |b.samples|, tms, dt0);
    OneBucket(Recorded(c, |b.samples|), k);
  }

  lemma ShrinkTurn(b: Buffer, tms: int, having: nat, dt: int)
    requires b.rate > 0
    ensures var p, t := Pool([b], tms), Turn(0, Shrink(having, dt));
      && PoolStep(p, t) == Pool([Shrunk(b, having, tms, dt)], NextTms(tms, dt))
      && (Drops(p, t) <==> |Shrunk(b, having, tms, dt).samples| < |b.samples|)
  {
  }

  /** The same as two turns of a pool with one buffer. */
  lemma TwoTurns(p: Pool, turns: seq<Turn>, b: Buffer, k: nat, d: nat, tms: int, dt0: int, dt1: int)
    returns (more: seq<Turn>)
    requires PoolRun(p, turns) == Pool([b], tms)
    requires b.cap == 288000 && b.rate == 96000 && b.hist == EMPTY
    requires 6 <= k < BUCKETS && Bucket(|b.samples|, 96000) == k
    requires d == Plan(288000, k, k) && 0 < d && 3 * d < |b.samples|
    requires !Passes(tms, dt0) && Passes(NextTms(tms, dt0), dt1)
    ensures forall least :: ClockAtLeast(turns, least) && dt0 >= least && dt1 >= least ==> ClockAtLeast(more, least)
    ensures PoolRun(p, more) == Pool([b.(samples := b.samples[d..])], dt1)
    ensures DropTimes(p, more) == DropTimes(p, turns) + [dt1]
  {
    CountAndDrop(b, k, d, tms, dt0, dt1);
    var t0, t1 := Turn(0, Shrink(|b.samples|, dt0)), Turn(0, Shrink(|b.samples|, dt1));
    more := turns + [t0] + [t1];
    TurnsMore(p, turns, t0);
    TurnsMore(p, turns + [t0], t1);
    var c := Shrunk(b, |b.samples|, tms, dt0);
    ShrinkTurn(b, tms, |b.samples|, dt0);
    ShrinkTurn(c, NextTms(tms, dt0), |b.samples|, dt1);
    assert DropTimes(p, turns) + [] == DropTimes(p, turns);
  }

  /** A clock that steps back over the epoch: drops at 0 and at 11999. */
  lemma TwoDrops() returns (buffers: seq<Buffer>, turns: seq<Turn>)
    ensures AllSound(buffers) && ClockAtLeast(turns, -GATE_MS)
    ensures DropTimes(Pool(buffers, 0), turns) == [0, 11999]
  {
    var b := Buffer(288000, 96000, seq(200000, _ => 0.0), EMPTY);
    buffers := [b];
    turns := TwoTurns(Pool(buffers, 0), [], b, 20, 48000, 0, -12000, 0);
    turns := TwoTurns(Pool(buffers, 0), turns, b.(samples := b.samples[48000..]), 15, 36000, 0, -1, 11999);
  }

  lemma {:induction false} TurnsMore(p: Pool, turns: seq<Turn>, t: Turn)
    ensures PoolRun(p, turns + [t]) == PoolStep(PoolRun(p, turns), t)
    ensures DropTimes(p, turns + [t]) == DropTimes(p, turns) + if Drops(PoolRun(p, turns), t) then [t.event.dt] else []
  {
    assert (turns + [t])[..|turns|] == turns;
  }

  // ---------------------------------------------------------------- frames

  datatype Device = Device(rate: nat, channels: nat)

  /** The device that the default buffer is made for. */
  const DEFAULT_DEVICE := Device(48000, 2)

  /** An empty buffer for a device. */
  function Start(d: Device): History {
    History(Buffer(3 * (d.rate * d.channels), d.rate * d.channels, [], EMPTY), 0, [], [])
  }

  ghost predicate MonoOrStereo(d: Device) { d.rate > 0 && 1 <= d.channels <= 2 }

  ghost predicate Frames(n: nat, d: Device) { d.channels > 0 && n % d.channels == 0 }

  /** The device after a run that started with `d`. */
  function DeviceAfter(d: Device, events: seq<Event>): Device {
    if events == [] then d
    else
      var last := events[|events| - 1];
      if last.Resize? then Device(last.sampleRate, last.channels) else DeviceAfter(d, events[..|events| - 1])
  }

  /** Whole frames of the current device in and out, and other devices from a given set. */
  ghost predicate Framed(e: Event, current: Device, devices: iset<Device>) {
    match e
    case Append(buffer) => Frames(|buffer|, current)
    case Play(n) => Frames(n, current)
    case Resize(sampleRate, channels) => Device(sampleRate, channels) in devices
    case Shrink(_, _) => true
  }

  ghost predicate FramedRun(d: Device, events: seq<Event>, devices: iset<Device>) {
    events != [] ==>
      var before, last := events[..|events| - 1], events[|events| - 1];
      FramedRun(d, before, devices) && Framed(last, DeviceAfter(d, before), devices)
  }

  /** A mono and a stereo device with the same number of samples per second. */
  ghost predicate SwapsFrames(devices: iset<Device>) {
    exists rate: nat :: Device(rate, 2) in devices && Device(2 * rate, 1) in devices
  }

  /** The buffer is for this device and holds whole frames of it. */
  ghost predicate Aligned(b: Buffer, d: Device) {
    Sound(b) && b.rate == d.rate * d.channels && Frames(|b.samples|, d)
  }

  ghost predicate AlwaysAligned(d: Device, devices: iset<Device>) {
    forall events | FramedRun(d, events, devices) ::
      Frames(|Run(Start(d), events).buffer.samples|, DeviceAfter(d, events))
  }

  lemma MonoFrames(n: nat, d: Device)
    requires d.channels == 1
    ensures Frames(n, d)
  {
  }

  lemma StereoFrames(n: nat, d: Device)
    requires d.channels == 2
    ensures Frames(n, d) <==> n % 2 == 0
  {
  }

  /** What an append, a drop and a callback leave, counted in samples. */
  lemma NewestEven(samples: seq<Sample>, cap: nat)
    requires cap % 2 == 0 && |samples| % 2 == 0
    ensures |Newest(samples, cap)| % 2 == 0
  {
  }

  lemma ShrunkEven(b: Buffer, having: nat, tms: int, dt: int)
    requires b.rate > 0 && |b.samples| % 2 == 0
    ensures |Shrunk(b, having, tms, dt).samples| % 2 == 0
  {
    DroppedFits(b.cap, |b.samples|, Recorded(b, having));
  }

  lemma PlayedEven(b: Buffer, n: nat)
    requires |b.samples| % 2 == 0 && n % 2 == 0
    ensures |Played(b, n).samples| % 2 == 0
  {
  }

  lemma EvenCapacity(b: Buffer, rate: nat)
    requires b.cap == 3 * b.rate && b.rate == rate * 2
    ensures b.cap % 2 == 0
  {
    assert b.cap == 6 * rate;
  }

  /** Stereo: everything but a change of device keeps the number of samples even. */
  lemma StereoStep(s: History, e: Event, d: Device)
    requires Aligned(s.buffer, d) && d.channels == 2 && !e.Resize?
    requires e.Append? ==> |e.buffer| % 2 == 0
    requires e.Play? ==> e.n % 2 == 0
    ensures |Step(s, e).buffer.samples| % 2 == 0
  {
    StereoFrames(|s.buffer.samples|, d);
    match e
    case Append(buffer) =>
      EvenCapacity(s.buffer, d.rate);
      NewestEven(s.buffer.samples + buffer, s.buffer.cap);
    case Shrink(having, dt) => ShrunkEven(s.buffer, having, s.tms, dt);
    case Play(n) => PlayedEven(s.buffer, n);
  }

  lemma SameDevice(s: History, e: Event, d: Device, devices: iset<Device>)
    requires Aligned(s.buffer, d) && MonoOrStereo(d) && InOrder(s) && !e.Resize? && Framed(e, d, devices)
    ensures Aligned(Step(s, e).buffer, d)
  {
    StepKeeps(s, e);
    if d.channels == 1 {
      MonoFrames(|Step(s, e).buffer.samples|, d);
    } else {
      if e.Append? { StereoFrames(|e.buffer|, d); }
      if e.Play? { StereoFrames(e.n, d); }
      StereoStep(s, e, d);
      StereoFrames(|Step(s, e).buffer.samples|, d);
    }
  }

  lemma Positive(a: nat, b: nat)
    requires a > 0 && b > 0
    ensures a * b > 0
  {
  }

  /** A change of device empties the buffer, or keeps samples that are whole frames of the new
      device, unless a mono device gives way to its stereo twin. */
  lemma OtherDevice(b: Buffer, d: Device, next: Device)
    requires Aligned(b, d) && MonoOrStereo(d) && MonoOrStereo(next)
    requires !(d.channels == 1 && next.channels == 2 && d.rate == 2 * next.rate)
    ensures Aligned(Resized(b, next.rate, next.channels), next)
  {
    Positive(next.rate, next.channels);
    ResizedSound(b, next.rate, next.channels);
    var samples := Resized(b, next.rate, next.channels).samples;
    if next.channels == 1 {
      MonoFrames(|samples|, next);
    } else {
      StereoFrames(|samples|, next);
      if samples != [] { SamplesKept(b, d, next); }
    }
  }

  lemma SamplesKept(b: Buffer, d: Device, next: Device)
    requires Aligned(b, d) && MonoOrStereo(d) && next.channels == 2
    requires Resized(b, next.rate, next.channels).samples != []
    ensures Resized(b, next.rate, next.channels).samples == b.samples
    ensures (d.channels == 1 && d.rate == 2 * next.rate) || |b.samples| % 2 == 0
  {
    assert d.rate * d.channels == next.rate * 2;
    if d.channels == 2 { StereoFrames(|b.samples|, d); }
  }

  /** From an empty buffer for a stereo device, or for one of the set. */
  lemma {:induction false} RunAligned(d: Device, events: seq<Event>, devices: iset<Device>)
    requires MonoOrStereo(d) && (d.channels == 2 || d in devices)
    requires (forall x :: x in devices ==> MonoOrStereo(x)) && !SwapsFrames(devices)
    requires FramedRun(d, events, devices)
    ensures var now, t := DeviceAfter(d, events), Run(Start(d), events);
      MonoOrStereo(now) && (now.channels == 2 || now in devices) && Aligned(t.buffer, now) && InOrder(t)
  {
    if events == [] {
      Positive(d.rate, d.channels);
    } else {
      var before, last := events[..|events| - 1], events[|events| - 1];
      RunAligned(d, before, devices);
      var now, t := DeviceAfter(d, before), Run(Start(d), before);
      match last
      case Resize(sampleRate, channels) =>
        Positive(sampleRate, channels);
        OtherDevice(t.buffer, now, Device(sampleRate, channels));
        StepKeeps(t, last);
      case _ =>
        SameDevice(t, last, now, devices);
        StepKeeps(t, last);
    }
  }

  /** A mono sample, kept when the device turns stereo. */
  lemma SampleKept(b: Buffer, rate: nat)
    requires Sound(b) && b.samples == [] && rate > 0
    ensures var mono := Resized(b, 2 * rate, 1);
      Resized(Appended(mono, [0.5]), rate, 2).samples == [0.5]
  {
    var mono := Resized(b, 2 * rate, 1);
    ResizedSound(b, 2 * rate, 1);
    assert mono.cap == 6 * rate && mono.samples == [];
    assert mono.samples + [0.5] == [0.5];
    assert rate * 2 * AUDIO_BUFFER_MS / 1000 == 6 * rate;
  }

  /** A sample of the mono device is half a frame of its stereo twin. */
  lemma HalfFrame(d: Device, rate: nat, devices: iset<Device>) returns (events: seq<Event>)
    requires MonoOrStereo(d) && rate > 0 && Device(rate, 2) in devices && Device(2 * rate, 1) in devices
    ensures FramedRun(d, events, devices)
    ensures !Frames(|Run(Start(d), events).buffer.samples|, DeviceAfter(d, events))
  {
    var mono, sample, stereo := Resize(2 * rate, 1), Append([0.5]), Resize(rate, 2);
    events := [] + [mono] + [sample] + [stereo];
    RunMore(d, [], mono);
    RunMore(d, [] + [mono], sample);
    RunMore(d, [] + [mono] + [sample], stereo);
    MonoFrames(1, Device(2 * rate, 1));
    Positive(d.rate, d.channels);
    SampleKept(Start(d).buffer, rate);
    assert Run(Start(d), events).buffer.samples == [0.5];
    StereoFrames(1, Device(rate, 2));
    MoreFramed(d, [], mono, devices);
    MoreFramed(d, [] + [mono], sample, devices);
    MoreFramed(d, [] + [mono] + [sample], stereo, devices);
  }

  lemma {:induction false} RunMore(d: Device, events: seq<Event>, e: Event)
    ensures Run(Start(d), events + [e]) == Step(Run(Start(d), events), e)
    ensures DeviceAfter(d, events + [e]) ==
            if e.Resize? then Device(e.sampleRate, e.channels) else DeviceAfter(d, events)
  {
    assert (events + [e])[..|events|] == events;
  }

  lemma {:induction false} MoreFramed(d: Device, events: seq<Event>, e: Event, devices: iset<Device>)
    requires FramedRun(d, events, devices) && Framed(e, DeviceAfter(d, events), devices)
    ensures FramedRun(d, events + [e], devices)
  {
    assert (events + [e])[..|events|] == events;
  }

  /** The buffer holds whole frames of the current device in every run that appends and plays
      whole frames, exactly if no two devices of the set share a number of samples per second
      with different numbers of channels. */
  lemma AlignedExactly(d: Device, devices: iset<Device>)
    requires MonoOrStereo(d) && (d.channels == 2 || d in devices)
    requires forall x :: x in devices ==> MonoOrStereo(x)
    ensures AlwaysAligned(d, devices) <==> !SwapsFrames(devices)
  {
    if rate: nat :| Device(rate, 2) in devices && Device(2 * rate, 1) in devices {
      assert MonoOrStereo(Device(rate, 2));
      var events := HalfFrame(d, rate, devices);
    } else {
      forall events | FramedRun(d, events, devices)
        ensures Frames(|Run(Start(d), events).buffer.samples|, DeviceAfter(d, events))
      {
        RunAligned(d, events, devices);
      }
    }
  }
}
