/** The subnode's GPS buffer: a bounded circular buffer of (timestamp, GPS fix)
    pairs, fed by the GPS callback and read by the radar callback, which asks
    for the vehicle's linear velocity at the fix nearest to a radar timestamp.

    The buffer follows circular-buffer semantics: a push into a full buffer
    overwrites the oldest sample, a push into a buffer of capacity 0 stores
    nothing, and shrinking the capacity keeps the oldest samples. */
module GpsBuffer {
  import opened Wrappers
  import opened Geometry

  /** How far (seconds) a query may lie outside [oldest, newest] and still be answered. */
  const LookupTolerance: real := 0.1

  /** The initial "best distance" of the code's backward scan, standing in for infinity. */
  const DistanceSentinel: real := 1000000000.0

  /** The part of a localization GPS message the subnode reads. */
  datatype Gps = Gps(timestampSec: real, linearVelocity: Vec3)

  /** One buffer element: the message's header timestamp paired with the message. */
  datatype Sample = Sample(ts: real, gps: Gps)

  datatype Buffer = Buffer(capacity: nat, samples: seq<Sample>)

  /** Why a velocity lookup returned false. */
  datatype SpeedError = EmptyBuffer | TooOld | TooNew

  /** The circular buffer's structural invariant. */
  predicate Bounded(b: Buffer) {
    |b.samples| <= b.capacity
  }

  function Min(a: nat, b: nat): nat {
    if a <= b then a else b
  }

  /** The newest `c` elements of `x` (all of `x` when it is shorter). */
  function Newest<T>(c: nat, x: seq<T>): (r: seq<T>)
    ensures |r| == Min(c, |x|)
  {
    x[|x| - Min(c, |x|)..]
  }

  /** `set_capacity(n)`: the capacity becomes `n`; when the buffer holds more
      than `n` samples, the newest ones are removed and the oldest `n` stay. */
  function SetCapacity(b: Buffer, n: nat): (r: Buffer)
    ensures Bounded(r) && r.capacity == n
    ensures r.samples <= b.samples
    ensures |b.samples| <= n ==> r.samples == b.samples
    ensures n < |b.samples| ==> |r.samples| == n
  {
    Buffer(n, b.samples[..Min(n, |b.samples|)])
  }

  /** `push_back`: append at the back; a full buffer first loses its oldest sample. */
  function PushBack(b: Buffer, s: Sample): (r: Buffer)
    requires Bounded(b)
    ensures Bounded(r) && r.capacity == b.capacity
    ensures r.samples == Newest(b.capacity, b.samples + [s])
    ensures b.capacity > 0 ==> |r.samples| > 0 && r.samples[|r.samples| - 1] == s
    ensures |b.samples| < b.capacity ==> r.samples == b.samples + [s]
  {
    if b.capacity == 0 then b
    else if |b.samples| < b.capacity then b.(samples := b.samples + [s])
    else b.(samples := b.samples[1..] + [s])
  }

  /** Pushes every sample of `ss`, in order. */
  function PushAll(b: Buffer, ss: seq<Sample>): (r: Buffer)
    requires Bounded(b)
    ensures Bounded(r) && r.capacity == b.capacity
    decreases |ss|
  {
    if |ss| == 0 then b
    else PushBack(PushAll(b, ss[..|ss| - 1]), ss[|ss| - 1])
  }

  lemma NewestOfNewest<T>(c: nat, y: seq<T>, x: T)
    ensures Newest(c, Newest(c, y) + [x]) == Newest(c, y + [x])
  {
    var a := Newest(c, y) + [x];
    var b := y + [x];
    assert |Newest(c, a)| == |Newest(c, b)|;
    forall i | 0 <= i < |Newest(c, a)|
      ensures Newest(c, a)[i] == Newest(c, b)[i]
    {
    }
  }

  /** Pushing any sequence of samples leaves exactly the newest `capacity` of
      everything pushed so far, oldest first: eviction is first-in first-out. */
  lemma {:induction false} PushAllKeepsNewest(b: Buffer, ss: seq<Sample>)
    requires Bounded(b)
    ensures PushAll(b, ss).samples == Newest(b.capacity, b.samples + ss)
    decreases |ss|
  {
    if |ss| == 0 {
      assert b.samples + ss == b.samples;
    } else {
      var init := ss[..|ss| - 1];
      var x := ss[|ss| - 1];
      PushAllKeepsNewest(b, init);
      NewestOfNewest(b.capacity, b.samples + init, x);
      assert b.samples + ss == (b.samples + init) + [x];
    }
  }

  /** Sample timestamps strictly increase from the oldest to the newest. */
  ghost predicate StrictlyIncreasing(s: seq<Sample>) {
    forall i, j :: 0 <= i < j < |s| ==> s[i].ts < s[j].ts
  }

  /** Dropping the oldest samples keeps timestamps strictly increasing. */
  lemma SuffixKeepsIncreasing(x: seq<Sample>, k: nat)
    requires k <= |x|
    requires StrictlyIncreasing(x)
    ensures StrictlyIncreasing(x[k..])
  {
    var y := x[k..];
    forall i, j | 0 <= i < j < |y|
      ensures y[i].ts < y[j].ts
    {
      assert y[i] == x[k + i] && y[j] == x[k + j];
    }
  }

  /** Pushing a sample newer than every buffered one keeps timestamps strictly increasing. */
  lemma PushBackKeepsIncreasing(b: Buffer, s: Sample)
    requires Bounded(b)
    requires StrictlyIncreasing(b.samples)
    requires |b.samples| > 0 ==> b.samples[|b.samples| - 1].ts < s.ts
    ensures StrictlyIncreasing(PushBack(b, s).samples)
  {
    var all := b.samples + [s];
    forall i, j | 0 <= i < j < |all|
      ensures all[i].ts < all[j].ts
    {
      if j == |all| - 1 && i < |b.samples| - 1 {
        assert b.samples[i].ts < b.samples[|b.samples| - 1].ts;
      }
    }
    SuffixKeepsIncreasing(all, |all| - Min(b.capacity, |all|));
  }

  /** Feeding fixes in strictly increasing time order keeps the whole buffer
      strictly increasing, whatever was evicted on the way. */
  lemma PushAllKeepsIncreasing(b: Buffer, ss: seq<Sample>)
    requires Bounded(b)
    requires StrictlyIncreasing(b.samples + ss)
    ensures StrictlyIncreasing(PushAll(b, ss).samples)
  {
    PushAllKeepsNewest(b, ss);
    var all := b.samples + ss;
    SuffixKeepsIncreasing(all, |all| - Min(b.capacity, |all|));
  }

  /** |t - ts| of the sample at index k: the quantity the scan minimises. */
  function Distance(s: seq<Sample>, t: real, k: int): real
    requires 0 <= k < |s|
  {
    Abs(t - s[k].ts)
  }

  /** Distances strictly grow from index j up to the newest sample. */
  ghost predicate RisingFrom(s: seq<Sample>, t: real, j: int) {
    forall k :: 0 <= j <= k < |s| - 1 ==> Distance(s, t, k) < Distance(s, t, k + 1)
  }

  /** Where a backward scan that stops at the first non-improving step stops:
      every step from the newest sample down to j improved, and the step to
      j - 1 (if any) did not. */
  ghost predicate ScanStop(s: seq<Sample>, t: real, j: int) {
    && 0 <= j < |s|
    && RisingFrom(s, t, j)
    && (j > 0 ==> Distance(s, t, j - 1) >= Distance(s, t, j))
  }

  /** j is the nearest sample to t; among equally near samples it is the newest. */
  ghost predicate IsNearest(s: seq<Sample>, t: real, j: int) {
    && 0 <= j < |s|
    && (forall k :: 0 <= k < |s| ==> Distance(s, t, j) <= Distance(s, t, k))
    && (forall k :: j < k < |s| ==> Distance(s, t, j) < Distance(s, t, k))
  }

  /** The backward scan from index `idx` with best distance so far `distance`,
      returning the index after the stopping point. */
  function ScanBack(s: seq<Sample>, t: real, idx: int, distance: real): (j: int)
    requires -1 <= idx < |s|
    ensures 0 <= j <= idx + 1
    decreases idx + 1
  {
    if idx < 0 then idx + 1
    else if Distance(s, t, idx) >= distance then idx + 1
    else ScanBack(s, t, idx - 1, Distance(s, t, idx))
  }

  /** The scan as the code writes it: starting from the sentinel distance.
      When the newest sample is at least the sentinel away from t, the scan
      stops at once and the index it reads is one past the end. */
  function ScanAsWritten(s: seq<Sample>, t: real): (j: int)
    requires |s| > 0
    ensures 0 <= j <= |s|
    ensures j == |s| <==> Distance(s, t, |s| - 1) >= DistanceSentinel
  {
    ScanBack(s, t, |s| - 1, DistanceSentinel)
  }

  /** The scan with the newest sample always accepted as the first candidate,
      which is what the sentinel stands in for. */
  function NearestIndex(s: seq<Sample>, t: real): (j: int)
    requires |s| > 0
    ensures 0 <= j < |s|
  {
    ScanBack(s, t, |s| - 2, Distance(s, t, |s| - 1))
  }

  lemma {:induction false} ScanBackStops(s: seq<Sample>, t: real, idx: int, distance: real)
    requires -1 <= idx < |s| - 1
    requires distance == Distance(s, t, idx + 1)
    requires RisingFrom(s, t, idx + 1)
    ensures ScanStop(s, t, ScanBack(s, t, idx, distance))
    decreases idx + 1
  {
    if idx >= 0 && Distance(s, t, idx) < distance {
      ScanBackStops(s, t, idx - 1, Distance(s, t, idx));
    }
  }

  /** The corrected scan stops at a stopping point, for any buffer order. */
  lemma NearestIndexStops(s: seq<Sample>, t: real)
    requires |s| > 0
    ensures ScanStop(s, t, NearestIndex(s, t))
  {
    ScanBackStops(s, t, |s| - 2, Distance(s, t, |s| - 1));
  }

  /** A buffer has exactly one stopping point. */
  lemma ScanStopUnique(s: seq<Sample>, t: real, j1: int, j2: int)
    requires ScanStop(s, t, j1) && ScanStop(s, t, j2)
    ensures j1 == j2
  {
  }

  /** With strictly increasing timestamps, the stopping point is the nearest
      sample, ties going to the newer one. */
  lemma ScanStopIsNearest(s: seq<Sample>, t: real, j: int)
    requires StrictlyIncreasing(s)
    requires ScanStop(s, t, j)
    ensures IsNearest(s, t, j)
  {
    forall k | 0 <= k < |s|
      ensures Distance(s, t, j) <= Distance(s, t, k)
      ensures j < k ==> Distance(s, t, j) < Distance(s, t, k)
    {
      if k < j {
        // the step to j - 1 did not improve, so t lies above s[j - 1].ts
        assert Distance(s, t, j - 1) >= Distance(s, t, j);
        assert s[j - 1].ts < s[j].ts;
        assert t > s[j - 1].ts;
        if k < j - 1 {
          assert s[k].ts < s[j - 1].ts;
        }
      } else if j < k {
        // the step from j + 1 to j improved, so t lies below s[j + 1].ts
        assert Distance(s, t, j) < Distance(s, t, j + 1);
        assert s[j].ts < s[j + 1].ts;
        assert t < s[j + 1].ts;
        if j + 1 < k {
          assert s[j + 1].ts < s[k].ts;
        }
      }
    }
  }

  /** With strictly increasing timestamps the corrected scan finds the nearest sample. */
  lemma NearestIndexIsNearest(s: seq<Sample>, t: real)
    requires |s| > 0
    requires StrictlyIncreasing(s)
    ensures IsNearest(s, t, NearestIndex(s, t))
  {
    NearestIndexStops(s, t);
    ScanStopIsNearest(s, t, NearestIndex(s, t));
  }

  /** Whenever the newest sample is closer than the sentinel, the scan as
      written and the corrected scan stop at the same index. */
  lemma AsWrittenAgreesBelowSentinel(s: seq<Sample>, t: real)
    requires |s| > 0
    requires Distance(s, t, |s| - 1) < DistanceSentinel
    ensures ScanAsWritten(s, t) == NearestIndex(s, t)
  {
  }

  /** A buffer spanning more than the sentinel passes both range checks and
      still sends the scan as written one past the end. */
  lemma SentinelOverrun()
    ensures var g := Gps(0.0, Vec3(0.0, 0.0, 0.0));
            var s := [Sample(0.0, g), Sample(2000000000.0, g)];
            && s[0].ts - LookupTolerance <= 0.0 <= s[1].ts + LookupTolerance
            && ScanAsWritten(s, 0.0) == |s|
  {
  }

  /** With two equal neighbouring timestamps the scan stops early and misses
      a strictly nearer, older sample. */
  lemma EqualTimestampsMissNearest()
    ensures var g := Gps(0.0, Vec3(0.0, 0.0, 0.0));
            var s := [Sample(0.0, g), Sample(5.0, g), Sample(5.0, g)];
            && NearestIndex(s, 0.0) == 2
            && Distance(s, 0.0, 0) < Distance(s, 0.0, 2)
  {
  }

  /** The backward scan as a loop: starts at the newest sample and walks
      towards the oldest while the distance strictly improves. */
  method FindNearest(s: seq<Sample>, t: real) returns (j: nat)
    requires |s| > 0
    ensures ScanStop(s, t, j)
    ensures j == NearestIndex(s, t)
    ensures StrictlyIncreasing(s) ==> IsNearest(s, t, j)
  {
    var distance := Distance(s, t, |s| - 1);
    var idx := |s| - 2;
    while idx >= 0
      invariant -1 <= idx < |s| - 1
      invariant distance == Distance(s, t, idx + 1)
      invariant RisingFrom(s, t, idx + 1)
      decreases idx + 1
    {
      var d := Distance(s, t, idx);
      if d >= distance {
        break;
      }
      distance := d;
      idx := idx - 1;
    }
    j := idx + 1;
    NearestIndexStops(s, t);
    ScanStopUnique(s, t, j, NearestIndex(s, t));
    if StrictlyIncreasing(s) {
      ScanStopIsNearest(s, t, j);
    }
  }

  /** `GetCarLinearSpeed`: the linear velocity of the GPS fix nearest to t,
      refused when the buffer is empty or t lies more than the tolerance
      before the oldest or after the newest fix. */
  function CarLinearSpeed(s: seq<Sample>, t: real): (r: Result<Vec3, SpeedError>)
    ensures r.Success? <==> |s| > 0 && s[0].ts - LookupTolerance <= t <= s[|s| - 1].ts + LookupTolerance
    ensures r == Failure(EmptyBuffer) <==> |s| == 0
    ensures r == Failure(TooOld) <==> |s| > 0 && t < s[0].ts - LookupTolerance
    ensures r == Failure(TooNew) <==>
              |s| > 0 && s[0].ts - LookupTolerance <= t && s[|s| - 1].ts + LookupTolerance < t
  {
    if |s| == 0 then Failure(EmptyBuffer)
    else if s[0].ts - LookupTolerance > t then Failure(TooOld)
    else if s[|s| - 1].ts + LookupTolerance < t then Failure(TooNew)
    else Success(s[NearestIndex(s, t)].gps.linearVelocity)
  }

  /** IsNearest names at most one sample. */
  lemma IsNearestUnique(s: seq<Sample>, t: real, j1: int, j2: int)
    requires IsNearest(s, t, j1) && IsNearest(s, t, j2)
    ensures j1 == j2
  {
    // each is at least as near as the other, so neither can be older than the other
    assert Distance(s, t, j1) == Distance(s, t, j2);
  }

  /** On a strictly increasing buffer a successful lookup returns the velocity
      of the nearest fix (the newest one among equally near fixes). */
  lemma CarLinearSpeedIsNearest(s: seq<Sample>, t: real, j: int)
    requires StrictlyIncreasing(s)
    requires CarLinearSpeed(s, t).Success?
    requires IsNearest(s, t, j)
    ensures CarLinearSpeed(s, t).value == s[j].gps.linearVelocity
  {
    NearestIndexIsNearest(s, t);
    IsNearestUnique(s, t, j, NearestIndex(s, t));
  }

}
