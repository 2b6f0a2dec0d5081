/**
  The search for a block of consecutive nginx ports
  (`find_next_port` and `get_available_ports` of src/hoprd/hoprd_ingress.rs).
  Arithmetic on ports is 16 bits wide and wraps, as in a release build.
 */
module PortSearch {
  import opened Wrappers
  import opened Ordering
  import Text

  predicate IsU16(n: int) {
    0 <= n < 0x1_0000
  }

  function Wrap(n: int): int {
    n % 0x1_0000
  }

  /** The search over the sorted used ports, as the source's branches define it. */
  function FirstFit(ports: seq<int>, k: int, min: int): int {
    if ports == [] then min
    else if Wrap(ports[0] - min) >= k && ports[0] > min then Wrap(ports[0] - k)
    else ScanFrom(ports, k, 1)
  }

  function ScanFrom(ports: seq<int>, k: int, i: nat): int
    requires 1 <= i <= |ports|
    decreases |ports| - i
  {
    if i == |ports| then Wrap(ports[|ports| - 1] + 1)
    else if Wrap(ports[i] - ports[i - 1] - 1) >= k && k > 0 then Wrap(ports[i - 1] + 1)
    else ScanFrom(ports, k, i + 1)
  }

  method FindNextPort(ports: seq<int>, k: int, min: int) returns (port: int)
    ensures port == FirstFit(ports, k, min)
  {
    if ports == [] {
      return min;
    }
    if Wrap(ports[0] - min) >= k {
      if ports[0] > min {
        return Wrap(ports[0] - k);
      }
    }
    for i := 1 to |ports|
      invariant ScanFrom(ports, k, 1) == ScanFrom(ports, k, i)
    {
      if Wrap(ports[i] - ports[i - 1] - 1) >= k && k > 0 {
        return Wrap(ports[i - 1] + 1);
      }
    }
    return Wrap(ports[|ports| - 1] + 1);
  }

  /* What a search result means. */

  /** No used port lies in the block of `k` ports that begins at `start`. */
  predicate Free(ports: seq<int>, start: int, k: int) {
    forall i :: 0 <= i < |ports| ==> !(start <= ports[i] < start + k)
  }

  /** `start` begins a free block of `k` ports inside [min, max). */
  predicate FreeBlock(ports: seq<int>, start: int, k: int, min: int, max: int) {
    min <= start && start + k <= max && Free(ports, start, k)
  }

  predicate Within(ports: seq<int>, min: int, max: int) {
    forall i :: 0 <= i < |ports| ==> min <= ports[i] <= max
  }

  predicate AllU16(ports: seq<int>) {
    forall i :: 0 <= i < |ports| ==> IsU16(ports[i])
  }

  /** The used port at `l` follows its predecessor with fewer than `k` ports in between. */
  predicate Close(ports: seq<int>, k: int, l: nat)
    requires 1 <= l < |ports|
  {
    ports[l - 1] < ports[l] <= ports[l - 1] + k
  }

  predicate Packed(ports: seq<int>, k: int, from: nat, to: nat) {
    forall l :: 1 <= from <= l < to <= |ports| ==> Close(ports, k, l)
  }

  /** The loop stops at the first gap of `k` ports or repeated port, or behind the last used port. */
  lemma {:induction false} ScanStops(ports: seq<int>, k: int, i: nat) returns (j: nat)
    requires Sorted(ports) && AllU16(ports) && 0 < k < 0x1_0000 && 1 <= i <= |ports|
    ensures i <= j <= |ports| && Packed(ports, k, i, j)
    ensures j < |ports| ==> ports[j] > ports[j - 1] + k || ports[j] == ports[j - 1]
    ensures ScanFrom(ports, k, i) == Wrap(ports[j - 1] + 1)
    decreases |ports| - i
  {
    j := i;
    if i < |ports| {
      assert ports[i - 1] <= ports[i];
      if Close(ports, k, i) {
        j := ScanStops(ports, k, i + 1);
        PackedFurther(ports, k, i, j);
      }
    }
  }

  lemma PackedFurther(ports: seq<int>, k: int, i: nat, j: nat)
    requires 1 <= i < j <= |ports| && Close(ports, k, i) && Packed(ports, k, i + 1, j)
    ensures Packed(ports, k, i, j)
  {
  }

  /** Packed ports leave no room for a block that begins between them. */
  lemma {:induction false} NoRoom(ports: seq<int>, k: int, j: nat, start: int)
    requires Sorted(ports) && 1 <= j <= |ports| && Packed(ports, k, 1, j)
    requires ports[0] - k < start <= ports[j - 1]
    ensures !Free(ports, start, k)
    decreases j
  {
    if start <= ports[0] {
      assert start <= ports[0] < start + k;
    } else if j > 1 {
      if start <= ports[j - 2] {
        NoRoom(ports, k, j - 1, start);
      } else {
        assert Close(ports, k, j - 1);
        assert start <= ports[j - 1] < start + k;
      }
    }
  }

  lemma FreeAfter(ports: seq<int>, j: nat, k: int)
    requires Sorted(ports) && 1 <= j <= |ports| && (j < |ports| ==> ports[j] > ports[j - 1] + k)
    ensures Free(ports, ports[j - 1] + 1, k)
  {
    forall i | 0 <= i < |ports| ensures ports[i] <= ports[j - 1] || ports[i] > ports[j - 1] + k {
      if j < i {
        assert ports[j] <= ports[i];
      }
    }
  }

  /** Where a scan that found no room below the first used port ends: the lowest free block. */
  lemma ScanFindsLowest(ports: seq<int>, k: int) returns (start: int)
    requires StrictlySorted(ports) && AllU16(ports) && 0 < k < 0x1_0000 && ports != []
    ensures ports[0] < start <= ports[|ports| - 1] + 1 && ScanFrom(ports, k, 1) == Wrap(start)
    ensures Free(ports, start, k)
    ensures forall s :: ports[0] - k < s < start ==> !Free(ports, s, k)
  {
    var j := ScanStops(ports, k, 1);
    if j < |ports| {
      assert ports[j - 1] < ports[j];
    }
    start := ports[j - 1] + 1;
    FreeAfter(ports, j, k);
    forall s | ports[0] - k < s < start ensures !Free(ports, s, k) {
      NoRoom(ports, k, j, s);
    }
  }

  /**
    For a scan without repeated ports and a range with room for `k` more ports below 65536,
    the block found is unused and not below `min`, and the search reports success
    (its end does not exceed `max`) exactly when a free block exists at all.
   */
  lemma {:induction false} SearchIsExact(ports: seq<int>, k: int, min: int, max: int)
    requires StrictlySorted(ports) && Within(ports, min, max)
    requires k > 0 && 0 <= min <= max && max + k + 1 < 0x1_0000
    ensures
      var start := FirstFit(ports, k, min);
      && min <= start && Free(ports, start, k)
      && Wrap(start + k) == start + k
      && (Wrap(start + k) <= max <==> exists s :: FreeBlock(ports, s, k, min, max))
  {
    SearchFinds(ports, k, min, max);
    var start := FirstFit(ports, k, min);
    if start + k <= max {
      assert FreeBlock(ports, start, k, min, max);
    }
  }

  /** Where nothing wraps, the search takes the space below the first used port or scans. */
  lemma FirstFitCases(ports: seq<int>, k: int, min: int, max: int)
    requires Within(ports, min, max) && 0 < k && 0 <= min <= max && max + k + 1 < 0x1_0000
    ensures FirstFit(ports, k, min) ==
            if ports == [] then min else if ports[0] - min >= k then ports[0] - k else ScanFrom(ports, k, 1)
  {
    if ports != [] {
      assert Wrap(ports[0] - min) == ports[0] - min;
      assert ports[0] - min >= k ==> Wrap(ports[0] - k) == ports[0] - k;
    }
  }

  /** The block found is free, and no free block in the range ends while it does not. */
  lemma {:induction false} SearchFinds(ports: seq<int>, k: int, min: int, max: int)
    requires StrictlySorted(ports) && Within(ports, min, max)
    requires k > 0 && 0 <= min <= max && max + k + 1 < 0x1_0000
    ensures
      var start := FirstFit(ports, k, min);
      && min <= start && Free(ports, start, k) && Wrap(start + k) == start + k
      && (forall s :: FreeBlock(ports, s, k, min, max) ==> start + k <= max)
  {
    FirstFitCases(ports, k, min, max);
    if ports == [] {
    } else if ports[0] - min < k {
      SearchScans(ports, k, min, max);
    } else {
      assert forall i :: 0 <= i < |ports| ==> ports[0] <= ports[i];
    }
  }

  lemma {:induction false} SearchScans(ports: seq<int>, k: int, min: int, max: int)
    requires StrictlySorted(ports) && Within(ports, min, max) && ports != [] && ports[0] - min < k
    requires k > 0 && 0 <= min <= max && max + k + 1 < 0x1_0000
    ensures
      var start := ScanFrom(ports, k, 1);
      && min <= start && Free(ports, start, k) && Wrap(start + k) == start + k
      && (forall s :: FreeBlock(ports, s, k, min, max) ==> start + k <= max)
  {
    var lowest := ScanFindsLowest(ports, k);
    assert Wrap(lowest) == lowest;
  }

  /** Unless the block fits below the first used port, the lowest free block is taken. */
  lemma {:induction false} SearchIsFirstFit(ports: seq<int>, k: int, min: int, max: int, s: int)
    requires StrictlySorted(ports) && Within(ports, min, max)
    requires k > 0 && 0 <= min <= max && max + k + 1 < 0x1_0000
    requires ports != [] ==> ports[0] - min < k
    requires min <= s && Free(ports, s, k)
    ensures FirstFit(ports, k, min) <= s
  {
    FirstFitCases(ports, k, min, max);
    if ports != [] {
      var lowest := ScanFindsLowest(ports, k);
      assert Wrap(lowest) == lowest;
    }
  }

  lemma {:induction false} FitIsNatural(ports: seq<int>, k: int, min: int)
    requires 0 <= min
    ensures FirstFit(ports, k, min) >= 0
  {
    if ports != [] {
      ScanIsNatural(ports, k, 1);
    }
  }

  lemma {:induction false} ScanIsNatural(ports: seq<int>, k: int, i: nat)
    requires 1 <= i <= |ports|
    ensures ScanFrom(ports, k, i) >= 0
    decreases |ports| - i
  {
    if i < |ports| {
      ScanIsNatural(ports, k, i + 1);
    }
  }

  /** A block that fits below the first used port is placed right below it. */
  lemma SpaceBelowIsTaken(ports: seq<int>, k: int, min: int, max: int)
    requires Within(ports, min, max) && 0 < k && 0 <= min <= max && max + k + 1 < 0x1_0000
    requires ports != [] && min + k <= ports[0]
    ensures FirstFit(ports, k, min) + k == ports[0]
  {
    FirstFitCases(ports, k, min, max);
  }

  /**
    An allocation of no ports starts at `min`, at the first used port when that lies above `min`,
    or behind the last used port.
   */
  lemma EmptyAllocation(ports: seq<int>, min: int)
    ensures FirstFit(ports, 0, min) ==
            if ports == [] then min
            else if ports[0] > min then ports[0] % 0x1_0000
            else (ports[|ports| - 1] + 1) % 0x1_0000
  {
    if ports != [] {
      ScanOfNothing(ports, 1);
    }
  }

  lemma {:induction false} ScanOfNothing(ports: seq<int>, i: nat)
    requires 1 <= i <= |ports|
    ensures ScanFrom(ports, 0, i) == Wrap(ports[|ports| - 1] + 1)
    decreases |ports| - i
  {
    if i < |ports| {
      ScanOfNothing(ports, i + 1);
    }
  }

  /** The first repeated port is met before any gap, and another used port follows it closely. */
  ghost predicate TripsOnRepeat(ports: seq<int>, k: int, min: int) {
    && ports != [] && ports[0] - min < k
    && exists i, t :: TripsAt(ports, k, i, t)
  }

  predicate TripsAt(ports: seq<int>, k: int, i: int, t: int) {
    && 1 <= i < t < |ports| && Packed(ports, k, 1, i)
    && ports[i] == ports[i - 1] && ports[i] < ports[t] <= ports[i] + k
  }

  lemma StopIsUnique(ports: seq<int>, k: int, j: nat, i: nat)
    requires Sorted(ports) && 1 <= j <= |ports| && 1 <= i < |ports|
    requires Packed(ports, k, 1, i) && ports[i] == ports[i - 1]
    requires Packed(ports, k, 1, j) && (j < |ports| ==> !Close(ports, k, j))
    ensures i == j
  {
    assert !Close(ports, k, i);
  }

  lemma FreeAfterRepeat(ports: seq<int>, k: int, j: nat)
    requires Sorted(ports) && 1 <= j < |ports| && Packed(ports, k, 1, j) && ports[j] == ports[j - 1]
    requires forall t :: !TripsAt(ports, k, j, t)
    ensures Free(ports, ports[j] + 1, k)
  {
    forall t | 0 <= t < |ports| ensures ports[t] <= ports[j] || ports[t] > ports[j] + k {
      assert !TripsAt(ports, k, j, t);
    }
  }

  lemma TrippedBlockIsUsed(ports: seq<int>, k: int, min: int, max: int, i: int, t: int)
    requires Sorted(ports) && Within(ports, min, max) && TripsAt(ports, k, i, t) && ports[0] - min < k
    requires k > 0 && 0 <= min <= max && max + k + 1 < 0x1_0000
    ensures !Free(ports, FirstFit(ports, k, min), k)
  {
    var j := ScanStops(ports, k, 1);
    StopIsUnique(ports, k, j, i);
    var start := FirstFit(ports, k, min);
    assert start == ports[i] + 1;
    assert start <= ports[t] < start + k;
  }

  lemma OtherBlockIsFree(ports: seq<int>, k: int, min: int, max: int)
    requires Sorted(ports) && Within(ports, min, max) && ports != [] && ports[0] - min < k
    requires forall i, t :: !TripsAt(ports, k, i, t)
    requires k > 0 && 0 <= min <= max && max + k + 1 < 0x1_0000
    ensures Free(ports, FirstFit(ports, k, min), k)
  {
    var j := ScanStops(ports, k, 1);
    assert FirstFit(ports, k, min) == ports[j - 1] + 1;
    if j < |ports| && ports[j] == ports[j - 1] {
      FreeAfterRepeat(ports, k, j);
    } else {
      FreeAfter(ports, j, k);
    }
  }

  /**
    With repeated ports (keys such as "9000" and "09000"), the subtraction in the scan wraps.
    The block found is unused if and only if the scan does not trip on a repeat.
   */
  lemma RepeatsExact(ports: seq<int>, k: int, min: int, max: int)
    requires Sorted(ports) && Within(ports, min, max)
    requires k > 0 && 0 <= min <= max && max + k + 1 < 0x1_0000
    ensures Free(ports, FirstFit(ports, k, min), k) <==> !TripsOnRepeat(ports, k, min)
  {
    if ports != [] && ports[0] - min < k {
      if i, t :| TripsAt(ports, k, i, t) {
        TrippedBlockIsUsed(ports, k, min, max, i, t);
      } else {
        OtherBlockIsFree(ports, k, min, max);
      }
    }
  }

  /** A scan trips when the first port of the range is repeated and the next one is used. */
  lemma RepeatTrips(p: int, k: int)
    requires 0 <= p && 0 < k && p + 1 < 0x1_0000 && k < 0x1_0000
    ensures TripsOnRepeat([p, p, p + 1], k, p) && FirstFit([p, p, p + 1], k, p) == p + 1
  {
    assert TripsAt([p, p, p + 1], k, 1, 2);
    assert ScanFrom([p, p, p + 1], k, 1) == p + 1;
  }

  /** The used ports min, min + 1, ..., max. */
  function FullRange(min: int, max: int): seq<int>
    requires min <= max
  {
    seq(max - min + 1, i requires 0 <= i <= max - min => min + i)
  }

  lemma {:induction false} FullRangeScan(min: int, max: int, k: int, i: nat)
    requires 0 <= min <= max < 0x1_0000 && 0 < k < 0x1_0000 && 1 <= i <= max - min + 1
    ensures ScanFrom(FullRange(min, max), k, i) == Wrap(max + 1)
    decreases max - min - i
  {
    if i < max - min + 1 {
      FullRangeScan(min, max, k, i + 1);
    }
  }

  /** The end check passes only for blocks that lie in [min, max) and are unused. */
  ghost predicate CheckIsSound(min: int, max: int, k: int) {
    forall ports: seq<int> :: StrictlySorted(ports) && Within(ports, min, max) && Wrap(FirstFit(ports, k, min) + k) <= max
      ==> FreeBlock(ports, FirstFit(ports, k, min), k, min, max)
  }

  /**
    The 16-bit end check of `open_port` is sound for a configured range and an allocation
    if and only if the range leaves room for one more block below 65536.
   */
  lemma EndCheckExact(min: int, max: int, k: int)
    requires 0 < k < 0x1_0000 && 0 <= min <= max < 0x1_0000
    ensures CheckIsSound(min, max, k) <==> max + k + 1 < 0x1_0000
  {
    if max + k + 1 < 0x1_0000 {
      forall ports: seq<int> | StrictlySorted(ports) && Within(ports, min, max) && Wrap(FirstFit(ports, k, min) + k) <= max
        ensures FreeBlock(ports, FirstFit(ports, k, min), k, min, max)
      {
        SearchIsExact(ports, k, min, max);
      }
    } else {
      var ports := FullRange(min, max);
      FullRangeScan(min, max, k, 1);
      assert FirstFit(ports, k, min) == Wrap(max + 1);
      assert StrictlySorted(ports) && Within(ports, min, max);
      assert !FreeBlock(ports, Wrap(max + 1), k, min, max);
    }
  }
}
