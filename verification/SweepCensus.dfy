/**
 Which census indices a scheduled run attacks, decided by the date alone (tools/sweep_census.py).

 Dates are proleptic ordinals. A run is a seven-day bucket of them, and run `r` takes the `size`
 positions from `r * size` on along an endless walk round the census.
 */
module SweepCensus {
  import opened PyText

  type Ordinal = nat

  /** `run_index`. */
  function RunIndex(on: Ordinal): nat {
    on / 7
  }

  /** `_position`: where on the endless walk slot `offset` of this run falls. */
  function Position(on: Ordinal, offset: nat, size: nat): nat {
    RunIndex(on) * size + offset
  }

  datatype Slot = Slot(path: string, index: nat, lap: nat)

  datatype SweepError = EmptyCensus | EmptyBlock

  /** The census index of a position: where it falls on a circle of `len`. */
  function IndexAt(p: nat, len: nat): (i: nat)
    requires len > 0
    ensures i < len
  {
    p % len
  }

  /** How many times the walk has been round before a position. */
  function LapAt(p: nat, len: nat): nat
    requires len > 0
  {
    p / len
  }

  /** The slot at position `p` of the walk round `files`. */
  function SlotAt(files: seq<string>, p: nat): Slot
    requires files != []
  {
    Slot(files[IndexAt(p, |files|)], IndexAt(p, |files|), LapAt(p, |files|))
  }

  /** `rotation`: the census re-ordered to open at this run's block. */
  function Rotation(files: seq<string>, on: Ordinal, size: nat): Result<seq<string>, SweepError> {
    if files == [] then Err(EmptyCensus)
    else
      var start := IndexAt(Position(on, 0, size), |files|);
      Ok(files[start..] + files[..start])
  }

  /** `block`: the slots this run consumes are those of its positions, in order. */
  method Block(files: seq<string>, on: Ordinal, size: int) returns (r: Result<seq<Slot>, SweepError>)
    ensures r.Err? <==> files == [] || size <= 0
    ensures r.Ok? ==> |r.value| == size
    ensures r.Ok? ==> forall k :: 0 <= k < size ==> r.value[k] == SlotAt(files, Position(on, k, size))
  {
    if files == [] {
      return Err(EmptyCensus);
    }
    if size <= 0 {
      return Err(EmptyBlock);
    }
    var slots: seq<Slot> := [];
    for offset := 0 to size
      invariant |slots| == offset
      invariant forall k :: 0 <= k < offset ==> slots[k] == SlotAt(files, Position(on, k, size))
    {
      var position := Position(on, offset, size);
      var index := position % |files|;
      slots := slots + [Slot(files[index], index, position / |files|)];
    }
    return Ok(slots);
  }

  // -- Arithmetic on the circle ------------------------------------------------------------------

  lemma {:induction false} NotNegative(k: nat, len: nat)
    ensures k * len >= 0
  {
    if k > 0 {
      NotNegative(k - 1, len);
      assert k * len == (k - 1) * len + len;
    }
  }

  lemma MulGap(a: int, b: int, len: nat)
    requires a < b
    ensures a * len + len <= b * len
  {
    NotNegative(b - a - 1, len);
    assert b * len - a * len - len == (b - a - 1) * len;
  }

  /** A position has one lap and one index. */
  lemma Place(p: nat, len: nat, lap: nat, index: nat)
    requires index < len && p == lap * len + index
    ensures IndexAt(p, len) == index && LapAt(p, len) == lap
  {
    WellPlaced(p, len);
    var l, i := LapAt(p, len), IndexAt(p, len);
    hide *;
    if l < lap {
      MulGap(l, lap, len);
    } else if lap < l {
      MulGap(lap, l, len);
    }
  }

  lemma WellPlaced(p: nat, len: nat)
    requires len > 0
    ensures p == LapAt(p, len) * len + IndexAt(p, len)
  {
  }

  /** Whole laps change the lap and not the index. */
  lemma LapsVanish(p: nat, laps: nat, len: nat)
    requires len > 0
    ensures IndexAt(p + laps * len, len) == IndexAt(p, len)
    ensures LapAt(p + laps * len, len) == LapAt(p, len) + laps
  {
    WellPlaced(p, len);
    var l, i := LapAt(p, len), IndexAt(p, len);
    hide *;
    assert (l + laps) * len == l * len + laps * len;
    Place(p + laps * len, len, l + laps, i);
  }

  /** Stepping `d < len` places round the circle. */
  lemma StepRound(p: nat, d: nat, len: nat)
    requires len > 0 && d < len
    ensures IndexAt(p + d, len)
            == if IndexAt(p, len) + d < len then IndexAt(p, len) + d else IndexAt(p, len) + d - len
  {
    WellPlaced(p, len);
    var l, i := LapAt(p, len), IndexAt(p, len);
    hide *;
    if i + d < len {
      Place(p + d, len, l, i + d);
    } else {
      assert (l + 1) * len == l * len + len;
      Place(p + d, len, l + 1, i + d - len);
    }
  }

  // -- Visits ------------------------------------------------------------------------------------

  /** How many of the positions `from .. from + n` fall on census index `i`. */
  function Visits(len: nat, i: nat, from: nat, n: nat): nat
    requires len > 0
  {
    if n == 0 then 0 else Visits(len, i, from, n - 1) + (if IndexAt(from + n - 1, len) == i then 1 else 0)
  }

  lemma {:induction false} VisitsAppend(len: nat, i: nat, from: nat, m: nat, n: nat)
    requires len > 0
    ensures Visits(len, i, from, m + n) == Visits(len, i, from, m) + Visits(len, i, from + m, n)
  {
    hide IndexAt;
    if n > 0 {
      VisitsAppend(len, i, from, m, n - 1);
      assert from + (m + n) - 1 == (from + m) + n - 1;
    }
  }

  /** Fewer than a lap: an index is visited once when the window reaches it, otherwise not at all. */
  lemma {:induction false} VisitsWithinLap(len: nat, i: nat, from: nat, n: nat)
    requires len > 0 && i < len && n <= len
    ensures var d := if IndexAt(from, len) <= i then i - IndexAt(from, len) else i + len - IndexAt(from, len);
            Visits(len, i, from, n) == if d < n then 1 else 0
  {
    hide IndexAt;
    if n > 0 {
      VisitsWithinLap(len, i, from, n - 1);
      StepRound(from, n - 1, len);
      assert from + (n - 1) == from + n - 1;
    }
  }

  /** `laps` whole laps visit every index `laps` times. */
  lemma {:induction false} VisitsInLaps(len: nat, i: nat, from: nat, laps: nat)
    requires len > 0 && i < len
    ensures Visits(len, i, from, laps * len) == laps
  {
    hide IndexAt;
    if laps > 0 {
      VisitsInLaps(len, i, from, laps - 1);
      assert laps * len == (laps - 1) * len + len;
      VisitsAppend(len, i, from, (laps - 1) * len, len);
      VisitsWithinLap(len, i, from + (laps - 1) * len, len);
    }
  }

  /** `n` consecutive positions visit an index as many times as they make laps, or once more. */
  lemma VisitsEvenly(len: nat, i: nat, from: nat, n: nat)
    requires len > 0 && i < len
    ensures LapAt(n, len) <= Visits(len, i, from, n) <= LapAt(n, len) + 1
  {
    WellPlaced(n, len);
    var laps, rest := LapAt(n, len), IndexAt(n, len);
    hide *;
    VisitsInLaps(len, i, from, laps);
    VisitsAppend(len, i, from, laps * len, rest);
    VisitsWithinLap(len, i, from + laps * len, rest);
  }

  /** Visits to all indices below `upTo`. */
  function TotalVisits(len: nat, upTo: nat, from: nat, n: nat): nat
    requires len > 0
  {
    if upTo == 0 then 0 else TotalVisits(len, upTo - 1, from, n) + Visits(len, upTo - 1, from, n)
  }

  /** A position visits exactly one index below `upTo`, if it falls below it at all. */
  lemma {:induction false} TotalOfOneMore(len: nat, upTo: nat, from: nat, n: nat)
    requires 0 < len && upTo <= len
    ensures TotalVisits(len, upTo, from, n + 1)
            == TotalVisits(len, upTo, from, n) + (if IndexAt(from + n, len) < upTo then 1 else 0)
  {
    hide IndexAt;
    if upTo > 0 {
      TotalOfOneMore(len, upTo - 1, from, n);
      assert from + (n + 1) - 1 == from + n;
    }
  }

  lemma {:induction false} NoVisitsYet(len: nat, upTo: nat, from: nat)
    requires len > 0
    ensures TotalVisits(len, upTo, from, 0) == 0
  {
    if upTo > 0 {
      NoVisitsYet(len, upTo - 1, from);
    }
  }

  lemma {:induction false} TotalIsWindow(len: nat, from: nat, n: nat)
    requires len > 0
    ensures TotalVisits(len, len, from, n) == n
  {
    if n == 0 {
      NoVisitsYet(len, len, from);
    } else {
      hide IndexAt, TotalVisits;
      TotalIsWindow(len, from, n - 1);
      TotalOfOneMore(len, len, from, n - 1);
    }
  }

  /** `ceil(len / size)`. */
  function RunsToCover(len: nat, size: nat): nat
    requires size > 0
  {
    (len + size - 1) / size
  }

  lemma CeilingBounds(len: nat, size: nat)
    requires size > 0
    ensures len <= RunsToCover(len, size) * size < len + size
  {
    WellPlaced(len + size - 1, size);
  }

  /** The slots of runs `r .. r + runs` are the `runs * size` consecutive positions from `r * size`. */
  lemma RunsAreConsecutive(r: nat, runs: nat, k: nat, offset: nat, size: nat, on: Ordinal)
    requires k < runs && offset < size && RunIndex(on) == r + k
    ensures r * size <= Position(on, offset, size) < r * size + runs * size
    ensures Position(on, offset, size) == r * size + (k * size + offset)
  {
    assert (r + k) * size == r * size + k * size;
    MulGap(k, runs, size);
  }

  lemma LapsInWindow(len: nat, window: nat)
    requires 0 < len <= window
    ensures LapAt(window, len) >= 1
  {
    WellPlaced(window, len);
  }

  /**
   Cover: whatever the census and block sizes, any `ceil(len / size)` consecutive runs visit every
   index, visit counts of two indices differ by at most one, and the surplus over one visit each is
   `ceil(len / size) * size - len`, less than a block.
   */
  lemma Cover(len: nat, size: nat, r: nat, i: nat, j: nat)
    requires len > 0 && size > 0 && i < len && j < len
    ensures var window := RunsToCover(len, size) * size;
            && Visits(len, i, r * size, window) >= 1
            && -1 <= Visits(len, i, r * size, window) - Visits(len, j, r * size, window) <= 1
            && TotalVisits(len, len, r * size, window) == window
            && len <= window < len + size
  {
    CeilingBounds(len, size);
    var window, from := RunsToCover(len, size) * size, r * size;
    hide *;
    LapsInWindow(len, window);
    VisitsEvenly(len, i, from, window);
    VisitsEvenly(len, j, from, window);
    TotalIsWindow(len, from, window);
  }

  /** A visit counted is a visit made. */
  lemma {:induction false} VisitWitness(len: nat, i: nat, from: nat, n: nat) returns (d: nat)
    requires len > 0 && Visits(len, i, from, n) >= 1
    ensures d < n && IndexAt(from + d, len) == i
  {
    hide IndexAt;
    if IndexAt(from + n - 1, len) == i {
      d := n - 1;
      assert from + n - 1 == from + d;
    } else {
      d := VisitWitness(len, i, from, n - 1);
    }
  }

  lemma RunOfPosition(d: nat, runs: nat, size: nat) returns (k: nat, offset: nat)
    requires size > 0 && d < runs * size
    ensures k < runs && offset < size && d == k * size + offset
  {
    WellPlaced(d, size);
    k, offset := LapAt(d, size), IndexAt(d, size);
    hide *;
    assert (runs - 1) * size + size == runs * size;
    if k >= runs {
      MulGap(runs - 1, k, size);
    }
  }

  /** So every file of a fixed census is a slot of some run of any such window. */
  lemma EveryFileAttacked(files: seq<string>, size: nat, r: nat, i: nat) returns (k: nat, offset: nat)
    requires i < |files| && size > 0
    ensures k < RunsToCover(|files|, size) && offset < size
    ensures forall on :: RunIndex(on) == r + k ==> SlotAt(files, Position(on, offset, size)).path == files[i]
  {
    hide IndexAt, LapAt, RunsToCover, RunIndex, Position;
    var len, runs := |files|, RunsToCover(|files|, size);
    Cover(len, size, r, i, i);
    var d := VisitWitness(len, i, r * size, runs * size);
    k, offset := RunOfPosition(d, runs, size);
    forall on | RunIndex(on) == r + k
      ensures SlotAt(files, Position(on, offset, size)).path == files[i]
    {
      RunsAreConsecutive(r, runs, k, offset, size, on);
    }
  }

  // -- Rotation ----------------------------------------------------------------------------------

  /**
   The paths of a block are those of the rotation, started again when the block is longer than the
   census; so for `size <= len` they are exactly its head.
   */
  lemma BlockFollowsRotation(files: seq<string>, on: Ordinal, size: nat, k: nat)
    requires files != [] && k < size
    ensures Rotation(files, on, size).Ok? && |Rotation(files, on, size).value| == |files|
    ensures SlotAt(files, Position(on, k, size)).path == Rotation(files, on, size).value[IndexAt(k, |files|)]
    ensures k < |files| ==> IndexAt(k, |files|) == k
  {
    var len, first := |files|, Position(on, 0, size);
    assert Position(on, k, size) == first + k;
    WellPlaced(k, len);
    var laps, d := LapAt(k, len), IndexAt(k, len);
    if k < len {
      Place(k, len, 0, k);
    }
    hide IndexAt, LapAt, Position, RunIndex;
    StepRound(first, d, len);
    LapsVanish(first + d, laps, len);
  }

  /** Every date of one seven-day bucket is the same run, and a week later is the next run. */
  lemma OneRunAWeek(on: Ordinal, later: Ordinal)
    requires on <= later
    ensures RunIndex(on) == RunIndex(later) <==> later - on < 7 && IndexAt(on, 7) <= IndexAt(later, 7)
    ensures RunIndex(on + 7) == RunIndex(on) + 1
  {
  }

  // -- Laps --------------------------------------------------------------------------------------

  /** `q` is the next visit to the index `p` visits. */
  ghost predicate NextVisit(len: nat, p: nat, q: nat)
    requires len > 0
  {
    p < q && IndexAt(q, len) == IndexAt(p, len)
    && forall x :: p < x < q ==> IndexAt(x, len) != IndexAt(p, len)
  }

  /** Two consecutive visits to one index are one lap apart, whatever the block size. */
  lemma ConsecutiveVisits(len: nat, p: nat, q: nat)
    requires len > 0
    ensures NextVisit(len, p, q) <==> q == p + len
    ensures LapAt(p + len, len) == LapAt(p, len) + 1
  {
    hide IndexAt, LapAt;
    LapsVanish(p, 1, len);
    assert 1 * len == len;
    forall x | p < x < p + len
      ensures IndexAt(x, len) != IndexAt(p, len)
    {
      StepRound(p, x - p, len);
    }
  }

  /** The slot of the `v`-th visit, counted from position `p`, to the file `p` visits. */
  function VisitSlot(files: seq<string>, p: nat, v: nat): Slot
    requires files != []
  {
    SlotAt(files, p + v * |files|)
  }

  lemma VisitSlotLap(files: seq<string>, p: nat, v: nat)
    requires files != []
    ensures VisitSlot(files, p, v).path == SlotAt(files, p).path
    ensures VisitSlot(files, p, v).index == SlotAt(files, p).index
    ensures VisitSlot(files, p, v).lap == SlotAt(files, p).lap + v
  {
    LapsVanish(p, v, |files|);
  }

  /** The laps of any `n` consecutive visits to a file fall on each index below `n` exactly once. */
  lemma EachIndexOnce(files: seq<string>, p: nat, n: nat, c: nat) returns (v: nat)
    requires files != [] && c < n
    ensures v < n && IndexAt(VisitSlot(files, p, v).lap, n) == c
    ensures forall w :: 0 <= w < n && IndexAt(VisitSlot(files, p, w).lap, n) == c ==> w == v
  {
    hide IndexAt, LapAt, VisitSlot;
    var lap := SlotAt(files, p).lap;
    v := if IndexAt(lap, n) <= c then c - IndexAt(lap, n) else c + n - IndexAt(lap, n);
    VisitSlotLap(files, p, v);
    StepRound(lap, v, n);
    forall w | 0 <= w < n && IndexAt(VisitSlot(files, p, w).lap, n) == c
      ensures w == v
    {
      VisitSlotLap(files, p, w);
      StepRound(lap, w, n);
    }
  }
}
