/** The wraparound RTP loss tracker of module/cluster/transport_rtp.go. */
module LossTracker {

  const SPACE: nat := 65536
  const WINDOW: nat := 64

  /** The low 16 bits of an unwrapped sequence number, as a packet carries it. */
  function Wire(u: int): nat { u % SPACE }

  /** int16(a - b) on two 16-bit numbers. */
  function Advance(a: nat, b: nat): (d: int)
    requires a < SPACE && b < SPACE
    ensures -32768 <= d < 32768 && (d - (a - b)) % SPACE == 0
  {
    var d := (a - b) % SPACE;
    if d < 32768 then d else d - SPACE
  }

  /** For numbers less than half the space apart the 16-bit difference is exact. */
  lemma AdvanceIsExact(u: int, v: int)
    requires -32768 <= u - v < 32768
    ensures Advance(Wire(u), Wire(v)) == u - v
  {
    var q := u / SPACE - v / SPACE;
    assert Wire(u) - Wire(v) == (u - v) - SPACE * q;
  }

  /** A 64-bit word as its bits, bit k at index k. */
  type Bits = seq<bool>

  function Zeros(n: nat): (r: Bits)
    ensures |r| == n && forall k :: 0 <= k < n ==> !r[k]
  {
    seq(n, _ => false)
  }

  /** (bits << n) | 1 for 0 < n < 64 */
  function ShiftIn(bits: Bits, n: nat): (r: Bits)
    requires 0 < n < WINDOW && |bits| == WINDOW
    ensures |r| == WINDOW
    ensures r[0] && forall k :: 0 < k < WINDOW ==> r[k] == (k >= n && bits[k - n])
  {
    [true] + Zeros(n - 1) + bits[..WINDOW - n]
  }

  /** The word 1 */
  function OnlyNewest(): (r: Bits)
    ensures |r| == WINDOW && r[0] && forall k :: 0 < k < WINDOW ==> !r[k]
  {
    [true] + Zeros(WINDOW - 1)
  }

  datatype Tracker = Fresh | Tracker(highest: nat, expected: nat, received: nat, recent: Bits)
  {
    predicate Valid() { Tracker? ==> highest < SPACE && |recent| == WINDOW }
  }

  /** Observe */
  function Observed(t: Tracker, sequence: nat): (r: Tracker)
    requires sequence < SPACE && t.Valid()
    ensures r.Tracker? && r.Valid()
  {
    if t.Fresh? then Tracker(sequence, 1, 1, OnlyNewest())
    else
      var advance := Advance(sequence, t.highest);
      if advance > 0 then
        Tracker(sequence, t.expected + advance, t.received + 1,
                if advance >= WINDOW then OnlyNewest() else ShiftIn(t.recent, advance))
      else if -advance >= WINDOW || t.recent[-advance] then t
      else t.(recent := t.recent[-advance := true], received := t.received + 1)
  }

  /** Ratio */
  function Ratio(t: Tracker): real {
    if t.Fresh? || t.expected == 0 || t.received >= t.expected then 0.0
    else (t.expected - t.received) as real / t.expected as real
  }

  // ------------------------------------------------------------------
  // Reference: unwrapped arrivals
  // ------------------------------------------------------------------

  function Highest(us: seq<int>): int
    requires us != []
  {
    if |us| == 1 then us[0]
    else var m := Highest(us[..|us| - 1]); if us[|us| - 1] > m then us[|us| - 1] else m
  }

  /** Arrivals stay within half the sequence space of the running maximum. */
  ghost predicate InRange(us: seq<int>) {
    forall i :: 0 < i < |us| ==> -32768 <= us[i] - Highest(us[..i]) < 32768
  }

  /** The i-th arrival is a new maximum or less than one window behind it. */
  predicate Timely(us: seq<int>, i: nat)
    requires i < |us|
  {
    i == 0 || us[i] > Highest(us[..i]) - WINDOW
  }

  /** The numbers that arrived in time at least once. */
  ghost function Counted(us: seq<int>): set<int> {
    set i: nat | i < |us| && Timely(us, i) :: us[i]
  }

  function Fold(us: seq<int>): (t: Tracker)
    ensures t.Valid() && (t.Fresh? <==> us == [])
  {
    if us == [] then Fresh else Observed(Fold(us[..|us| - 1]), Wire(us[|us| - 1]))
  }

  lemma {:induction false} HighestBounds(us: seq<int>, i: nat)
    requires i < |us|
    ensures us[i] <= Highest(us)
  {
    if i < |us| - 1 {
      HighestBounds(us[..|us| - 1], i);
    }
  }

  /** Counting one more arrival. */
  lemma CountedSnoc(us: seq<int>)
    requires us != []
    ensures Counted(us) == Counted(us[..|us| - 1]) + (if Timely(us, |us| - 1) then {us[|us| - 1]} else {})
  {
    var m := us[..|us| - 1];
    forall u | u in Counted(us) ensures u in Counted(m) || (Timely(us, |us| - 1) && u == us[|us| - 1]) {
      var i: nat :| i < |us| && Timely(us, i) && us[i] == u;
      if i < |m| {
        TimelyPrefix(us, i);
        assert m[i] in Counted(m);
      }
    }
    forall u | u in Counted(m) ensures u in Counted(us) {
      var i: nat :| i < |m| && Timely(m, i) && m[i] == u;
      TimelyPrefix(us, i);
      assert us[i] in Counted(us);
    }
  }

  lemma TimelyPrefix(us: seq<int>, i: nat)
    requires i < |us| - 1
    ensures us[..|us| - 1][i] == us[i] && (Timely(us[..|us| - 1], i) <==> Timely(us, i))
  {
    assert us[..|us| - 1][..i] == us[..i];
  }

  lemma CountedBelowHighest(us: seq<int>, u: int)
    requires us != [] && u in Counted(us)
    ensures u <= Highest(us)
  {
    var i: nat :| i < |us| && Timely(us, i) && us[i] == u;
    HighestBounds(us, i);
  }

  /** The tracker agrees with a first and highest number and a set of counted ones. */
  ghost predicate AgreesWith(t: Tracker, first: int, highest: int, counted: set<int>) {
    && t.Tracker? && t.Valid()
    && t.highest == Wire(highest)
    && t.expected == highest - first + 1
    && t.received == |counted|
    && (forall k :: 0 <= k < WINDOW ==> (t.recent[k] <==> highest - k in counted))
  }

  /** The tracker says about the unwrapped arrivals exactly what it should. */
  ghost predicate Agrees(t: Tracker, us: seq<int>)
    requires us != []
  {
    AgreesWith(t, us[0], Highest(us), Counted(us))
  }

  /** A new maximum shifts the window. */
  lemma AdvanceAgrees(t: Tracker, first: int, h: int, counted: set<int>, u: int)
    requires AgreesWith(t, first, h, counted) && (forall v :: v in counted ==> v <= h)
    requires 0 < u - h < 32768
    ensures AgreesWith(Observed(t, Wire(u)), first, u, counted + {u})
  {
    AdvanceIsExact(u, h);
    var r, n := Observed(t, Wire(u)), u - h;
    assert |counted + {u}| == |counted| + 1;
    forall k | 0 <= k < WINDOW ensures r.recent[k] <==> u - k in counted + {u} {
      if k >= n {
        assert u - k == h - (k - n);
      }
    }
  }

  /** A late or repeated number is counted at most once, and only inside the window. */
  lemma LateAgrees(t: Tracker, first: int, h: int, counted: set<int>, u: int)
    requires AgreesWith(t, first, h, counted)
    requires -32768 <= u - h <= 0
    ensures AgreesWith(Observed(t, Wire(u)), first, h, if h - u < WINDOW then counted + {u} else counted)
  {
    AdvanceIsExact(u, h);
    var r, o := Observed(t, Wire(u)), h - u;
    if o < WINDOW {
      if u in counted {
        assert counted + {u} == counted;
      } else {
        forall k | 0 <= k < WINDOW ensures r.recent[k] <==> h - k in counted + {u} {
          assert k == o <==> h - k == u;
        }
      }
    }
  }

  lemma AgreesOne(u: int)
    ensures Agrees(Fold([u]), [u])
  {
    CountedSnoc([u]);
    assert Counted([u]) == {u};
    assert [u][..0] == [];
    assert Fold([u]) == Observed(Fold([]), Wire(u));
  }

  lemma AgreesSnoc(us: seq<int>, t: Tracker)
    requires |us| > 1 && Agrees(t, us[..|us| - 1])
    requires -32768 <= us[|us| - 1] - Highest(us[..|us| - 1]) < 32768
    ensures Agrees(Observed(t, Wire(us[|us| - 1])), us)
  {
    var m, u := us[..|us| - 1], us[|us| - 1];
    var h := Highest(m);
    CountedSnoc(us);
    if u > h {
      forall v | v in Counted(m) ensures v <= h {
        CountedBelowHighest(m, v);
      }
      AdvanceAgrees(t, us[0], h, Counted(m), u);
    } else {
      LateAgrees(t, us[0], h, Counted(m), u);
    }
  }

  /** Main result. However often the 16-bit numbers wrap: expected spans first to
      highest, no number is counted twice, received counts the timely ones, and
      window bit k is set exactly when highest - k was counted. */
  lemma {:induction false} TrackerIsExact(us: seq<int>)
    requires us != [] && InRange(us)
    ensures Agrees(Fold(us), us)
  {
    if |us| == 1 {
      AgreesOne(us[0]);
      assert us == [us[0]];
    } else {
      var m := us[..|us| - 1];
      forall i | 0 < i < |m| ensures -32768 <= m[i] - Highest(m[..i]) < 32768 {
        assert m[..i] == us[..i];
      }
      TrackerIsExact(m);
      AgreesSnoc(us, Fold(m));
    }
  }

  /** Counted numbers lie between one window before the first arrival and the maximum. */
  lemma CountedRange(us: seq<int>, u: int)
    requires us != [] && u in Counted(us)
    ensures us[0] - (WINDOW - 1) <= u <= Highest(us)
  {
    CountedBelowHighest(us, u);
    var i: nat :| i < |us| && Timely(us, i) && us[i] == u;
    if i > 0 {
      HighestBounds(us[..i], 0);
    }
  }

  lemma {:induction false} IntervalSize(s: set<int>, lo: int, hi: int)
    requires forall u :: u in s ==> lo <= u <= hi
    ensures |s| <= if hi >= lo then hi - lo + 1 else 0
    decreases hi - lo
  {
    if hi < lo {
      assert s == {};
    } else {
      IntervalSize(s - {hi}, lo, hi - 1);
      if hi in s {
        assert s == (s - {hi}) + {hi};
      } else {
        assert s == s - {hi};
      }
    }
  }

  /** Early packets can push received past expected by at most 63, and the loss
      ratio always lies in [0, 1). */
  lemma ReceivedIsBounded(us: seq<int>)
    requires us != [] && InRange(us)
    ensures 1 <= Fold(us).received <= Fold(us).expected + (WINDOW - 1)
    ensures 0.0 <= Ratio(Fold(us)) < 1.0
  {
    TrackerIsExact(us);
    forall u | u in Counted(us) ensures us[0] - (WINDOW - 1) <= u <= Highest(us) {
      CountedRange(us, u);
    }
    IntervalSize(Counted(us), us[0] - (WINDOW - 1), Highest(us));
    HighestBounds(us, 0);
    assert us[0] in Counted(us) by {
      assert Timely(us, 0);
    }
    assert |Counted(us)| >= 1 by {
      assert {us[0]} <= Counted(us);
      assert Counted(us) == {us[0]} + (Counted(us) - {us[0]});
    }
    RatioInUnit(Fold(us));
  }

  lemma RatioInUnit(t: Tracker)
    requires t.Fresh? || t.received > 0
    ensures 0.0 <= Ratio(t) < 1.0
  {
  }

  /** The tracker object: five fields updated in place. */
  class SequenceLossTracker {
    var initialized: bool
    var highest: nat
    var expected: nat
    var received: nat
    var recent: Bits

    ghost predicate Valid()
      reads this
    {
      highest < SPACE && |recent| == WINDOW
    }

    function View(): (t: Tracker)
      reads this
      requires Valid()
      ensures t.Valid()
    {
      if initialized then Tracker(highest, expected, received, recent) else Fresh
    }

    constructor ()
      ensures Valid() && View() == Fresh
    {
      initialized, highest, expected, received, recent := false, 0, 0, 0, OnlyNewest();
    }

    method Observe(sequence: nat)
      requires Valid() && sequence < SPACE
      modifies this
      ensures Valid() && View() == Observed(old(View()), sequence)
    {
      if !initialized {
        initialized, highest, expected, received, recent := true, sequence, 1, 1, OnlyNewest();
        return;
      }
      var advance := Advance(sequence, highest);
      if advance > 0 {
        expected, highest := expected + advance, sequence;
        if advance >= WINDOW {
          recent := OnlyNewest();
        } else {
          recent := ShiftIn(recent, advance);
        }
        received := received + 1;
        return;
      }
      var offset := -advance;
      if offset >= WINDOW {
        return;
      }
      if !recent[offset] {
        recent := recent[offset := true];
        received := received + 1;
      }
    }
  }
}
