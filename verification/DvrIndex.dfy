/**
 * The ordered index of recorded segments and the numbering that feeds it
 * (module/dvr/segment_index.go, module/dvr/session.go, module/dvr/module.go).
 */
module DvrIndex {
  import opened Options
  import opened DvrNames

  datatype Segment = Segment(number: int, startTime: int, size: int)

  ghost predicate Increasing(s: seq<Segment>) {
    forall i, j :: 0 <= i < j < |s| ==> s[i].number < s[j].number
  }

  ghost predicate AllBelow(s: seq<Segment>, bound: int) {
    forall i :: 0 <= i < |s| ==> s[i].number < bound
  }

  predicate Present(s: seq<Segment>, number: int) { exists i :: 0 <= i < |s| && s[i].number == number }

  // ---------------------------------------------------------------- cleanup

  /** A segment stays when it is young enough or its file could not be removed. */
  predicate Stays(x: Segment, cutoff: int, stuck: set<int>) { x.startTime >= cutoff || x.number in stuck }

  function Kept(s: seq<Segment>, cutoff: int, stuck: set<int>): seq<Segment> {
    if s == [] then []
    else
      var last := s[|s| - 1];
      Kept(s[..|s| - 1], cutoff, stuck) + if Stays(last, cutoff, stuck) then [last] else []
  }

  function Removed(s: seq<Segment>, cutoff: int, stuck: set<int>): seq<Segment> {
    if s == [] then []
    else
      var last := s[|s| - 1];
      Removed(s[..|s| - 1], cutoff, stuck) + if Stays(last, cutoff, stuck) then [] else [last]
  }

  /** Cleanup keeps the order and exactly the segments that stay. */
  lemma {:induction false} CleanupKeepsOrder(s: seq<Segment>, cutoff: int, stuck: set<int>)
    requires Increasing(s)
    ensures Increasing(Kept(s, cutoff, stuck))
    ensures forall x :: x in Kept(s, cutoff, stuck) <==> x in s && Stays(x, cutoff, stuck)
    ensures forall x :: x in Removed(s, cutoff, stuck) <==> x in s && !Stays(x, cutoff, stuck)
    ensures |Kept(s, cutoff, stuck)| + |Removed(s, cutoff, stuck)| == |s|
  {
    if s != [] {
      var m, last := s[..|s| - 1], s[|s| - 1];
      assert s == m + [last];
      CleanupKeepsOrder(m, cutoff, stuck);
      forall x | x in m ensures x.number < last.number {
        var i :| 0 <= i < |m| && m[i] == x;
        assert s[i] == x;
      }
    }
  }

  class SegmentIndex {
    var segments: seq<Segment>

    constructor (segments: seq<Segment>)
      ensures this.segments == segments
    {
      this.segments := segments;
    }

    method Add(x: Segment)
      modifies this
      ensures segments == old(segments) + [x]
      ensures old(Increasing(segments)) && AllBelow(old(segments), x.number) ==> Increasing(segments)
    {
      segments := segments + [x];
    }

    /** Binary search: in an ordered index it finds a segment exactly when it is there. */
    method Find(number: int) returns (r: Option<Segment>)
      ensures Increasing(segments) ==> (r.Some? <==> Present(segments, number))
      ensures r.Some? ==> r.value in segments && r.value.number == number
    {
      var i, j := 0, |segments|;
      while i < j
        invariant 0 <= i <= j <= |segments|
        invariant Increasing(segments) ==> forall k :: 0 <= k < i ==> segments[k].number < number
        invariant Increasing(segments) ==> forall k :: j <= k < |segments| ==> segments[k].number >= number
      {
        var h := i + (j - i) / 2;
        if segments[h].number >= number {
          j := h;
        } else {
          i := h + 1;
        }
      }
      if i < |segments| && segments[i].number == number {
        return Some(segments[i]);
      }
      return None;
    }

    /** Removes old segments whose files went; `stuck` are the numbers whose removal fails. */
    method CleanBefore(cutoff: int, stuck: set<int>) returns (removed: seq<Segment>, failures: nat, bytes: int)
      modifies this
      ensures segments == Kept(old(segments), cutoff, stuck)
      ensures removed == Removed(old(segments), cutoff, stuck)
      ensures failures == |Failed(old(segments), cutoff, stuck)|
      ensures bytes == Bytes(removed)
      ensures old(Increasing(segments)) ==> Increasing(segments)
    {
      var remaining: seq<Segment> := [];
      removed, failures, bytes := [], 0, 0;
      for k := 0 to |segments|
        invariant segments == old(segments)
        invariant remaining == Kept(segments[..k], cutoff, stuck)
        invariant removed == Removed(segments[..k], cutoff, stuck)
        invariant failures == |Failed(segments[..k], cutoff, stuck)|
        invariant bytes == Bytes(removed)
      {
        var x := segments[k];
        assert segments[..k + 1][..k] == segments[..k];
        if x.startTime >= cutoff {
          remaining := remaining + [x];
        } else if x.number in stuck {
          failures := failures + 1;
          remaining := remaining + [x];
        } else {
          assert (removed + [x])[..|removed|] == removed;
          removed := removed + [x];
          if x.size > 0 {
            bytes := bytes + x.size;
          }
        }
      }
      assert segments[..|segments|] == segments;
      if Increasing(segments) {
        CleanupKeepsOrder(segments, cutoff, stuck);
      }
      segments := remaining;
    }

    function Last(): Option<Segment>
      reads this
    {
      if segments == [] then None else Some(segments[|segments| - 1])
    }
  }

  function Failed(s: seq<Segment>, cutoff: int, stuck: set<int>): seq<Segment> {
    if s == [] then []
    else
      var last := s[|s| - 1];
      Failed(s[..|s| - 1], cutoff, stuck) + if last.startTime < cutoff && last.number in stuck then [last] else []
  }

  function Bytes(s: seq<Segment>): int {
    if s == [] then 0 else Bytes(s[..|s| - 1]) + if s[|s| - 1].size > 0 then s[|s| - 1].size else 0
  }

  // ---------------------------------------------------------------- rebuilding from disk

  datatype Entry = Entry(name: string, modTime: int, size: int)

  /** The successor in 64-bit arithmetic. */
  function Succ(n: int): int { if n == MAX_INT then -MAX_INT - 1 else n + 1 }

  function Inserted(s: seq<Segment>, x: Segment): seq<Segment> {
    if s == [] || s[|s| - 1].number < x.number then s + [x]
    else Inserted(s[..|s| - 1], x) + [s[|s| - 1]]
  }

  function SortedByNumber(s: seq<Segment>): seq<Segment> {
    if s == [] then [] else Inserted(SortedByNumber(s[..|s| - 1]), s[|s| - 1])
  }

  ghost predicate Distinct(s: seq<Segment>) {
    forall i, j :: 0 <= i < j < |s| ==> s[i].number != s[j].number
  }

  lemma SnocIsOrdered(s: seq<Segment>, x: Segment)
    requires Increasing(s) && (forall y :: y in s ==> y.number < x.number)
    ensures Increasing(s + [x]) && (forall y :: y in s + [x] <==> y in s || y == x)
  {
    forall i | 0 <= i < |s| ensures s[i].number < x.number {
      assert s[i] in s;
    }
  }

  lemma LastIsLargest(s: seq<Segment>, y: Segment)
    requires s != [] && Increasing(s) && y in s[..|s| - 1]
    ensures y.number < s[|s| - 1].number
  {
    var i :| 0 <= i < |s| - 1 && s[..|s| - 1][i] == y;
    assert s[i] == y;
  }

  lemma {:induction false} InsertedIsOrdered(s: seq<Segment>, x: Segment)
    requires Increasing(s) && (forall y :: y in s ==> y.number != x.number)
    ensures Increasing(Inserted(s, x)) && (forall y :: y in Inserted(s, x) <==> y in s || y == x)
  {
    if s == [] {
      SnocIsOrdered(s, x);
    } else {
      var m, last := s[..|s| - 1], s[|s| - 1];
      assert s == m + [last];
      if last.number < x.number {
        forall y | y in s ensures y.number < x.number {
          if y in m { LastIsLargest(s, y); }
        }
        SnocIsOrdered(s, x);
      } else {
        InsertedIsOrdered(m, x);
        assert last in s;
        forall y | y in Inserted(m, x) ensures y.number < last.number {
          if y in m { LastIsLargest(s, y); }
        }
        SnocIsOrdered(Inserted(m, x), last);
      }
    }
  }

  lemma {:induction false} SortIsOrdered(s: seq<Segment>)
    requires Distinct(s)
    ensures Increasing(SortedByNumber(s)) && (forall y :: y in SortedByNumber(s) <==> y in s)
  {
    if s != [] {
      var m, last := s[..|s| - 1], s[|s| - 1];
      assert s == m + [last];
      SortIsOrdered(m);
      forall y | y in SortedByNumber(m) ensures y.number != last.number {
        var i :| 0 <= i < |m| && m[i] == y;
        assert s[i] == y;
      }
      InsertedIsOrdered(SortedByNumber(m), last);
    }
  }

  ghost predicate Names(entries: seq<Entry>, number: int) {
    exists i :: 0 <= i < |entries| && Parse(entries[i].name) == number
  }

  /** The segments named on disk, each number once, in directory order. */
  function Found(entries: seq<Entry>): seq<Segment> {
    if entries == [] then []
    else
      var before, e := Found(entries[..|entries| - 1]), entries[|entries| - 1];
      if Parse(e.name) < 0 || Present(before, Parse(e.name)) then before
      else before + [Segment(Parse(e.name), e.modTime, e.size)]
  }

  /** The number behind all those found, in 64-bit arithmetic. */
  function NextAfter(found: seq<Segment>, minimumNext: int): int {
    if found == [] then minimumNext
    else
      var next, last := NextAfter(found[..|found| - 1], minimumNext), found[|found| - 1];
      if last.number >= next then Succ(last.number) else next
  }

  lemma {:induction false} FoundIsExact(entries: seq<Entry>)
    ensures Distinct(Found(entries))
    ensures forall n :: Present(Found(entries), n) <==> n >= 0 && Names(entries, n)
    ensures forall i :: 0 <= i < |Found(entries)| ==> 0 <= Found(entries)[i].number <= MAX_INT
  {
    if entries != [] {
      var k := |entries| - 1;
      FoundIsExact(entries[..k]);
      NamesSnoc(entries, k);
      assert entries[..k + 1] == entries;
      if Parse(entries[k].name) >= 0 {
        NameOfParse(entries[k].name);
        FoundMore(Found(entries[..k]), Segment(Parse(entries[k].name), entries[k].modTime, entries[k].size));
      }
    }
  }

  lemma FoundMore(found: seq<Segment>, x: Segment)
    requires Distinct(found) && (forall i :: 0 <= i < |found| ==> 0 <= found[i].number <= MAX_INT)
    requires 0 <= x.number <= MAX_INT
    ensures !Present(found, x.number) ==> Distinct(found + [x])
    ensures forall i :: 0 <= i < |found + [x]| ==> 0 <= (found + [x])[i].number <= MAX_INT
    ensures forall n :: Present(found + [x], n) <==> Present(found, n) || x.number == n
  {
    PresentSnoc(found, x);
  }

  /** The next number is above all found unless the largest number is among them. */
  lemma {:induction false} NextIsAbove(found: seq<Segment>, minimumNext: nat)
    requires minimumNext <= MAX_INT
    requires forall i :: 0 <= i < |found| ==> 0 <= found[i].number <= MAX_INT
    ensures -MAX_INT - 1 <= NextAfter(found, minimumNext) <= MAX_INT
    ensures !Present(found, MAX_INT) ==> minimumNext <= NextAfter(found, minimumNext)
    ensures AllBelow(found, NextAfter(found, minimumNext)) <==> !Present(found, MAX_INT)
  {
    if found != [] {
      var m, last := found[..|found| - 1], found[|found| - 1];
      assert found == m + [last];
      NextIsAbove(m, minimumNext);
      PresentSnoc(m, last);
      LargestIsNotBelow(found, NextAfter(found, minimumNext));
    }
  }

  /** What a scan of the directory gives. */
  function Scan(entries: seq<Entry>, minimumNext: int): Recorder {
    Recorder(SortedByNumber(Found(entries)), NextAfter(Found(entries), minimumNext))
  }

  /** The scan is ordered and holds exactly the numbers on disk; the next number is above all of
      them if and only if the largest number is not on disk. */
  lemma ScanIsExact(entries: seq<Entry>, minimumNext: nat)
    requires minimumNext <= MAX_INT
    ensures var r := Scan(entries, minimumNext);
            && Increasing(r.index) && -MAX_INT - 1 <= r.number <= MAX_INT
            && (forall n :: Present(r.index, n) <==> n >= 0 && Names(entries, n))
            && (AllBelow(r.index, r.number) <==> !Names(entries, MAX_INT))
            && (!Names(entries, MAX_INT) ==> r.number >= minimumNext)
  {
    FoundIsExact(entries);
    SortIsOrdered(Found(entries));
    SamePresent(Found(entries), SortedByNumber(Found(entries)));
    NextIsAbove(Found(entries), minimumNext);
  }

  /** The loop over the directory, and the sort. */
  method BuildRetained(entries: seq<Entry>, minimumNext: int) returns (segments: seq<Segment>, next: int)
    ensures Recorder(segments, next) == Scan(entries, minimumNext)
  {
    next := minimumNext;
    var seen: set<int> := {};
    var found: seq<Segment> := [];
    for k := 0 to |entries|
      invariant found == Found(entries[..k]) && next == NextAfter(found, minimumNext)
      invariant forall n :: n in seen <==> Present(found, n)
    {
      var e := entries[k];
      assert entries[..k + 1][..k] == entries[..k];
      var number := Parse(e.name);
      if number < 0 || number in seen {
        continue;
      }
      var x := Segment(number, e.modTime, e.size);
      PresentSnoc(found, x);
      assert (found + [x])[..|found|] == found;
      seen := seen + {number};
      found := found + [x];
      if number >= next {
        next := Succ(number);
      }
    }
    assert entries[..|entries|] == entries;
    segments := SortedByNumber(found);
  }

  lemma LargestIsNotBelow(s: seq<Segment>, bound: int)
    requires bound <= MAX_INT
    ensures Present(s, MAX_INT) ==> !AllBelow(s, bound)
  {
  }

  lemma NamesSnoc(entries: seq<Entry>, k: nat)
    requires k < |entries|
    ensures forall n :: Names(entries[..k + 1], n) <==> Names(entries[..k], n) || Parse(entries[k].name) == n
  {
    var a, b := entries[..k], entries[..k + 1];
    assert b == a + [entries[k]];
    forall n ensures Names(b, n) <==> Names(a, n) || Parse(entries[k].name) == n {
      if Names(a, n) {
        var i :| 0 <= i < |a| && Parse(a[i].name) == n;
        assert Parse(b[i].name) == n;
      }
      if Parse(entries[k].name) == n {
        assert Parse(b[k].name) == n;
      }
    }
  }

  lemma PresentSnoc(s: seq<Segment>, x: Segment)
    ensures forall n :: Present(s + [x], n) <==> Present(s, n) || x.number == n
  {
    var b := s + [x];
    assert b[|s|] == x && forall i :: 0 <= i < |s| ==> b[i] == s[i];
  }

  lemma SamePresent(a: seq<Segment>, b: seq<Segment>)
    requires forall y :: y in a <==> y in b
    ensures forall n :: Present(a, n) <==> Present(b, n)
    ensures forall n :: AllBelow(a, n) <==> AllBelow(b, n)
  {
    forall n ensures Present(a, n) <==> Present(b, n) {
      if Present(a, n) { var i :| 0 <= i < |a| && a[i].number == n; assert a[i] in b; }
      if Present(b, n) { var i :| 0 <= i < |b| && b[i].number == n; assert b[i] in a; }
    }
    forall n ensures AllBelow(a, n) <==> AllBelow(b, n) {
      if AllBelow(a, n) { forall i | 0 <= i < |b| ensures b[i].number < n { assert b[i] in a; } }
      if AllBelow(b, n) { forall i | 0 <= i < |a| ensures a[i].number < n { assert a[i] in b; } }
    }
  }

  // ---------------------------------------------------------------- recording

  /** The index and the number of the segment being written, or to be written next. */
  datatype Recorder = Recorder(index: seq<Segment>, number: int)

  /** A number is used by a good segment, or passed over; retention runs in between, and the
      next session takes the index over. */
  datatype Act = Use(startTime: int, size: int) | Skip | Clean(cutoff: int, stuck: set<int>) | HandOff
  {
    predicate TakesNumber() { Use? || Skip? }
  }

  /** The number a session that takes over an index begins with. */
  function FirstNumber(index: seq<Segment>): int { if index == [] then 0 else Succ(index[|index| - 1].number) }

  function Step(r: Recorder, a: Act): Recorder {
    match a
    case Use(t, size) => Recorder(r.index + [Segment(r.number, t, size)], Succ(r.number))
    case Skip => Recorder(r.index, Succ(r.number))
    case Clean(cutoff, stuck) => Recorder(Kept(r.index, cutoff, stuck), r.number)
    case HandOff => Recorder(r.index, FirstNumber(r.index))
  }

  function Record(r: Recorder, acts: seq<Act>): Recorder {
    if acts == [] then r else Step(Record(r, acts[..|acts| - 1]), acts[|acts| - 1])
  }

  /** How many numbers the acts take. */
  function Taken(acts: seq<Act>): nat {
    if acts == [] then 0 else Taken(acts[..|acts| - 1]) + if acts[|acts| - 1].TakesNumber() then 1 else 0
  }

  /** The number k places on. */
  function Nth(n: int, k: nat): int { if k == 0 then n else Succ(Nth(n, k - 1)) }

  const CYCLE := 0x1_0000_0000_0000_0000

  lemma {:induction false} NthValue(n: int, k: nat)
    requires -MAX_INT - 1 <= n <= MAX_INT && k < CYCLE
    ensures Nth(n, k) == if n + k <= MAX_INT then n + k else n + k - CYCLE
  {
    if k > 0 {
      NthValue(n, k - 1);
    }
  }

  /** Appending keeps an index ordered exactly when the number is above all others. */
  lemma AppendIsOrderedIff(s: seq<Segment>, x: Segment)
    requires Increasing(s)
    ensures Increasing(s + [x]) <==> AllBelow(s, x.number)
  {
    var t := s + [x];
    if Increasing(t) {
      forall i | 0 <= i < |s| ensures s[i].number < x.number {
        assert t[i].number < t[|s|].number;
      }
    }
  }

  ghost predicate Ordered(r: Recorder) { Increasing(r.index) && AllBelow(r.index, r.number) }

  lemma CleanIsOrdered(s: seq<Segment>, cutoff: int, stuck: set<int>)
    requires Increasing(s)
    ensures Increasing(Kept(s, cutoff, stuck))
    ensures forall n :: AllBelow(s, n) ==> AllBelow(Kept(s, cutoff, stuck), n)
  {
    CleanupKeepsOrder(s, cutoff, stuck);
    var k := Kept(s, cutoff, stuck);
    forall n | AllBelow(s, n) ensures AllBelow(k, n) {
      forall i | 0 <= i < |k| ensures k[i].number < n {
        assert k[i] in k;
      }
    }
  }

  /** A session that takes over records behind all segments exactly when none has the largest number. */
  lemma TakeOverIsOrderedIff(s: seq<Segment>)
    requires Increasing(s) && (s != [] ==> s[|s| - 1].number <= MAX_INT)
    ensures AllBelow(s, FirstNumber(s)) <==> s == [] || s[|s| - 1].number < MAX_INT
  {
    if s != [] {
      var last := s[|s| - 1];
      if last.number < MAX_INT {
        forall i | 0 <= i < |s| ensures s[i].number < Succ(last.number) {
          assert i < |s| - 1 ==> s[i].number < last.number;
        }
      } else {
        assert !(s[|s| - 1].number < Succ(last.number));
      }
    }
  }

  /** Where the numbers of a run may begin: at the next one, or again at zero on an emptied index. */
  function Base(r: Recorder): int { if r.number > 0 then r.number else 0 }

  /** The state after taking n numbers from base, short of the largest one. */
  ghost predicate OnTrack(r: Recorder, base: int, n: nat) {
    Increasing(r.index) && (base + n <= MAX_INT ==> AllBelow(r.index, r.number) && r.number <= base + n)
  }

  lemma StepStaysOrdered(r: Recorder, a: Act, base: int, n: nat)
    requires OnTrack(r, base, n) && 0 <= base && base + n + (if a.TakesNumber() then 1 else 0) - 1 <= MAX_INT
    ensures OnTrack(Step(r, a), base, n + if a.TakesNumber() then 1 else 0)
  {
    match a
    case Use(t, size) => AppendIsOrderedIff(r.index, Segment(r.number, t, size));
    case Skip =>
    case Clean(cutoff, stuck) => CleanIsOrdered(r.index, cutoff, stuck);
    case HandOff =>
      if r.index != [] && base + n <= MAX_INT {
        TakeOverIsOrderedIff(r.index);
      }
  }

  /** As long as the numbers taken do not pass the largest one, the index stays ordered. */
  lemma {:induction false} RecordingStaysOrdered(r: Recorder, acts: seq<Act>)
    requires Ordered(r) && r.number <= MAX_INT && Base(r) + Taken(acts) - 1 <= MAX_INT
    ensures OnTrack(Record(r, acts), Base(r), Taken(acts))
  {
    if acts != [] {
      var m, last := acts[..|acts| - 1], acts[|acts| - 1];
      RecordingStaysOrdered(r, m);
      StepStaysOrdered(Record(r, m), last, Base(r), Taken(m));
    }
  }

  function Skips(k: nat): (acts: seq<Act>)
    ensures |acts| == k && forall i :: 0 <= i < k ==> acts[i] == Skip
  {
    seq(k, _ => Skip)
  }

  lemma {:induction false} SkipsAdvance(r: Recorder, k: nat)
    ensures Record(r, Skips(k)) == Recorder(r.index, Nth(r.number, k)) && Taken(Skips(k)) == k
  {
    if k > 0 {
      assert Skips(k)[..k - 1] == Skips(k - 1);
      SkipsAdvance(r, k - 1);
    }
  }

  lemma RecordSnoc(r: Recorder, acts: seq<Act>, a: Act)
    ensures Record(r, acts + [a]) == Step(Record(r, acts), a)
    ensures Taken(acts + [a]) == Taken(acts) + if a.TakesNumber() then 1 else 0
  {
    assert (acts + [a])[..|acts|] == acts;
  }

  /** One number past the largest, used behind the largest, breaks the order. */
  lemma WrapBreaksOrder(r: Recorder) returns (acts: seq<Act>)
    requires -MAX_INT - 1 <= r.number <= MAX_INT
    ensures Taken(acts) == MAX_INT - r.number + 2 && !Increasing(Record(r, acts).index)
  {
    var k := MAX_INT - r.number;
    SkipsAdvance(r, k);
    NthValue(r.number, k);
    var one, two := Skips(k) + [Use(0, 0)], Skips(k) + [Use(0, 0)] + [Use(0, 0)];
    RecordSnoc(r, Skips(k), Use(0, 0));
    RecordSnoc(r, one, Use(0, 0));
    var s := Record(r, two).index;
    assert s[|s| - 2].number == MAX_INT && s[|s| - 1].number == -MAX_INT - 1;
    acts := two;
  }

  /** Retention that reaches everything empties the index, and the next session begins at zero. */
  lemma {:induction false} CleanOut(s: seq<Segment>) returns (cutoff: int)
    ensures forall i :: 0 <= i < |s| ==> s[i].startTime < cutoff
  {
    cutoff := 0;
    if s != [] {
      var last := s[|s| - 1];
      cutoff := CleanOut(s[..|s| - 1]);
      cutoff := if last.startTime < cutoff then cutoff else last.startTime + 1;
    }
  }

  lemma {:induction false} KeptNone(s: seq<Segment>, cutoff: int)
    requires forall i :: 0 <= i < |s| ==> s[i].startTime < cutoff
    ensures Kept(s, cutoff, {}) == []
  {
    if s != [] {
      KeptNone(s[..|s| - 1], cutoff);
    }
  }

  lemma StartOver(r: Recorder) returns (acts: seq<Act>)
    ensures Record(r, acts) == Recorder([], 0) && Taken(acts) == 0
  {
    var cutoff := CleanOut(r.index);
    KeptNone(r.index, cutoff);
    var one := [] + [Clean(cutoff, {})];
    RecordSnoc(r, [], Clean(cutoff, {}));
    RecordSnoc(r, one, HandOff);
    acts := one + [HandOff];
  }

  lemma {:induction false} RecordConcat(r: Recorder, x: seq<Act>, y: seq<Act>)
    ensures Record(r, x + y) == Record(Record(r, x), y) && Taken(x + y) == Taken(x) + Taken(y)
  {
    if y == [] {
      assert x + y == x;
    } else {
      var m := y[..|y| - 1];
      RecordConcat(r, x, m);
      RecordSnoc(r, x + m, y[|y| - 1]);
      assert x + y == x + m + [y[|y| - 1]];
    }
  }

  ghost predicate SafeFor(r: Recorder, n: nat) {
    forall acts :: Taken(acts) <= n ==> Increasing(Record(r, acts).index)
  }

  /**
   * From an ordered index, n further numbers, used or passed over, with any cleanup and any
   * hand-over to a new session in between, keep it ordered if and only if the last of them does
   * not pass the largest number. They count from the next number, or from zero if that is higher,
   * because a session that takes over an emptied index begins at zero.
   */
  lemma RecordingIsOrderedIff(r: Recorder, n: nat)
    requires Ordered(r) && -MAX_INT - 1 <= r.number <= MAX_INT
    ensures SafeFor(r, n) <==> Base(r) + n - 1 <= MAX_INT
  {
    if Base(r) + n - 1 <= MAX_INT {
      forall acts | Taken(acts) <= n ensures Increasing(Record(r, acts).index) {
        RecordingStaysOrdered(r, acts);
      }
    } else if r.number >= 0 {
      var acts := WrapBreaksOrder(r);
      assert Taken(acts) <= n;
    } else {
      var first := StartOver(r);
      var acts := WrapBreaksOrder(Recorder([], 0));
      RecordConcat(r, first, acts);
      assert Taken(first + acts) <= n;
    }
  }

  /**
   * After a scan of any directory, n further numbers are safe if and only if there are none, or
   * the largest number is not on disk and the last of them does not pass it.
   */
  lemma RecordingAfterScanIff(entries: seq<Entry>, minimumNext: nat, n: nat)
    requires minimumNext <= MAX_INT
    ensures var r := Scan(entries, minimumNext);
            SafeFor(r, n) <==> n == 0 || (!Names(entries, MAX_INT) && r.number + n - 1 <= MAX_INT)
  {
    var r := Scan(entries, minimumNext);
    ScanIsExact(entries, minimumNext);
    if !Names(entries, MAX_INT) {
      RecordingIsOrderedIff(r, n);
    } else if n == 0 {
      forall acts | Taken(acts) <= 0 ensures Increasing(Record(r, acts).index) {
        CleaningStaysOrdered(r, acts);
      }
    } else {
      var acts := [Use(0, 0)];
      RecordSnoc(r, [], Use(0, 0));
      assert [] + [Use(0, 0)] == acts;
      AppendIsOrderedIff(r.index, Segment(r.number, 0, 0));
      assert Taken(acts) <= n && !Increasing(Record(r, acts).index);
    }
  }

  lemma {:induction false} CleaningStaysOrdered(r: Recorder, acts: seq<Act>)
    requires Increasing(r.index) && Taken(acts) == 0
    ensures Increasing(Record(r, acts).index)
  {
    if acts != [] {
      CleaningStaysOrdered(r, acts[..|acts| - 1]);
      var last := acts[|acts| - 1];
      if last.Clean? {
        CleanIsOrdered(Record(r, acts[..|acts| - 1]).index, last.cutoff, last.stuck);
      }
    }
  }

  /** A directory that fails: with only the last number but one on disk, the second recording is out of order. */
  lemma NearlyFullDisk(modTime: int, size: int)
    ensures var entries := [Entry(Name(MAX_INT - 1), modTime, size)];
            && !Names(entries, MAX_INT) && Scan(entries, 0).number == MAX_INT
            && SafeFor(Scan(entries, 0), 1) && !SafeFor(Scan(entries, 0), 2)
  {
    var entries := [Entry(Name(MAX_INT - 1), modTime, size)];
    ParseOfName(MAX_INT - 1);
    assert entries[..0] == [];
    var found := [Segment(MAX_INT - 1, modTime, size)];
    assert Found(entries) == found;
    assert found[..0] == [];
    assert NextAfter(found, 0) == MAX_INT;
    RecordingAfterScanIff(entries, 0, 1);
    RecordingAfterScanIff(entries, 0, 2);
  }

  /** The names of the next k numbers are all in use. */
  ghost predicate AllTaken(n: int, k: nat, disk: set<string>) { forall j: nat :: j < k ==> Name(Nth(n, j)) in disk }

  ghost function NamesFrom(n: int, k: nat): set<string> {
    if k == 0 then {} else NamesFrom(n, k - 1) + {Name(Nth(n, k - 1))}
  }

  /** Within one cycle of the counter no name comes twice. */
  lemma NamesDiffer(n: int, j: nat, k: nat)
    requires -MAX_INT - 1 <= n <= MAX_INT && j < k < CYCLE
    ensures Name(Nth(n, j)) != Name(Nth(n, k))
  {
    NthValue(n, j);
    NthValue(n, k);
    NamesAreDistinct(Nth(n, j), Nth(n, k));
  }

  lemma {:induction false} NameIsNew(n: int, i: nat, k: nat)
    requires -MAX_INT - 1 <= n <= MAX_INT && i <= k < CYCLE
    ensures Name(Nth(n, k)) !in NamesFrom(n, i)
  {
    if i > 0 {
      NameIsNew(n, i - 1, k);
      NamesDiffer(n, i - 1, k);
    }
  }

  lemma {:induction false} NamesFromSize(n: int, k: nat)
    requires -MAX_INT - 1 <= n <= MAX_INT && k <= CYCLE
    ensures |NamesFrom(n, k)| == k
  {
    if k > 0 {
      NamesFromSize(n, k - 1);
      NameIsNew(n, k - 1, k - 1);
    }
  }

  lemma {:induction false} NamesFromTaken(n: int, k: nat, disk: set<string>)
    requires AllTaken(n, k, disk)
    ensures NamesFrom(n, k) <= disk
  {
    if k > 0 {
      NamesFromTaken(n, k - 1, disk);
    }
  }

  /** So a directory of fewer files than that always has a free name ahead. */
  lemma {:induction false} TakenFit(n: int, k: nat, disk: set<string>)
    requires -MAX_INT - 1 <= n <= MAX_INT && |disk| < CYCLE && AllTaken(n, k, disk)
    ensures k <= |disk|
  {
    if k > 0 {
      TakenFit(n, k - 1, disk);
      NamesFromSize(n, k);
      NamesFromTaken(n, k, disk);
      assert disk == NamesFrom(n, k) + (disk - NamesFrom(n, k));
    }
  }

  /** A recording session; several may take over one index, one after the other. */
  class Session {
    const index: SegmentIndex
    var number: int
    var writing: bool

    ghost function View(): Recorder
      reads this, index
    {
      Recorder(index.segments, number)
    }

    /** Takes over an index: recording continues behind its last segment. */
    constructor TakeOver(existing: SegmentIndex)
      ensures index == existing && !writing
      ensures View() == Recorder(existing.segments, FirstNumber(existing.segments))
    {
      index := existing;
      var last := existing.Last();
      number := if last.Some? then Succ(last.value.number) else 0;
      writing := false;
    }

    /** Starts from what is on disk. */
    constructor FromDisk(entries: seq<Entry>)
      ensures fresh(index) && !writing && View() == Scan(entries, 0)
    {
      var segments, next := BuildRetained(entries, 0);
      index := new SegmentIndex(segments);
      number, writing := next, false;
    }

    /**
     * Begins a segment under a name that no file has. A name that cannot be examined, or a later
     * storage fault, leaves nothing open; names that are taken were passed over in any case.
     */
    method OpenSegment(disk: set<string>, unreadable: set<string>, fault: bool) returns (ghost passed: nat)
      requires !writing && |disk| < CYCLE && -MAX_INT - 1 <= number <= MAX_INT
      modifies this
      ensures View() == Record(old(View()), Skips(passed))
      ensures AllTaken(old(number), passed, disk)
      ensures Name(number) !in disk || Name(number) in unreadable
      ensures writing <==> !fault && Name(number) !in unreadable
    {
      passed := 0;
      while Name(number) in disk && Name(number) !in unreadable
        invariant number == Nth(old(number), passed) && index.segments == old(index.segments)
        invariant passed <= |disk| && AllTaken(old(number), passed, disk)
        decreases |disk| - passed
      {
        TakenFit(old(number), passed + 1, disk);
        number := Succ(number);
        passed := passed + 1;
      }
      SkipsAdvance(old(View()), passed);
      writing := !fault && Name(number) !in unreadable;
    }

    /** Ends a segment: a good one is indexed, a failed one only uses up its number. */
    method CloseSegment(failed: bool, startTime: int, size: int)
      modifies this, index
      ensures !writing
      ensures View() == if !old(writing) then old(View()) else Step(old(View()), if failed then Skip else Use(startTime, size))
    {
      if !writing {
        return;
      }
      if !failed {
        index.Add(Segment(number, startTime, size));
      }
      number := Succ(number);
      writing := false;
    }

    /** Retention runs beside the recording. */
    method Clean(cutoff: int, stuck: set<int>)
      modifies index
      ensures View() == Step(old(View()), Act.Clean(cutoff, stuck))
    {
      var _, _, _ := index.CleanBefore(cutoff, stuck);
    }
  }
}
