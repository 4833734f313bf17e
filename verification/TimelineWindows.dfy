/** The window queries of utils/grid.py: which ranges and which events of a timeline a drawing is given.
    Times are only ever compared; they are integers here. */
module TimelineWindows {

  datatype DataRange = DataRange(start: int, end: int, value: string)

  datatype Event<V> = Event(at: int, value: V)

  predicate Covers(r: DataRange, key: int) {
    r.start <= key <= r.end
  }

  predicate Overlaps(r: DataRange, start: int, end: int) {
    r.start <= end && start <= r.end
  }

  /** Nonempty ranges, one after the other; one may begin where another ends. */
  ghost predicate InOrder(rs: seq<DataRange>) {
    && (forall i :: 0 <= i < |rs| ==> rs[i].start <= rs[i].end)
    && (forall i, j :: 0 <= i < j < |rs| ==> rs[i].end <= rs[j].start)
  }

  /** One range ends and a later one begins at this time. */
  ghost predicate Shared(rs: seq<DataRange>, key: int) {
    exists i, j :: 0 <= i < j < |rs| && rs[i].end == key && rs[j].start == key
  }

  ghost predicate Covered(rs: seq<DataRange>, key: int) {
    exists i :: 0 <= i < |rs| && Covers(rs[i], key)
  }

  /** How many ranges end before a time. */
  ghost function EndedBefore(rs: seq<DataRange>, key: int): nat {
    if rs == [] then 0 else
      var n := |rs| - 1;
      EndedBefore(rs[..n], key) + if rs[n].end < key then 1 else 0
  }

  /** Exactly the indices of the ranges that overlap the window. */
  ghost predicate SelectsOverlapping(rs: seq<DataRange>, start: int, end: int, lo: int, hi: int) {
    forall i :: 0 <= i < |rs| ==> (lo <= i < hi <==> Overlaps(rs[i], start, end))
  }

  /** Where the window's ends have to lie: both on ranges; or one on a range and the other beyond all ranges;
      or neither on a range and no range between them. With the ends the wrong way round: both on ranges or
      neither. */
  ghost predicate EndsInPlace(rs: seq<DataRange>, start: int, end: int) {
    if start > end then Covered(rs, start) <==> Covered(rs, end)
    else if Covered(rs, start) then Covered(rs, end) || EndedBefore(rs, end) == |rs|
    else if Covered(rs, end) then EndedBefore(rs, start) == 0
    else EndedBefore(rs, start) == EndedBefore(rs, end)
  }

  function Overlapping(rs: seq<DataRange>, start: int, end: int): seq<DataRange> {
    if rs == [] then [] else
      var n := |rs| - 1;
      Overlapping(rs[..n], start, end) + if Overlaps(rs[n], start, end) then [rs[n]] else []
  }

  lemma {:induction false} EndedBeforeAt(rs: seq<DataRange>, key: int)
    requires InOrder(rs)
    ensures EndedBefore(rs, key) <= |rs|
    ensures forall i :: 0 <= i < |rs| ==> (i < EndedBefore(rs, key) <==> rs[i].end < key)
    decreases |rs|
  {
    if rs != [] {
      var n := |rs| - 1;
      EndedBeforeAt(rs[..n], key);
      if rs[n].end < key {
        assert n > 0 ==> rs[..n][n - 1].end < key;
      }
    }
  }

  /** The window [lo, hi) a query answers with, from what the searches for its two ends found. */
  function Window(count: nat, s: int, e: int): (int, int) {
    if s == -1 && e == -1 then (0, 0)
    else if s == -1 then (0, e + 1)
    else if e == -1 then (s, count)
    else (s, e + 1)
  }

  ghost predicate Found(rs: seq<DataRange>, key: int, i: int) {
    && -1 <= i < |rs|
    && (i >= 0 ==> Covers(rs[i], key))
    && (i == -1 && InOrder(rs) ==> !Covered(rs, key))
  }

  /** A window selects exactly the overlapping ranges if and only if its ends are in place. */
  lemma WindowExactIff(rs: seq<DataRange>, start: int, end: int, s: int, e: int)
    requires InOrder(rs) && !Shared(rs, start) && !Shared(rs, end) && Found(rs, start, s) && Found(rs, end, e)
    ensures var (lo, hi) := Window(|rs|, s, e);
      SelectsOverlapping(rs, start, end, lo, hi) <==> EndsInPlace(rs, start, end)
  {
    EndedBeforeAt(rs, start);
    EndedBeforeAt(rs, end);
    if start > end {
      BackwardsExactIff(rs, start, end, s, e);
    } else if s >= 0 && e >= 0 {
      BothOnRanges(rs, start, end, s, e);
    } else if s >= 0 {
      OpenEndExactIff(rs, start, end, s);
    } else if e >= 0 {
      OpenStartExactIff(rs, start, end, e);
    } else {
      OpenBothExactIff(rs, start, end);
    }
  }

  lemma BackwardsExactIff(rs: seq<DataRange>, start: int, end: int, s: int, e: int)
    requires InOrder(rs) && start > end && Found(rs, start, s) && Found(rs, end, e)
    requires !Shared(rs, start) && !Shared(rs, end)
    ensures var (lo, hi) := Window(|rs|, s, e);
      SelectsOverlapping(rs, start, end, lo, hi) <==> (Covered(rs, start) <==> Covered(rs, end))
  {
    if s >= 0 && e >= 0 {
      BothOnRanges(rs, start, end, s, e);
    } else if s >= 0 {
      assert !Covers(rs[s], end);
    } else if e >= 0 {
      assert !Covers(rs[e], start);
    } else {
      forall i | 0 <= i < |rs| ensures !Overlaps(rs[i], start, end) {
        assert !Covers(rs[i], start) && !Covers(rs[i], end);
      }
    }
  }

  lemma BothOnRanges(rs: seq<DataRange>, start: int, end: int, s: nat, e: nat)
    requires InOrder(rs) && !Shared(rs, start) && !Shared(rs, end)
    requires s < |rs| && e < |rs| && Covers(rs[s], start) && Covers(rs[e], end)
    ensures SelectsOverlapping(rs, start, end, s, e + 1)
  {
    forall i | 0 <= i < |rs| ensures s <= i < e + 1 <==> Overlaps(rs[i], start, end) {
      if i < s {
        assert rs[i].end != start;
      }
      if i > e {
        assert rs[i].start != end;
      }
    }
  }

  lemma OpenEndExactIff(rs: seq<DataRange>, start: int, end: int, s: nat)
    requires InOrder(rs) && start <= end && s < |rs| && Covers(rs[s], start) && !Covered(rs, end)
    requires !Shared(rs, start)
    ensures SelectsOverlapping(rs, start, end, s, |rs|) <==> EndedBefore(rs, end) == |rs|
  {
    EndedBeforeAt(rs, end);
    forall i | 0 <= i < s ensures !Overlaps(rs[i], start, end) {
      assert rs[i].end != start;
    }
    var n := |rs| - 1;
    if SelectsOverlapping(rs, start, end, s, |rs|) {
      assert Overlaps(rs[n], start, end) && !Covers(rs[n], end);
    }
  }

  lemma OpenStartExactIff(rs: seq<DataRange>, start: int, end: int, e: nat)
    requires InOrder(rs) && start <= end && e < |rs| && Covers(rs[e], end) && !Covered(rs, start)
    requires !Shared(rs, end)
    ensures SelectsOverlapping(rs, start, end, 0, e + 1) <==> EndedBefore(rs, start) == 0
  {
    EndedBeforeAt(rs, start);
    forall i | e < i < |rs| ensures !Overlaps(rs[i], start, end) {
      assert rs[i].start != end;
    }
    if SelectsOverlapping(rs, start, end, 0, e + 1) {
      assert Overlaps(rs[0], start, end);
    }
  }

  lemma OpenBothExactIff(rs: seq<DataRange>, start: int, end: int)
    requires InOrder(rs) && start <= end && !Covered(rs, start) && !Covered(rs, end)
    ensures SelectsOverlapping(rs, start, end, 0, 0) <==> EndedBefore(rs, start) == EndedBefore(rs, end)
  {
    var a, b := EndedBefore(rs, start), EndedBefore(rs, end);
    EndedBeforeAt(rs, start);
    EndedBeforeAt(rs, end);
    if a != b {
      var k := if a < b then a else b;
      assert Overlaps(rs[k], start, end);
    }
    forall i | 0 <= i < |rs| && Overlaps(rs[i], start, end) ensures a != b {
      assert !Covers(rs[i], start) && !Covers(rs[i], end);
    }
  }

  lemma {:induction false} OverlappingHas(rs: seq<DataRange>, start: int, end: int, r: DataRange)
    ensures r in Overlapping(rs, start, end) <==> r in rs && Overlaps(r, start, end)
    decreases |rs|
  {
    if rs != [] {
      OverlappingHas(rs[..|rs| - 1], start, end, r);
      assert rs == rs[..|rs| - 1] + [rs[|rs| - 1]];
    }
  }

  lemma {:induction false} ExactSliceIsOverlapping(rs: seq<DataRange>, start: int, end: int, lo: nat, hi: nat)
    requires lo <= hi <= |rs| && SelectsOverlapping(rs, start, end, lo, hi)
    ensures rs[lo..hi] == Overlapping(rs, start, end)
    decreases |rs|
  {
    if rs != [] {
      var n := |rs| - 1;
      var front := rs[..n];
      assert forall i :: 0 <= i < n ==> front[i] == rs[i];
      SliceOfFront(rs, lo, hi);
      if hi == |rs| && lo < hi {
        ExactSliceIsOverlapping(front, start, end, lo, n);
      } else if hi == |rs| {
        ExactSliceIsOverlapping(front, start, end, n, n);
      } else {
        ExactSliceIsOverlapping(front, start, end, lo, hi);
      }
    }
  }

  lemma SliceOfFront(rs: seq<DataRange>, lo: nat, hi: nat)
    requires rs != [] && lo <= hi <= |rs|
    ensures lo < hi == |rs| ==> rs[lo..hi] == rs[..|rs| - 1][lo..|rs| - 1] + [rs[|rs| - 1]]
    ensures hi < |rs| ==> rs[lo..hi] == rs[..|rs| - 1][lo..hi]
  {
  }

  /** A slice of overlapping ranges that misses one is shorter than the list of them all. */
  lemma {:induction false} MissedIsShorter(rs: seq<DataRange>, start: int, end: int, lo: nat, hi: nat, missed: nat)
    requires lo <= hi <= |rs| && forall i :: lo <= i < hi ==> Overlaps(rs[i], start, end)
    requires missed < |rs| ==> !(lo <= missed < hi) && Overlaps(rs[missed], start, end)
    ensures |Overlapping(rs, start, end)| >= hi - lo + if missed < |rs| then 1 else 0
    decreases |rs|
  {
    if rs != [] {
      var n := |rs| - 1;
      var front := rs[..n];
      assert forall i :: 0 <= i < n ==> front[i] == rs[i];
      MissedIsShorter(front, start, end, if lo <= n then lo else n, if hi <= n then hi else n, missed);
    }
  }

  lemma OverlappingSliceIsExact(rs: seq<DataRange>, start: int, end: int, lo: nat, hi: nat)
    requires lo <= hi <= |rs| && rs[lo..hi] == Overlapping(rs, start, end)
    ensures SelectsOverlapping(rs, start, end, lo, hi)
  {
    forall i | lo <= i < hi ensures Overlaps(rs[i], start, end) {
      assert rs[lo..hi][i - lo] == rs[i];
      OverlappingHas(rs, start, end, rs[i]);
    }
    forall i | 0 <= i < |rs| && Overlaps(rs[i], start, end) ensures lo <= i < hi {
      if !(lo <= i < hi) {
        MissedIsShorter(rs, start, end, lo, hi, i);
      }
    }
  }

  /** What slicing with the window's bounds gives; an upper bound below the lower one gives nothing. */
  lemma SliceExactIff(rs: seq<DataRange>, start: int, end: int, s: int, e: int, selected: seq<DataRange>)
    requires Found(rs, start, s) && Found(rs, end, e)
    requires var (lo, hi) := Window(|rs|, s, e); selected == if lo <= hi then rs[lo..hi] else []
    ensures var (lo, hi) := Window(|rs|, s, e);
      selected == Overlapping(rs, start, end) <==> SelectsOverlapping(rs, start, end, lo, hi)
  {
    var (lo, hi) := Window(|rs|, s, e);
    var low: nat, high: nat := if lo <= hi then lo else 0, if lo <= hi then hi else 0;
    if SelectsOverlapping(rs, start, end, lo, hi) {
      ExactSliceIsOverlapping(rs, start, end, low, high);
    }
    if selected == Overlapping(rs, start, end) {
      OverlappingSliceIsExact(rs, start, end, low, high);
    }
  }

  /** With both ends on ranges, shared points included: whatever is selected overlaps the window, and whatever
      is missed only touches it, at one of its ends. */
  lemma CoveredMissesOnlyTouching(rs: seq<DataRange>, start: int, end: int, s: nat, e: nat)
    requires InOrder(rs) && start <= end
    requires s < |rs| && e < |rs| && Covers(rs[s], start) && Covers(rs[e], end)
    ensures MissesOnlyTouching(rs, start, end, s, e + 1)
  {
  }

  ghost predicate MissesOnlyTouching(rs: seq<DataRange>, start: int, end: int, lo: int, hi: int) {
    && (forall i :: 0 <= i < |rs| && lo <= i < hi ==> Overlaps(rs[i], start, end))
    && (forall i :: 0 <= i < |rs| && Overlaps(rs[i], start, end) && !(lo <= i < hi) ==>
          rs[i].end == start || rs[i].start == end)
  }

  /** A window that begins before all ranges and ends after all of them overlaps every one and selects none. */
  lemma OverWideSelectsNothing(rs: seq<DataRange>, start: int, end: int, s: int, e: int)
    requires InOrder(rs) && rs != [] && start < rs[0].start && rs[|rs| - 1].end < end
    requires Found(rs, start, s) && Found(rs, end, e)
    ensures Window(|rs|, s, e) == (0, 0) && forall i :: 0 <= i < |rs| ==> Overlaps(rs[i], start, end)
  {
    forall i | 0 <= i < |rs| ensures start < rs[i].start && rs[i].end < end {
    }
  }

  class TimelineDataRange {
    var ranges: seq<DataRange>

    constructor ()
      ensures ranges == []
    {
      ranges := [];
    }

    method AddRange(range: DataRange)
      modifies this
      ensures ranges == old(ranges) + [range]
    {
      ranges := ranges + [range];
    }

    /** The index of a range that covers the key; -1 when the ranges are in order and none does. */
    method Search(key: int) returns (r: int)
      ensures Found(ranges, key, r)
    {
      var l, u := 0, |ranges| - 1;
      while l <= u
        invariant 0 <= l <= u + 1 <= |ranges|
        invariant InOrder(ranges) ==> forall i :: 0 <= i < |ranges| && !(l <= i <= u) ==> !Covers(ranges[i], key)
        decreases u - l
      {
        var i := (l + u) / 2;
        if key >= ranges[i].start && key <= ranges[i].end {
          return i;
        } else if key < ranges[i].start {
          u := i - 1;
        } else {
          l := i + 1;
        }
      }
      return -1;
    }

    /** On ranges in order and a window whose ends no two of them share, exactly the ones a linear scan for
        overlap would give if and only if the ends of the window are in place. */
    method GetRanges(start: int, end: int) returns (selected: seq<DataRange>)
      ensures InOrder(ranges) && !Shared(ranges, start) && !Shared(ranges, end) ==>
        (selected == Overlapping(ranges, start, end) <==> EndsInPlace(ranges, start, end))
    {
      var s := Search(start);
      var e := Search(end);
      if s == -1 && e == -1 {
        selected := [];
      } else if s == -1 {
        selected := ranges[0..e + 1];
      } else if e == -1 {
        selected := ranges[s..|ranges|];
      } else {
        selected := if s <= e + 1 then ranges[s..e + 1] else [];
      }
      if InOrder(ranges) && !Shared(ranges, start) && !Shared(ranges, end) {
        WindowExactIff(ranges, start, end, s, e);
        SliceExactIff(ranges, start, end, s, e, selected);
      }
    }

    /** The same as bounds of indices. */
    method GetRangesBounds(start: int, end: int) returns (lo: int, hi: int)
      ensures 0 <= lo <= |ranges| && 0 <= hi <= |ranges|
      ensures InOrder(ranges) && !Shared(ranges, start) && !Shared(ranges, end) ==>
        (start <= end ==> lo <= hi) &&
          (SelectsOverlapping(ranges, start, end, lo, hi) <==> EndsInPlace(ranges, start, end))
      ensures InOrder(ranges) && start <= end && Covered(ranges, start) && Covered(ranges, end) ==>
        MissesOnlyTouching(ranges, start, end, lo, hi)
    {
      var s := Search(start);
      var e := Search(end);
      if s == -1 && e == -1 {
        lo, hi := 0, 0;
      } else if s == -1 {
        lo, hi := 0, e + 1;
      } else if e == -1 {
        lo, hi := s, |ranges|;
      } else {
        lo, hi := s, e + 1;
      }
      if InOrder(ranges) && !Shared(ranges, start) && !Shared(ranges, end) {
        WindowExactIff(ranges, start, end, s, e);
      }
      if InOrder(ranges) && start <= end && s >= 0 && e >= 0 {
        CoveredMissesOnlyTouching(ranges, start, end, s, e);
      }
    }
  }

  // ---------------------------------------------------------------- events

  ghost predicate Increasing<V>(es: seq<Event<V>>) {
    forall i, j :: 0 <= i < j < |es| ==> es[i].at < es[j].at
  }

  ghost predicate NotDecreasing<V>(es: seq<Event<V>>) {
    forall i, j :: 0 <= i < j < |es| ==> es[i].at <= es[j].at
  }

  /** There is an event exactly at the end of the window, or none later than it. */
  ghost predicate EndsOnEvent<V>(es: seq<Event<V>>, end: int) {
    (exists i :: 0 <= i < |es| && es[i].at == end) || (forall i :: 0 <= i < |es| ==> es[i].at <= end)
  }

  /** An event strictly between two times. */
  ghost predicate EventBetween<V>(es: seq<Event<V>>, after: int, before: int) {
    exists i :: 0 <= i < |es| && after < es[i].at < before
  }

  function During<V>(es: seq<Event<V>>, start: int, end: int): seq<Event<V>> {
    if es == [] then [] else
      var n := |es| - 1;
      During(es[..n], start, end) + if start <= es[n].at <= end then [es[n]] else []
  }

  lemma {:induction false} DuringHas<V>(es: seq<Event<V>>, start: int, end: int, e: Event<V>)
    ensures e in During(es, start, end) <==> e in es && start <= e.at <= end
    decreases |es|
  {
    if es != [] {
      DuringHas(es[..|es| - 1], start, end, e);
      assert es == es[..|es| - 1] + [es[|es| - 1]];
    }
  }

  /** A slice that holds every event of the window is the list of them exactly when it holds no other. */
  lemma {:induction false} SliceIsDuring<V>(es: seq<Event<V>>, start: int, end: int, lo: nat, hi: nat)
    requires lo <= hi <= |es| && forall i :: 0 <= i < |es| && start <= es[i].at <= end ==> lo <= i < hi
    ensures es[lo..hi] == During(es, start, end) <==> forall i :: lo <= i < hi ==> start <= es[i].at <= end
  {
    if i :| lo <= i < hi && !(start <= es[i].at <= end) {
      DuringHas(es, start, end, es[i]);
      assert es[lo..hi][i - lo] == es[i];
    } else {
      ExactSliceIsDuring(es, start, end, lo, hi);
    }
  }

  lemma {:induction false} ExactSliceIsDuring<V>(es: seq<Event<V>>, start: int, end: int, lo: nat, hi: nat)
    requires lo <= hi <= |es|
    requires forall i :: 0 <= i < |es| ==> (lo <= i < hi <==> start <= es[i].at <= end)
    ensures es[lo..hi] == During(es, start, end)
    decreases |es|
  {
    if es != [] {
      var n := |es| - 1;
      var front := es[..n];
      assert forall i :: 0 <= i < n ==> front[i] == es[i];
      if hi == |es| && lo < hi {
        ExactSliceIsDuring(front, start, end, lo, n);
        assert es[lo..hi] == front[lo..n] + [es[n]];
      } else if hi == |es| {
        ExactSliceIsDuring(front, start, end, n, n);
      } else {
        ExactSliceIsDuring(front, start, end, lo, hi);
        assert es[lo..hi] == front[lo..hi];
      }
    }
  }

  class TimelineEvent<V> {
    var events: seq<Event<V>>

    constructor ()
      ensures events == []
    {
      events := [];
    }

    method AddEvent(event: Event<V>)
      modifies this
      ensures events == old(events) + [event]
    {
      events := events + [event];
    }

    /** Between the events earlier than the key and those not; among several events at the key itself, at any
        one of them. */
    method Search(key: int) returns (r: int)
      ensures 0 <= r <= |events|
      ensures Increasing(events) ==> forall i :: 0 <= i < |events| ==> (i < r <==> events[i].at < key)
      ensures NotDecreasing(events) ==>
        forall i :: 0 <= i < |events| ==> if i < r then events[i].at <= key else key <= events[i].at
    {
      var l, u := 0, |events| - 1;
      while l <= u
        invariant 0 <= l <= u + 1 <= |events|
        invariant NotDecreasing(events) ==> forall i :: 0 <= i < l ==> events[i].at < key
        invariant NotDecreasing(events) ==> forall i :: u < i < |events| ==> events[i].at > key
        decreases u - l
      {
        var i := (l + u) / 2;
        if key == events[i].at {
          return i;
        } else if key < events[i].at {
          u := i - 1;
        } else {
          l := i + 1;
        }
      }
      return l;
    }

    /** The events of the window, if it ends on an event, or no event is later than its end, or, for a start
        later than the end, an event lies between them; else one more. */
    method GetEvents(start: int, end: int) returns (selected: seq<Event<V>>)
      ensures Increasing(events) ==>
        (selected == During(events, start, end) <==> EndsOnEvent(events, end) || EventBetween(events, end, start))
    {
      var s := Search(start);
      var e := Search(end);
      selected := if s > e then [] else if e + 1 <= |events| then events[s..e + 1] else events[s..];
      if Increasing(events) {
        var lo: nat, hi: nat := if s > e then 0 else s, if s > e then 0 else if e < |events| then e + 1 else e;
        assert selected == events[lo..hi];
        assert e < |events| ==> !(events[e].at < end);
        assert e < |events| && e < s ==> events[e].at < start;
        SliceIsDuring(events, start, end, lo, hi);
      }
    }

    /** Every event of the window, none before it, and at most one after it: none after it exactly when the
        window ends on an event, or no event is later than its end, or, for a start later than the end, an
        event lies between them. Of several events at the same time, some at the ends of the window may be
        missed. The upper bound may be one past the number of events. */
    method GetEventsBounds(start: int, end: int) returns (lo: int, hi: int)
      ensures 0 <= lo <= |events| && 1 <= hi <= |events| + 1
      ensures Increasing(events) ==>
        && (start <= end ==> lo < hi)
        && (forall i :: 0 <= i < |events| && start <= events[i].at <= end ==> lo <= i < hi)
        && (forall i :: lo <= i < hi && i < |events| ==> start <= events[i].at)
        && (forall i :: lo <= i < hi - 1 ==> events[i].at < end)
        && ((forall i :: lo <= i < hi && i < |events| ==> events[i].at <= end)
              <==> EndsOnEvent(events, end) || EventBetween(events, end, start))
      ensures NotDecreasing(events) ==>
        && (forall i :: 0 <= i < |events| && start < events[i].at < end ==> lo <= i < hi)
        && (forall i :: lo <= i < hi && i < |events| ==> start <= events[i].at)
        && (forall i :: lo <= i < hi - 1 ==> events[i].at <= end)
    {
      var s := Search(start);
      var e := Search(end);
      lo, hi := s, e + 1;
      if Increasing(events) {
        assert e < |events| ==> !(events[e].at < end);
        assert e < |events| && e < s ==> events[e].at < start;
      }
    }
  }
}
