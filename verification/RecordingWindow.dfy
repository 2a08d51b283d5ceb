/** The answer to a list request as a whole: selection, concatenation, trimming. */
module RecordingWindow {
  import opened Common
  import opened RecordingList

  function ParsedOf(segments: seq<Segment>, header: Segment -> Header): (parsed: seq<Parsed>)
    ensures |parsed| == |segments|
  {
    seq(|segments|, i requires 0 <= i < |segments| =>
      Parsed(segments[i].start, header(segments[i]).init, header(segments[i]).duration))
  }

  function TrimmedAtStart(entries: seq<Entry>, start: Option<int>): seq<Entry>
    requires entries != []
  {
    if start.None? then entries
    else if entries[0].End() < start.value then entries[1..]
    else if entries[0].start < start.value then entries[0 := Entry(start.value, entries[0].End() - start.value)]
    else entries
  }

  function TrimmedAtEnd(entries: seq<Entry>, end: Option<int>): seq<Entry>
    requires entries != []
  {
    var n := |entries| - 1;
    if end.Some? && entries[n].End() > end.value
    then entries[n := Entry(entries[n].start, end.value - entries[n].start)]
    else entries
  }

  function Trimmed(entries: seq<Entry>, start: Option<int>, end: Option<int>): Option<seq<Entry>>
    requires entries != []
  {
    var rest := TrimmedAtStart(entries, start);
    if rest == [] then None else Some(TrimmedAtEnd(rest, end))
  }

  /** `None` is the answer 404. */
  function Listed(sorted: seq<Segment>, header: Segment -> Header, start: Option<int>, end: Option<int>)
    : Option<seq<Entry>>
  {
    if sorted == [] then None else Trimmed(Entries(ParsedOf(Selected(sorted, start), header)), start, end)
  }

  /** The trimming in `onList` */
  method Trim(found: seq<Entry>, start: Option<int>, end: Option<int>) returns (r: Option<seq<Entry>>)
    requires found != []
    ensures r == Trimmed(found, start, end)
  {
    var entries := found;
    if start.Some? {
      var firstEntry := entries[0];
      if firstEntry.start + firstEntry.duration < start.value {
        entries := entries[1..];
        if |entries| == 0 {
          return None;
        }
      } else if firstEntry.start < start.value {
        entries := entries[0 := entries[0].(duration := entries[0].duration - (start.value - firstEntry.start))];
        entries := entries[0 := entries[0].(start := start.value)];
        assert entries == TrimmedAtStart(found, start);
      }
    }
    if end.Some? {
      var lastEntry := entries[|entries| - 1];
      if lastEntry.start + lastEntry.duration > end.value {
        entries := entries[|entries| - 1 := lastEntry.(duration := end.value - lastEntry.start)];
      }
    }
    return Some(entries);
  }

  method OnList(
    found: seq<Segment>, sorted: seq<Segment>, header: Segment -> Header, start: Option<int>, end: Option<int>)
    returns (r: Option<seq<Entry>>)
    requires IsSortOf(sorted, Gathered(found, end))
    ensures r == Listed(sorted, header, start, end)
    ensures r.Some? ==> (InWindow(r.value, start, end) <==> !Backwards(start, end))
  {
    SortHas(sorted, found, end);
    var segments := FindSegments(found, sorted, start, end);
    if segments.None? {
      return None;
    }
    var entries := Concatenate(ParsedOf(segments.value, header));
    r := Trim(entries, start, end);
    if r.Some? {
      ListStaysInWindow(sorted, header, start, end);
    }
  }

  // What is listed is in the window

  /** A window may lack a start, or an end. */
  predicate InWindow(entries: seq<Entry>, start: Option<int>, end: Option<int>) {
    && entries != []
    && (forall i :: 0 <= i < |entries| ==> entries[i].duration >= 0)
    && (start.Some? ==> entries[0].start >= start.value)
    && (end.Some? ==> entries[|entries| - 1].End() <= end.value)
  }

  predicate Backwards(start: Option<int>, end: Option<int>) {
    start.Some? && end.Some? && start.value > end.value
  }

  lemma EntriesAreSane(parsed: seq<Parsed>, k: nat)
    requires k < |Entries(parsed)| && forall i, j :: 0 <= i < j < |parsed| ==> parsed[i].start <= parsed[j].start
    ensures
      var from, to := Cuts(parsed)[k], NextCut(Cuts(parsed), k, |parsed|);
      && from < to <= |parsed|
      && Entries(parsed)[k].start == parsed[from].start && Entries(parsed)[k].End() == parsed[to - 1].End()
      && Entries(parsed)[k].duration >= 0
      && (k > 0 ==> from > 0)
  {
    EntriesAreMaximalRuns(parsed, k);
    CutsAreExactly(parsed);
  }

  /** The facts about untrimmed entries that trimming relies on. */
  predicate Sane(entries: seq<Entry>, start: Option<int>, end: Option<int>) {
    && entries != []
    && (forall i :: 0 <= i < |entries| ==> entries[i].duration >= 0)
    && (end.Some? ==> forall i :: 0 <= i < |entries| ==> entries[i].start <= end.value)
    && (start.Some? ==> forall i :: 0 < i < |entries| ==> entries[i].start > start.value)
  }

  /** What is selected, for a window with or without a start. */
  lemma SelectedIsSane(sorted: seq<Segment>, start: Option<int>)
    requires Sorted(sorted) && sorted != []
    ensures Selected(sorted, start) != [] && Sorted(Selected(sorted, start))
    ensures forall s <- Selected(sorted, start) :: s in sorted
    ensures start.Some? ==>
      forall i :: 0 < i < |Selected(sorted, start)| ==> Selected(sorted, start)[i].start > start.value
  {
    if start.Some? {
      SelectedSorted(sorted, start.value);
    }
  }

  lemma EntriesOfSelected(sorted: seq<Segment>, header: Segment -> Header, start: Option<int>, end: Option<int>)
    requires Sorted(sorted) && sorted != [] && forall s <- sorted :: StartsBy(s, end)
    ensures Sane(Entries(ParsedOf(Selected(sorted, start), header)), start, end)
  {
    var segments := Selected(sorted, start);
    var parsed := ParsedOf(segments, header);
    var entries := Entries(parsed);
    SelectedIsSane(sorted, start);
    forall k | 0 <= k < |entries|
      ensures entries[k].duration >= 0
      ensures end.Some? ==> entries[k].start <= end.value
      ensures start.Some? && k > 0 ==> entries[k].start > start.value
    {
      EntriesAreSane(parsed, k);
      assert segments[Cuts(parsed)[k]] in segments;
    }
  }

  lemma TrimStaysInWindow(entries: seq<Entry>, start: Option<int>, end: Option<int>)
    requires Sane(entries, start, end) && Trimmed(entries, start, end).Some?
    ensures InWindow(Trimmed(entries, start, end).value, start, end) <==> !Backwards(start, end)
    ensures Backwards(start, end) ==>
      Trimmed(entries, start, end).value == [Entry(start.value, end.value - start.value)]
  {
    assert start.Some? && end.Some? && |entries| > 1 ==> start.value < entries[1].start <= end.value;
  }

  /**
   * For a window that does not end before it starts, and also for one without a start or without an end, whatever is
   * listed is inside it: no duration is negative, nothing starts before the window, and the last entry ends by its end.
   * For a window that ends before it starts, an answer that is not empty is a single entry of negative duration.
   */
  lemma ListStaysInWindow(sorted: seq<Segment>, header: Segment -> Header, start: Option<int>, end: Option<int>)
    requires Sorted(sorted) && (forall s <- sorted :: StartsBy(s, end))
    requires Listed(sorted, header, start, end).Some?
    ensures InWindow(Listed(sorted, header, start, end).value, start, end) <==> !Backwards(start, end)
    ensures Backwards(start, end) ==>
      Listed(sorted, header, start, end).value == [Entry(start.value, end.value - start.value)]
  {
    EntriesOfSelected(sorted, header, start, end);
    TrimStaysInWindow(Entries(ParsedOf(Selected(sorted, start), header)), start, end);
  }

  /** Without a start, an answer is empty only if there is no segment. */
  lemma WithoutStartAllAreListed(sorted: seq<Segment>, header: Segment -> Header, end: Option<int>)
    requires Sorted(sorted) && (forall s <- sorted :: StartsBy(s, end))
    ensures Listed(sorted, header, None, end).Some? <==> sorted != []
    ensures sorted != [] ==>
      |Listed(sorted, header, None, end).value| == |Entries(ParsedOf(sorted, header))|
  {
    if sorted != [] {
      EntriesOfSelected(sorted, header, None, end);
    }
  }

  // What is listed, instant by instant

  predicate Covers(e: Entry, time: int) {
    e.start <= time <= e.End()
  }

  predicate Recorded(s: Segment, header: Segment -> Header, time: int) {
    s.start <= time <= s.start + header(s).duration
  }

  /** The end of the last segment that is joined, directly or through others, to segment `m`. */
  function RunEnd(parsed: seq<Parsed>, m: nat): int
    requires m < |parsed|
    decreases |parsed| - m
  {
    if m + 1 < |parsed| && Joined(parsed[m], parsed[m + 1]) then RunEnd(parsed, m + 1) else parsed[m].End()
  }

  /** Some segment has started by then, and the run that it belongs to lasts until then. */
  predicate InRun(parsed: seq<Parsed>, time: int, m: nat) {
    m < |parsed| && parsed[m].start <= time <= RunEnd(parsed, m)
  }

  lemma {:induction false} RunEndIs(parsed: seq<Parsed>, m: nat, to: nat)
    requires m < to <= |parsed| && (forall i :: m < i < to ==> Joined(parsed[i - 1], parsed[i]))
    requires to < |parsed| ==> !Joined(parsed[to - 1], parsed[to])
    ensures RunEnd(parsed, m) == parsed[to - 1].End()
    decreases |parsed| - m
  {
    if m + 1 < to {
      RunEndIs(parsed, m + 1, to);
    }
  }

  predicate InOrder(parsed: seq<Parsed>) {
    forall i, j :: 0 <= i < j < |parsed| ==> parsed[i].start <= parsed[j].start
  }

  lemma RunIsCovered(parsed: seq<Parsed>, time: int, m: nat) returns (k: nat)
    requires InOrder(parsed) && InRun(parsed, time, m)
    ensures k < |Entries(parsed)| && Covers(Entries(parsed)[k], time)
  {
    k := CutAt(parsed, m);
    EntriesAreMaximalRuns(parsed, k);
    RunEndIs(parsed, m, NextCut(Cuts(parsed), k, |parsed|));
  }

  lemma CoveredIsInRun(parsed: seq<Parsed>, time: int, k: nat)
    requires k < |Entries(parsed)| && Covers(Entries(parsed)[k], time)
    ensures InRun(parsed, time, Cuts(parsed)[k])
  {
    EntriesAreMaximalRuns(parsed, k);
    RunEndIs(parsed, Cuts(parsed)[k], NextCut(Cuts(parsed), k, |parsed|));
  }

  /** Before trimming, an instant is in an entry exactly when it is in a run. */
  lemma EntriesCoverExactly(parsed: seq<Parsed>, time: int)
    requires InOrder(parsed)
    ensures (exists e <- Entries(parsed) :: Covers(e, time)) <==> exists m: nat :: InRun(parsed, time, m)
  {
    if m: nat :| InRun(parsed, time, m) {
      var k := RunIsCovered(parsed, time, m);
    }
    if k :| 0 <= k < |Entries(parsed)| && Covers(Entries(parsed)[k], time) {
      CoveredIsInRun(parsed, time, k);
    }
  }

  /** Trimming takes nothing away inside the window. */
  lemma TrimKeepsExactly(entries: seq<Entry>, start: int, end: int, time: int)
    requires entries != [] && start <= time <= end
    ensures var r := Trimmed(entries, Some(start), Some(end));
      (exists e <- entries :: Covers(e, time)) <==> r.Some? && exists e <- r.value :: Covers(e, time)
  {
    var rest := TrimmedAtStart(entries, Some(start));
    if k :| 0 <= k < |entries| && Covers(entries[k], time) {
      var j := if entries[0].End() < start then k - 1 else k;
      assert Covers(rest[j], time);
      assert Covers(TrimmedAtEnd(rest, Some(end))[j], time);
    }
    var r := Trimmed(entries, Some(start), Some(end));
    if r.Some? {
      forall j | 0 <= j < |r.value| && Covers(r.value[j], time) ensures exists e <- entries :: Covers(e, time) {
        var k := if entries[0].End() < start then j + 1 else j;
        assert Covers(entries[k], time);
      }
    }
  }

  /**
   * Exactly these instants of the window are listed: those at which a selected segment has started and the run that
   * it belongs to has not ended.
   */
  lemma ListedExactly(sorted: seq<Segment>, header: Segment -> Header, start: int, end: int, time: int)
    requires Sorted(sorted) && sorted != [] && start <= time <= end
    ensures
      var listed := Listed(sorted, header, Some(start), Some(end));
      var parsed := ParsedOf(Selected(sorted, Some(start)), header);
      (listed.Some? && exists e <- listed.value :: Covers(e, time)) <==> exists m: nat :: InRun(parsed, time, m)
  {
    var selected := Selected(sorted, Some(start));
    SelectedSorted(sorted, start);
    EntriesCoverExactly(ParsedOf(selected, header), time);
    TrimKeepsExactly(Entries(ParsedOf(selected, header)), start, end, time);
  }

  // Nothing is listed that is not recorded

  /** There is a recording within half a second of this instant. */
  ghost predicate IsNearby(parsed: seq<Parsed>, time: int) {
    exists i, t :: 0 <= i < |parsed| && RecordedAt(parsed[i], t) && -500_000_000 <= time - t <= 500_000_000
  }

  predicate RecordedAt(p: Parsed, time: int) {
    p.start <= time <= p.start + p.duration
  }

  /** Inside a run, every instant is near one at which there is a recording. */
  lemma {:induction false} RunIsRecorded(parsed: seq<Parsed>, from: nat, to: nat, time: int)
    requires from < to <= |parsed| && (forall i :: from < i < to ==> Joined(parsed[i - 1], parsed[i]))
    requires parsed[from].start <= time <= parsed[to - 1].End()
    ensures IsNearby(parsed, time)
  {
    var last := parsed[to - 1];
    if last.start <= time {
      assert RecordedAt(last, time);
    } else {
      var before := parsed[to - 2];
      assert Joined(parsed[to - 1 - 1], parsed[to - 1]);
      if time <= before.End() {
        RunIsRecorded(parsed, from, to - 1, time);
      } else {
        assert RecordedAt(before, before.End());
      }
    }
  }

  lemma EntryIsRecorded(parsed: seq<Parsed>, k: nat, time: int)
    requires k < |Entries(parsed)| && Covers(Entries(parsed)[k], time)
    ensures IsNearby(parsed, time)
  {
    EntriesAreMaximalRuns(parsed, k);
    var from, to := Cuts(parsed)[k], NextCut(Cuts(parsed), k, |parsed|);
    RunIsRecorded(parsed, from, to, time);
  }

  /** Trimming adds nothing. */
  lemma TrimmedWasCovered(entries: seq<Entry>, start: Option<int>, end: Option<int>, j: nat, time: int)
    returns (k: nat)
    requires entries != [] && Trimmed(entries, start, end).Some?
    requires j < |Trimmed(entries, start, end).value| && Covers(Trimmed(entries, start, end).value[j], time)
    ensures k < |entries| && Covers(entries[k], time)
  {
    var rest := TrimmedAtStart(entries, start);
    assert Covers(rest[j], time);
    k := if start.Some? && entries[0].End() < start.value then j + 1 else j;
  }

  /** Every instant of a listed entry is within half a second of one at which a selected segment is recorded. */
  lemma ListedIsRecorded(
    sorted: seq<Segment>, header: Segment -> Header, start: Option<int>, end: Option<int>, j: nat, time: int)
    requires Listed(sorted, header, start, end).Some? && j < |Listed(sorted, header, start, end).value|
    requires Covers(Listed(sorted, header, start, end).value[j], time)
    ensures IsNearby(ParsedOf(Selected(sorted, start), header), time)
  {
    var parsed := ParsedOf(Selected(sorted, start), header);
    var k := TrimmedWasCovered(Entries(parsed), start, end, j, time);
    EntryIsRecorded(parsed, k, time);
  }

  // Nothing in the window is lost

  /** No recording ends after a later one; they may overlap. */
  predicate EndsInOrder(segments: seq<Segment>, header: Segment -> Header) {
    forall i, j :: 0 <= i < j < |segments| ==>
      segments[i].start + header(segments[i]).duration <= segments[j].start + header(segments[j]).duration
  }

  lemma SelectedHasTime(sorted: seq<Segment>, header: Segment -> Header, start: int, time: int, i: nat) returns (j: nat)
    requires Sorted(sorted) && EndsInOrder(sorted, header) && i < |sorted|
    requires start <= time && Recorded(sorted[i], header, time)
    ensures j < |Selected(sorted, Some(start))| && Recorded(Selected(sorted, Some(start))[j], header, time)
  {
    CountSplits(sorted, start);
    var n := Skipped(sorted, Some(start));
    j := if i < n then 0 else i - n;
  }

  lemma {:induction false} RunEndsLater(parsed: seq<Parsed>, m: nat)
    requires m < |parsed| && forall i, j :: 0 <= i < j < |parsed| ==> parsed[i].End() <= parsed[j].End()
    ensures parsed[m].End() <= RunEnd(parsed, m)
    decreases |parsed| - m
  {
    if m + 1 < |parsed| {
      RunEndsLater(parsed, m + 1);
    }
  }

  /**
   * Every instant of the window at which there is a recording is in a listed entry, as long as no recording ends after
   * a later one.
   */
  lemma NothingIsLost(sorted: seq<Segment>, header: Segment -> Header, start: int, end: int, time: int)
    requires Sorted(sorted) && EndsInOrder(sorted, header) && start <= time <= end
    requires exists s <- sorted :: Recorded(s, header, time)
    ensures Listed(sorted, header, Some(start), Some(end)).Some?
    ensures exists e <- Listed(sorted, header, Some(start), Some(end)).value :: Covers(e, time)
  {
    var i :| 0 <= i < |sorted| && Recorded(sorted[i], header, time);
    var j := SelectedHasTime(sorted, header, start, time, i);
    var parsed := ParsedOf(Selected(sorted, Some(start)), header);
    RunEndsLater(parsed, j);
    assert InRun(parsed, time, j);
    ListedExactly(sorted, header, start, end, time);
  }

  function Overtaken(s: Segment): Header {
    Header(0, if s.start == 0 then 100 else 10)
  }

  lemma ParsedOfOne(a: Segment, header: Segment -> Header)
    ensures ParsedOf([a], header) == [Parsed(a.start, header(a).init, header(a).duration)]
  {
  }

  lemma OneEntry(p: Parsed)
    ensures Entries([p]) == [Entry(p.start, p.duration)]
  {
    EntriesOneMore([], p);
    assert [] + [p] == [p];
  }

  /** A long recording that is overtaken by a short later one is lost, although it spans the whole window. */
  lemma LongRecordingCanBeLost()
    ensures var sorted := [Segment("a", 0), Segment("b", 10)];
      && Sorted(sorted) && Listed(sorted, Overtaken, Some(50), Some(60)) == None
      && forall time :: 50 <= time <= 60 ==> Recorded(sorted[0], Overtaken, time)
  {
    var sorted := [Segment("a", 0), Segment("b", 10)];
    CountSplits(sorted, 50);
    assert sorted[1].start <= 50 && CountBy(sorted, 50) == 2;
    assert Selected(sorted, Some(50)) == [Segment("b", 10)];
    var b := Segment("b", 10);
    assert Overtaken(b) == Header(0, 10);
    ParsedOfOne(b, Overtaken);
    OneEntry(Parsed(10, 0, 10));
  }

  // Entries in the middle

  /**
   * Not only the last entry but every entry ends by the end of the window if and only if every segment that is not
   * joined to the next one does.
   */
  lemma AllEndInWindowExactlyWhen(sorted: seq<Segment>, header: Segment -> Header, start: int, end: int)
    requires Sorted(sorted) && start <= end && (forall s <- sorted :: s.start <= end)
    requires Listed(sorted, header, Some(start), Some(end)).Some?
    ensures
      (forall e <- Listed(sorted, header, Some(start), Some(end)).value :: e.End() <= end) <==>
      UnjoinedEndBy(ParsedOf(Selected(sorted, Some(start)), header), end)
  {
    var parsed := ParsedOf(Selected(sorted, Some(start)), header);
    EntriesOfSelected(sorted, header, Some(start), Some(end));
    MiddleEndsExactly(parsed, end);
    TrimEndsExactly(Entries(parsed), start, end);
  }

  predicate UnjoinedEndBy(parsed: seq<Parsed>, end: int) {
    forall i :: 0 < i < |parsed| && !Joined(parsed[i - 1], parsed[i]) ==> parsed[i - 1].End() <= end
  }

  /** The segment before a cut is not joined to the next one, and its end is the end of an entry. */
  lemma EndBeforeCut(parsed: seq<Parsed>, k: nat)
    requires k + 1 < |Cuts(parsed)|
    ensures 0 < Cuts(parsed)[k + 1] < |parsed|
    ensures !Joined(parsed[Cuts(parsed)[k + 1] - 1], parsed[Cuts(parsed)[k + 1]])
    ensures Entries(parsed)[k].End() == parsed[Cuts(parsed)[k + 1] - 1].End()
  {
    EntriesAreMaximalRuns(parsed, k);
  }

  lemma CutBetween(parsed: seq<Parsed>, i: nat) returns (k: nat)
    requires 0 < i < |parsed| && !Joined(parsed[i - 1], parsed[i])
    ensures k + 1 < |Cuts(parsed)| && Cuts(parsed)[k + 1] == i
  {
    CutsAreExactly(parsed);
    var j :| 0 <= j < |Cuts(parsed)| && Cuts(parsed)[j] == i;
    k := j - 1;
  }

  lemma MiddleEndsExactly(parsed: seq<Parsed>, end: int)
    ensures (forall k :: 0 <= k < |Entries(parsed)| - 1 ==> Entries(parsed)[k].End() <= end) <==>
            UnjoinedEndBy(parsed, end)
  {
    if forall k :: 0 <= k < |Entries(parsed)| - 1 ==> Entries(parsed)[k].End() <= end {
      forall i | 0 < i < |parsed| && !Joined(parsed[i - 1], parsed[i]) ensures parsed[i - 1].End() <= end {
        var k := CutBetween(parsed, i);
        EndBeforeCut(parsed, k);
      }
    }
    if UnjoinedEndBy(parsed, end) {
      forall k | 0 <= k < |Entries(parsed)| - 1 ensures Entries(parsed)[k].End() <= end {
        EndBeforeCut(parsed, k);
      }
    }
  }

  /** Trimming drops at most the first entry, and changes no end but the last one. */
  lemma TrimKeepsEnds(entries: seq<Entry>, start: int, end: int) returns (dropped: nat)
    requires Sane(entries, Some(start), Some(end)) && start <= end
    requires Trimmed(entries, Some(start), Some(end)).Some?
    ensures var r := Trimmed(entries, Some(start), Some(end)).value;
      && dropped <= 1 && (dropped == 1 ==> entries[0].End() < start)
      && |r| == |entries| - dropped > 0 && r[|r| - 1].End() <= end
      && forall j :: 0 <= j < |r| - 1 ==> r[j].End() == entries[j + dropped].End()
  {
    dropped := if entries[0].End() < start then 1 else 0;
  }

  lemma TrimEndsExactly(entries: seq<Entry>, start: int, end: int)
    requires Sane(entries, Some(start), Some(end)) && start <= end
    requires Trimmed(entries, Some(start), Some(end)).Some?
    ensures (forall e <- Trimmed(entries, Some(start), Some(end)).value :: e.End() <= end) <==>
            forall k :: 0 <= k < |entries| - 1 ==> entries[k].End() <= end
  {
    var dropped := TrimKeepsEnds(entries, start, end);
    SameEnds(entries, Trimmed(entries, Some(start), Some(end)).value, dropped, end);
  }

  lemma SameEnds(entries: seq<Entry>, r: seq<Entry>, dropped: nat, end: int)
    requires dropped <= 1 && |r| == |entries| - dropped > 0 && r[|r| - 1].End() <= end
    requires dropped == 1 ==> entries[0].End() <= end
    requires forall j :: 0 <= j < |r| - 1 ==> r[j].End() == entries[j + dropped].End()
    ensures (forall e <- r :: e.End() <= end) <==> forall k :: 0 <= k < |entries| - 1 ==> entries[k].End() <= end
  {
    forall k | 0 <= k < |entries| - 1 && (forall e <- r :: e.End() <= end) ensures entries[k].End() <= end {
      if k >= dropped {
        assert r[k - dropped] in r;
      }
    }
  }

  /** Nine seconds from 0 on, one second otherwise. */
  function LongFirst(s: Segment): Header {
    Header(0, if s.start == 0 then 9_000_000_000 else 1_000_000_000)
  }

  const OVERLAPPING := [Segment("a", 0), Segment("b", 1_000_000_000)]

  lemma OverlappingSelected()
    ensures Sorted(OVERLAPPING) && Selected(OVERLAPPING, Some(0)) == OVERLAPPING
  {
    CountSplits(OVERLAPPING, 0);
    assert CountBy(OVERLAPPING, 0) == 1;
  }

  lemma ParsedOfTwo(a: Segment, b: Segment, header: Segment -> Header)
    ensures ParsedOf([a, b], header) ==
            [Parsed(a.start, header(a).init, header(a).duration), Parsed(b.start, header(b).init, header(b).duration)]
  {
  }

  lemma TwoEntries(a: Parsed, b: Parsed)
    requires !Joined(a, b)
    ensures Entries([a, b]) == [Entry(a.start, a.duration), Entry(b.start, b.duration)]
  {
    assert [] + [a] == [a] && [a] + [b] == [a, b];
    EntriesOneMore([], a);
    EntriesOneMore([a], b);
  }

  /** Recordings that overlap by more than the tolerance can leave an entry in the middle that ends too late. */
  lemma OverlapCanEndLate()
    ensures Sorted(OVERLAPPING)
    ensures Listed(OVERLAPPING, LongFirst, Some(0), Some(2_000_000_000)) ==
            Some([Entry(0, 9_000_000_000), Entry(1_000_000_000, 1_000_000_000)])
  {
    OverlappingSelected();
    var a, b := OVERLAPPING[0], OVERLAPPING[1];
    assert LongFirst(a) == Header(0, 9_000_000_000) && LongFirst(b) == Header(0, 1_000_000_000);
    ParsedOfTwo(a, b, LongFirst);
    TwoEntries(Parsed(0, 0, 9_000_000_000), Parsed(1_000_000_000, 0, 1_000_000_000));
  }
}
