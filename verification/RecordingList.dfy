/**
 * The list of recordings of a path in a time window: selection of segments (recordstore/segment.go), concatenation and
 * trimming (playback/on_list.go, playback/segment_fmp4.go). Times are in nanoseconds.
 */
module RecordingList {
  import opened Common

  datatype Segment = Segment(fpath: string, start: int)

  /** What is read from the file of a segment: its track list, and its duration. */
  datatype Header = Header(init: nat, duration: nat)

  datatype Parsed = Parsed(start: int, init: nat, duration: nat)
  {
    function End(): int { start + duration }
  }

  datatype Entry = Entry(start: int, duration: int)
  {
    function End(): int { start + duration }
  }

  // Selection

  predicate StartsBy(s: Segment, time: Option<int>) {
    time.None? || s.start <= time.value
  }

  /** The segments that start by the end of the window. */
  function Gathered(found: seq<Segment>, end: Option<int>): seq<Segment> {
    if found == [] then []
    else
      Gathered(found[..|found| - 1], end) +
      if StartsBy(found[|found| - 1], end) then [found[|found| - 1]] else []
  }

  predicate Sorted(segments: seq<Segment>) {
    forall i, j :: 0 <= i < j < |segments| ==> segments[i].start <= segments[j].start
  }

  /** A possible outcome of sorting: segments that start at the same time come in any order. */
  ghost predicate IsSortOf(sorted: seq<Segment>, segments: seq<Segment>) {
    Sorted(sorted) && multiset(sorted) == multiset(segments)
  }

  function CountBy(segments: seq<Segment>, time: int): (n: nat)
    ensures n <= |segments|
  {
    if segments == [] then 0
    else CountBy(segments[..|segments| - 1], time) + if segments[|segments| - 1].start <= time then 1 else 0
  }

  /** In sorted order, the segments that start by `time` come first. */
  lemma {:induction false} CountSplits(segments: seq<Segment>, time: int)
    requires Sorted(segments)
    ensures forall i :: 0 <= i < |segments| ==> (segments[i].start <= time <==> i < CountBy(segments, time))
  {
    if segments != [] {
      var front := segments[..|segments| - 1];
      CountSplits(front, time);
      forall i | 0 <= i < |front| ensures segments[i].start <= time <==> i < CountBy(front, time) {
        assert segments[i] == front[i];
      }
    }
  }

  /** Of the segments that start by the start of the window only the last one can reach into it. */
  function Skipped(sorted: seq<Segment>, start: Option<int>): (n: nat)
    ensures n <= |sorted| && (sorted != [] ==> n < |sorted|)
  {
    if start.None? || CountBy(sorted, start.value) == 0 then 0 else CountBy(sorted, start.value) - 1
  }

  function Selected(sorted: seq<Segment>, start: Option<int>): seq<Segment> {
    sorted[Skipped(sorted, start)..]
  }

  lemma {:induction false} GatheredHas(found: seq<Segment>, end: Option<int>, s: Segment)
    ensures s in Gathered(found, end) <==> s in found && StartsBy(s, end)
  {
    if found != [] {
      GatheredHas(found[..|found| - 1], end, s);
      assert found == found[..|found| - 1] + [found[|found| - 1]];
    }
  }

  lemma SortHas(sorted: seq<Segment>, found: seq<Segment>, end: Option<int>)
    requires IsSortOf(sorted, Gathered(found, end))
    ensures Sorted(sorted) && |sorted| == |Gathered(found, end)|
    ensures forall s :: s in sorted <==> s in found && StartsBy(s, end)
  {
    assert |multiset(sorted)| == |sorted| && |multiset(Gathered(found, end))| == |Gathered(found, end)|;
    forall s: Segment ensures s in sorted <==> s in found && StartsBy(s, end) {
      GatheredHas(found, end, s);
      assert s in sorted <==> s in multiset(sorted);
    }
  }

  /**
   * `found` are the segments of the directory, as they are met; `sorted` is the outcome of the library's sort, any
   * outcome that it is allowed to have.
   */
  method FindSegments(found: seq<Segment>, sorted: seq<Segment>, start: Option<int>, end: Option<int>)
    returns (segments: Option<seq<Segment>>)
    requires IsSortOf(sorted, Gathered(found, end))
    ensures segments.None? <==> forall s <- found :: !StartsBy(s, end)
    ensures segments.None? <==> sorted == []
    ensures segments.Some? ==> segments.value == Selected(sorted, start) && segments.value != []
  {
    var gathered := Gather(found, end);
    SortHas(sorted, found, end);
    if gathered == [] {
      assert sorted == [];
      forall s <- found ensures !StartsBy(s, end) {
        assert s !in sorted;
      }
      return None;
    }
    assert sorted[0] in sorted;
    var selected := FromStart(sorted, start);
    return Some(selected);
  }

  method Gather(found: seq<Segment>, end: Option<int>) returns (segments: seq<Segment>)
    ensures segments == Gathered(found, end)
  {
    segments := [];
    for i := 0 to |found|
      invariant segments == Gathered(found[..i], end)
    {
      assert found[..i + 1][..i] == found[..i];
      if end.None? || !(end.value < found[i].start) {
        segments := segments + [found[i]];
      }
    }
    assert found[..|found|] == found;
  }

  method FromStart(sorted: seq<Segment>, start: Option<int>) returns (segments: seq<Segment>)
    requires Sorted(sorted) && sorted != []
    ensures segments == Selected(sorted, start) && segments != []
  {
    if start.Some? {
      CountSplits(sorted, start.value);
      if start.value < sorted[0].start {
        return sorted;
      }
      for i := 0 to |sorted| - 1
        invariant forall k :: 0 <= k <= i ==> sorted[k].start <= start.value
      {
        if !(start.value < sorted[i].start) && start.value < sorted[i + 1].start {
          return sorted[i..];
        }
      }
      // the source looks again at the start of the last segment; it cannot be after the start of the window
      assert sorted[|sorted| - 1].start <= start.value;
      return sorted[|sorted| - 1..];
    }
    return sorted;
  }

  lemma SelectedSorted(sorted: seq<Segment>, start: int)
    requires Sorted(sorted)
    ensures Sorted(Selected(sorted, Some(start))) && forall s <- Selected(sorted, Some(start)) :: s in sorted
    ensures forall i :: 0 < i < |Selected(sorted, Some(start))| ==> Selected(sorted, Some(start))[i].start > start
  {
    CountSplits(sorted, start);
  }

  lemma SelectedLate(sorted: seq<Segment>, start: int)
    requires Sorted(sorted)
    ensures forall s <- sorted :: s.start > start ==> s in Selected(sorted, Some(start))
  {
    CountSplits(sorted, start);
    var n := Skipped(sorted, Some(start));
    forall i | 0 <= i < |sorted| && sorted[i].start > start ensures sorted[i] in Selected(sorted, Some(start)) {
      assert sorted[n..][i - n] == sorted[i];
    }
  }

  lemma SelectedEarly(sorted: seq<Segment>, start: int)
    requires Sorted(sorted)
    ensures forall s <- sorted :: s.start <= start ==>
      Selected(sorted, Some(start)) != [] && s.start <= Selected(sorted, Some(start))[0].start <= start
  {
    CountSplits(sorted, start);
    var n := Skipped(sorted, Some(start));
    forall i | 0 <= i < |sorted| && sorted[i].start <= start
      ensures i <= n < |sorted| && sorted[i].start <= sorted[n].start <= start
    {
    }
  }

  /**
   * Exactly these segments are selected: those that start in the window, and of those that start by its start a
   * latest one, if any.
   */
  lemma SelectedAreExactly(found: seq<Segment>, sorted: seq<Segment>, start: int, end: Option<int>)
    requires IsSortOf(sorted, Gathered(found, end))
    ensures
      var selected := Selected(sorted, Some(start));
      && Sorted(selected)
      && (forall s :: s in selected && s.start > start <==> s in found && s.start > start && StartsBy(s, end))
      && (forall i :: 0 < i < |selected| ==> selected[i].start > start)
      && (selected != [] && selected[0].start <= start <==> exists s <- found :: s.start <= start && StartsBy(s, end))
      && (forall s <- found :: s.start <= start && StartsBy(s, end) ==> s.start <= selected[0].start)
  {
    SortHas(sorted, found, end);
    SelectedSorted(sorted, start);
    SelectedLate(sorted, start);
    SelectedEarly(sorted, start);
    var selected := Selected(sorted, Some(start));
    if selected != [] && selected[0].start <= start {
      assert selected[0] in sorted;
    }
  }

  // Concatenation

  const TOLERANCE := 500_000_000

  predicate CanBeConcatenated(prevInit: nat, prevEnd: int, init: nat, start: int) {
    prevInit == init && !(start < prevEnd - TOLERANCE) && !(start > prevEnd + TOLERANCE)
  }

  predicate Joined(a: Parsed, b: Parsed) {
    CanBeConcatenated(a.init, a.End(), b.init, b.start)
  }

  /** The segments with which a new entry starts: those that cannot be joined to their predecessor. */
  function Cuts(parsed: seq<Parsed>): (cuts: seq<nat>)
    ensures forall k :: 0 <= k < |cuts| ==> cuts[k] < |parsed|
    ensures parsed != [] ==> cuts != [] && cuts[0] == 0
  {
    if parsed == [] then []
    else
      var n := |parsed| - 1;
      Cuts(parsed[..n]) + if n == 0 || !Joined(parsed[n - 1], parsed[n]) then [n] else []
  }

  function NextCut(cuts: seq<nat>, k: nat, total: nat): nat {
    if k + 1 < |cuts| then cuts[k + 1] else total
  }

  lemma {:induction false} CutsHas(parsed: seq<Parsed>, i: nat)
    requires i < |parsed|
    ensures i in Cuts(parsed) <==> i == 0 || !Joined(parsed[i - 1], parsed[i])
  {
    var n := |parsed| - 1;
    var front := Cuts(parsed[..n]);
    if i < n {
      CutsHas(parsed[..n], i);
      assert i in Cuts(parsed) <==> i in front;
    } else {
      assert n !in front;
    }
  }

  lemma {:induction false} CutsAscend(parsed: seq<Parsed>)
    ensures forall j, k :: 0 <= j < k < |Cuts(parsed)| ==> Cuts(parsed)[j] < Cuts(parsed)[k]
  {
    if parsed != [] {
      CutsAscend(parsed[..|parsed| - 1]);
    }
  }

  lemma CutsAreExactly(parsed: seq<Parsed>)
    ensures forall i :: 0 <= i < |parsed| ==>
      (i in Cuts(parsed) <==> i == 0 || !Joined(parsed[i - 1], parsed[i]))
    ensures forall j, k :: 0 <= j < k < |Cuts(parsed)| ==> Cuts(parsed)[j] < Cuts(parsed)[k]
  {
    forall i | 0 <= i < |parsed| ensures i in Cuts(parsed) <==> i == 0 || !Joined(parsed[i - 1], parsed[i]) {
      CutsHas(parsed, i);
    }
    CutsAscend(parsed);
  }

  /** From the start of the first segment to the end of the last one. */
  function EntryOf(parsed: seq<Parsed>, from: nat, to: nat): Entry
    requires from < to <= |parsed|
  {
    Entry(parsed[from].start, parsed[to - 1].End() - parsed[from].start)
  }

  function Entries(parsed: seq<Parsed>): (entries: seq<Entry>)
    ensures |entries| == |Cuts(parsed)|
  {
    CutsAreExactly(parsed);
    var cuts := Cuts(parsed);
    seq(|cuts|, k requires 0 <= k < |cuts| => EntryOf(parsed, cuts[k], NextCut(cuts, k, |parsed|)))
  }

  /**
   * The entries are the maximal runs of segments that can be joined: each covers the segments from its cut to the next
   * one, in which all are joined to their predecessors and have the same tracks, and cannot be extended.
   */
  lemma EntriesAreMaximalRuns(parsed: seq<Parsed>, k: nat)
    requires k < |Entries(parsed)|
    ensures
      var from, to := Cuts(parsed)[k], NextCut(Cuts(parsed), k, |parsed|);
      && (k == 0 ==> from == 0) && (k == |Entries(parsed)| - 1 ==> to == |parsed|)
      && from < to <= |parsed| && Entries(parsed)[k] == EntryOf(parsed, from, to)
      && (forall i :: from < i < to ==> Joined(parsed[i - 1], parsed[i]))
      && (forall i :: from <= i < to ==> parsed[i].init == parsed[from].init)
      && (from > 0 ==> !Joined(parsed[from - 1], parsed[from]))
      && (to < |parsed| ==> !Joined(parsed[to - 1], parsed[to]))
  {
    CutsAreExactly(parsed);
    var cuts := Cuts(parsed);
    var from, to := cuts[k], NextCut(cuts, k, |parsed|);
    NothingBetween(cuts, k, |parsed|);
    assert forall i :: from < i < to ==> Joined(parsed[i - 1], parsed[i]);
    RunHasOneInit(parsed, from, to);
  }

  lemma NothingBetween(cuts: seq<nat>, k: nat, total: nat)
    requires k < |cuts| && forall i, j :: 0 <= i < j < |cuts| ==> cuts[i] < cuts[j]
    ensures forall i :: cuts[k] < i < NextCut(cuts, k, total) ==> i !in cuts
  {
    forall i | cuts[k] < i < NextCut(cuts, k, total) ensures i !in cuts {
      forall j | 0 <= j < |cuts| ensures cuts[j] != i {
        assert j <= k || k + 1 <= j;
      }
    }
  }

  lemma {:induction false} RunHasOneInit(parsed: seq<Parsed>, from: nat, to: nat)
    requires from < to <= |parsed| && forall i :: from < i < to ==> Joined(parsed[i - 1], parsed[i])
    ensures forall i :: from <= i < to ==> parsed[i].init == parsed[from].init
  {
    if from + 1 < to {
      RunHasOneInit(parsed, from, to - 1);
      assert Joined(parsed[to - 2], parsed[to - 1]);
    }
  }

  /** The segments `i` and `j` have become part of the same entry. */
  ghost predicate InOneEntry(parsed: seq<Parsed>, i: nat, j: nat) {
    exists k :: 0 <= k < |Cuts(parsed)| && Cuts(parsed)[k] <= i <= j < NextCut(Cuts(parsed), k, |parsed|)
  }

  /** The cut at or before a segment. */
  lemma CutAt(parsed: seq<Parsed>, i: nat) returns (k: nat)
    requires i < |parsed|
    ensures k < |Cuts(parsed)| && Cuts(parsed)[k] <= i < NextCut(Cuts(parsed), k, |parsed|)
  {
    CutsAreExactly(parsed);
    k := |Cuts(parsed)| - 1;
    while Cuts(parsed)[k] > i
      invariant k < |Cuts(parsed)| && i < NextCut(Cuts(parsed), k, |parsed|)
    {
      k := k - 1;
    }
  }

  /**
   * Neighbours are in one entry if and only if they have the same tracks and the second starts at most half a second
   * before or after the end of the first.
   */
  lemma NeighboursAreInOneEntryExactlyWhen(parsed: seq<Parsed>, i: nat)
    requires 0 < i < |parsed|
    ensures var gap := parsed[i].start - (parsed[i - 1].start + parsed[i - 1].duration);
      InOneEntry(parsed, i - 1, i) <==>
      parsed[i - 1].init == parsed[i].init && -500_000_000 <= gap <= 500_000_000
  {
    CutsAreExactly(parsed);
    if Joined(parsed[i - 1], parsed[i]) {
      var k := CutAt(parsed, i);
      assert Cuts(parsed)[k] != i;
    } else {
      var j :| 0 <= j < |Cuts(parsed)| && Cuts(parsed)[j] == i;
      forall k | 0 <= k < |Cuts(parsed)| && Cuts(parsed)[k] <= i - 1
        ensures NextCut(Cuts(parsed), k, |parsed|) <= i
      {
        assert k < j && (k + 1 < j ==> Cuts(parsed)[k + 1] < Cuts(parsed)[j]);
      }
    }
  }

  lemma EntriesOneMore(parsed: seq<Parsed>, p: Parsed)
    ensures
      var before, after := Entries(parsed), Entries(parsed + [p]);
      if parsed == [] || !Joined(parsed[|parsed| - 1], p)
      then after == before + [Entry(p.start, p.duration)]
      else
        && before != []
        && after == before[|before| - 1 := Entry(before[|before| - 1].start, p.End() - before[|before| - 1].start)]
  {
    assert (parsed + [p])[..|parsed|] == parsed;
  }

  /** `concatenateSegments` */
  method Concatenate(parsed: seq<Parsed>) returns (out: seq<Entry>)
    ensures out == Entries(parsed)
  {
    out := [];
    var prevInit := 0;
    for i := 0 to |parsed|
      invariant out == Entries(parsed[..i])
      invariant i > 0 ==> out != [] && prevInit == parsed[i - 1].init && out[|out| - 1].End() == parsed[i - 1].End()
    {
      assert parsed[..i + 1] == parsed[..i] + [parsed[i]];
      EntriesOneMore(parsed[..i], parsed[i]);
      var n := |out| - 1;
      if |out| != 0 && CanBeConcatenated(prevInit, out[n].start + out[n].duration, parsed[i].init, parsed[i].start) {
        var curEnd := parsed[i].start + parsed[i].duration;
        out := out[n := out[n].(duration := curEnd - out[n].start)];
      } else {
        out := out + [Entry(parsed[i].start, parsed[i].duration)];
      }
      prevInit := parsed[i].init;
    }
    assert parsed[..|parsed|] == parsed;
  }
}
