/**
 * Import (Data.cs): read a snapshot script line by line, collect lines in a
 * buffer, and at every batch marker line execute the buffer and clear it.
 */
module SnapshotImport {
  import opened Wrappers
  import opened Strings
  import opened SqlLog
  import opened SnapshotFormat

  /** The loop's state between two lines: what was executed, and the buffer. */
  datatype ImportState = ImportState(executed: seq<string>, buffer: string)

  /** One line: a marker executes and clears the buffer; any other line is appended with a newline. */
  function ImportLine(st: ImportState, line: string): ImportState {
    if IsMarker(line) then ImportState(st.executed + [st.buffer], "")
    else ImportState(st.executed, st.buffer + line + "\n")
  }

  /** Feeding lines one by one, left to right. */
  function Feed(st: ImportState, lines: seq<string>): ImportState
    decreases |lines|
  {
    if lines == [] then st else Feed(ImportLine(st, lines[0]), lines[1..])
  }

  /** The batches executed for a file whose ReadLine results are `lines`. */
  function ImportedBatches(lines: seq<string>): seq<string> {
    Feed(ImportState([], ""), lines).executed
  }

  /**
   * Import: the loop runs until ReadLine returns null. The null at the end
   * appends an empty line to the buffer, which is never executed.
   */
  method Import(text: string, db: Database)
    modifies db
    ensures db.log == old(db.log) + ImportedBatches(ReadLines(text))
  {
    var lines := ReadLines(text);
    var i := 0;
    var sb := "";
    ghost var executed: seq<string> := [];
    var line: Option<string> := Some("");
    while line.Some?
      invariant 0 <= i <= |lines|
      invariant line.None? ==> i == |lines|
      invariant db.log == old(db.log) + executed
      invariant line.Some? ==> Feed(ImportState(executed, sb), lines[i..]) == Feed(ImportState([], ""), lines)
      invariant line.None? ==> ImportState(executed, "").executed == Feed(ImportState([], ""), lines).executed
      decreases |lines| - i, if line.Some? then 1 else 0
    {
      ghost var before := ImportState(executed, sb);
      line := if i < |lines| then Some(lines[i]) else None;
      if line.Some? && IsMarker(line.value) {
        db.WriteRaw(sb);
        executed := executed + [sb];
        sb := "";
      } else {
        sb := sb + (if line.Some? then line.value else "") + "\n";
      }
      if line.Some? {
        assert ImportLine(before, lines[i]) == ImportState(executed, sb);
        i := i + 1;
      }
    }
  }

  // ---------------------------------------------------------------------------
  // The batches, described without the loop

  /** Index of the first marker line, or |lines| when there is none. */
  function FirstMarker(lines: seq<string>): (k: nat)
    ensures k <= |lines|
    ensures forall j :: 0 <= j < k ==> !IsMarker(lines[j])
    ensures k < |lines| ==> IsMarker(lines[k])
    decreases |lines|
  {
    if lines == [] || IsMarker(lines[0]) then 0 else 1 + FirstMarker(lines[1..])
  }

  /**
   * The file cut at its marker lines: one batch per marker, holding the
   * lines since the previous marker (the first one prefixed by `pending`),
   * each followed by a newline; what follows the last marker is dropped.
   */
  function Segments(pending: string, lines: seq<string>): seq<string>
    decreases |lines|
  {
    var k := FirstMarker(lines);
    if k == |lines| then []
    else [pending + Unlines(lines[..k])] + Segments("", lines[k + 1..])
  }

  lemma UnlinesCons(lines: seq<string>)
    requires lines != []
    ensures Unlines(lines) == lines[0] + "\n" + Unlines(lines[1..])
  {
  }

  /** Feeding lines executes the file's segments, the first one after what was already buffered. */
  lemma {:induction false} FeedSegments(st: ImportState, lines: seq<string>)
    ensures Feed(st, lines).executed == st.executed + Segments(st.buffer, lines)
    decreases |lines|
  {
    if lines != [] {
      var l := lines[0];
      var rest := lines[1..];
      FeedSegments(ImportLine(st, l), rest);
      if IsMarker(l) {
        assert FirstMarker(lines) == 0;
        assert lines[..0] == [];
        assert st.buffer + Unlines(lines[..0]) == st.buffer;
      } else {
        var k := FirstMarker(rest);
        assert FirstMarker(lines) == k + 1;
        if k < |rest| {
          assert lines[..k + 1] == [l] + rest[..k];
          UnlinesCons(lines[..k + 1]);
          assert lines[..k + 1][1..] == rest[..k];
          assert lines[k + 2..] == rest[k + 1..];
          assert st.buffer + Unlines(lines[..k + 1]) == (st.buffer + l + "\n") + Unlines(rest[..k]);
        }
      }
    }
  }

  /** Each executed batch is exactly the lines since the previous marker; trailing lines are never executed. */
  lemma ImportedBatchesAreSegments(lines: seq<string>)
    ensures ImportedBatches(lines) == Segments("", lines)
  {
    FeedSegments(ImportState([], ""), lines);
  }

  lemma {:induction false} SegmentsCount(pending: string, lines: seq<string>)
    ensures |Segments(pending, lines)| == MarkerCount(lines)
    decreases |lines|
  {
    if lines != [] {
      var k := FirstMarker(lines);
      if k == |lines| {
        NoMarkersCount(lines);
      } else {
        SegmentsCount("", lines[k + 1..]);
        MarkerCountSplit(lines, k);
      }
    }
  }

  lemma {:induction false} NoMarkersCount(lines: seq<string>)
    requires forall j :: 0 <= j < |lines| ==> !IsMarker(lines[j])
    ensures MarkerCount(lines) == 0
    decreases |lines|
  {
    if lines != [] {
      NoMarkersCount(lines[1..]);
    }
  }

  lemma {:induction false} MarkerCountSplit(lines: seq<string>, k: nat)
    requires k < |lines| && IsMarker(lines[k])
    requires forall j :: 0 <= j < k ==> !IsMarker(lines[j])
    ensures MarkerCount(lines) == 1 + MarkerCount(lines[k + 1..])
    decreases k
  {
    if k > 0 {
      MarkerCountSplit(lines[1..], k - 1);
      assert lines[1..][k..] == lines[k + 1..];
    } else {
      assert lines[1..] == lines[k + 1..];
    }
  }

  /** The number of batches executed is the number of marker lines. */
  lemma ImportExecutesOncePerMarker(lines: seq<string>)
    ensures |ImportedBatches(lines)| == MarkerCount(lines)
  {
    ImportedBatchesAreSegments(lines);
    SegmentsCount("", lines);
  }

  /** Lines after the last marker change nothing: they stay in the buffer, which is never executed. */
  lemma {:induction false} TrailingLinesIgnored(lines: seq<string>, tail: seq<string>)
    requires forall j :: 0 <= j < |tail| ==> !IsMarker(tail[j])
    ensures ImportedBatches(lines + tail) == ImportedBatches(lines)
  {
    ImportedBatchesAreSegments(lines + tail);
    ImportedBatchesAreSegments(lines);
    SegmentsTail("", lines, tail);
  }

  lemma {:induction false} SegmentsTail(pending: string, lines: seq<string>, tail: seq<string>)
    requires forall j :: 0 <= j < |tail| ==> !IsMarker(tail[j])
    ensures Segments(pending, lines + tail) == Segments(pending, lines)
    decreases |lines|
  {
    var k := FirstMarker(lines);
    var s := lines + tail;
    if k == |lines| {
      assert FirstMarker(s) == |s| by {
        FirstMarkerNone(s);
      }
    } else {
      FirstMarkerPrefix(lines, tail);
      assert s[..k] == lines[..k];
      assert s[k + 1..] == lines[k + 1..] + tail;
      SegmentsTail("", lines[k + 1..], tail);
    }
  }

  lemma {:induction false} FirstMarkerNone(lines: seq<string>)
    requires forall j :: 0 <= j < |lines| ==> !IsMarker(lines[j])
    ensures FirstMarker(lines) == |lines|
    decreases |lines|
  {
    if lines != [] {
      FirstMarkerNone(lines[1..]);
    }
  }

  lemma {:induction false} FirstMarkerPrefix(lines: seq<string>, tail: seq<string>)
    requires FirstMarker(lines) < |lines|
    ensures FirstMarker(lines + tail) == FirstMarker(lines)
    decreases |lines|
  {
    if !IsMarker(lines[0]) {
      assert (lines + tail)[1..] == lines[1..] + tail;
      FirstMarkerPrefix(lines[1..], tail);
    }
  }

  /** A batch made of body lines and closed by a marker executes exactly those lines. */
  lemma ImportOneBatch(body: seq<string>, marker: string)
    requires forall j :: 0 <= j < |body| ==> !IsMarker(body[j])
    requires IsMarker(marker)
    ensures ImportedBatches(body + [marker]) == [Unlines(body)]
  {
    var init := ImportState([], "");
    FeedConcat(init, body, [marker]);
    FeedNoMarkers(init, body);
    assert [marker][1..] == [];
    assert "" + Unlines(body) == Unlines(body);
  }

  /** Lines without a marker only grow the buffer. */
  lemma {:induction false} FeedNoMarkers(st: ImportState, lines: seq<string>)
    requires forall j :: 0 <= j < |lines| ==> !IsMarker(lines[j])
    ensures Feed(st, lines) == ImportState(st.executed, st.buffer + Unlines(lines))
    decreases |lines|
  {
    if lines != [] {
      FeedNoMarkers(ImportLine(st, lines[0]), lines[1..]);
      UnlinesCons(lines);
    }
  }

  /** Batches of consecutive parts of a file are executed in order: the cut after a marker is clean. */
  lemma ImportConcat(a: seq<string>, b: seq<string>)
    requires a != [] && IsMarker(a[|a| - 1])
    ensures ImportedBatches(a + b) == ImportedBatches(a) + ImportedBatches(b)
  {
    var st := Feed(ImportState([], ""), a);
    FeedConcat(ImportState([], ""), a, b);
    FeedLastMarker(ImportState([], ""), a);
    FeedSegments(st, b);
    FeedSegments(ImportState([], ""), b);
  }

  lemma {:induction false} FeedConcat(st: ImportState, a: seq<string>, b: seq<string>)
    ensures Feed(st, a + b) == Feed(Feed(st, a), b)
    decreases |a|
  {
    if a == [] {
      assert a + b == b;
    } else {
      assert (a + b)[1..] == a[1..] + b;
      FeedConcat(ImportLine(st, a[0]), a[1..], b);
    }
  }

  /** After a marker line the buffer is empty. */
  lemma FeedLastMarker(st: ImportState, a: seq<string>)
    requires a != [] && IsMarker(a[|a| - 1])
    ensures Feed(st, a).buffer == ""
  {
    var init := a[..|a| - 1];
    assert a == init + [a[|a| - 1]];
    FeedConcat(st, init, [a[|a| - 1]]);
  }
}
