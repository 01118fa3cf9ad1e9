/**
 * The fixed lines of a snapshot script (Data.cs Export and Import): the
 * separator rule, the batch marker prefix, and how marker lines are counted.
 */
module SnapshotFormat {
  import opened Strings

  /** A run of n dashes. */
  function Dashes(n: nat): (r: string)
    ensures |r| == n && forall i :: 0 <= i < n ==> r[i] == '-'
  {
    seq(n, _ => '-')
  }

  /** The 78-dash rule framing each table's begin and end comments. */
  const Separator: string := Dashes(78)

  /** A line starting with this ends a batch: Import executes what came before it. */
  const MarkerPrefix: string := "GO -- SQL_BATCH --"

  predicate IsMarker(line: string) {
    StartsWith(line, MarkerPrefix)
  }

  /** Only a line starting with 'G' can be a marker. */
  lemma NotMarker(line: string)
    requires line == [] || line[0] != 'G'
    ensures !IsMarker(line)
  {
    NotStartsWith(line, MarkerPrefix);
  }

  /** The number of marker lines. */
  function MarkerCount(lines: seq<string>): nat
    decreases |lines|
  {
    if lines == [] then 0 else (if IsMarker(lines[0]) then 1 else 0) + MarkerCount(lines[1..])
  }
}
