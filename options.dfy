/**
 * How the `purge` command turns its options into the settings of the scan:
 * the read-throughput ceiling (`-r`), the sstable name filter (`-f`) and
 * whether progress is shown interactively (`-b`).
 */
module PurgeOptions {
  import opened Wrappers

  /** One megabyte as the `-r` option counts it: 1024 * 1024 bytes. */
  const MEBIBYTE: int := 1048576

  /** The parsed command line: `-n`, `-r`, `-t`, `-f`, `-b` and the two positional names. */
  datatype CommandOptions = CommandOptions(
    numPartitions: int,
    limit: int,
    snapshotName: Option<string>,
    filters: string,
    batch: bool,
    keyspace: string,
    table: string)

  /** What the column family is opened with, and how its reader is throttled. */
  datatype ScanRequest = ScanRequest(
    keyspace: string,
    table: string,
    snapshotName: Option<string>,
    filter: Option<seq<string>>,
    bytesPerSecond: Option<int>)

  datatype Settings = Settings(request: ScanRequest, interactive: bool)

  /**
   * The rate limiter handed to the reader: none when the limit is 0,
   * otherwise one allowing `limit` megabytes per second.
   */
  function ThroughputCeiling(limit: int): (ceiling: Option<int>)
    ensures ceiling.Some? <==> limit != 0
    ensures ceiling.Some? ==> ceiling.value % MEBIBYTE == 0 && ceiling.value / MEBIBYTE == limit
    ensures ceiling.Some? ==> (ceiling.value > 0 <==> limit > 0)
  {
    if limit != 0 then Some(limit * 1024 * 1024) else None
  }

  /**
   * Cuts `s` at every occurrence of `sep`, keeping empty pieces, as Java's
   * `String.split` does before it drops trailing empty pieces.
   */
  function Split(s: string, sep: char): (pieces: seq<string>)
    ensures |pieces| >= 1
    ensures forall i :: 0 <= i < |pieces| ==> sep !in pieces[i]
  {
    if s == [] then [""]
    else
      var rest := Split(s[1..], sep);
      if s[0] == sep then [""] + rest
      else [[s[0]] + rest[0]] + rest[1..]
  }

  /** Glues pieces back together with `sep` between neighbours. */
  function Join(pieces: seq<string>, sep: char): string {
    if pieces == [] then ""
    else if |pieces| == 1 then pieces[0]
    else pieces[0] + [sep] + Join(pieces[1..], sep)
  }

  /** Joining the pieces of a split gives back the original string. */
  lemma {:induction false} JoinSplit(s: string, sep: char)
    ensures Join(Split(s, sep), sep) == s
  {
    if s != [] {
      var rest := Split(s[1..], sep);
      JoinSplit(s[1..], sep);
      if s[0] == sep {
        assert Split(s, sep) == [""] + rest;
        assert ([""] + rest)[1..] == rest;
      } else {
        if |rest| > 1 {
          assert Join(rest, sep) == rest[0] + [sep] + Join(rest[1..], sep);
          assert ([[s[0]] + rest[0]] + rest[1..])[1..] == rest[1..];
        }
      }
    }
  }

  /** Splitting a string that starts with a separator-free `a` extends the first piece by `a`. */
  lemma {:induction false} SplitAfterPrefix(a: string, rest: string, sep: char)
    requires sep !in a
    ensures Split(a + rest, sep) == [a + Split(rest, sep)[0]] + Split(rest, sep)[1..]
  {
    if a != [] {
      assert (a + rest)[1..] == a[1..] + rest;
      assert sep !in a[1..] by {
        forall k | 0 <= k < |a[1..]| ensures a[1..][k] != sep {
          assert a[1..][k] == a[k + 1];
        }
      }
      SplitAfterPrefix(a[1..], rest, sep);
      assert [a[0]] + (a[1..] + Split(rest, sep)[0]) == a + Split(rest, sep)[0];
    } else {
      var r := Split(rest, sep);
      assert a + rest == rest && a + r[0] == r[0];
      assert r == [r[0]] + r[1..];
    }
  }

  /** Splitting separator-free pieces joined with the separator gives the pieces back. */
  lemma {:induction false} SplitJoin(pieces: seq<string>, sep: char)
    requires |pieces| >= 1
    requires forall i :: 0 <= i < |pieces| ==> sep !in pieces[i]
    ensures Split(Join(pieces, sep), sep) == pieces
  {
    var p := pieces[0];
    if |pieces| == 1 {
      SplitAfterPrefix(p, "", sep);
      assert p + "" == p;
    } else {
      var tail := Join(pieces[1..], sep);
      SplitJoin(pieces[1..], sep);
      assert Join(pieces, sep) == p + ([sep] + tail);
      SplitAfterPrefix(p, [sep] + tail, sep);
      assert ([sep] + tail)[0] == sep && ([sep] + tail)[1..] == tail;
      var s := Split([sep] + tail, sep);
      assert s == [""] + pieces[1..];
      assert s[0] == "" && s[1..] == pieces[1..];
      assert p + "" == p;
      assert pieces == [p] + pieces[1..];
    }
  }

  /**
   * Drops the empty pieces at the end, as `String.split` with no limit does:
   * what remains is a prefix, everything dropped is empty, and the last
   * piece kept is not.
   */
  function DropTrailingEmpty(pieces: seq<string>): (kept: seq<string>)
    ensures kept <= pieces
    ensures kept == [] || kept[|kept| - 1] != ""
    ensures forall i :: |kept| <= i < |pieces| ==> pieces[i] == ""
  {
    if pieces == [] then []
    else if pieces[|pieces| - 1] == "" then DropTrailingEmpty(pieces[..|pieces| - 1])
    else pieces
  }

  /** The sstable filter: none for an empty `-f`, otherwise its comma-separated names. */
  function SstableFilter(filters: string): (filter: Option<seq<string>>)
    ensures filter.None? <==> filters == ""
  {
    if filters == "" then None else Some(DropTrailingEmpty(Split(filters, ',')))
  }

  /**
   * For a non-empty `-f`, the names are the comma-separated pieces in order,
   * none containing a comma, with only empty pieces dropped and only at the
   * end.
   */
  lemma FilterNames(filters: string)
    requires filters != ""
    ensures var pieces := Split(filters, ',');
      && SstableFilter(filters).Some?
      && Join(pieces, ',') == filters
      && var names := SstableFilter(filters).value;
      && names <= pieces
      && (forall i :: 0 <= i < |names| ==> ',' !in names[i])
      && (forall i :: |names| <= i < |pieces| ==> pieces[i] == "")
      && (names == [] || names[|names| - 1] != "")
  {
    JoinSplit(filters, ',');
    var pieces := Split(filters, ',');
    var names := DropTrailingEmpty(pieces);
    assert SstableFilter(filters) == Some(names);
    forall i | 0 <= i < |names| ensures ',' !in names[i] {
      assert names[i] == pieces[i];
    }
  }

  /** Names free of commas, the last one non-empty, come back unchanged through `-f`. */
  lemma FilterRoundTrip(names: seq<string>)
    requires |names| >= 1 && names[|names| - 1] != ""
    requires forall i :: 0 <= i < |names| ==> ',' !in names[i]
    ensures SstableFilter(Join(names, ',')) == Some(names)
  {
    SplitJoin(names, ',');
  }

  /** Everything the scan is set up with, derived from the command line. */
  function Configure(options: CommandOptions): (settings: Settings)
    ensures settings.interactive <==> !options.batch
    ensures settings.request.bytesPerSecond.Some? <==> options.limit != 0
    ensures settings.request.bytesPerSecond.Some? ==> settings.request.bytesPerSecond.value == options.limit * MEBIBYTE
    ensures settings.request.filter.None? <==> options.filters == ""
    ensures settings.request.keyspace == options.keyspace && settings.request.table == options.table
    ensures settings.request.snapshotName == options.snapshotName
  {
    var request := ScanRequest(
      options.keyspace, options.table, options.snapshotName,
      SstableFilter(options.filters), ThroughputCeiling(options.limit));
    Settings(request, !options.batch)
  }
}
