/** The statistics table of HAProxy: `pkg/haproxy/haproxy.go`. */
module Haproxy {
  import opened ByteStrings
  import opened Framing
  import opened Lines
  import opened Positions

  const COMMA: Bytes := [44]
  /** "# " */
  const HEADER: Bytes := [35, 32]

  // ----- fields ----------------------------------------------------------------------------------------

  /** `strings.Split`: unlike a scanner, it keeps an empty last field. */
  function SplitAll(s: Bytes, sep: Bytes): (fields: seq<Bytes>)
    requires |sep| > 0
    ensures fields != []
    decreases |s|
  {
    var i := Index(s, sep);
    if i < 0 then [s] else [s[..i]] + SplitAll(s[i + |sep|..], sep)
  }

  function Join(fields: seq<Bytes>, sep: Bytes): Bytes
    requires fields != []
  {
    if |fields| == 1 then fields[0] else fields[0] + sep + Join(fields[1..], sep)
  }

  /** Splitting undoes joining when no field contains the separator. */
  lemma {:induction false} SplitJoin(fields: seq<Bytes>, sep: Bytes)
    requires fields != [] && Marker(sep) && SeparatorFree(fields, sep)
    ensures SplitAll(Join(fields, sep), sep) == fields
    decreases |fields|
  {
    if |fields| == 1 {
      IndexAbsent(fields[0], sep);
    } else {
      var rest := Join(fields[1..], sep);
      SplitJoin(fields[1..], sep);
      NoStraddle(fields[0], sep, rest);
      var s := fields[0] + sep + rest;
      assert s[..|fields[0]|] == fields[0] && s[|fields[0]| + |sep|..] == rest;
      assert fields == [fields[0]] + fields[1..];
    }
  }

  /** Joining undoes splitting, for every string. */
  lemma {:induction false} JoinSplit(s: Bytes, sep: Bytes)
    requires |sep| > 0
    ensures Join(SplitAll(s, sep), sep) == s
    decreases |s|
  {
    var i := Index(s, sep);
    if i < 0 {
    } else {
      var rest := s[i + |sep|..];
      JoinSplit(rest, sep);
      assert SplitAll(s, sep)[1..] == SplitAll(rest, sep);
      assert s == s[..i] + sep + rest;
    }
  }

  // ----- parsing ---------------------------------------------------------------------------------------

  type Stat = map<Bytes, Bytes>

  /** `NotFound`: no header line. `Panicked`: a row longer than the header. */
  datatype Result = Ok(stats: seq<Stat>) | NotFound | Panicked

  /** A row under the keys of its header, the last of several columns with the same key. */
  ghost predicate IsStat(keys: seq<Bytes>, values: seq<Bytes>, stat: Stat) {
    && |values| <= |keys|
    && (forall k :: k in stat <==> k in keys[..|values|])
    && forall i | 0 <= i < |values| && keys[i] !in keys[i + 1..|values|] :: stat[keys[i]] == values[i]
  }

  lemma PutColumn(keys: seq<Bytes>, values: seq<Bytes>, i: nat, stat: Stat)
    requires i < |values| && i < |keys| && IsStat(keys, values[..i], stat)
    ensures IsStat(keys, values[..i + 1], stat[keys[i] := values[i]])
  {
    var stat' := stat[keys[i] := values[i]];
    assert keys[..i + 1] == keys[..i] + [keys[i]];
    forall j | 0 <= j < i + 1 && keys[j] !in keys[j + 1..i + 1] ensures stat'[keys[j]] == values[j] {
      if j < i {
        assert keys[j + 1..i + 1] == keys[j + 1..i] + [keys[i]];
      }
    }
  }

  ghost predicate Parsed(keys: seq<Bytes>, line: Bytes, stat: Stat) {
    IsStat(keys, SplitAll(line, COMMA), stat)
  }

  method ParseRow(keys: seq<Bytes>, line: Bytes) returns (stat: Option<Stat>)
    ensures stat.None? <==> |SplitAll(line, COMMA)| > |keys|
    ensures stat.Some? ==> Parsed(keys, line, stat.value)
  {
    var values := SplitAll(line, COMMA);
    var m: Stat := map[];
    for i := 0 to |values|
      invariant i <= |keys| && IsStat(keys, values[..i], m)
    {
      if i >= |keys| {
        return None;
      }
      PutColumn(keys, values, i, m);
      m := m[keys[i] := values[i]];
    }
    assert values[..|values|] == values;
    stat := Some(m);
  }

  /** The lines at positions `p` are those that are not blank, and `stats` has their maps. */
  ghost predicate ParsedAt(keys: seq<Bytes>, lines: seq<Bytes>, p: seq<nat>, stats: seq<Stat>) {
    && Increasing(p, |lines|) && |stats| == |p|
    && (forall i: nat | i < |lines| :: lines[i] != [] <==> i in p)
    && forall k | 0 <= k < |p| :: Parsed(keys, lines[p[k]], stats[k])
  }

  lemma ParsedAtBlank(keys: seq<Bytes>, lines: seq<Bytes>, p: seq<nat>, stats: seq<Stat>)
    requires ParsedAt(keys, lines, p, stats)
    ensures ParsedAt(keys, lines + [[]], p, stats)
  {
    IncreasingSnoc(p, |lines|);
    forall i: nat | i < |lines| ensures (lines + [[]])[i] != [] <==> i in p {
      assert (lines + [[]])[i] == lines[i];
    }
  }

  lemma ParsedAtRow(keys: seq<Bytes>, lines: seq<Bytes>, p: seq<nat>, stats: seq<Stat>, line: Bytes, stat: Stat)
    requires ParsedAt(keys, lines, p, stats) && line != [] && Parsed(keys, line, stat)
    ensures ParsedAt(keys, lines + [line], p + [|lines|], stats + [stat])
  {
    IncreasingSnoc(p, |lines|);
    forall i: nat | i < |lines| ensures (lines + [line])[i] != [] <==> i in p {
      assert (lines + [line])[i] == lines[i];
    }
  }

  /** The parsing part of `Stats`: one map per line that is not blank, in order. */
  method ParseStats(lines: seq<Bytes>) returns (r: Result, ghost p: seq<nat>)
    ensures r.NotFound? <==> lines == [] || !(HEADER <= lines[0])
    ensures !r.NotFound? ==>
              var keys, rest := SplitAll(lines[0][|HEADER|..], COMMA), lines[1..];
              && (r.Ok? <==> forall i | 0 <= i < |rest| && rest[i] != [] :: |SplitAll(rest[i], COMMA)| <= |keys|)
              && (r.Ok? ==> ParsedAt(keys, rest, p, r.stats))
  {
    p := [];
    if |lines| == 0 || !(HEADER <= lines[0]) {
      return NotFound, [];
    }
    var keys := SplitAll(lines[0][|HEADER|..], COMMA);
    var rest := lines[1..];
    var stats: seq<Stat> := [];
    for k := 0 to |rest|
      invariant ParsedAt(keys, rest[..k], p, stats)
      invariant forall i | 0 <= i < k && rest[i] != [] :: |SplitAll(rest[i], COMMA)| <= |keys|
    {
      var line := rest[k];
      assert rest[..k + 1] == rest[..k] + [line];
      if line == [] {
        ParsedAtBlank(keys, rest[..k], p, stats);
        continue;
      }
      var stat := ParseRow(keys, line);
      if stat.None? {
        return Panicked, [];
      }
      ParsedAtRow(keys, rest[..k], p, stats, line, stat.value);
      stats, p := stats + [stat.value], p + [k];
    }
    assert rest[..|rest|] == rest;
    r := Ok(stats);
  }

  // ----- round trip ------------------------------------------------------------------------------------

  datatype Table = Table(keys: seq<Bytes>, rows: seq<seq<Bytes>>)

  /** Distinct keys without a comma, rows of the header's arity with fields without a comma, and no row
      that prints to a blank line. */
  ghost predicate WellFormed(t: Table) {
    && t.keys != [] && SeparatorFree(t.keys, COMMA)
    && DistinctKeys(t.keys)
    && forall r | 0 <= r < |t.rows| ::
         && |t.rows[r]| == |t.keys| && SeparatorFree(t.rows[r], COMMA)
         && Join(t.rows[r], COMMA) != []
  }

  function PrintRows(rows: seq<seq<Bytes>>): (lines: seq<Bytes>)
    requires forall r | 0 <= r < |rows| :: rows[r] != []
    ensures |lines| == |rows| && forall r | 0 <= r < |rows| :: lines[r] == Join(rows[r], COMMA)
  {
    seq(|rows|, r requires 0 <= r < |rows| => Join(rows[r], COMMA))
  }

  /** The lines of a table: the header, the rows at positions `q` behind it, and only blank lines elsewhere. */
  ghost predicate PrintsAt(t: Table, lines: seq<Bytes>, q: seq<nat>)
    requires WellFormed(t)
  {
    && lines != [] && lines[0] == HEADER + Join(t.keys, COMMA)
    && Picks(q, lines[1..], PrintRows(t.rows))
    && forall i: nat | i < |lines[1..]| && i !in q :: lines[1..][i] == []
  }

  ghost predicate Prints(t: Table, lines: seq<Bytes>)
    requires WellFormed(t)
  {
    exists q :: PrintsAt(t, lines, q)
  }

  /** A map that holds exactly the row. */
  ghost predicate IsRow(keys: seq<Bytes>, row: seq<Bytes>, stat: Stat)
    requires |row| == |keys|
  {
    && (forall k :: k in stat <==> k in keys)
    && forall i | 0 <= i < |keys| :: stat[keys[i]] == row[i]
  }

  ghost predicate DistinctKeys(keys: seq<Bytes>) {
    forall i, j | 0 <= i < j < |keys| :: keys[i] != keys[j]
  }

  lemma ParsedIsRow(keys: seq<Bytes>, line: Bytes, row: seq<Bytes>, stat: Stat)
    requires DistinctKeys(keys) && |row| == |keys| && Parsed(keys, line, stat) && SplitAll(line, COMMA) == row
    ensures IsRow(keys, row, stat)
  {
    assert keys[..|row|] == keys;
    forall i | 0 <= i < |keys| ensures stat[keys[i]] == row[i] {
      assert keys[i] !in keys[i + 1..|row|];
    }
  }

  /** Round trip: parsing the printed lines of a well-formed table gives one map per row, in order, that
      holds exactly the row; blank lines in between are ignored. */
  method ParsePrinted(t: Table, lines: seq<Bytes>) returns (r: Result)
    requires WellFormed(t) && Prints(t, lines)
    ensures r.Ok? && |r.stats| == |t.rows|
    ensures forall i | 0 <= i < |t.rows| :: IsRow(t.keys, t.rows[i], r.stats[i])
  {
    ghost var q :| PrintsAt(t, lines, q);
    PrintedFields(t, lines, q);
    ghost var p;
    r, p := ParseStats(lines);
    SamePositions(p, q, |lines[1..]|);
    forall i | 0 <= i < |t.rows| ensures IsRow(t.keys, t.rows[i], r.stats[i]) {
      ParsedIsRow(t.keys, lines[1..][q[i]], t.rows[i], r.stats[i]);
    }
  }

  lemma PrintedFields(t: Table, lines: seq<Bytes>, q: seq<nat>)
    requires WellFormed(t) && PrintsAt(t, lines, q)
    ensures HEADER <= lines[0] && SplitAll(lines[0][|HEADER|..], COMMA) == t.keys
    ensures forall i | 0 <= i < |t.rows| :: SplitAll(lines[1..][q[i]], COMMA) == t.rows[i]
    ensures forall i: nat | i < |lines[1..]| :: lines[1..][i] != [] <==> i in q
  {
    assert lines[0][|HEADER|..] == Join(t.keys, COMMA);
    SplitJoin(t.keys, COMMA);
    forall i | 0 <= i < |t.rows| ensures SplitAll(lines[1..][q[i]], COMMA) == t.rows[i] {
      SplitJoin(t.rows[i], COMMA);
    }
    forall i: nat | i < |lines[1..]| && i in q ensures lines[1..][i] != [] {
      var r :| 0 <= r < |q| && q[r] == i;
      assert lines[1..][q[r]] == PrintRows(t.rows)[r] == Join(t.rows[r], COMMA);
    }
  }

  /** The same over the socket: the table printed line by line, read back in any pieces. */
  method ReadTable(t: Table, lines: seq<Bytes>, chunks: seq<Bytes>) returns (r: Result)
    requires WellFormed(t) && Prints(t, lines)
    requires forall i | 0 <= i < |lines| :: PlainLine(lines[i], NEWLINE)
    requires forall i | 0 <= i < |chunks| :: chunks[i] != []
    requires Concat(chunks) == Frame(lines, NEWLINE)
    ensures r.Ok? && |r.stats| == |t.rows|
    ensures forall i | 0 <= i < |t.rows| :: IsRow(t.keys, t.rows[i], r.stats[i])
  {
    LinesRoundTrip(lines);
    var scanned, failed := ScanLines(chunks);
    r := ParsePrinted(t, scanned);
  }
}
