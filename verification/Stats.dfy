/** Container statistics for many containers: `stats/container_stats.go`, `stats/get_stats.go`,
    `stats/common.go` and `stats/aggregated_stats.go`. Parsing and converting one line, JSON output and
    the clock are parameters. */
module Stats {
  import opened ByteStrings
  import opened Framing
  import opened Lines
  import opened Positions

  /** One sample; `usage` stands for all that is copied from the Docker statistics. */
  datatype ContainerStats = ContainerStats(timestamp: int, usage: Bytes)

  datatype ContainerInfo = ContainerInfo(id: string, stats: seq<ContainerStats>)

  datatype AggregatedStat = AggregatedStat(id: string, resourceType: string, memLimit: nat, stats: ContainerStats)

  /** A line of a statistics stream and a pid make a sample, or the line does not parse. */
  type Converter = (string, int) -> Option<ContainerStats>

  // ----- one container ---------------------------------------------------------------------------------

  /** `bufio.Reader` over a statistics stream: its complete lines still to be read. Reading past them
      fails. */
  class StatsReader {
    var lines: seq<string>

    constructor (lines: seq<string>)
      ensures this.lines == lines
    {
      this.lines := lines;
    }

    method ReadString() returns (line: Option<string>)
      modifies this
      ensures old(lines) == [] ==> line == None && lines == []
      ensures old(lines) != [] ==> line == Some(old(lines)[0]) && lines == old(lines)[1..]
    {
      line := None;
      if lines != [] {
        line := Some(lines[0]);
        lines := lines[1..];
      }
    }
  }

  /** Whether the next `count` lines are there and all of them parse. */
  predicate Ready(lines: seq<string>, count: nat, pid: int, convert: Converter) {
    count <= |lines| && forall i | 0 <= i < count :: convert(lines[i], pid).Some?
  }

  /** `info` holds the next `count` samples of a stream, in order. */
  predicate IsInfo(info: ContainerInfo, lines: seq<string>, count: nat, id: string, pid: int, convert: Converter) {
    && Ready(lines, count, pid, convert)
    && info.id == id && |info.stats| == count
    && forall i | 0 <= i < count :: convert(lines[i], pid) == Some(info.stats[i])
  }

  /** What is left of a stream in which one of the next `count` lines is missing or does not parse: all that
      comes after the first such line. */
  ghost predicate StoppedIn(rest: seq<string>, lines: seq<string>, count: nat, pid: int, convert: Converter) {
    exists n: nat | n < count && Ready(lines, n, pid, convert) ::
      !Ready(lines, n + 1, pid, convert) && rest == if n < |lines| then lines[n + 1..] else []
  }

  /** `getContainerInfo`: the next `count` lines as samples, in order, or an error if one is missing. */
  method GetContainerInfo(reader: StatsReader, count: nat, id: string, pid: int, convert: Converter)
    returns (info: Option<ContainerInfo>)
    modifies reader
    ensures info.Some? <==> Ready(old(reader.lines), count, pid, convert)
    ensures info.Some? ==>
              && reader.lines == old(reader.lines)[count..]
              && IsInfo(info.value, old(reader.lines), count, id, pid, convert)
    ensures info.None? ==> StoppedIn(reader.lines, old(reader.lines), count, pid, convert)
  {
    var stats := [];
    for i := 0 to count
      invariant i <= |old(reader.lines)| && reader.lines == old(reader.lines)[i..]
      invariant |stats| == i
      invariant forall k | 0 <= k < i :: convert(old(reader.lines)[k], pid) == Some(stats[k])
    {
      assert Ready(old(reader.lines), i, pid, convert);
      var line := reader.ReadString();
      if line.None? {
        assert !Ready(old(reader.lines), i + 1, pid, convert);
        return None;
      }
      var sample := convert(line.value, pid);
      if sample.None? {
        assert old(reader.lines)[i..][1..] == old(reader.lines)[i + 1..];
        assert !Ready(old(reader.lines), i + 1, pid, convert);
        return None;
      }
      stats := stats + [sample.value];
    }
    info := Some(ContainerInfo(id, stats));
  }

  // ----- all containers --------------------------------------------------------------------------------

  ghost predicate DistinctReaders(readers: seq<StatsReader>) {
    forall i, j | 0 <= i < j < |readers| :: readers[i] != readers[j]
  }

  /** What the readers still hold. */
  ghost function LinesOf(readers: seq<StatsReader>): (r: seq<seq<string>>)
    reads readers
    ensures |r| == |readers| && forall j | 0 <= j < |readers| :: r[j] == readers[j].lines
  {
    seq(|readers|, j requires 0 <= j < |readers| reads readers => readers[j].lines)
  }

  ghost predicate AllReady(lines: seq<seq<string>>, count: nat, pids: seq<int>, convert: Converter)
    requires |pids| == |lines|
  {
    forall j | 0 <= j < |lines| :: Ready(lines[j], count, pids[j], convert)
  }

  /** What the readers hold after a call that failed at reader `f`: those before it have advanced, those
      behind it have not been read. */
  ghost predicate FailedAt(rest: seq<seq<string>>, lines: seq<seq<string>>, f: nat, count: nat, pids: seq<int>,
                           convert: Converter)
    requires |pids| == |lines| == |rest|
  {
    && f < |rest| && StoppedIn(rest[f], lines[f], count, pids[f], convert)
    && (forall j | 0 <= j < f :: Ready(lines[j], count, pids[j], convert) && rest[j] == lines[j][count..])
    && forall j | f < j < |rest| :: rest[j] == lines[j]
  }

  /** The first `k` readers have advanced by `count` lines, and `infos` has their samples. */
  ghost predicate Advanced(rest: seq<seq<string>>, lines: seq<seq<string>>, infos: seq<ContainerInfo>, k: nat,
                           count: nat, ids: seq<string>, pids: seq<int>, convert: Converter)
    requires |ids| == |pids| == |lines| == |rest|
  {
    && k <= |lines| && |infos| == k
    && (forall j | 0 <= j < k ::
          IsInfo(infos[j], lines[j], count, ids[j], pids[j], convert) && rest[j] == lines[j][count..])
    && forall j | k <= j < |lines| :: rest[j] == lines[j]
  }

  lemma AdvanceOne(rest: seq<seq<string>>, lines: seq<seq<string>>, infos: seq<ContainerInfo>, k: nat, count: nat,
                   ids: seq<string>, pids: seq<int>, convert: Converter, info: ContainerInfo)
    requires |ids| == |pids| == |lines| == |rest| && k < |lines|
    requires Advanced(rest, lines, infos, k, count, ids, pids, convert)
    requires IsInfo(info, lines[k], count, ids[k], pids[k], convert)
    ensures Advanced(rest[k := lines[k][count..]], lines, infos + [info], k + 1, count, ids, pids, convert)
  {
  }

  lemma FailOne(rest: seq<seq<string>>, lines: seq<seq<string>>, infos: seq<ContainerInfo>, k: nat, count: nat,
                ids: seq<string>, pids: seq<int>, convert: Converter, left: seq<string>)
    requires |ids| == |pids| == |lines| == |rest| && k < |lines|
    requires Advanced(rest, lines, infos, k, count, ids, pids, convert)
    requires StoppedIn(left, lines[k], count, pids[k], convert)
    ensures FailedAt(rest[k := left], lines, k, count, pids, convert)
  {
    forall j | 0 <= j < k ensures Ready(lines[j], count, pids[j], convert) {
      assert IsInfo(infos[j], lines[j], count, ids[j], pids[j], convert);
    }
  }

  /** `getAllDockerContainers`: every reader advances by `count` lines, and the row of reader `j` carries
      identifier `j` and its samples; or some reader fails, and there is no result at all. */
  method GetAllDockerContainers(readers: seq<StatsReader>, count: nat, ids: seq<string>, pids: seq<int>,
                                convert: Converter)
    returns (infos: Option<seq<ContainerInfo>>)
    requires DistinctReaders(readers) && |ids| == |pids| == |readers|
    modifies readers
    ensures infos.Some? <==> AllReady(old(LinesOf(readers)), count, pids, convert)
    ensures infos.Some? ==>
              && |infos.value| == |readers|
              && forall j | 0 <= j < |readers| ::
                   && IsInfo(infos.value[j], old(LinesOf(readers))[j], count, ids[j], pids[j], convert)
                   && readers[j].lines == old(LinesOf(readers))[j][count..]
    ensures infos.None? ==> exists f :: FailedAt(LinesOf(readers), old(LinesOf(readers)), f, count, pids, convert)
  {
    var ret: seq<ContainerInfo> := [];
    ghost var lines := LinesOf(readers);
    for k := 0 to |readers|
      invariant Advanced(LinesOf(readers), lines, ret, k, count, ids, pids, convert)
    {
      ghost var rest := LinesOf(readers);
      assert rest[k] == lines[k];
      var info := GetContainerInfo(readers[k], count, ids[k], pids[k], convert);
      assert LinesOf(readers) == rest[k := readers[k].lines];
      if info.None? {
        FailOne(rest, lines, ret, k, count, ids, pids, convert, readers[k].lines);
        return None;
      }
      AdvanceOne(rest, lines, ret, k, count, ids, pids, convert, info.value);
      ret := ret + [info.value];
    }
    infos := Some(ret);
  }

  // ----- one round of output ---------------------------------------------------------------------------

  /** `convertToAggregatedStats`: nothing without a container, otherwise one list with a row for each, under
      the given identifier or, without one, under the identifier its container is mapped to. */
  method ConvertToAggregatedStats(id: string, containerIds: map<string, string>, resourceType: string,
                                  infos: seq<ContainerInfo>, memLimit: nat)
    returns (total: seq<seq<AggregatedStat>>)
    requires forall j | 0 <= j < |infos| :: |infos[j].stats| > 0
    ensures infos == [] ==> total == []
    ensures infos != [] ==> |total| == 1 && |total[0]| == |infos|
    ensures forall j | 0 <= j < |infos| ::
              var row := total[0][j];
              && row.resourceType == resourceType && row.memLimit == memLimit && row.stats == infos[j].stats[0]
              && (id != "" ==> row.id == id)
              && (id == "" && infos[j].id in containerIds ==> row.id == containerIds[infos[j].id])
              && (id == "" && infos[j].id !in containerIds ==> row.id == "")
  {
    total := [];
    if |infos| == 0 {
      return;
    }
    var rows: seq<AggregatedStat> := [];
    for j := 0 to |infos|
      invariant |rows| == j
      invariant forall k | 0 <= k < j ::
        && rows[k].resourceType == resourceType && rows[k].memLimit == memLimit && rows[k].stats == infos[k].stats[0]
        && (id != "" ==> rows[k].id == id)
        && (id == "" && infos[k].id in containerIds ==> rows[k].id == containerIds[infos[k].id])
        && (id == "" && infos[k].id !in containerIds ==> rows[k].id == "")
    {
      var row := AggregatedStat(id, resourceType, memLimit, infos[j].stats[0]);
      if id == "" {
        row := row.(id := if infos[j].id in containerIds then containerIds[infos[j].id] else "");
      }
      rows := rows + [row];
    }
    total := total + [rows];
  }

  class Writer {
    var written: seq<Bytes>

    constructor ()
      ensures written == []
    {
      written := [];
    }

    method Write(data: Bytes)
      modifies this
      ensures written == old(written) + [data]
    {
      written := written + [data];
    }
  }

  // ----- rounds ----------------------------------------------------------------------------------------

  /** What does not change from round to round. */
  datatype Setup = Setup(
    containerIds: map<string, string>, memLimit: nat, convert: Converter,
    clock: (nat, nat) -> int, marshal: seq<AggregatedStat> -> Bytes)

  /** Row `j` of round `r`: sample `r` of container `j`, stamped with the time of the round, under the
      identifier the container is mapped to. */
  function Row(setup: Setup, lines: seq<seq<string>>, ids: seq<string>, pids: seq<int>, r: nat, j: nat): AggregatedStat
    requires j < |ids| == |pids| == |lines| && r < |lines[j]| && setup.convert(lines[j][r], pids[j]).Some?
  {
    AggregatedStat(if ids[j] in setup.containerIds then setup.containerIds[ids[j]] else "", "container", setup.memLimit,
                   setup.convert(lines[j][r], pids[j]).value.(timestamp := setup.clock(r, j)))
  }

  function RoundRows(setup: Setup, lines: seq<seq<string>>, ids: seq<string>, pids: seq<int>, r: nat)
    : (rows: seq<AggregatedStat>)
    requires |ids| == |pids| == |lines|
    requires forall j | 0 <= j < |lines| :: r < |lines[j]| && setup.convert(lines[j][r], pids[j]).Some?
    ensures |rows| == |lines| && forall j | 0 <= j < |lines| :: rows[j] == Row(setup, lines, ids, pids, r, j)
  {
    seq(|lines|, j requires 0 <= j < |lines| => Row(setup, lines, ids, pids, r, j))
  }

  /** The documents of rounds `0 .. rounds`. */
  ghost function Documents(setup: Setup, lines: seq<seq<string>>, ids: seq<string>, pids: seq<int>, rounds: nat)
    : (docs: seq<Bytes>)
    requires |ids| == |pids| == |lines| && AllReady(lines, rounds, pids, setup.convert)
    ensures |docs| == if lines == [] then 0 else rounds
    ensures forall r | 0 <= r < |docs| :: docs[r] == setup.marshal(RoundRows(setup, lines, ids, pids, r))
  {
    seq(if lines == [] then 0 else rounds,
        r requires 0 <= r < rounds => setup.marshal(RoundRows(setup, lines, ids, pids, r)))
  }

  predicate IsLabelled(setup: Setup, infos: seq<ContainerInfo>, rows: seq<AggregatedStat>) {
    && |rows| == |infos|
    && forall j | 0 <= j < |infos| ::
         && |infos[j].stats| > 0
         && rows[j] == AggregatedStat(if infos[j].id in setup.containerIds then setup.containerIds[infos[j].id] else "",
                                      "container", setup.memLimit, infos[j].stats[0])
  }

  /** `writeAggregatedStats` writes the document and a newline. */
  method WriteAggregatedStats(setup: Setup, infos: seq<ContainerInfo>, writer: Writer)
    requires forall j | 0 <= j < |infos| :: |infos[j].stats| > 0
    modifies writer
    ensures infos == [] ==> writer.written == old(writer.written)
    ensures infos != [] ==>
              exists rows: seq<AggregatedStat> ::
                && IsLabelled(setup, infos, rows)
                && writer.written == old(writer.written) + [setup.marshal(rows), NEWLINE]
  {
    var total := ConvertToAggregatedStats("", setup.containerIds, "container", infos, setup.memLimit);
    if infos != [] {
      var rows := total[0];
      var data := setup.marshal(rows);
      writer.Write(data);
      writer.Write(NEWLINE);
      assert writer.written == old(writer.written) + [data, NEWLINE];
    }
  }

  /** Overwrites the time of every sample of the round. */
  method Stamp(setup: Setup, infos: seq<ContainerInfo>, r: nat) returns (stamped: seq<ContainerInfo>)
    ensures |stamped| == |infos|
    ensures forall j | 0 <= j < |infos| && |infos[j].stats| > 0 ::
              stamped[j] == infos[j].(stats := infos[j].stats[0 := infos[j].stats[0].(timestamp := setup.clock(r, j))])
  {
    stamped := infos;
    for i := 0 to |infos|
      invariant |stamped| == |infos|
      invariant forall j | i <= j < |infos| :: stamped[j] == infos[j]
      invariant forall j | 0 <= j < i && |infos[j].stats| > 0 ::
        stamped[j] == infos[j].(stats := infos[j].stats[0 := infos[j].stats[0].(timestamp := setup.clock(r, j))])
    {
      if |stamped[i].stats| > 0 {
        var first := stamped[i].stats[0].(timestamp := setup.clock(r, i));
        stamped := stamped[i := stamped[i].(stats := stamped[i].stats[0 := first])];
      }
    }
  }

  /** The readers after `r` rounds over the streams `lines`. */
  ghost predicate Aligned(readers: seq<StatsReader>, lines: seq<seq<string>>, r: nat)
    reads readers
  {
    && |readers| == |lines|
    && forall j | 0 <= j < |readers| :: r <= |lines[j]| && readers[j].lines == lines[j][r..]
  }

  lemma ReadyForRound(lines: seq<seq<string>>, r: nat, pids: seq<int>, convert: Converter)
    requires |pids| == |lines| && AllReady(lines, r, pids, convert)
    ensures AllReady(lines, r + 1, pids, convert) <==>
            forall j | 0 <= j < |lines| :: Ready(lines[j][r..], 1, pids[j], convert)
  {
    forall j | 0 <= j < |lines|
      ensures Ready(lines[j], r + 1, pids[j], convert) <==> Ready(lines[j][r..], 1, pids[j], convert)
    {
      if r < |lines[j]| {
        assert lines[j][r..][0] == lines[j][r];
      }
    }
  }

  /** The samples of a round, stamped and labelled, are the rows of the round. */
  lemma RowsOfRound(setup: Setup, lines: seq<seq<string>>, ids: seq<string>, pids: seq<int>, r: nat,
                    stamped: seq<ContainerInfo>, rows: seq<AggregatedStat>)
    requires |ids| == |pids| == |lines| == |stamped| && AllReady(lines, r + 1, pids, setup.convert)
    requires forall j | 0 <= j < |lines| :: IsStamped(setup, stamped[j], lines[j], ids[j], pids[j], r, j)
    requires IsLabelled(setup, stamped, rows)
    ensures rows == RoundRows(setup, lines, ids, pids, r)
  {
    forall j | 0 <= j < |lines| ensures rows[j] == Row(setup, lines, ids, pids, r, j) {
      assert IsStamped(setup, stamped[j], lines[j], ids[j], pids[j], r, j);
    }
  }

  predicate IsStamped(setup: Setup, info: ContainerInfo, lines: seq<string>, id: string, pid: int, r: nat, j: nat) {
    && r < |lines| && setup.convert(lines[r], pid).Some?
    && info == ContainerInfo(id, [setup.convert(lines[r], pid).value.(timestamp := setup.clock(r, j))])
  }

  lemma StampedSample(setup: Setup, info: ContainerInfo, stamped: ContainerInfo, lines: seq<string>,
                      id: string, pid: int, r: nat, j: nat)
    requires r <= |lines| && IsInfo(info, lines[r..], 1, id, pid, setup.convert)
    requires stamped == info.(stats := info.stats[0 := info.stats[0].(timestamp := setup.clock(r, j))])
    ensures IsStamped(setup, stamped, lines, id, pid, r, j)
  {
    assert lines[r..][0] == lines[r];
    assert stamped.stats == [info.stats[0].(timestamp := setup.clock(r, j))];
  }

  lemma StampedSamples(setup: Setup, infos: seq<ContainerInfo>, stamped: seq<ContainerInfo>, lines: seq<seq<string>>,
                       ids: seq<string>, pids: seq<int>, r: nat)
    requires |ids| == |pids| == |lines| == |infos| == |stamped|
    requires forall j | 0 <= j < |lines| ::
               r <= |lines[j]| && IsInfo(infos[j], lines[j][r..], 1, ids[j], pids[j], setup.convert)
    requires forall j | 0 <= j < |infos| && |infos[j].stats| > 0 ::
               stamped[j] == infos[j].(stats := infos[j].stats[0 := infos[j].stats[0].(timestamp := setup.clock(r, j))])
    ensures forall j | 0 <= j < |lines| :: IsStamped(setup, stamped[j], lines[j], ids[j], pids[j], r, j)
  {
    forall j | 0 <= j < |lines| ensures IsStamped(setup, stamped[j], lines[j], ids[j], pids[j], r, j) {
      StampedSample(setup, infos[j], stamped[j], lines[j], ids[j], pids[j], r, j);
    }
  }

  /** What the readers hold after a round `r` that failed at reader `f`: they are out of step by one line. */
  ghost predicate FailedRound(rest: seq<seq<string>>, lines: seq<seq<string>>, f: nat, r: nat, pids: seq<int>,
                              convert: Converter)
    requires |pids| == |lines| == |rest|
  {
    && f < |rest| && !Ready(lines[f], r + 1, pids[f], convert)
    && rest[f] == (if r < |lines[f]| then lines[f][r + 1..] else [])
    && (forall j | 0 <= j < f :: r < |lines[j]| && rest[j] == lines[j][r + 1..])
    && forall j | f < j < |rest| :: r <= |lines[j]| && rest[j] == lines[j][r..]
  }

  lemma FailedInRound(rest: seq<seq<string>>, before: seq<seq<string>>, lines: seq<seq<string>>, f: nat, r: nat,
                      pids: seq<int>, convert: Converter)
    requires |pids| == |lines| == |before| == |rest| && AllReady(lines, r, pids, convert)
    requires forall j | 0 <= j < |lines| :: before[j] == lines[j][r..]
    requires FailedAt(rest, before, f, 1, pids, convert)
    ensures FailedRound(rest, lines, f, r, pids, convert)
  {
    forall j | 0 <= j < f ensures r < |lines[j]| && rest[j] == lines[j][r + 1..] {
      assert Ready(before[j], 1, pids[j], convert);
      assert lines[j][r..][1..] == lines[j][r + 1..];
    }
    assert Ready(lines[f], r, pids[f], convert);
    if r < |lines[f]| {
      assert lines[f][r..][1..] == lines[f][r + 1..];
      assert before[f][0] == lines[f][r];
    }
  }

  /** The samples of a round, stamped with its time, labelled and written. */
  method WriteRound(setup: Setup, infos: seq<ContainerInfo>, ids: seq<string>, pids: seq<int>, writer: Writer,
                    ghost lines: seq<seq<string>>, r: nat)
    requires |ids| == |pids| == |lines| == |infos| && AllReady(lines, r + 1, pids, setup.convert)
    requires forall j | 0 <= j < |lines| ::
               r <= |lines[j]| && IsInfo(infos[j], lines[j][r..], 1, ids[j], pids[j], setup.convert)
    modifies writer
    ensures lines == [] ==> writer.written == old(writer.written)
    ensures lines != [] ==>
              writer.written == old(writer.written) + [setup.marshal(RoundRows(setup, lines, ids, pids, r)), NEWLINE]
  {
    var stamped := Stamp(setup, infos, r);
    StampedSamples(setup, infos, stamped, lines, ids, pids, r);
    WriteAggregatedStats(setup, stamped, writer);
    if lines != [] {
      ghost var rows: seq<AggregatedStat> :| IsLabelled(setup, stamped, rows) &&
        writer.written == old(writer.written) + [setup.marshal(rows), NEWLINE];
      RowsOfRound(setup, lines, ids, pids, r, stamped, rows);
    }
  }

  /** One round of the handler's loop. A round in which some reader fails writes nothing. */
  method Round(setup: Setup, readers: seq<StatsReader>, ids: seq<string>, pids: seq<int>, writer: Writer,
               ghost lines: seq<seq<string>>, r: nat) returns (ok: bool)
    requires DistinctReaders(readers) && |ids| == |pids| == |readers|
    requires Aligned(readers, lines, r) && AllReady(lines, r, pids, setup.convert)
    modifies readers, writer
    ensures ok <==> AllReady(lines, r + 1, pids, setup.convert)
    ensures !ok ==> writer.written == old(writer.written)
    ensures !ok ==> exists f :: FailedRound(LinesOf(readers), lines, f, r, pids, setup.convert)
    ensures ok ==> Aligned(readers, lines, r + 1)
    ensures ok && lines == [] ==> writer.written == old(writer.written)
    ensures ok && lines != [] ==>
              writer.written == old(writer.written) + [setup.marshal(RoundRows(setup, lines, ids, pids, r)), NEWLINE]
  {
    ReadyForRound(lines, r, pids, setup.convert);
    var infos := GetAllDockerContainers(readers, 1, ids, pids, setup.convert);
    if infos.None? {
      ghost var before, rest := old(LinesOf(readers)), LinesOf(readers);
      ghost var f: nat :| FailedAt(rest, before, f, 1, pids, setup.convert);
      FailedInRound(rest, before, lines, f, r, pids, setup.convert);
      return false;
    }
    WriteRound(setup, infos.value, ids, pids, writer, lines, r);
    ok := true;
  }

  ghost predicate NoEmpty(chunks: seq<Bytes>) {
    forall i | 0 <= i < |chunks| :: chunks[i] != []
  }

  /** The handler's loop, for up to `rounds` rounds: all readers stay in step until a round fails; every
      round before it is written as one newline-terminated document, and the failing one not at all. */
  method RunRounds(setup: Setup, readers: seq<StatsReader>, ids: seq<string>, pids: seq<int>, writer: Writer,
                   rounds: nat)
    returns (done: nat)
    requires DistinctReaders(readers) && |ids| == |pids| == |readers|
    requires OneLine(setup) && NoEmpty(writer.written)
    modifies readers, writer
    ensures NoEmpty(writer.written)
    ensures done <= rounds
    ensures var lines := old(LinesOf(readers));
            && AllReady(lines, done, pids, setup.convert)
            && (done < rounds ==> !AllReady(lines, done + 1, pids, setup.convert))
            && (done == rounds ==> Aligned(readers, lines, done))
            && (done < rounds ==> exists f :: FailedRound(LinesOf(readers), lines, f, done, pids, setup.convert))
            && Concat(writer.written) ==
               Concat(old(writer.written)) + Frame(Documents(setup, lines, ids, pids, done), NEWLINE)
  {
    ghost var lines, before := LinesOf(readers), Concat(writer.written);
    done := 0;
    assert Documents(setup, lines, ids, pids, 0) == [];
    assert before + [] == before;
    while done < rounds
      invariant done <= rounds && NoEmpty(writer.written)
      invariant Aligned(readers, lines, done) && AllReady(lines, done, pids, setup.convert)
      invariant Concat(writer.written) == before + Frame(Documents(setup, lines, ids, pids, done), NEWLINE)
    {
      ghost var chunks := writer.written;
      var ok := Round(setup, readers, ids, pids, writer, lines, done);
      if !ok {
        break;
      }
      if lines != [] {
        AppendDocument(chunks, before, setup, lines, ids, pids, done);
      }
      done := done + 1;
    }
  }

  /** A document and a newline behind framed documents. */
  lemma AppendFrame(chunks: seq<Bytes>, before: Bytes, docs: seq<Bytes>, doc: Bytes, sep: Bytes)
    requires Concat(chunks) == before + Frame(docs, sep)
    ensures Concat(chunks + [doc, sep]) == before + Frame(docs + [doc], sep)
  {
    FrameAppend(docs, [doc], sep);
    FrameCons(doc, [], sep);
    ConcatSnoc(chunks, doc);
    ConcatSnoc(chunks + [doc], sep);
    assert chunks + [doc] + [sep] == chunks + [doc, sep];
    Assoc(before + Frame(docs, sep), doc, sep);
    Assoc(before, Frame(docs, sep), doc + sep);
  }

  lemma AppendDocument(chunks: seq<Bytes>, before: Bytes, setup: Setup, lines: seq<seq<string>>,
                       ids: seq<string>, pids: seq<int>, r: nat)
    requires |ids| == |pids| == |lines| > 0 && AllReady(lines, r + 1, pids, setup.convert)
    requires AllReady(lines, r, pids, setup.convert)
    requires Concat(chunks) == before + Frame(Documents(setup, lines, ids, pids, r), NEWLINE)
    ensures Concat(chunks + [setup.marshal(RoundRows(setup, lines, ids, pids, r)), NEWLINE]) ==
            before + Frame(Documents(setup, lines, ids, pids, r + 1), NEWLINE)
  {
    var docs, doc := Documents(setup, lines, ids, pids, r), setup.marshal(RoundRows(setup, lines, ids, pids, r));
    AppendFrame(chunks, before, docs, doc, NEWLINE);
    assert Documents(setup, lines, ids, pids, r + 1) == docs + [doc];
  }

  // ----- the readers -----------------------------------------------------------------------------------

  /** `ids` are the listed containers the token asks for, at positions `p`: all of them, no others, in the
      order of the list. */
  ghost predicate AskedFor(listed: seq<string>, containerIds: map<string, string>, ids: seq<string>, p: seq<nat>) {
    && Picks(p, listed, ids)
    && forall i: nat | i < |listed| :: listed[i] in containerIds <==> i in p
  }

  lemma AskedForNext(listed: seq<string>, containerIds: map<string, string>, ids: seq<string>, p: seq<nat>, id: string)
    requires AskedFor(listed, containerIds, ids, p)
    ensures if id in containerIds
            then AskedFor(listed + [id], containerIds, ids + [id], p + [|listed|])
            else AskedFor(listed + [id], containerIds, ids, p)
  {
    PickOne(p, listed, ids, id);
    IncreasingSnoc(p, |listed|);
    forall i: nat | i < |listed| ensures (listed + [id])[i] in containerIds <==> i in p {
      assert (listed + [id])[i] == listed[i];
    }
  }

  /** The three lists are built together: position `j` of each belongs to the same container. `inspect`
      gives the pid and `stream` the statistics stream of a container, or fails. */
  method BuildLists(listed: seq<string>, containerIds: map<string, string>,
                    inspect: string -> Option<int>, stream: string -> Option<seq<string>>)
    returns (ok: bool, readers: seq<StatsReader>, ids: seq<string>, pids: seq<int>, ghost p: seq<nat>)
    ensures ok <==> forall i | 0 <= i < |listed| && listed[i] in containerIds ::
                      inspect(listed[i]).Some? && stream(listed[i]).Some?
    ensures ok ==>
              && AskedFor(listed, containerIds, ids, p) && |readers| == |pids| == |ids|
              && (forall j | 0 <= j < |ids| :: ids[j] in containerIds)
              && DistinctReaders(readers) && (forall j | 0 <= j < |readers| :: fresh(readers[j]))
              && forall j | 0 <= j < |ids| ::
                   inspect(ids[j]) == Some(pids[j]) && stream(ids[j]) == Some(readers[j].lines)
  {
    readers, ids, pids, p := [], [], [], [];
    for i := 0 to |listed|
      invariant AskedFor(listed[..i], containerIds, ids, p) && |readers| == |pids| == |ids|
      invariant forall k | 0 <= k < i && listed[k] in containerIds ::
                  inspect(listed[k]).Some? && stream(listed[k]).Some?
      invariant forall j | 0 <= j < |ids| :: ids[j] in containerIds
      invariant DistinctReaders(readers) && forall j | 0 <= j < |readers| :: fresh(readers[j])
      invariant forall j | 0 <= j < |ids| ::
                  inspect(ids[j]) == Some(pids[j]) && stream(ids[j]) == Some(readers[j].lines)
    {
      var id := listed[i];
      assert listed[..i + 1] == listed[..i] + [id];
      AskedForNext(listed[..i], containerIds, ids, p, id);
      if id in containerIds {
        var pid, lines := inspect(id), stream(id);
        if pid.None? || lines.None? {
          return false, [], [], [], [];
        }
        var reader := new StatsReader(lines.value);
        readers, ids, pids, p := readers + [reader], ids + [id], pids + [pid.value], p + [i];
      }
    }
    assert listed[..|listed|] == listed;
    ok := true;
  }

  // ----- messages --------------------------------------------------------------------------------------

  /** JSON output: one line, and never empty. */
  ghost predicate OneLine(setup: Setup) {
    forall rows :: setup.marshal(rows) != [] && !Contains(setup.marshal(rows), NEWLINE) &&
                   setup.marshal(rows)[|setup.marshal(rows)| - 1] != CR
  }

  /** The scanner goroutine turns every written round into exactly one message, and reports no error, if
      and only if every document is shorter than the scanner's largest buffer. */
  lemma RoundsAreMessages(setup: Setup, lines: seq<seq<string>>, ids: seq<string>, pids: seq<int>, rounds: nat)
    requires OneLine(setup)
    requires |ids| == |pids| == |lines| && AllReady(lines, rounds, pids, setup.convert)
    ensures var docs := Documents(setup, lines, ids, pids, rounds);
            var s := Frame(docs, NEWLINE);
            (Texts(Emitted(s, NEWLINE)) == docs && !Overflows(s, NEWLINE)) <==>
            (forall r | 0 <= r < |docs| :: |docs[r]| < MAX_SCAN_TOKEN_SIZE)
  {
    LinesRoundTrip(Documents(setup, lines, ids, pids, rounds));
  }

  /** The handler for many containers from the built lists to the messages: message `r` is the document of
      round `r`, whose row `j` is sample `r` of container `j`. */
  method StatsMessages(setup: Setup, readers: seq<StatsReader>, ids: seq<string>, pids: seq<int>, rounds: nat)
    returns (done: nat, messages: seq<Bytes>, failed: bool)
    requires OneLine(setup) && DistinctReaders(readers) && |ids| == |pids| == |readers|
    modifies readers
    ensures var lines := old(LinesOf(readers));
            && done <= rounds && AllReady(lines, done, pids, setup.convert)
            && (done < rounds ==> !AllReady(lines, done + 1, pids, setup.convert))
            && var docs := Documents(setup, lines, ids, pids, done);
               (messages == docs && !failed <==> forall r | 0 <= r < |docs| :: |docs[r]| < MAX_SCAN_TOKEN_SIZE)
  {
    ghost var lines := LinesOf(readers);
    var writer := new Writer();
    done := RunRounds(setup, readers, ids, pids, writer, rounds);
    ghost var s := Frame(Documents(setup, lines, ids, pids, done), NEWLINE);
    assert Concat([]) + s == s;
    messages, failed := ScanLines(writer.written);
    RoundsAreMessages(setup, lines, ids, pids, done);
  }
}
