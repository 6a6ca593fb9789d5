/** The block loop of `BinEdit.LoadBluRaySubFromMatroska`: Blu-ray PGS
    payloads arrive in Matroska blocks; they are gathered in a cluster buffer
    until a block holds a 0x80 segment, then the gathered display sets are
    decoded, stamped with the block's times on the 90 kHz clock and appended
    to the event list, with fixes for dangling and overlapping events. */
module PgsMatroska {
  import opened Basics
  import PgsSegments

  /** One block of the PGS track: its payload (`GetData` may give null) and
      its start and end in container milliseconds. */
  datatype Block = Block(data: Option<seq<byte>>, start: int, end: int)

  /** The caches the display-set parser threads from one call to the next:
      palettes and bitmap objects by id. */
  datatype Caches = Caches(lastPalettes: map<int, seq<byte>>, lastBitmapObjects: map<int, seq<byte>>)

  /** `BluRaySupParser.PcsData`: one decoded event, its start and end on the
      90 kHz clock, and the rest of what the parser decoded for it. */
  datatype PcsData = PcsData(startTime: int, endTime: int, composition: seq<byte>)

  /** `BluRaySupParser.ParseBluRaySup` on the cluster buffer and the caches:
      the decoded events and the updated caches. */
  type DisplaySetParser = (seq<byte>, Caches) -> (seq<PcsData>, Caches)

  /** The loop's local state: the cluster buffer, the caches and the event list. */
  datatype State = State(cluster: seq<byte>, caches: Caches, subtitles: seq<PcsData>)

  /** How the load ends: refused for a compressed track, aborted by an
      exception, or with the list of events. */
  datatype Outcome = Unsupported | Crashed | Loaded(subtitles: seq<PcsData>)

  /** Durations above this many clock units are treated as spurious. */
  const LongDisplayGuard := 1000000

  /** The initial state: empty buffer, empty caches, no events. */
  const Initial := State([], Caches(map[], map[]), [])

  /** A container time in milliseconds on the PGS clock, as the source
      computes it: `(t - 1) * 90`. */
  function ToPgsClock(t: int): int
  {
    (t - 1) * 90
  }

  /** A payload that the loop buffers: present and longer than 2 bytes. */
  predicate CarriesPayload(b: Block)
  {
    b.data.Some? && |b.data.value| > 2
  }

  /** The last event is dangling when its end was never set. */
  predicate LastIsDangling(subs: seq<PcsData>)
  {
    |subs| > 0 && subs[|subs| - 1].startTime == subs[|subs| - 1].endTime
  }

  /** Before decoding: a dangling last event ends at the new block's start. */
  function CloseDangling(subs: seq<PcsData>, t: int): seq<PcsData>
  {
    if LastIsDangling(subs) then subs[|subs| - 1 := subs[|subs| - 1].(endTime := ToPgsClock(t))]
    else subs
  }

  /** On a block with no payload: a dangling last event ends at the block's
      start, unless that would make it last longer than the guard, in which
      case it stays of zero length. */
  function CloseOnEmptyBlock(subs: seq<PcsData>, t: int): seq<PcsData>
  {
    if LastIsDangling(subs) then
      var last := subs[|subs| - 1];
      var closed := last.(endTime := ToPgsClock(t));
      subs[|subs| - 1 := if closed.endTime - closed.startTime > LongDisplayGuard then last else closed]
    else subs
  }

  /** Appends one decoded event stamped with the block's times, then applies
      the overlap fix. The blocks are indexed by the number of events, as in
      the source; an index past the block list throws. */
  function AppendOne(subs: seq<PcsData>, sup: PcsData, b: Block, blocks: seq<Block>): Result<seq<PcsData>>
  {
    var s := subs + [sup.(startTime := ToPgsClock(b.start), endTime := ToPgsClock(b.end))];
    var k := |s|;
    if k > 1 then
      if k - 1 >= |blocks| then Failure(ArgumentOutOfRange)
      else if blocks[k - 2].end > blocks[k - 1].start then Ok(s[k - 2 := s[k - 2].(endTime := s[k - 1].startTime - 1)])
      else Ok(s)
    else Ok(s)
  }

  /** Appends the decoded events in order; the first exception ends the load. */
  function AppendParsed(subs: seq<PcsData>, parsed: seq<PcsData>, b: Block, blocks: seq<Block>): Result<seq<PcsData>>
    decreases |parsed|
  {
    if parsed == [] then Ok(subs)
    else
      match AppendOne(subs, parsed[0], b, blocks)
      case Failure(e) => Failure(e)
      case Ok(s) => AppendParsed(s, parsed[1..], b, blocks)
  }

  /** One iteration of the block loop. */
  function Step(st: State, b: Block, blocks: seq<Block>, parse: DisplaySetParser): Result<State>
  {
    if CarriesPayload(b) then
      var cluster := st.cluster + b.data.value;
      if PgsSegments.ScanFrom(b.data.value, 0) then
        var subs := CloseDangling(st.subtitles, b.start);
        var (list, caches) := parse(cluster, st.caches);
        match AppendParsed(subs, list, b, blocks)
        case Failure(e) => Failure(e)
        case Ok(s) => Ok(State([], caches, s))
      else Ok(st.(cluster := cluster))
    else Ok(st.(subtitles := CloseOnEmptyBlock(st.subtitles, b.start)))
  }

  /** The state after the first `n` blocks. */
  function RunPrefix(blocks: seq<Block>, n: nat, parse: DisplaySetParser): Result<State>
    requires n <= |blocks|
  {
    if n == 0 then Ok(Initial)
    else
      match RunPrefix(blocks, n - 1, parse)
      case Failure(e) => Failure(e)
      case Ok(st) => Step(st, blocks[n - 1], blocks, parse)
  }

  /** The whole load: a track with `ContentEncodingType == 1` is refused. */
  function Load(contentEncodingType: int, blocks: seq<Block>, parse: DisplaySetParser): Outcome
  {
    if contentEncodingType == 1 then Unsupported
    else
      match RunPrefix(blocks, |blocks|, parse)
      case Failure(_) => Crashed
      case Ok(st) => Loaded(st.subtitles)
  }

  /** The overlap test of the source for the event at index `k`: the block
      at index `k - 1` ends after the block at index `k` starts. */
  predicate BlocksOverlap(blocks: seq<Block>, k: int)
    requires 1 <= k < |blocks|
  {
    blocks[k - 1].end > blocks[k].start
  }

  /** Appending decoded events throws exactly when the event count passes
      the number of blocks (and there are at least two events). */
  lemma {:induction false} AppendParsedFailsIff(subs: seq<PcsData>, parsed: seq<PcsData>, b: Block, blocks: seq<Block>)
    ensures AppendParsed(subs, parsed, b, blocks).Failure? <==>
      |parsed| > 0 && |subs| + |parsed| > 1 && |subs| + |parsed| > |blocks|
    decreases |parsed|
  {
    if parsed != [] {
      var one := AppendOne(subs, parsed[0], b, blocks);
      if one.Ok? {
        assert |one.value| == |subs| + 1;
        AppendParsedFailsIff(one.value, parsed[1..], b, blocks);
      }
    }
  }

  /** What appending the decoded events of one block does to the event list:
      every earlier event but the last is untouched; the last keeps
      everything but its end, which moves to just before the first new
      start when the blocks overlap; each new event starts at the block's
      start, ends at the block's end, or just before the next event when the
      blocks at its index and the next overlap, and keeps what the parser
      decoded for it. */
  lemma {:induction false} AppendParsedResult(subs: seq<PcsData>, parsed: seq<PcsData>, b: Block, blocks: seq<Block>)
    requires AppendParsed(subs, parsed, b, blocks).Ok?
    ensures var r := AppendParsed(subs, parsed, b, blocks).value;
      && |r| == |subs| + |parsed|
      && (|r| <= |blocks| || |parsed| == 0 || |r| == 1)
      && (forall j :: 0 <= j < |subs| - 1 ==> r[j] == subs[j])
      && (|subs| > 0 ==>
            r[|subs| - 1] == subs[|subs| - 1].(endTime :=
              if |parsed| > 0 && BlocksOverlap(blocks, |subs|) then ToPgsClock(b.start) - 1
              else subs[|subs| - 1].endTime))
      && (forall j :: |subs| <= j < |r| ==>
            && r[j].startTime == ToPgsClock(b.start)
            && r[j].composition == parsed[j - |subs|].composition
            && r[j].endTime ==
                 (if j + 1 < |r| && BlocksOverlap(blocks, j + 1) then ToPgsClock(b.start) - 1
                  else ToPgsClock(b.end)))
    decreases |parsed|
  {
    if parsed != [] {
      var s1 := AppendOne(subs, parsed[0], b, blocks).value;
      assert |s1| == |subs| + 1;
      AppendParsedResult(s1, parsed[1..], b, blocks);
      var r := AppendParsed(subs, parsed, b, blocks).value;
      assert r == AppendParsed(s1, parsed[1..], b, blocks).value;
      forall j | |subs| <= j < |r|
        ensures r[j].composition == parsed[j - |subs|].composition
      {
        if j > |subs| {
          assert parsed[1..][j - |s1|] == parsed[j - |subs|];
        }
      }
    }
  }

  /** A block with a payload but no 0x80 segment only grows the cluster buffer. */
  lemma StepWithoutEndSegmentAccumulates(st: State, b: Block, blocks: seq<Block>, parse: DisplaySetParser)
    requires CarriesPayload(b) && !PgsSegments.ScanFrom(b.data.value, 0)
    ensures Step(st, b, blocks, parse) == Ok(State(st.cluster + b.data.value, st.caches, st.subtitles))
  {
  }

  /** A block with a 0x80 segment decodes the whole cluster buffer, this
      block's payload included, with the carried caches; the buffer is then
      empty, the caches are the parser's, a dangling last event ends at the
      block's start (or just before the first new event when the blocks
      overlap) and the new events carry the block's times. */
  lemma StepAtEndSegment(st: State, b: Block, blocks: seq<Block>, parse: DisplaySetParser)
    requires CarriesPayload(b) && PgsSegments.ScanFrom(b.data.value, 0)
    requires Step(st, b, blocks, parse).Ok?
    ensures var r := Step(st, b, blocks, parse).value;
      var (parsed, caches) := parse(st.cluster + b.data.value, st.caches);
      var n := |st.subtitles|;
      && r.cluster == []
      && r.caches == caches
      && |r.subtitles| == n + |parsed|
      && (forall j :: 0 <= j < n - 1 ==> r.subtitles[j] == st.subtitles[j])
      && (LastIsDangling(st.subtitles) ==>
            r.subtitles[n - 1].endTime ==
              if |parsed| > 0 && BlocksOverlap(blocks, n) then ToPgsClock(b.start) - 1 else ToPgsClock(b.start))
      && (forall j :: n <= j < |r.subtitles| ==>
            r.subtitles[j].startTime == ToPgsClock(b.start) &&
            (r.subtitles[j].endTime == ToPgsClock(b.end) ||
             (j + 1 < |r.subtitles| && r.subtitles[j].endTime == r.subtitles[j + 1].startTime - 1)))
  {
    var subs := CloseDangling(st.subtitles, b.start);
    var (parsed, caches) := parse(st.cluster + b.data.value, st.caches);
    assert AppendParsed(subs, parsed, b, blocks).Ok?;
    AppendParsedResult(subs, parsed, b, blocks);
  }

  /** A block without payload closes a dangling last event at the block's
      start, unless that would make it longer than the guard, in which case
      the event keeps zero length; nothing else changes,
      and a last event that is not dangling is left alone. */
  lemma EmptyBlockClosesWithinGuard(st: State, b: Block, blocks: seq<Block>, parse: DisplaySetParser)
    requires !CarriesPayload(b)
    ensures Step(st, b, blocks, parse).Ok?
    ensures var r := Step(st, b, blocks, parse).value;
      var n := |st.subtitles|;
      && r.cluster == st.cluster && r.caches == st.caches
      && |r.subtitles| == n
      && (forall j :: 0 <= j < n - 1 ==> r.subtitles[j] == st.subtitles[j])
      && (!LastIsDangling(st.subtitles) ==> r.subtitles == st.subtitles)
      && (LastIsDangling(st.subtitles) ==>
            && r.subtitles[n - 1].startTime == st.subtitles[n - 1].startTime
            && r.subtitles[n - 1].composition == st.subtitles[n - 1].composition
            && r.subtitles[n - 1].endTime - r.subtitles[n - 1].startTime <= LongDisplayGuard
            && r.subtitles[n - 1].endTime ==
                 if ToPgsClock(b.start) - st.subtitles[n - 1].startTime > LongDisplayGuard
                 then st.subtitles[n - 1].startTime else ToPgsClock(b.start))
  {
  }

  /** An exception in one block ends the load: later blocks are not run. */
  lemma {:induction false} FailureIsFinal(blocks: seq<Block>, n: nat, m: nat, parse: DisplaySetParser)
    requires n <= m <= |blocks|
    requires RunPrefix(blocks, n, parse).Failure?
    ensures RunPrefix(blocks, m, parse).Failure?
    decreases m - n
  {
    if n < m {
      FailureIsFinal(blocks, n + 1, m, parse);
    }
  }

  /** The inner loop of `LoadBluRaySubFromMatroska`: appends each decoded
      event stamped with the block's times and, from the second event on,
      ends the previous one just before it when their blocks overlap; an
      event count past the block list throws. */
  method AppendDecodedEvents(subs: seq<PcsData>, list: seq<PcsData>, p: Block, sub: seq<Block>)
    returns (r: Result<seq<PcsData>>)
    ensures r == AppendParsed(subs, list, p, sub)
  {
    var subtitles := subs;
    for j := 0 to |list|
      invariant AppendParsed(subs, list, p, sub) == AppendParsed(subtitles, list[j..], p, sub)
    {
      assert list[j..] == [list[j]] + list[j + 1..];
      var sup := list[j].(startTime := ToPgsClock(p.start), endTime := ToPgsClock(p.end));
      subtitles := subtitles + [sup];
      if |subtitles| > 1 {
        if |subtitles| - 1 >= |sub| {
          return Failure(ArgumentOutOfRange);
        }
        if sub[|subtitles| - 2].end > sub[|subtitles| - 1].start {
          subtitles := subtitles[|subtitles| - 2 := subtitles[|subtitles| - 2].(endTime := subtitles[|subtitles| - 1].startTime - 1)];
        }
      }
    }
    assert list[|list|..] == [];
    return Ok(subtitles);
  }

  /** `LoadBluRaySubFromMatroska`, from the encoding check to the end of the
      block loop. */
  method LoadBluRaySubFromMatroska(contentEncodingType: int, sub: seq<Block>, parse: DisplaySetParser)
    returns (outcome: Outcome)
    ensures outcome == Load(contentEncodingType, sub, parse)
  {
    if contentEncodingType == 1 {
      return Unsupported;
    }
    var subtitles: seq<PcsData> := [];
    var clusterStream: seq<byte> := [];
    var caches := Caches(map[], map[]);
    for i := 0 to |sub|
      invariant RunPrefix(sub, i, parse) == Ok(State(clusterStream, caches, subtitles))
    {
      var p := sub[i];
      ghost var before := State(clusterStream, caches, subtitles);
      if p.data.Some? && |p.data.value| > 2 {
        var buffer := p.data.value;
        clusterStream := clusterStream + buffer;
        var hasEndSegment := PgsSegments.ContainsBluRayStartSegment(buffer);
        if hasEndSegment {
          if |subtitles| > 0 && subtitles[|subtitles| - 1].startTime == subtitles[|subtitles| - 1].endTime {
            subtitles := subtitles[|subtitles| - 1 := subtitles[|subtitles| - 1].(endTime := ToPgsClock(p.start))];
          }
          var (list, newCaches) := parse(clusterStream, caches);
          caches := newCaches;
          var appended := AppendDecodedEvents(subtitles, list, p, sub);
          if appended.Failure? {
            assert RunPrefix(sub, i + 1, parse).Failure?;
            FailureIsFinal(sub, i + 1, |sub|, parse);
            return Crashed;
          }
          subtitles := appended.value;
          clusterStream := [];
        }
      } else if |subtitles| > 0 {
        var lastSub := subtitles[|subtitles| - 1];
        if lastSub.startTime == lastSub.endTime {
          lastSub := lastSub.(endTime := ToPgsClock(p.start));
          if lastSub.endTime - lastSub.startTime > LongDisplayGuard {
            lastSub := lastSub.(endTime := lastSub.startTime);
          }
          subtitles := subtitles[|subtitles| - 1 := lastSub];
        }
      }
      assert Step(before, p, sub, parse) == Ok(State(clusterStream, caches, subtitles));
    }
    return Loaded(subtitles);
  }
}
