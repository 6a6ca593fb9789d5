/** `BinEdit.LoadDvbFromMatroska`: each Matroska block of a DVB subtitle
    track is classified and handed to the PES decoder; image-bearing packets
    become paragraphs, packets with nothing decodable close a short open
    paragraph, and a second pass enforces a minimum duration and removes
    overlaps. */
module DvbMatroska {
  import opened Basics

  /** Subtitling segment sync byte (clause 7.2 of ETSI EN 300 743). */
  const SyncByte: byte := 0x0F
  /** The first and last segment types of clause 7.2 of ETSI EN 300 743:
      page composition (0x10) .. display definition (0x14). */
  const PageCompositionSegment: byte := 0x10
  const DisplayDefinitionSegment: byte := 0x14
  /** PES data field framing (clause 7.1 of ETSI EN 300 743): data_identifier,
      subtitle_stream_id and end_of_PES_data_field_marker. */
  const DataIdentifier: byte := 0x20
  const SubtitleStreamId: byte := 0x00
  const EndOfPesDataFieldMarker: byte := 0xFF
  /** The third and fourth bytes of a pre-wrapped payload `32, 0, 14, 16`. */
  const PreWrappedThird: byte := 14
  const PreWrappedFourth: byte := 16

  /** Milliseconds below which a paragraph counts as still open. */
  const OpenParagraphMs := 100
  /** Milliseconds below which the second pass extends a paragraph. */
  const MinimumDurationMs := 200
  /** The fallback duration, in milliseconds. */
  const FallbackDurationMs := 3000

  /** One Matroska block of the DVB track: payload and times in milliseconds. */
  datatype Packet = Packet(data: Option<seq<byte>>, start: int, end: int)

  /** How the payload is handed to the `DvbSubPes` constructor, one variant
      per classification case. */
  datatype PesSource =
    | RawSegment(buffer: seq<byte>)     // (a) repacked raw subtitling segments, header length 0
    | PackHeader(data: seq<byte>)       // (b) MPEG-2 pack header, fixed header length
    | PrivateStream1(data: seq<byte>)   // (c) private-stream-1 at offset 0
    | PreWrapped(data: seq<byte>)       // (d) already a PES data field, header length 0

  /** A page composition and how many regions it places. */
  datatype PageComposition = PageComposition(regionCount: nat)

  /** What the model needs of a decoded `DvbSubPes`: its page compositions
      (possibly null) and the rest of what it decoded. */
  datatype DvbSubPes = DvbSubPes(pageCompositions: Option<seq<PageComposition>>, decoded: seq<byte>)

  /** `TransportStreamSubtitle`: the decoded packet and its final times. */
  datatype TsSubtitle = TsSubtitle(pes: DvbSubPes, startMilliseconds: int, endMilliseconds: int)

  /** The code outside this model: `VobSubParser.IsMpeg2PackHeader`,
      `VobSubParser.IsPrivateStream1` (at offset 0) and the `DvbSubPes`
      constructor, which gives nothing when it throws. */
  datatype ForeignDecoders = ForeignDecoders(
    isMpeg2PackHeader: seq<byte> -> bool,
    isPrivateStream1: seq<byte> -> bool,
    decode: PesSource -> Option<DvbSubPes>)

  /** The three lists the first pass grows together. */
  datatype DvbState = DvbState(images: seq<DvbSubPes>, paragraphs: seq<Paragraph>, subtitles: seq<TsSubtitle>)

  /** Case (a): a raw subtitling segment longer than 9 bytes whose type lies
      in page composition .. display definition. */
  predicate IsRawSegment(data: seq<byte>)
  {
    |data| > 9 && data[0] == SyncByte && PageCompositionSegment <= data[1] <= DisplayDefinitionSegment
  }

  /** Case (d): a payload longer than 9 bytes that starts `32, 0, 14, 16`. */
  predicate IsPreWrapped(data: seq<byte>)
  {
    |data| > 9 && data[0] == DataIdentifier && data[1] == SubtitleStreamId &&
    data[2] == PreWrappedThird && data[3] == PreWrappedFourth
  }

  /** The repack of case (a): a PES data field of `|data| + 3` bytes,
      data_identifier, subtitle_stream_id, the segments, end marker. */
  function Repacked(data: seq<byte>): seq<byte>
  {
    [DataIdentifier, SubtitleStreamId] + data + [EndOfPesDataFieldMarker]
  }

  /** The segments carried by a PES data field: everything between the
      two-byte prefix and the end marker. */
  function SegmentsOf(field: seq<byte>): seq<byte>
    requires |field| >= 3
  {
    field[2..|field| - 1]
  }

  /** The repacked buffer has the layout of clause 7.1 of ETSI EN 300 743
      and gives back exactly the payload's segments. */
  lemma RepackedLayout(data: seq<byte>)
    ensures var buffer := Repacked(data);
      && |buffer| == |data| + 3
      && buffer[0] == DataIdentifier && buffer[1] == SubtitleStreamId
      && buffer[|buffer| - 1] == EndOfPesDataFieldMarker
      && (forall i :: 0 <= i < |data| ==> buffer[i + 2] == data[i])
      && SegmentsOf(buffer) == data
  {
    var buffer := Repacked(data);
    assert buffer[2..|buffer| - 1] == data;
  }

  /** The classification, first match wins; nothing means `pes` stays null. */
  function Classify(data: seq<byte>, foreign: ForeignDecoders): Option<PesSource>
  {
    if IsRawSegment(data) then Some(RawSegment(Repacked(data)))
    else if foreign.isMpeg2PackHeader(data) then Some(PackHeader(data))
    else if foreign.isPrivateStream1(data) then Some(PrivateStream1(data))
    else if IsPreWrapped(data) then Some(PreWrapped(data))
    else None
  }

  /** Classification: a raw segment is always case (a), whatever the foreign
      predicates say; a pre-wrapped payload is case (d) only when neither
      foreign predicate holds; nothing matches exactly when none of the four
      tests holds; every case but (a) hands over the payload unchanged. */
  lemma ClassificationIsFirstMatch(data: seq<byte>, foreign: ForeignDecoders)
    ensures IsRawSegment(data) ==>
      Classify(data, foreign).Some? && Classify(data, foreign).value.RawSegment? &&
      SegmentsOf(Classify(data, foreign).value.buffer) == data
    ensures Classify(data, foreign).None? <==>
      !IsRawSegment(data) && !foreign.isMpeg2PackHeader(data) &&
      !foreign.isPrivateStream1(data) && !IsPreWrapped(data)
    ensures Classify(data, foreign) == Some(PreWrapped(data)) <==>
      !IsRawSegment(data) && !foreign.isMpeg2PackHeader(data) &&
      !foreign.isPrivateStream1(data) && IsPreWrapped(data)
    ensures Classify(data, foreign).Some? && !Classify(data, foreign).value.RawSegment? ==>
      Classify(data, foreign).value.data == data
  {
    if IsRawSegment(data) {
      RepackedLayout(data);
    }
  }

  /** The packet carries an image: some page composition has a region. */
  predicate HasRegions(pes: DvbSubPes)
  {
    pes.pageCompositions.Some? &&
    exists i :: 0 <= i < |pes.pageCompositions.value| && pes.pageCompositions.value[i].regionCount > 0
  }

  /** A packet with nothing decodable closes a last paragraph shorter than
      100 ms at the packet's start; if that makes it longer than the
      configured maximum it lasts 3000 ms instead. */
  function CloseOpenParagraph(ps: seq<Paragraph>, t: int, maxMs: int): seq<Paragraph>
  {
    if |ps| > 0 && ps[|ps| - 1].Duration() < OpenParagraphMs then
      var closed := ps[|ps| - 1].(endMs := t);
      ps[|ps| - 1 := if closed.Duration() > maxMs then closed.(endMs := closed.startMs + FallbackDurationMs) else closed]
    else ps
  }

  /** One iteration of the first pass. A missing payload makes the foreign
      predicates throw, and a throwing decoder skips the packet: either way
      the packet contributes nothing. */
  function DvbStep(st: DvbState, pkt: Packet, foreign: ForeignDecoders, settings: Settings): DvbState
  {
    match pkt.data
    case None => st
    case Some(data) =>
      match Classify(data, foreign)
      case None => st.(paragraphs := CloseOpenParagraph(st.paragraphs, pkt.start, settings.subtitleMaximumDisplayMilliseconds))
      case Some(source) =>
        match foreign.decode(source)
        case None => st
        case Some(pes) =>
          if HasRegions(pes) then
            DvbState(st.images + [pes], st.paragraphs + [Paragraph(pkt.start, pkt.end)], st.subtitles + [TsSubtitle(pes, 0, 0)])
          else st
  }

  /** The first pass over a run of packets; the three lists stay aligned. */
  function FirstPass(packets: seq<Packet>, foreign: ForeignDecoders, settings: Settings): (st: DvbState)
    ensures |st.images| == |st.paragraphs| == |st.subtitles|
    ensures forall i :: 0 <= i < |st.subtitles| ==> st.subtitles[i].pes == st.images[i]
  {
    if packets == [] then DvbState([], [], [])
    else DvbStep(FirstPass(packets[..|packets| - 1], foreign, settings), packets[|packets| - 1], foreign, settings)
  }

  /** A packet with nothing decodable only touches the last paragraph, and
      only when it is shorter than 100 ms; that paragraph then ends at the
      packet's start, or lasts 3000 ms when that would exceed the maximum. */
  lemma ClearPacketClosesOpenParagraph(st: DvbState, pkt: Packet, foreign: ForeignDecoders, settings: Settings)
    requires pkt.data.Some? && Classify(pkt.data.value, foreign).None?
    ensures var r := DvbStep(st, pkt, foreign, settings);
      var n := |st.paragraphs|;
      && r.images == st.images && r.subtitles == st.subtitles
      && |r.paragraphs| == n
      && (forall i :: 0 <= i < n - 1 ==> r.paragraphs[i] == st.paragraphs[i])
      && (n > 0 && st.paragraphs[n - 1].Duration() >= OpenParagraphMs ==> r.paragraphs == st.paragraphs)
      && (n > 0 && st.paragraphs[n - 1].Duration() < OpenParagraphMs ==>
            && r.paragraphs[n - 1].startMs == st.paragraphs[n - 1].startMs
            && (if pkt.start - st.paragraphs[n - 1].startMs > settings.subtitleMaximumDisplayMilliseconds
                then r.paragraphs[n - 1].Duration() == FallbackDurationMs
                else r.paragraphs[n - 1].endMs == pkt.start))
  {
  }

  /** Only a decoded packet with a region adds a paragraph, and it adds one
      entry to each of the three lists: the decoded data, the packet's
      times, and a transport-stream subtitle for that data. A missing
      payload, a throwing decoder or a packet without a region changes
      nothing. */
  lemma StepAppendsOnlyImages(st: DvbState, pkt: Packet, foreign: ForeignDecoders, settings: Settings)
    ensures var r := DvbStep(st, pkt, foreign, settings);
      && |r.paragraphs| >= |st.paragraphs|
      && (|r.paragraphs| > |st.paragraphs| <==>
            pkt.data.Some? && Classify(pkt.data.value, foreign).Some? &&
            foreign.decode(Classify(pkt.data.value, foreign).value).Some? &&
            HasRegions(foreign.decode(Classify(pkt.data.value, foreign).value).value))
      && (|r.paragraphs| > |st.paragraphs| ==>
            var pes := foreign.decode(Classify(pkt.data.value, foreign).value).value;
            && r.paragraphs == st.paragraphs + [Paragraph(pkt.start, pkt.end)]
            && r.images == st.images + [pes]
            && r.subtitles == st.subtitles + [TsSubtitle(pes, 0, 0)])
    ensures pkt.data.None? ==> DvbStep(st, pkt, foreign, settings) == st
    ensures pkt.data.Some? && Classify(pkt.data.value, foreign).Some? ==>
      var decoded := foreign.decode(Classify(pkt.data.value, foreign).value);
      (decoded.None? || !HasRegions(decoded.value)) ==> DvbStep(st, pkt, foreign, settings) == st
  {
  }

  /** The second pass for one paragraph: shorter than 200 ms becomes 3000 ms;
      then an end past the next paragraph's start moves to that start minus
      the configured gap. */
  function ReconcileOne(p: Paragraph, next: Option<Paragraph>, gap: int): Paragraph
  {
    var q := if p.Duration() < MinimumDurationMs then p.(endMs := p.startMs + FallbackDurationMs) else p;
    if next.Some? && next.value.startMs < q.endMs then q.(endMs := next.value.startMs - gap) else q
  }

  /** The second pass over the list. Starts never change, so each paragraph's
      new end depends only on itself and the next one's start. */
  function Reconciled(ps: seq<Paragraph>, gap: int): (r: seq<Paragraph>)
    ensures |r| == |ps|
  {
    seq(|ps|, i requires 0 <= i < |ps| => ReconcileOne(ps[i], ParagraphOrDefault(ps, i + 1), gap))
  }

  /** After the second pass with a non-negative gap no paragraph ends after
      the next one starts, starts are unchanged, and each paragraph lasts at
      least 200 ms unless it was cut short by the next one. */
  lemma ReconciledHasNoOverlap(ps: seq<Paragraph>, gap: int)
    requires gap >= 0
    ensures var r := Reconciled(ps, gap);
      && (forall i :: 0 <= i < |r| ==> r[i].startMs == ps[i].startMs)
      && (forall i :: 0 <= i < |r| - 1 ==> r[i].endMs <= r[i + 1].startMs)
      && (forall i :: 0 <= i < |r| ==>
            r[i].Duration() >= MinimumDurationMs ||
            (i + 1 < |r| && r[i].endMs == ps[i + 1].startMs - gap))
  {
    var r := Reconciled(ps, gap);
    forall i | 0 <= i < |r|
      ensures r[i].startMs == ps[i].startMs
      ensures i < |r| - 1 ==> r[i].endMs <= r[i + 1].startMs
      ensures r[i].Duration() >= MinimumDurationMs || (i + 1 < |r| && r[i].endMs == ps[i + 1].startMs - gap)
    {
      assert r[i] == ReconcileOne(ps[i], ParagraphOrDefault(ps, i + 1), gap);
      if i < |r| - 1 {
        assert r[i + 1] == ReconcileOne(ps[i + 1], ParagraphOrDefault(ps, i + 2), gap);
      }
    }
  }

  /** The form's lists after a DVB load: what the second pass produced. */
  datatype DvbLoad = DvbLoad(paragraphs: seq<Paragraph>, subtitles: seq<TsSubtitle>)

  /** `LoadDvbFromMatroska`: the first pass, the check for images and the
      second pass. It reports false when no packet carried an image. */
  method LoadDvbFromMatroska(sub: seq<Packet>, foreign: ForeignDecoders, settings: Settings)
    returns (loaded: Option<DvbLoad>)
    ensures var first := FirstPass(sub, foreign, settings);
      && (loaded.Some? <==> |first.images| > 0)
      && (loaded.Some? ==>
            var ps := Reconciled(first.paragraphs, settings.minimumMillisecondsBetweenLines);
            && loaded.value.paragraphs == ps
            && |loaded.value.subtitles| == |ps|
            && (forall i :: 0 <= i < |ps| ==>
                  loaded.value.subtitles[i] == TsSubtitle(first.images[i], ps[i].startMs, ps[i].endMs)))
  {
    var subtitleImages: seq<DvbSubPes> := [];
    var paragraphs: seq<Paragraph> := [];
    var subtitles: seq<TsSubtitle> := [];
    for index := 0 to |sub|
      invariant FirstPass(sub[..index], foreign, settings) == DvbState(subtitleImages, paragraphs, subtitles)
    {
      assert sub[..index + 1][..index] == sub[..index];
      var msub := sub[index];
      if msub.data.None? {
        continue;
      }
      var data := msub.data.value;
      var source: Option<PesSource> := None;
      if |data| > 9 && data[0] == SyncByte && data[1] >= PageCompositionSegment && data[1] <= DisplayDefinitionSegment {
        var buffer := Repacked(data);
        source := Some(RawSegment(buffer));
      } else if foreign.isMpeg2PackHeader(data) {
        source := Some(PackHeader(data));
      } else if foreign.isPrivateStream1(data) {
        source := Some(PrivateStream1(data));
      } else if |data| > 9 && data[0] == 32 && data[1] == 0 && data[2] == 14 && data[3] == 16 {
        source := Some(PreWrapped(data));
      }
      var pes: Option<DvbSubPes> := None;
      if source.Some? {
        pes := foreign.decode(source.value);
        if pes.None? {
          continue;
        }
      }
      if pes.None? && |paragraphs| > 0 {
        var last := paragraphs[|paragraphs| - 1];
        if last.Duration() < OpenParagraphMs {
          last := last.(endMs := msub.start);
          if last.Duration() > settings.subtitleMaximumDisplayMilliseconds {
            last := last.(endMs := last.startMs + FallbackDurationMs);
          }
          paragraphs := paragraphs[|paragraphs| - 1 := last];
        }
      }
      if pes.Some? && HasRegions(pes.value) {
        subtitleImages := subtitleImages + [pes.value];
        paragraphs := paragraphs + [Paragraph(msub.start, msub.end)];
        subtitles := subtitles + [TsSubtitle(pes.value, 0, 0)];
      }
    }
    assert sub[..|sub|] == sub;

    if |subtitleImages| == 0 {
      return None;
    }

    var reconciled, timed := ReconcileTimes(paragraphs, subtitles, settings.minimumMillisecondsBetweenLines);
    return Some(DvbLoad(reconciled, timed));
  }

  /** The second pass of `LoadDvbFromMatroska` (the loop after the image
      check): fixes each paragraph's end in order and copies the times to the
      transport-stream subtitle at the same index. */
  method ReconcileTimes(ps: seq<Paragraph>, subs: seq<TsSubtitle>, gap: int)
    returns (paragraphs: seq<Paragraph>, subtitles: seq<TsSubtitle>)
    requires |subs| == |ps|
    ensures paragraphs == Reconciled(ps, gap)
    ensures |subtitles| == |ps|
    ensures forall i :: 0 <= i < |ps| ==>
      subtitles[i] == TsSubtitle(subs[i].pes, paragraphs[i].startMs, paragraphs[i].endMs)
  {
    paragraphs := ps;
    subtitles := subs;
    for index := 0 to |paragraphs|
      invariant |paragraphs| == |ps| == |subtitles|
      invariant forall i :: 0 <= i < index ==> paragraphs[i] == Reconciled(ps, gap)[i]
      invariant forall i :: index <= i < |paragraphs| ==> paragraphs[i] == ps[i]
      invariant forall i :: 0 <= i < index ==>
        subtitles[i] == TsSubtitle(subs[i].pes, paragraphs[i].startMs, paragraphs[i].endMs)
      invariant forall i :: index <= i < |subtitles| ==> subtitles[i] == subs[i]
    {
      var p := paragraphs[index];
      if p.Duration() < MinimumDurationMs {
        p := p.(endMs := p.startMs + FallbackDurationMs);
      }
      var next := ParagraphOrDefault(paragraphs, index + 1);
      if next.Some? && next.value.startMs < p.endMs {
        p := p.(endMs := next.value.startMs - gap);
      }
      assert p == ReconcileOne(ps[index], ParagraphOrDefault(ps, index + 1), gap);
      paragraphs := paragraphs[index := p];
      subtitles := subtitles[index := subtitles[index].(startMilliseconds := p.startMs, endMilliseconds := p.endMs)];
    }
  }
}
