/**
 * The section chunker (prognosis_validation/chunking/chunker.py).
 *
 * `chunk_section` splits a section's content into segments and packs them,
 * left to right, into chunks of at most `max_chunk_size` characters; a
 * segment that does not fit closes the chunk being built, and a segment
 * longer than the limit becomes a chunk of its own.
 *
 * The regular-expression split of the content is not modelled: its result,
 * the list of pieces before stripping, is a parameter. The two regular
 * expression searches behind `contains_measurements` and `contains_dates`
 * are fields of the chunker, and the clock read by `_create_chunk` is a
 * parameter giving the time at which the k-th chunk of a call is created.
 */
module Chunker {
  import opened Text
  import opened Metadata
  import opened ParallelProcessor

  /** A chunk, as `MedicalChunk`. */
  datatype MedicalChunk = MedicalChunk(content: string, sectionType: string, pageNum: int, chunkId: string, metadata: MetaMap)

  /** A clock reading: `int(now.timestamp())` and `now.isoformat()`. */
  datatype Time = Time(seconds: int, isoFormat: string)

  /** The number of preserve patterns, and so of `__PROTECT_i__` placeholders. */
  const PreserveCount: nat := 4

  /** The placeholder `__PROTECT_i__` that stands for a protected match of preserve pattern `i`. */
  function Placeholder(i: nat): (p: string)
    ensures p != [] && SpaceFree(p)
  {
    var digits := NatToString(i);
    NatToStringDigits(i);
    "__PROTECT_" + digits + "__"
  }

  /** The metadata of a chunk agrees with the chunk: its section, page and length. */
  predicate MetadataDescribes(c: MedicalChunk) {
    && "section_type" in c.metadata && c.metadata["section_type"] == MStr(c.sectionType)
    && "page_num" in c.metadata && c.metadata["page_num"] == MInt(c.pageNum)
    && "chunk_length" in c.metadata && c.metadata["chunk_length"] == MInt(|c.content|)
  }

  /**
   * The chunker. It never changes after construction; `measurementSearch` and
   * `dateSearch` stand for the searches with the measurement pattern (preserve
   * pattern 1) and the date pattern (preserve pattern 0).
   */
  datatype MedicalDocumentChunker = MedicalDocumentChunker(
    maxChunkSize: int,
    minChunkSize: int,
    measurementSearch: string -> bool,
    dateSearch: string -> bool)
  {
    /** `_create_chunk`: the chunk with its id and derived metadata, created at time `now`. */
    function CreateChunk(content: string, sectionType: string, pageNum: int, now: Time): (c: MedicalChunk)
      ensures c.content == content && c.sectionType == sectionType && c.pageNum == pageNum
      ensures MetadataDescribes(c)
      ensures c.metadata.Keys == {"section_type", "page_num", "chunk_length", "created_at",
                                  "contains_measurements", "contains_dates"}
    {
      MedicalChunk(
        content, sectionType, pageNum,
        sectionType + "_" + IntToString(pageNum) + "_" + IntToString(now.seconds),
        map[
          "section_type" := MStr(sectionType),
          "page_num" := MInt(pageNum),
          "chunk_length" := MInt(|content|),
          "created_at" := MStr(now.isoFormat),
          "contains_measurements" := MBool(measurementSearch(content)),
          "contains_dates" := MBool(dateSearch(content))])
    }

    /** The chunks of `groups`, the k-th created at `clock(k)`. */
    function ChunksOf(groups: seq<seq<string>>, title: string, pageNum: int, clock: nat -> Time): (chunks: seq<MedicalChunk>)
      ensures |chunks| == |groups|
      decreases |groups|
    {
      if groups == [] then []
      else
        var n := |groups| - 1;
        ChunksOf(groups[..n], title, pageNum, clock) + [CreateChunk(Join(" ", groups[n]), title, pageNum, clock(n))]
    }

    /** What `chunk_section` returns for `section` when its content splits into `pieces`. */
    function SectionChunks(section: MedicalSection, pieces: seq<string>, clock: nat -> Time): seq<MedicalChunk> {
      if Strip(section.content) == "" then []
      else ChunksOf(Pack(Segments(pieces), maxChunkSize), section.title, section.pageNum, clock)
    }

    /** `chunk_section`, given the pieces the break pattern splits the content into. */
    method ChunkSection(section: MedicalSection, pieces: seq<string>, clock: nat -> Time) returns (chunks: seq<MedicalChunk>)
      ensures chunks == SectionChunks(section, pieces, clock)
      ensures Strip(section.content) == "" ==> chunks == []
    {
      if Strip(section.content) == "" {
        return [];
      }
      assert SectionChunks(section, pieces, clock) == ChunksOf(Pack(Segments(pieces), maxChunkSize), section.title, section.pageNum, clock);
      var segments := Segments(pieces);
      ghost var target := Pack(segments, maxChunkSize);
      ghost var groups: seq<seq<string>> := [];
      chunks := [];
      var currentSegments: seq<string> := [];
      var currentLength := 0;
      for i := 0 to |segments|
        invariant currentLength == TotalLength(currentSegments)
        invariant chunks == ChunksOf(groups, section.title, section.pageNum, clock)
        invariant groups + PackFrom(segments[i..], maxChunkSize, currentSegments) == target
      {
        var segment := segments[i];
        if currentLength + |segment| > maxChunkSize && currentSegments != [] {
          PackTurnCloses(segments, i, maxChunkSize, groups, currentSegments, target);
          var chunkContent := Join(" ", currentSegments);
          chunks := chunks + [CreateChunk(chunkContent, section.title, section.pageNum, clock(|chunks|))];
          ChunksOfAppend(this, groups, currentSegments, section.title, section.pageNum, clock);
          groups := groups + [currentSegments];
          currentSegments := [];
          currentLength := 0;
        } else {
          PackTurnExtends(segments, i, maxChunkSize, groups, currentSegments, target);
        }
        TotalLengthAppend(currentSegments, segment);
        currentSegments := currentSegments + [segment];
        currentLength := currentLength + |segment|;
      }
      if currentSegments != [] {
        var chunkContent := Join(" ", currentSegments);
        chunks := chunks + [CreateChunk(chunkContent, section.title, section.pageNum, clock(|chunks|))];
        ChunksOfAppend(this, groups, currentSegments, section.title, section.pageNum, clock);
        groups := groups + [currentSegments];
      }
      assert groups == target by {
        assert segments[|segments|..] == [];
      }
    }

    /** The text after the placeholders of the first `n` preserve patterns are replaced by spaces. */
    function Restored(text: string, n: nat): string
      requires n <= PreserveCount
    {
      if n == 0 then text else Replace(Restored(text, n - 1), Placeholder(n - 1), " ")
    }

    /** `_restore_patterns`: every placeholder, in pattern order, becomes a single space. */
    method RestorePatterns(text: string) returns (r: string)
      ensures r == Restored(text, PreserveCount)
      ensures forall i :: 0 <= i < PreserveCount ==> !Contains(r, Placeholder(i))
    {
      r := text;
      for i := 0 to PreserveCount
        invariant r == Restored(text, i)
      {
        r := Replace(r, Placeholder(i), " ");
      }
      RestoredHasNoPlaceholder(this, text, PreserveCount);
    }
  }

  /** `MedicalDocumentChunker()`: the default sizes, 500 and 100. */
  function DefaultChunker(measurementSearch: string -> bool, dateSearch: string -> bool): MedicalDocumentChunker {
    MedicalDocumentChunker(500, 100, measurementSearch, dateSearch)
  }

  // ---------------------------------------------------------------------------
  // Segments
  // ---------------------------------------------------------------------------

  /** The list comprehension of `chunk_section`: the stripped pieces that are not empty, in order. */
  function Segments(pieces: seq<string>): (segs: seq<string>)
    ensures |segs| <= |pieces|
    ensures forall k :: 0 <= k < |segs| ==> segs[k] != "" && Strip(segs[k]) == segs[k]
  {
    if pieces == [] then []
    else
      var s := Strip(pieces[0]);
      StripIdempotent(pieces[0]);
      (if s != "" then [s] else []) + Segments(pieces[1..])
  }

  /** A piece takes part exactly when it is not blank, and then stripped. */
  lemma {:induction false} SegmentsOfPieces(pieces: seq<string>)
    ensures forall s :: s in Segments(pieces) ==> exists k :: 0 <= k < |pieces| && Strip(pieces[k]) == s
    ensures forall k :: 0 <= k < |pieces| && Strip(pieces[k]) != "" ==> Strip(pieces[k]) in Segments(pieces)
  {
    if pieces != [] {
      SegmentsOfPieces(pieces[1..]);
      assert forall k :: 1 <= k < |pieces| ==> pieces[1..][k - 1] == pieces[k];
    }
  }

  /** Segmenting segments again changes nothing. */
  lemma {:induction false} SegmentsIdempotent(pieces: seq<string>)
    ensures Segments(Segments(pieces)) == Segments(pieces)
  {
    if pieces != [] {
      SegmentsIdempotent(pieces[1..]);
      var s := Strip(pieces[0]);
      StripIdempotent(pieces[0]);
      SegmentsAppend(if s != "" then [s] else [], Segments(pieces[1..]));
    }
  }

  lemma {:induction false} SegmentsAppend(a: seq<string>, b: seq<string>)
    ensures Segments(a + b) == Segments(a) + Segments(b)
  {
    if a != [] {
      assert (a + b)[1..] == a[1..] + b;
      SegmentsAppend(a[1..], b);
    } else {
      assert a + b == b;
    }
  }

  // ---------------------------------------------------------------------------
  // Greedy packing
  // ---------------------------------------------------------------------------

  /**
   * The packing loop of `chunk_section` from the point where `cur` is being
   * accumulated and `segs` are still to come: the groups of segments it closes.
   */
  function PackFrom(segs: seq<string>, max: int, cur: seq<string>): seq<seq<string>>
    decreases |segs|
  {
    if segs == [] then (if cur != [] then [cur] else [])
    else if TotalLength(cur) + |segs[0]| > max && cur != [] then [cur] + PackFrom(segs[1..], max, [segs[0]])
    else PackFrom(segs[1..], max, cur + [segs[0]])
  }

  /**
   * A turn of the packing loop at segment `i` that closes the group being
   * accumulated: the closed groups gain `cur`, and a new group starts with the segment.
   */
  lemma PackTurnCloses(segs: seq<string>, i: nat, max: int, groups: seq<seq<string>>, cur: seq<string>, target: seq<seq<string>>)
    requires i < |segs| && TotalLength(cur) + |segs[i]| > max && cur != []
    requires groups + PackFrom(segs[i..], max, cur) == target
    ensures (groups + [cur]) + PackFrom(segs[i + 1..], max, [] + [segs[i]]) == target
  {
    assert segs[i..][1..] == segs[i + 1..];
    assert [] + [segs[i]] == [segs[i]];
    var rest := PackFrom(segs[i + 1..], max, [segs[i]]);
    assert PackFrom(segs[i..], max, cur) == [cur] + rest;
    assert groups + ([cur] + rest) == (groups + [cur]) + rest;
  }

  /** A turn of the packing loop at segment `i` that adds the segment to the group being accumulated. */
  lemma PackTurnExtends(segs: seq<string>, i: nat, max: int, groups: seq<seq<string>>, cur: seq<string>, target: seq<seq<string>>)
    requires i < |segs| && !(TotalLength(cur) + |segs[i]| > max && cur != [])
    requires groups + PackFrom(segs[i..], max, cur) == target
    ensures groups + PackFrom(segs[i + 1..], max, cur + [segs[i]]) == target
  {
    assert segs[i..][1..] == segs[i + 1..];
  }

  /** The groups of segments of the chunks, in order. */
  function Pack(segs: seq<string>, max: int): seq<seq<string>> {
    PackFrom(segs, max, [])
  }

  /** The groups one after the other. */
  function Flatten(groups: seq<seq<string>>): seq<string>
    decreases |groups|
  {
    if groups == [] then [] else groups[0] + Flatten(groups[1..])
  }

  lemma {:induction false} FlattenMember(groups: seq<seq<string>>, k: nat, x: string)
    requires k < |groups| && x in groups[k]
    ensures x in Flatten(groups)
    decreases |groups|
  {
    if k > 0 {
      FlattenMember(groups[1..], k - 1, x);
    }
  }

  /** Nothing is lost, duplicated or reordered: the groups concatenate back to the segments. */
  lemma {:induction false} PackFromFlatten(segs: seq<string>, max: int, cur: seq<string>)
    ensures Flatten(PackFrom(segs, max, cur)) == cur + segs
    decreases |segs|
  {
    if segs == [] {
      if cur != [] {
        assert Flatten([cur]) == cur + Flatten([]);
      }
    } else if TotalLength(cur) + |segs[0]| > max && cur != [] {
      var rest := PackFrom(segs[1..], max, [segs[0]]);
      PackFromFlatten(segs[1..], max, [segs[0]]);
      assert ([cur] + rest)[1..] == rest;
      assert segs == [segs[0]] + segs[1..];
    } else {
      PackFromFlatten(segs[1..], max, cur + [segs[0]]);
      assert segs == [segs[0]] + segs[1..];
    }
  }

  /** Every segment lands in exactly one chunk, in order. */
  lemma PackFlatten(segs: seq<string>, max: int)
    ensures Flatten(Pack(segs, max)) == segs
  {
    PackFromFlatten(segs, max, []);
  }

  /** No group is empty. */
  lemma {:induction false} PackFromGroupsNonEmpty(segs: seq<string>, max: int, cur: seq<string>)
    ensures forall k :: 0 <= k < |PackFrom(segs, max, cur)| ==> PackFrom(segs, max, cur)[k] != []
    decreases |segs|
  {
    if segs != [] {
      if TotalLength(cur) + |segs[0]| > max && cur != [] {
        PackFromGroupsNonEmpty(segs[1..], max, [segs[0]]);
      } else {
        PackFromGroupsNonEmpty(segs[1..], max, cur + [segs[0]]);
      }
    }
  }

  /** A group of two or more segments is within the limit; only a single segment may exceed it. */
  lemma {:induction false} PackFromWithinLimit(segs: seq<string>, max: int, cur: seq<string>)
    requires |cur| <= 1 || TotalLength(cur) <= max
    ensures forall k :: 0 <= k < |PackFrom(segs, max, cur)| ==>
              |PackFrom(segs, max, cur)[k]| <= 1 || TotalLength(PackFrom(segs, max, cur)[k]) <= max
    decreases |segs|
  {
    if segs != [] {
      if TotalLength(cur) + |segs[0]| > max && cur != [] {
        PackFromWithinLimit(segs[1..], max, [segs[0]]);
      } else {
        TotalLengthAppend(cur, segs[0]);
        PackFromWithinLimit(segs[1..], max, cur + [segs[0]]);
      }
    }
  }

  lemma PackWithinLimit(segs: seq<string>, max: int)
    ensures forall k :: 0 <= k < |Pack(segs, max)| ==>
              |Pack(segs, max)[k]| <= 1 || TotalLength(Pack(segs, max)[k]) <= max
  {
    PackFromWithinLimit(segs, max, []);
  }

  /** The group being accumulated begins the first group closed. */
  lemma {:induction false} PackFromFirst(segs: seq<string>, max: int, cur: seq<string>)
    requires cur != []
    ensures PackFrom(segs, max, cur) != [] && cur <= PackFrom(segs, max, cur)[0]
    decreases |segs|
  {
    if segs != [] && !(TotalLength(cur) + |segs[0]| > max) {
      PackFromFirst(segs[1..], max, cur + [segs[0]]);
    }
  }

  /** Each group but the last was closed because the first segment of the next would not fit. */
  ghost predicate ClosedOnlyWhenFull(gs: seq<seq<string>>, max: int) {
    forall k, j :: 0 <= k < j < |gs| && j == k + 1 ==> gs[j] != [] && TotalLength(gs[k]) + |gs[j][0]| > max
  }

  /** A group is closed only when the next segment would have taken it over the limit. */
  lemma {:induction false} PackFromGreedy(segs: seq<string>, max: int, cur: seq<string>)
    ensures ClosedOnlyWhenFull(PackFrom(segs, max, cur), max)
    decreases |segs|
  {
    var gs := PackFrom(segs, max, cur);
    if segs != [] {
      if TotalLength(cur) + |segs[0]| > max && cur != [] {
        var rest := PackFrom(segs[1..], max, [segs[0]]);
        PackFromGreedy(segs[1..], max, [segs[0]]);
        PackFromFirst(segs[1..], max, [segs[0]]);
        PackFromGroupsNonEmpty(segs[1..], max, [segs[0]]);
        assert gs == [cur] + rest;
        assert rest[0][0] == segs[0];
        forall k, j | 0 <= k < j < |gs| && j == k + 1
          ensures gs[j] != [] && TotalLength(gs[k]) + |gs[j][0]| > max
        {
          assert gs[j] == rest[k];
          if k > 0 {
            assert gs[k] == rest[k - 1];
          }
        }
      } else {
        PackFromGreedy(segs[1..], max, cur + [segs[0]]);
      }
    }
  }

  lemma PackGreedy(segs: seq<string>, max: int)
    ensures ClosedOnlyWhenFull(Pack(segs, max), max)
  {
    PackFromGreedy(segs, max, []);
  }

  /** Some segment gives some chunk: the last segments accumulated are always flushed. */
  lemma PackNonEmpty(segs: seq<string>, max: int)
    ensures Pack(segs, max) == [] <==> segs == []
  {
    PackFlatten(segs, max);
    if segs == [] {
      assert Pack(segs, max) == [];
    }
  }

  // ---------------------------------------------------------------------------
  // Chunks
  // ---------------------------------------------------------------------------

  /** Closing one more group creates one more chunk, at the next clock reading. */
  lemma ChunksOfAppend(c: MedicalDocumentChunker, groups: seq<seq<string>>, g: seq<string>, title: string, pageNum: int, clock: nat -> Time)
    ensures c.ChunksOf(groups + [g], title, pageNum, clock)
         == c.ChunksOf(groups, title, pageNum, clock) + [c.CreateChunk(Join(" ", g), title, pageNum, clock(|groups|))]
  {
    assert (groups + [g])[..|groups|] == groups;
  }

  /** The k-th chunk is the k-th group joined by spaces, created at `clock(k)`. */
  lemma {:induction false} ChunksOfAt(c: MedicalDocumentChunker, groups: seq<seq<string>>, title: string, pageNum: int, clock: nat -> Time)
    ensures forall k :: 0 <= k < |groups| ==>
              c.ChunksOf(groups, title, pageNum, clock)[k] == c.CreateChunk(Join(" ", groups[k]), title, pageNum, clock(k))
    decreases |groups|
  {
    if groups != [] {
      var init := groups[..|groups| - 1];
      assert forall k :: 0 <= k < |init| ==> init[k] == groups[k];
      ChunksOfAt(c, init, title, pageNum, clock);
    }
  }

  /** A chunk's content is never empty, and its metadata names its section, page and length. */
  lemma ChunksWellFormed(c: MedicalDocumentChunker, section: MedicalSection, pieces: seq<string>, clock: nat -> Time)
    ensures forall ch :: ch in c.SectionChunks(section, pieces, clock) ==>
              ch.content != "" && ch.sectionType == section.title && ch.pageNum == section.pageNum
              && MetadataDescribes(ch)
  {
    if Strip(section.content) != "" {
      var segs := Segments(pieces);
      var gs := Pack(segs, c.maxChunkSize);
      var chunks := c.SectionChunks(section, pieces, clock);
      PackFromGroupsNonEmpty(segs, c.maxChunkSize, []);
      PackFlatten(segs, c.maxChunkSize);
      ChunksOfAt(c, gs, section.title, section.pageNum, clock);
      forall ch | ch in chunks
        ensures ch.content != "" && ch.sectionType == section.title && ch.pageNum == section.pageNum
                && MetadataDescribes(ch)
      {
        var k :| 0 <= k < |chunks| && chunks[k] == ch;
        assert ch.content == Join(" ", gs[k]);
        FlattenMember(gs, k, gs[k][0]);
        assert gs[k][0] != "";
        JoinStartsWithFirst(" ", gs[k]);
      }
    }
  }

  /**
   * The chunks of a section whose content is not blank are its segments packed
   * greedily: one chunk per group, in order, each the group joined by spaces.
   */
  lemma ChunksArePackedSegments(c: MedicalDocumentChunker, section: MedicalSection, pieces: seq<string>, clock: nat -> Time)
    requires Strip(section.content) != ""
    ensures var chunks := c.SectionChunks(section, pieces, clock);
            var gs := Pack(Segments(pieces), c.maxChunkSize);
            && |chunks| == |gs| && Flatten(gs) == Segments(pieces)
            && (forall k :: 0 <= k < |chunks| ==>
                  chunks[k].content == Join(" ", gs[k]) && gs[k] != []
                  && (|gs[k]| <= 1 || TotalLength(gs[k]) <= c.maxChunkSize))
            && (chunks == [] <==> Segments(pieces) == [])
  {
    var segs := Segments(pieces);
    PackFlatten(segs, c.maxChunkSize);
    PackFromGroupsNonEmpty(segs, c.maxChunkSize, []);
    PackWithinLimit(segs, c.maxChunkSize);
    PackNonEmpty(segs, c.maxChunkSize);
    ChunksOfAt(c, Pack(segs, c.maxChunkSize), section.title, section.pageNum, clock);
  }

  /** The content of a chunk of several segments is at most the limit plus the separating spaces. */
  lemma ChunkContentLength(groupOfSegments: seq<string>, max: int)
    requires |groupOfSegments| >= 2 && TotalLength(groupOfSegments) <= max
    ensures |Join(" ", groupOfSegments)| <= max + |groupOfSegments| - 1
  {
    JoinLength(" ", groupOfSegments);
  }

  // ---------------------------------------------------------------------------
  // Placeholders
  // ---------------------------------------------------------------------------

  /** After the first `n` replacements, none of the first `n` placeholders is left. */
  lemma {:induction false} RestoredHasNoPlaceholder(c: MedicalDocumentChunker, text: string, n: nat)
    requires n <= PreserveCount
    ensures forall i :: 0 <= i < n ==> !Contains(c.Restored(text, n), Placeholder(i))
  {
    if n > 0 {
      RestoredHasNoPlaceholder(c, text, n - 1);
      var before := c.Restored(text, n - 1);
      forall i | 0 <= i < n
        ensures !Contains(c.Restored(text, n), Placeholder(i))
      {
        if i == n - 1 {
          ReplaceRemoves(before, Placeholder(i));
        } else {
          ReplaceKeepsAbsence(before, Placeholder(n - 1), Placeholder(i));
        }
      }
    }
  }

  /** Text that holds none of the placeholders is left as it is. */
  lemma {:induction false} RestoredOfClean(c: MedicalDocumentChunker, text: string, n: nat)
    requires n <= PreserveCount
    requires forall i :: 0 <= i < n ==> !Contains(text, Placeholder(i))
    ensures c.Restored(text, n) == text
  {
    if n > 0 {
      RestoredOfClean(c, text, n - 1);
      ReplaceAbsent(text, Placeholder(n - 1), " ");
    }
  }

  /** Restoring twice is restoring once. */
  lemma RestoreIdempotent(c: MedicalDocumentChunker, text: string)
    ensures c.Restored(c.Restored(text, PreserveCount), PreserveCount) == c.Restored(text, PreserveCount)
  {
    RestoredHasNoPlaceholder(c, text, PreserveCount);
    RestoredOfClean(c, c.Restored(text, PreserveCount), PreserveCount);
  }
}
