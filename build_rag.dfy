/**
 * The document store of the retrieval pipeline (prognosis_validation/rag/build_rag.py):
 * the deduplicating, batched `add_documents` and the `top_k` clamp of
 * `get_similar_chunks`.
 *
 * The vector database is modelled by what the store reads and writes of
 * it: the ids, documents and metadata of the collection, in insertion
 * order, and the id lists of the `collection.add` calls made. The md5
 * digest is the store's `hash` function, the clock read for each chunk's
 * `timestamp` is a parameter, and the nearest-neighbour query is a
 * function parameter. Similarities are `real`s.
 */
module BuildRag {
  import opened Wrappers
  import opened Text
  import opened Metadata

  /** A chunk as `add_documents` receives it: the dictionary built from a `MedicalChunk`. */
  datatype DocumentChunk = DocumentChunk(
    content: string, sectionType: string, pageNum: int, chunkId: string, metadata: Option<MetaMap>)

  /** Sixteen spaces: the indentation inside the triple-quoted string of `add_documents`. */
  const Indent: string := "                "

  /** The f-string of `add_documents` before `.strip()`. */
  function RawFormatted(c: DocumentChunk): string {
    "\n" + Indent + "Content: " + c.content
    + "\n" + Indent + "Section: " + c.sectionType
    + "\n" + Indent + "Page: " + IntToString(c.pageNum)
    + "\n" + Indent
  }

  /**
   * `formatted_content`, the document text stored for a chunk: its three lines,
   * the second and third indented by the sixteen spaces of the source
   * (FormattedContentIsStripped shows this is the stripped f-string).
   */
  function FormattedContent(c: DocumentChunk): string {
    "Content: " + c.content + "\n" + Indent + "Section: " + c.sectionType
    + "\n" + Indent + "Page: " + IntToString(c.pageNum)
  }

  /** The string whose digest is a chunk's id: the formatted content, then the section type and page number. */
  function IdString(c: DocumentChunk): string {
    FormattedContent(c) + c.sectionType + IntToString(c.pageNum)
  }

  /**
   * The id of a chunk: the digest of its id string. It depends on the chunk's
   * content, section type and page number only, not on its `chunk_id` or metadata.
   */
  function DocIdOf(hash: string -> string): (docId: DocumentChunk -> string)
    ensures forall c :: docId(c) == hash(IdString(c))
    ensures forall c: DocumentChunk, d: DocumentChunk :: c.content == d.content && c.sectionType == d.sectionType && c.pageNum == d.pageNum
              ==> docId(c) == docId(d)
  {
    c => hash(IdString(c))
  }

  /** The metadata stored with a chunk: the four base keys, then the chunk's own `metadata` spread over them. */
  function DocumentMetadata(c: DocumentChunk, timestamp: int): MetaMap {
    map["section_type" := MStr(c.sectionType), "page_num" := MInt(c.pageNum),
        "chunk_id" := MStr(c.chunkId), "timestamp" := MInt(timestamp)]
    + c.metadata.GetOr(map[])
  }

  /** The stored metadata has the base keys and the chunk's own; the chunk's own keys win. */
  lemma DocumentMetadataSpread(c: DocumentChunk, timestamp: int)
    ensures DocumentMetadata(c, timestamp).Keys
            == {"section_type", "page_num", "chunk_id", "timestamp"} + c.metadata.GetOr(map[]).Keys
    ensures forall k :: k in c.metadata.GetOr(map[]) ==> DocumentMetadata(c, timestamp)[k] == c.metadata.GetOr(map[])[k]
    ensures "section_type" !in c.metadata.GetOr(map[]) ==> DocumentMetadata(c, timestamp)["section_type"] == MStr(c.sectionType)
    ensures "page_num" !in c.metadata.GetOr(map[]) ==> DocumentMetadata(c, timestamp)["page_num"] == MInt(c.pageNum)
    ensures "chunk_id" !in c.metadata.GetOr(map[]) ==> DocumentMetadata(c, timestamp)["chunk_id"] == MStr(c.chunkId)
    ensures "timestamp" !in c.metadata.GetOr(map[]) ==> DocumentMetadata(c, timestamp)["timestamp"] == MInt(timestamp)
  {
  }

  // ---------------------------------------------------------------------------
  // The formatted content of a chunk
  // ---------------------------------------------------------------------------

  /** `str(i)` ends with a decimal digit. */
  lemma IntToStringEndsWithDigit(i: int)
    ensures IntToString(i) != [] && '0' <= IntToString(i)[|IntToString(i)| - 1] <= '9'
  {
    if i < 0 {
      NatToStringDigits(-i);
      assert IntToString(i)[|IntToString(i)| - 1] == NatToString(-i)[|NatToString(-i)| - 1];
    } else {
      NatToStringDigits(i);
    }
  }

  /** Stripping whitespace padding off a string whose own ends are not whitespace gives back that string. */
  lemma {:induction false} StripPadded(w: string, x: string, v: string)
    requires IsBlank(w) && IsBlank(v)
    requires x != [] && !IsSpace(x[0]) && !IsSpace(x[|x| - 1])
    ensures Strip(w + x + v) == x
    decreases |w| + |v|
  {
    var s := w + x + v;
    if w != [] {
      assert s[0] == w[0];
      assert s[1..] == w[1..] + x + v;
      StripPadded(w[1..], x, v);
    } else if v != [] {
      assert s == x + v;
      assert s[0] == x[0];
      assert s[|s| - 1] == v[|v| - 1];
      assert s[..|s| - 1] == [] + x + v[..|v| - 1];
      StripPadded([], x, v[..|v| - 1]);
    } else {
      assert s == x;
      StripOfStripped(x);
    }
  }

  /**
   * Stripping the f-string removes exactly its leading newline and indentation
   * and its trailing newline and indentation.
   */
  lemma FormattedContentIsStripped(c: DocumentChunk)
    ensures Strip(RawFormatted(c)) == FormattedContent(c)
  {
    var x := FormattedContent(c);
    var w := "\n" + Indent;
    assert RawFormatted(c) == w + x + w;
    assert IsBlank(w) by {
      forall i | 0 <= i < |w| ensures IsSpace(w[i]) {
        assert w[i] == '\n' || w[i] == ' ';
      }
    }
    IntToStringEndsWithDigit(c.pageNum);
    assert x[|x| - 1] == IntToString(c.pageNum)[|IntToString(c.pageNum)| - 1];
    assert x[0] == 'C';
    StripPadded(w, x, w);
  }

  // ---------------------------------------------------------------------------
  // Which chunks add_documents adds
  // ---------------------------------------------------------------------------

  function ToSet(s: seq<string>): set<string> {
    set x | x in s
  }

  lemma ToSetAppend(s: seq<string>, x: string)
    ensures ToSet(s + [x]) == ToSet(s) + {x}
  {
  }

  /** No string occurs twice. */
  predicate Distinct(s: seq<string>) {
    forall p, q :: 0 <= p < q < |s| ==> s[p] != s[q]
  }

  /** Every index is an index of `chunks`. */
  predicate IndicesOf(chunks: seq<DocumentChunk>, idx: seq<nat>) {
    forall k :: 0 <= k < |idx| ==> idx[k] < |chunks|
  }

  /** The ids of the chunks at `idx`. */
  function IdsOf(docId: DocumentChunk -> string, chunks: seq<DocumentChunk>, idx: seq<nat>): (ids: seq<string>)
    requires IndicesOf(chunks, idx)
    ensures |ids| == |idx|
    ensures forall k :: 0 <= k < |idx| ==> ids[k] == docId(chunks[idx[k]])
  {
    seq(|idx|, k requires 0 <= k < |idx| => docId(chunks[idx[k]]))
  }

  /** The stored texts of the chunks at `idx`. */
  function TextsOf(chunks: seq<DocumentChunk>, idx: seq<nat>): (texts: seq<string>)
    requires IndicesOf(chunks, idx)
    ensures |texts| == |idx|
    ensures forall k :: 0 <= k < |idx| ==> texts[k] == FormattedContent(chunks[idx[k]])
  {
    seq(|idx|, k requires 0 <= k < |idx| => FormattedContent(chunks[idx[k]]))
  }

  /** The stored metadata of the chunks at `idx`, chunk `i` stamped at `clock(i)`. */
  function MetasOf(chunks: seq<DocumentChunk>, idx: seq<nat>, clock: nat -> int): (metas: seq<MetaMap>)
    requires IndicesOf(chunks, idx)
    ensures |metas| == |idx|
    ensures forall k :: 0 <= k < |idx| ==> metas[k] == DocumentMetadata(chunks[idx[k]], clock(idx[k]))
  {
    seq(|idx|, k requires 0 <= k < |idx| => DocumentMetadata(chunks[idx[k]], clock(idx[k])))
  }

  /**
   * The indices, in order, of the chunks among the first `hi` that the loop of
   * `add_documents` adds: a chunk is skipped when its id is one of the
   * `existing` ids or the id of a chunk added before it.
   */
  function Admitted(docId: DocumentChunk -> string, chunks: seq<DocumentChunk>, existing: set<string>, hi: nat): (adm: seq<nat>)
    requires hi <= |chunks|
    ensures forall k :: 0 <= k < |adm| ==> adm[k] < hi
    decreases hi
  {
    if hi == 0 then []
    else
      var adm := Admitted(docId, chunks, existing, hi - 1);
      var id := docId(chunks[hi - 1]);
      if id in existing || id in IdsOf(docId, chunks, adm) then adm else adm + [hi - 1]
  }

  /** The chunks are added in the order they come in. */
  lemma {:induction false} AdmittedIncreasing(docId: DocumentChunk -> string, chunks: seq<DocumentChunk>, existing: set<string>, hi: nat)
    requires hi <= |chunks|
    ensures forall p, q :: 0 <= p < q < |Admitted(docId, chunks, existing, hi)| ==>
              Admitted(docId, chunks, existing, hi)[p] < Admitted(docId, chunks, existing, hi)[q]
    decreases hi
  {
    if hi > 0 {
      AdmittedIncreasing(docId, chunks, existing, hi - 1);
      var prev := Admitted(docId, chunks, existing, hi - 1);
      var adm := Admitted(docId, chunks, existing, hi);
      if adm != prev {
        assert adm == prev + [hi - 1];
        forall p, q | 0 <= p < q < |adm| ensures adm[p] < adm[q] {
          if q < |prev| {
            assert adm[p] == prev[p] && adm[q] == prev[q];
          } else {
            assert adm[p] == prev[p];
          }
        }
      }
    }
  }

  /** One more chunk, looked up in the set of the ids stored so far. */
  lemma AdmitStep(docId: DocumentChunk -> string, chunks: seq<DocumentChunk>, existing: set<string>, hi: nat, seen: set<string>)
    requires hi < |chunks|
    requires seen == existing + ToSet(IdsOf(docId, chunks, Admitted(docId, chunks, existing, hi)))
    ensures Admitted(docId, chunks, existing, hi + 1) ==
            if docId(chunks[hi]) in seen then Admitted(docId, chunks, existing, hi)
            else Admitted(docId, chunks, existing, hi) + [hi]
  {
  }

  /** Chunk `k`'s id is new: not an existing id and not the id of an earlier chunk. */
  predicate FirstNew(docId: DocumentChunk -> string, chunks: seq<DocumentChunk>, existing: set<string>, k: nat)
    requires k < |chunks|
  {
    docId(chunks[k]) !in existing && forall j :: 0 <= j < k ==> docId(chunks[j]) != docId(chunks[k])
  }

  /** The ids added are exactly the ids of the chunks that were not already stored. */
  lemma {:induction false} AdmittedIds(docId: DocumentChunk -> string, chunks: seq<DocumentChunk>, existing: set<string>, hi: nat)
    requires hi <= |chunks|
    ensures forall x :: x in IdsOf(docId, chunks, Admitted(docId, chunks, existing, hi)) <==>
              x !in existing && exists k :: 0 <= k < hi && docId(chunks[k]) == x
    decreases hi
  {
    if hi > 0 {
      var prev := Admitted(docId, chunks, existing, hi - 1);
      var adm := Admitted(docId, chunks, existing, hi);
      AdmittedIds(docId, chunks, existing, hi - 1);
      var id := docId(chunks[hi - 1]);
      var prevIds := IdsOf(docId, chunks, prev);
      var ids := if id in existing || id in prevIds then prevIds else prevIds + [id];
      assert IdsOf(docId, chunks, adm) == ids;
      forall x ensures x in ids <==> x !in existing && exists k :: 0 <= k < hi && docId(chunks[k]) == x {
        if x != id && x !in existing && exists k :: 0 <= k < hi && docId(chunks[k]) == x {
          var k :| 0 <= k < hi && docId(chunks[k]) == x;
          assert k < hi - 1;
        }
      }
    }
  }

  /** Exactly the chunks whose id is new are added. */
  lemma {:induction false} AdmittedExactly(docId: DocumentChunk -> string, chunks: seq<DocumentChunk>, existing: set<string>, hi: nat)
    requires hi <= |chunks|
    ensures forall k :: 0 <= k < hi ==> (k in Admitted(docId, chunks, existing, hi) <==> FirstNew(docId, chunks, existing, k))
    decreases hi
  {
    if hi > 0 {
      var prev := Admitted(docId, chunks, existing, hi - 1);
      var adm := Admitted(docId, chunks, existing, hi);
      AdmittedExactly(docId, chunks, existing, hi - 1);
      AdmittedIds(docId, chunks, existing, hi - 1);
      var id := docId(chunks[hi - 1]);
      assert hi - 1 !in prev;
      if id in existing || id in IdsOf(docId, chunks, prev) {
        assert adm == prev;
        assert !FirstNew(docId, chunks, existing, hi - 1);
      } else {
        assert adm == prev + [hi - 1];
        assert FirstNew(docId, chunks, existing, hi - 1);
      }
    }
  }

  /** The ids passed to the store are pairwise distinct and none was stored before. */
  lemma AdmittedIdsFresh(docId: DocumentChunk -> string, chunks: seq<DocumentChunk>, existing: set<string>, hi: nat)
    requires hi <= |chunks|
    ensures Distinct(IdsOf(docId, chunks, Admitted(docId, chunks, existing, hi)))
    ensures forall x :: x in IdsOf(docId, chunks, Admitted(docId, chunks, existing, hi)) ==> x !in existing
  {
    var adm := Admitted(docId, chunks, existing, hi);
    var ids := IdsOf(docId, chunks, adm);
    AdmittedExactly(docId, chunks, existing, hi);
    AdmittedIncreasing(docId, chunks, existing, hi);
    forall p, q | 0 <= p < q < |ids| ensures ids[p] != ids[q] {
      assert adm[q] in adm;
      assert FirstNew(docId, chunks, existing, adm[q]);
    }
  }

  /** A distinct list has as many elements as its set. */
  lemma {:induction false} DistinctCard(s: seq<string>)
    requires Distinct(s)
    ensures |ToSet(s)| == |s|
    decreases |s|
  {
    if s != [] {
      var init := s[..|s| - 1];
      var last := s[|s| - 1];
      assert Distinct(init);
      DistinctCard(init);
      assert ToSet(s) == ToSet(init) + {last} by {
        assert s == init + [last];
      }
      assert last !in ToSet(init) by {
        forall k | 0 <= k < |init| ensures init[k] != last {
          assert init[k] == s[k];
        }
      }
    }
  }

  /** The ids of the first `hi` chunks. */
  function ChunkIds(docId: DocumentChunk -> string, chunks: seq<DocumentChunk>, hi: nat): set<string>
    requires hi <= |chunks|
  {
    set k | 0 <= k < hi :: docId(chunks[k])
  }

  /**
   * The stored id set grows by exactly the ids of the chunks not stored before,
   * and the number of documents added is the number of those ids.
   */
  lemma AdmittedCount(docId: DocumentChunk -> string, chunks: seq<DocumentChunk>, existing: set<string>, hi: nat)
    requires hi <= |chunks|
    ensures existing + ToSet(IdsOf(docId, chunks, Admitted(docId, chunks, existing, hi))) == existing + ChunkIds(docId, chunks, hi)
    ensures |Admitted(docId, chunks, existing, hi)| == |ChunkIds(docId, chunks, hi) - existing|
  {
    var ids := IdsOf(docId, chunks, Admitted(docId, chunks, existing, hi));
    AdmittedIds(docId, chunks, existing, hi);
    AdmittedIdsFresh(docId, chunks, existing, hi);
    assert ToSet(ids) == ChunkIds(docId, chunks, hi) - existing;
    DistinctCard(ids);
  }

  /** A chunk with the content, section and page of an earlier chunk adds nothing, whatever its id and metadata. */
  lemma RepeatedChunkAddsNothing(hash: string -> string, chunks: seq<DocumentChunk>, existing: set<string>, j: nat, k: nat)
    requires j < k < |chunks|
    requires chunks[j].content == chunks[k].content && chunks[j].sectionType == chunks[k].sectionType
             && chunks[j].pageNum == chunks[k].pageNum
    ensures Admitted(DocIdOf(hash), chunks, existing, k + 1) == Admitted(DocIdOf(hash), chunks, existing, k)
  {
    var docId := DocIdOf(hash);
    assert IdString(chunks[j]) == IdString(chunks[k]);
    var id := docId(chunks[k]);
    assert docId(chunks[j]) == id;
    if id !in existing {
      AdmittedIds(docId, chunks, existing, k);
      assert id in IdsOf(docId, chunks, Admitted(docId, chunks, existing, k));
    }
  }

  // ---------------------------------------------------------------------------
  // Batches
  // ---------------------------------------------------------------------------

  function Min(a: int, b: int): int {
    if a <= b then a else b
  }

  lemma MulMonotone(a: int, b: int, size: int)
    requires a <= b && size > 0
    ensures a * size <= b * size
  {
    assert b * size - a * size == (b - a) * size;
  }

  /** The number of batches covers every chunk, and no batch starts at or past the end. */
  lemma BatchCount(n: nat, size: int)
    requires size > 0
    ensures ((n + size - 1) / size) * size >= n
    ensures n > 0 ==> (n + size - 1) / size > 0
    ensures forall b :: 0 <= b < (n + size - 1) / size ==> b * size < n
  {
    var q, r := (n + size - 1) / size, (n + size - 1) % size;
    assert q * size + r == n + size - 1;
    forall b | 0 <= b < q ensures b * size < n {
      MulMonotone(b, q - 1, size);
    }
  }

  /** `range(0, n, size)` for a non-zero step: empty for a negative one. */
  function BatchStarts(n: nat, size: int): (starts: seq<nat>)
    requires size != 0
    ensures size < 0 ==> starts == []
    ensures size > 0 ==> (starts == [] <==> n == 0)
    ensures forall b :: 0 <= b < |starts| ==> starts[b] == b * size && starts[b] < n
  {
    if size < 0 then []
    else
      BatchCount(n, size);
      seq((n + size - 1) / size, b requires 0 <= b < (n + size - 1) / size => b * size)
  }

  /** A batch ends where the next one starts, or at the end of the chunks after the last one. */
  lemma BatchNext(n: nat, size: int, b: nat)
    requires size > 0 && b < |BatchStarts(n, size)|
    ensures Min(BatchStarts(n, size)[b] + size, n) ==
            if b + 1 < |BatchStarts(n, size)| then BatchStarts(n, size)[b + 1] else n
  {
    var starts := BatchStarts(n, size);
    BatchCount(n, size);
    assert (b + 1) * size == b * size + size;
    if b + 1 < |starts| {
      assert starts[b + 1] == (b + 1) * size;
    } else {
      assert |starts| * size >= n;
      assert b + 1 == |starts|;
    }
  }

  /** Every chunk index lies in some batch: the one its index divided by the batch size names. */
  lemma ChunkInSomeBatch(n: nat, size: int, k: nat)
    requires size > 0 && k < n
    ensures exists b :: 0 <= b < |BatchStarts(n, size)| && BatchStarts(n, size)[b] <= k < BatchStarts(n, size)[b] + size
  {
    var starts := BatchStarts(n, size);
    var b := k / size;
    assert b * size + k % size == k;
    BatchCount(n, size);
    assert b < |starts| by {
      if b >= |starts| {
        MulMonotone(|starts|, b, size);
      }
    }
    assert starts[b] <= k < starts[b] + size;
  }

  /** No chunk index lies in two batches. */
  lemma ChunkInOneBatch(n: nat, size: int, k: nat, b1: nat, b2: nat)
    requires size > 0 && b1 < |BatchStarts(n, size)| && b2 < |BatchStarts(n, size)|
    requires BatchStarts(n, size)[b1] <= k < BatchStarts(n, size)[b1] + size
    requires BatchStarts(n, size)[b2] <= k < BatchStarts(n, size)[b2] + size
    ensures b1 == b2
  {
    var starts := BatchStarts(n, size);
    assert starts[b1] == b1 * size && starts[b2] == b2 * size;
    if b1 < b2 {
      assert (b1 + 1) * size == b1 * size + size;
      MulMonotone(b1 + 1, b2, size);
    } else if b2 < b1 {
      assert (b2 + 1) * size == b2 * size + size;
      MulMonotone(b2 + 1, b1, size);
    }
  }

  /** The id lists one after the other. */
  function Flatten(calls: seq<seq<string>>): seq<string>
    decreases |calls|
  {
    if calls == [] then [] else Flatten(calls[..|calls| - 1]) + calls[|calls| - 1]
  }

  lemma FlattenSnoc(calls: seq<seq<string>>, c: seq<string>)
    ensures Flatten(calls + [c]) == Flatten(calls) + c
  {
    assert (calls + [c])[..|calls|] == calls;
  }

  lemma IndicesAppend(chunks: seq<DocumentChunk>, a: seq<nat>, b: seq<nat>)
    requires IndicesOf(chunks, a) && IndicesOf(chunks, b)
    ensures IndicesOf(chunks, a + b)
  {
    forall k | 0 <= k < |a + b| ensures (a + b)[k] < |chunks| {
      if k < |a| {
        assert (a + b)[k] == a[k];
      } else {
        assert (a + b)[k] == b[k - |a|];
      }
    }
  }

  lemma IdsAppend(docId: DocumentChunk -> string, chunks: seq<DocumentChunk>, a: seq<nat>, b: seq<nat>)
    requires IndicesOf(chunks, a) && IndicesOf(chunks, b) && IndicesOf(chunks, a + b)
    ensures IdsOf(docId, chunks, a + b) == IdsOf(docId, chunks, a) + IdsOf(docId, chunks, b)
  {
    var l, x, y := IdsOf(docId, chunks, a + b), IdsOf(docId, chunks, a), IdsOf(docId, chunks, b);
    forall k | 0 <= k < |l| ensures l[k] == (x + y)[k] {
      if k < |a| {
        assert (a + b)[k] == a[k];
      } else {
        assert (a + b)[k] == b[k - |a|];
      }
    }
  }

  lemma TextsAppend(chunks: seq<DocumentChunk>, a: seq<nat>, b: seq<nat>)
    requires IndicesOf(chunks, a) && IndicesOf(chunks, b) && IndicesOf(chunks, a + b)
    ensures TextsOf(chunks, a + b) == TextsOf(chunks, a) + TextsOf(chunks, b)
  {
    var l, x, y := TextsOf(chunks, a + b), TextsOf(chunks, a), TextsOf(chunks, b);
    forall k | 0 <= k < |l| ensures l[k] == (x + y)[k] {
      if k < |a| {
        assert (a + b)[k] == a[k];
      } else {
        assert (a + b)[k] == b[k - |a|];
      }
    }
  }

  lemma MetasAppend(chunks: seq<DocumentChunk>, a: seq<nat>, b: seq<nat>, clock: nat -> int)
    requires IndicesOf(chunks, a) && IndicesOf(chunks, b) && IndicesOf(chunks, a + b)
    ensures MetasOf(chunks, a + b, clock) == MetasOf(chunks, a, clock) + MetasOf(chunks, b, clock)
  {
    var l, x, y := MetasOf(chunks, a + b, clock), MetasOf(chunks, a, clock), MetasOf(chunks, b, clock);
    forall k | 0 <= k < |l| ensures l[k] == (x + y)[k] {
      if k < |a| {
        assert (a + b)[k] == a[k];
      } else {
        assert (a + b)[k] == b[k - |a|];
      }
    }
  }

  lemma SliceSnoc<T>(s: seq<T>, n: nat, x: T)
    requires n <= |s|
    ensures (s + [x])[n..] == s[n..] + [x]
  {
  }

  lemma AppendAssoc<T>(a: seq<T>, b: seq<T>, c: seq<T>)
    ensures a + b + c == a + (b + c)
  {
  }

  /** Storing one more chunk appends its id, text and metadata. */
  lemma StoredSnoc(docId: DocumentChunk -> string, chunks: seq<DocumentChunk>, a: seq<nat>, k: nat, clock: nat -> int)
    requires IndicesOf(chunks, a) && k < |chunks|
    ensures IndicesOf(chunks, a + [k])
    ensures IdsOf(docId, chunks, a + [k]) == IdsOf(docId, chunks, a) + [docId(chunks[k])]
    ensures TextsOf(chunks, a + [k]) == TextsOf(chunks, a) + [FormattedContent(chunks[k])]
    ensures MetasOf(chunks, a + [k], clock) == MetasOf(chunks, a, clock) + [DocumentMetadata(chunks[k], clock(k))]
  {
    StoredAppend(docId, chunks, a, [k], clock);
    assert IdsOf(docId, chunks, [k]) == [docId(chunks[k])];
    assert TextsOf(chunks, [k]) == [FormattedContent(chunks[k])];
    assert MetasOf(chunks, [k], clock) == [DocumentMetadata(chunks[k], clock(k))];
  }

  /** Storing the chunks at `a + b` stores those at `a`, then those at `b`. */
  lemma StoredAppend(docId: DocumentChunk -> string, chunks: seq<DocumentChunk>, a: seq<nat>, b: seq<nat>, clock: nat -> int)
    requires IndicesOf(chunks, a) && IndicesOf(chunks, b)
    ensures IndicesOf(chunks, a + b)
    ensures IdsOf(docId, chunks, a + b) == IdsOf(docId, chunks, a) + IdsOf(docId, chunks, b)
    ensures TextsOf(chunks, a + b) == TextsOf(chunks, a) + TextsOf(chunks, b)
    ensures MetasOf(chunks, a + b, clock) == MetasOf(chunks, a, clock) + MetasOf(chunks, b, clock)
  {
    IndicesAppend(chunks, a, b);
    IdsAppend(docId, chunks, a, b);
    TextsAppend(chunks, a, b);
    MetasAppend(chunks, a, b, clock);
  }

  /**
   * The state of the store after the chunks before `done`: the count, the id
   * set and the collection's lists describe exactly the chunks admitted so far,
   * spread over non-empty `add` calls.
   */
  ghost predicate StoreInv(docId: DocumentChunk -> string, chunks: seq<DocumentChunk>, existing: set<string>, clock: nat -> int,
                           done: nat, count: nat, seen: set<string>,
                           ids0: seq<string>, docs0: seq<string>, metas0: seq<MetaMap>, calls0: seq<seq<string>>,
                           ids: seq<string>, docs: seq<string>, metas: seq<MetaMap>, calls: seq<seq<string>>)
  {
    && done <= |chunks|
    && count == |Admitted(docId, chunks, existing, done)|
    && seen == existing + ToSet(IdsOf(docId, chunks, Admitted(docId, chunks, existing, done)))
    && ids == ids0 + IdsOf(docId, chunks, Admitted(docId, chunks, existing, done))
    && docs == docs0 + TextsOf(chunks, Admitted(docId, chunks, existing, done))
    && metas == metas0 + MetasOf(chunks, Admitted(docId, chunks, existing, done), clock)
    && |calls0| <= |calls|
    && Flatten(calls[|calls0|..]) == IdsOf(docId, chunks, Admitted(docId, chunks, existing, done))
    && forall k :: |calls0| <= k < |calls| ==> calls[k] != []
  }

  /** Before any chunk, nothing is stored beyond what was there. */
  lemma StoreStart(docId: DocumentChunk -> string, chunks: seq<DocumentChunk>, existing: set<string>, clock: nat -> int,
                   ids0: seq<string>, docs0: seq<string>, metas0: seq<MetaMap>, calls0: seq<seq<string>>)
    requires existing == ToSet(ids0)
    ensures StoreInv(docId, chunks, existing, clock, 0, 0, ToSet(ids0), ids0, docs0, metas0, calls0, ids0, docs0, metas0, calls0)
  {
    assert ids0 + [] == ids0 && docs0 + [] == docs0 && metas0 + [] == metas0;
    assert calls0[|calls0|..] == [];
  }

  /** What the loop over one batch has built: the lists to store, the id set, and (for the proofs) the indices taken. */
  datatype BatchLists = BatchLists(texts: seq<string>, metas: seq<MetaMap>, ids: seq<string>, seen: set<string>, taken: seq<nat>)

  /** The loop over `chunks[i:k]`, starting from the id set `seen0`. */
  function BatchState(docId: DocumentChunk -> string, chunks: seq<DocumentChunk>, clock: nat -> int,
                      i: nat, k: nat, seen0: set<string>): BatchLists
    requires i <= k <= |chunks|
    decreases k - i
  {
    if k == i then BatchLists([], [], [], seen0, [])
    else
      var st := BatchState(docId, chunks, clock, i, k - 1, seen0);
      var id := docId(chunks[k - 1]);
      if id in st.seen then st
      else BatchLists(st.texts + [FormattedContent(chunks[k - 1])], st.metas + [DocumentMetadata(chunks[k - 1], clock(k - 1))],
                      st.ids + [id], st.seen + {id}, st.taken + [k - 1])
  }

  /** The lists the loop over a batch builds are the ids, texts and metadata of the chunks it takes. */
  lemma {:induction false} BatchStateLists(docId: DocumentChunk -> string, chunks: seq<DocumentChunk>, clock: nat -> int,
                                           i: nat, k: nat, seen0: set<string>)
    requires i <= k <= |chunks|
    ensures IndicesOf(chunks, BatchState(docId, chunks, clock, i, k, seen0).taken)
    ensures BatchState(docId, chunks, clock, i, k, seen0).ids == IdsOf(docId, chunks, BatchState(docId, chunks, clock, i, k, seen0).taken)
    ensures BatchState(docId, chunks, clock, i, k, seen0).texts == TextsOf(chunks, BatchState(docId, chunks, clock, i, k, seen0).taken)
    ensures BatchState(docId, chunks, clock, i, k, seen0).metas == MetasOf(chunks, BatchState(docId, chunks, clock, i, k, seen0).taken, clock)
    decreases k - i
  {
    if k > i {
      BatchStateLists(docId, chunks, clock, i, k - 1, seen0);
      var st := BatchState(docId, chunks, clock, i, k - 1, seen0);
      if docId(chunks[k - 1]) !in st.seen {
        StoredSnoc(docId, chunks, st.taken, k - 1, clock);
      }
    }
  }

  /**
   * Started from the ids stored before chunk `i`, the loop over a batch takes
   * exactly the chunks of the batch that are admitted, and ends with the ids
   * stored before chunk `k`.
   */
  lemma {:induction false} BatchStateAdmits(docId: DocumentChunk -> string, chunks: seq<DocumentChunk>, existing: set<string>,
                                            clock: nat -> int, i: nat, k: nat, seen0: set<string>)
    requires i <= k <= |chunks|
    requires seen0 == existing + ToSet(IdsOf(docId, chunks, Admitted(docId, chunks, existing, i)))
    ensures Admitted(docId, chunks, existing, k) == Admitted(docId, chunks, existing, i) + BatchState(docId, chunks, clock, i, k, seen0).taken
    ensures BatchState(docId, chunks, clock, i, k, seen0).seen == existing + ToSet(IdsOf(docId, chunks, Admitted(docId, chunks, existing, k)))
    decreases k - i
  {
    var before := Admitted(docId, chunks, existing, i);
    if k == i {
      assert before + [] == before;
    } else {
      BatchStateAdmits(docId, chunks, existing, clock, i, k - 1, seen0);
      var st := BatchState(docId, chunks, clock, i, k - 1, seen0);
      var c := chunks[k - 1];
      var now := BatchState(docId, chunks, clock, i, k, seen0);
      if docId(c) in st.seen {
        AdmitSkipped(docId, chunks, existing, k - 1, before, st.taken, st.seen);
        assert now.taken == st.taken && now.seen == st.seen;
      } else {
        AdmitTaken(docId, chunks, existing, k - 1, before, st.taken, st.seen);
        assert now.taken == st.taken + [k - 1] && now.seen == st.seen + {docId(c)};
      }
    }
  }

  /** A chunk whose id has been stored is skipped: nothing is admitted and the id set stays. */
  lemma AdmitSkipped(docId: DocumentChunk -> string, chunks: seq<DocumentChunk>, existing: set<string>, k: nat,
                     before: seq<nat>, taken: seq<nat>, seen: set<string>)
    requires k < |chunks|
    requires Admitted(docId, chunks, existing, k) == before + taken
    requires seen == existing + ToSet(IdsOf(docId, chunks, Admitted(docId, chunks, existing, k)))
    requires docId(chunks[k]) in seen
    ensures Admitted(docId, chunks, existing, k + 1) == before + taken
    ensures seen == existing + ToSet(IdsOf(docId, chunks, Admitted(docId, chunks, existing, k + 1)))
  {
    AdmitStep(docId, chunks, existing, k, seen);
  }

  /** A chunk whose id is new is admitted, and its id joins the id set. */
  lemma AdmitTaken(docId: DocumentChunk -> string, chunks: seq<DocumentChunk>, existing: set<string>, k: nat,
                   before: seq<nat>, taken: seq<nat>, seen: set<string>)
    requires k < |chunks|
    requires Admitted(docId, chunks, existing, k) == before + taken
    requires seen == existing + ToSet(IdsOf(docId, chunks, Admitted(docId, chunks, existing, k)))
    requires docId(chunks[k]) !in seen
    ensures Admitted(docId, chunks, existing, k + 1) == before + (taken + [k])
    ensures seen + {docId(chunks[k])} == existing + ToSet(IdsOf(docId, chunks, Admitted(docId, chunks, existing, k + 1)))
  {
    var prev := Admitted(docId, chunks, existing, k);
    AdmitStep(docId, chunks, existing, k, seen);
    IdsSnoc(docId, chunks, prev, k);
    ToSetAppend(IdsOf(docId, chunks, prev), docId(chunks[k]));
    assert before + (taken + [k]) == before + taken + [k];
  }

  /** Storing one more chunk appends its id. */
  lemma IdsSnoc(docId: DocumentChunk -> string, chunks: seq<DocumentChunk>, a: seq<nat>, k: nat)
    requires IndicesOf(chunks, a) && k < |chunks|
    ensures IndicesOf(chunks, a + [k])
    ensures IdsOf(docId, chunks, a + [k]) == IdsOf(docId, chunks, a) + [docId(chunks[k])]
  {
    IndicesAppend(chunks, a, [k]);
    IdsAppend(docId, chunks, a, [k]);
    assert IdsOf(docId, chunks, [k]) == [docId(chunks[k])];
  }

  /**
   * After a batch, storing its lists (when it has any) with one `add` call
   * keeps the store describing the chunks admitted so far.
   */
  lemma CommitBatch(docId: DocumentChunk -> string, chunks: seq<DocumentChunk>, existing: set<string>, clock: nat -> int,
                    i: nat, end: nat, count: nat, seen0: set<string>,
                    ids0: seq<string>, docs0: seq<string>, metas0: seq<MetaMap>, calls0: seq<seq<string>>,
                    ids: seq<string>, docs: seq<string>, metas: seq<MetaMap>, calls: seq<seq<string>>,
                    added: seq<nat>, seen: set<string>, bIds: seq<string>, bTexts: seq<string>, bMetas: seq<MetaMap>)
    requires i <= end <= |chunks|
    requires StoreInv(docId, chunks, existing, clock, i, count, seen0, ids0, docs0, metas0, calls0, ids, docs, metas, calls)
    requires BatchLists(bTexts, bMetas, bIds, seen, added) == BatchState(docId, chunks, clock, i, end, seen0)
    ensures |bTexts| == |bIds| && |bMetas| == |bIds|
    ensures bTexts != [] ==>
              StoreInv(docId, chunks, existing, clock, end, count + |bTexts|, seen, ids0, docs0, metas0, calls0,
                       ids + bIds, docs + bTexts, metas + bMetas, calls + [bIds])
    ensures bTexts == [] ==>
              StoreInv(docId, chunks, existing, clock, end, count, seen, ids0, docs0, metas0, calls0, ids, docs, metas, calls)
  {
    var before := Admitted(docId, chunks, existing, i);
    BatchStateLists(docId, chunks, clock, i, end, seen0);
    BatchStateAdmits(docId, chunks, existing, clock, i, end, seen0);
    StoredAppend(docId, chunks, before, added, clock);
    if bTexts != [] {
      AppendAssoc(ids0, IdsOf(docId, chunks, before), bIds);
      AppendAssoc(docs0, TextsOf(chunks, before), bTexts);
      AppendAssoc(metas0, MetasOf(chunks, before, clock), bMetas);
      SliceSnoc(calls, |calls0|, bIds);
      FlattenSnoc(calls[|calls0|..], bIds);
    } else {
      assert before + added == before;
    }
  }

  // ---------------------------------------------------------------------------
  // Similarity search
  // ---------------------------------------------------------------------------

  /** A similarity search hit: `{'content': ..., 'metadata': ..., 'similarity': ...}`. */
  datatype SimilarChunk = SimilarChunk(content: string, metadata: MetaMap, similarity: real)

  /** The answer of `collection.query` for one query text: parallel lists of documents, metadata and distances. */
  datatype QueryResult = QueryResult(documents: seq<string>, metadatas: seq<MetaMap>, distances: seq<real>)

  /** A cosine distance converted to a similarity. */
  function Similarity(distance: real): real {
    1.0 - distance / 2.0
  }

  /** The filtering loop of `get_similar_chunks` over the first `n` triples of `zip(...)`. */
  function AboveThreshold(res: QueryResult, minSimilarity: real, n: nat): (r: seq<SimilarChunk>)
    requires n <= |res.documents| && n <= |res.metadatas| && n <= |res.distances|
    ensures |r| <= n
    decreases n
  {
    if n == 0 then []
    else
      var prev := AboveThreshold(res, minSimilarity, n - 1);
      var sim := Similarity(res.distances[n - 1]);
      if sim >= minSimilarity then prev + [SimilarChunk(res.documents[n - 1], res.metadatas[n - 1], sim)] else prev
  }

  /** The length of `zip` of the three lists. */
  function ZipLength(res: QueryResult): nat {
    Min(Min(|res.documents|, |res.metadatas|), |res.distances|)
  }

  /** A hit is kept exactly when its similarity reaches the threshold, with its document and metadata. */
  lemma {:induction false} AboveThresholdExactly(res: QueryResult, minSimilarity: real, n: nat)
    requires n <= |res.documents| && n <= |res.metadatas| && n <= |res.distances|
    ensures forall c :: c in AboveThreshold(res, minSimilarity, n) <==>
              exists k :: 0 <= k < n && Similarity(res.distances[k]) >= minSimilarity
                          && c == SimilarChunk(res.documents[k], res.metadatas[k], Similarity(res.distances[k]))
    decreases n
  {
    if n > 0 {
      AboveThresholdExactly(res, minSimilarity, n - 1);
    }
  }

  // ---------------------------------------------------------------------------
  // The store
  // ---------------------------------------------------------------------------

  /** The collection of the vector database. */
  class Collection {
    var ids: seq<string>
    var documents: seq<string>
    var metadatas: seq<MetaMap>
    /** The id lists of the `add` calls made so far, in order. */
    var addCalls: seq<seq<string>>

    ghost predicate Valid()
      reads this
    {
      |documents| == |ids| && |metadatas| == |ids|
    }

    /** `collection.count()` */
    function Count(): (n: nat)
      reads this
      requires Valid()
      ensures n == |ids| && n == |documents|
    {
      |ids|
    }

    /** `collection.add(documents=..., metadatas=..., ids=...)` */
    method Add(docs: seq<string>, metas: seq<MetaMap>, newIds: seq<string>)
      requires Valid() && |docs| == |newIds| && |metas| == |newIds|
      modifies this
      ensures Valid()
      ensures ids == old(ids) + newIds && documents == old(documents) + docs && metadatas == old(metadatas) + metas
      ensures addCalls == old(addCalls) + [newIds]
    {
      ids := ids + newIds;
      documents := documents + docs;
      metadatas := metadatas + metas;
      addCalls := addCalls + [newIds];
    }
  }

  /** The document store: a collection and the digest that names its documents. */
  class DocumentStore {
    const collection: Collection
    /** The md5 hex digest of a string. */
    const hash: string -> string

    constructor (collection: Collection, hash: string -> string)
      ensures this.collection == collection && this.hash == hash
    {
      this.collection := collection;
      this.hash := hash;
    }

    /** `generate_document_id(formatted_content, chunk)`: the digest of the content followed by the chunk's section and page. */
    function GenerateDocumentId(content: string, chunk: DocumentChunk): (id: string)
      ensures content == FormattedContent(chunk) ==> id == DocIdOf(hash)(chunk)
      ensures content == FormattedContent(chunk) ==>
                forall d: DocumentChunk :: d.content == chunk.content && d.sectionType == chunk.sectionType && d.pageNum == chunk.pageNum
                            ==> id == DocIdOf(hash)(d)
    {
      hash(content + chunk.sectionType + IntToString(chunk.pageNum))
    }

    /**
     * The loop of `add_documents` over one batch, `chunks[i:end]`: the texts,
     * metadata and ids of its chunks whose id is not in `existingIds`, which
     * grows by each id taken.
     */
    method BatchToAdd(chunks: seq<DocumentChunk>, i: nat, end: nat, clock: nat -> int, existingIds: set<string>)
      returns (texts: seq<string>, metadatas: seq<MetaMap>, ids: seq<string>, seen: set<string>, ghost added: seq<nat>)
      requires i <= end <= |chunks|
      ensures BatchLists(texts, metadatas, ids, seen, added) == BatchState(DocIdOf(hash), chunks, clock, i, end, existingIds)
    {
      texts, metadatas, ids, seen, added := [], [], [], existingIds, [];
      for k := i to end
        invariant BatchLists(texts, metadatas, ids, seen, added) == BatchState(DocIdOf(hash), chunks, clock, i, k, existingIds)
      {
        var chunk := chunks[k];
        // the stripped f-string, by FormattedContentIsStripped
        var formattedContent := FormattedContent(chunk);
        var docIdHere := GenerateDocumentId(formattedContent, chunk);
        if docIdHere !in seen {
          texts := texts + [formattedContent];
          metadatas := metadatas + [DocumentMetadata(chunk, clock(k))];
          ids := ids + [docIdHere];
          seen := seen + {docIdHere};
          added := added + [k];
        }
      }
    }

    /**
     * `add_documents`. With a zero batch size `range` raises before anything is
     * stored; otherwise the chunks are walked batch by batch, each chunk whose id
     * is new is stored with its text and metadata, the collection is called once
     * for each batch that has something to add, and the number added (which
     * `add_documents` only logs) is the result.
     */
    method AddDocuments(chunks: seq<DocumentChunk>, batchSize: int, clock: nat -> int) returns (r: Result<nat, string>)
      requires collection.Valid()
      modifies collection
      ensures collection.Valid()
      ensures batchSize == 0 <==> r.Failure?
      ensures batchSize == 0 ==> unchanged(collection)
      ensures r.Success? ==>
                var adm := if batchSize > 0 then Admitted(DocIdOf(hash), chunks, ToSet(old(collection.ids)), |chunks|) else [];
                && r.value == |adm|
                && collection.ids == old(collection.ids) + IdsOf(DocIdOf(hash), chunks, adm)
                && collection.documents == old(collection.documents) + TextsOf(chunks, adm)
                && collection.metadatas == old(collection.metadatas) + MetasOf(chunks, adm, clock)
                && |old(collection.addCalls)| <= |collection.addCalls|
                && Flatten(collection.addCalls[|old(collection.addCalls)|..]) == IdsOf(DocIdOf(hash), chunks, adm)
                && (forall k :: |old(collection.addCalls)| <= k < |collection.addCalls| ==> collection.addCalls[k] != [])
                && |collection.addCalls| - |old(collection.addCalls)| <= |BatchStarts(|chunks|, batchSize)|
    {
      if batchSize == 0 {
        return Failure("ValueError: range() arg 3 must not be zero");
      }
      var totalChunks := |chunks|;
      var batches := BatchStarts(totalChunks, batchSize);
      ghost var docId := DocIdOf(hash);
      ghost var existing := ToSet(collection.ids);
      ghost var ids0, docs0, metas0, calls0 := collection.ids, collection.documents, collection.metadatas, collection.addCalls;
      var existingIds := if collection.Count() > 0 then ToSet(collection.ids) else {};
      var addedCount: nat := 0;
      ghost var done: nat := 0;
      StoreStart(docId, chunks, existing, clock, ids0, docs0, metas0, calls0);
      for b := 0 to |batches|
        invariant collection.Valid()
        invariant b < |batches| ==> done == batches[b]
        invariant b == |batches| && batchSize > 0 ==> done == totalChunks
        invariant batchSize < 0 ==> done == 0
        invariant StoreInv(docId, chunks, existing, clock, done, addedCount, existingIds, ids0, docs0, metas0, calls0,
                           collection.ids, collection.documents, collection.metadatas, collection.addCalls)
        invariant |collection.addCalls| <= |calls0| + b
      {
        var i := batches[b];
        var end := Min(i + batchSize, totalChunks);
        BatchNext(totalChunks, batchSize, b);
        ghost var seenBefore := existingIds;
        var texts, metadatas, ids;
        ghost var added;
        texts, metadatas, ids, existingIds, added := BatchToAdd(chunks, i, end, clock, existingIds);
        CommitBatch(docId, chunks, existing, clock, i, end, addedCount, seenBefore, ids0, docs0, metas0, calls0,
                    collection.ids, collection.documents, collection.metadatas, collection.addCalls,
                    added, existingIds, ids, texts, metadatas);
        if texts != [] {
          collection.Add(texts, metadatas, ids);
          addedCount := addedCount + |texts|;
        }
        done := end;
      }
      return Success(addedCount);
    }

    /**
     * `get_similar_chunks`: an empty collection gives no hits; otherwise the
     * collection is asked for `min(top_k, count)` neighbours, and those whose
     * similarity reaches the threshold are returned in the collection's order.
     */
    method GetSimilarChunks(queryText: string, topK: int, minSimilarity: real, query: (string, int) -> QueryResult)
      returns (r: seq<SimilarChunk>)
      requires collection.Valid()
      ensures |collection.ids| == 0 ==> r == []
      ensures |collection.ids| > 0 ==>
                var res := query(queryText, Min(topK, |collection.ids|));
                r == AboveThreshold(res, minSimilarity, ZipLength(res))
    {
      var docCount := collection.Count();
      if docCount == 0 {
        return [];
      }
      var actualTopK := Min(topK, docCount);
      var results := query(queryText, actualTopK);
      var n := ZipLength(results);
      r := [];
      for k := 0 to n
        invariant r == AboveThreshold(results, minSimilarity, k)
      {
        var similarity := Similarity(results.distances[k]);
        if similarity >= minSimilarity {
          r := r + [SimilarChunk(results.documents[k], results.metadatas[k], similarity)];
        }
      }
    }
  }
}
