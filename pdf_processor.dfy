/**
 * The sequential document processor (prognosis_validation/ocr/pdf_processor.py).
 *
 * Its `_extract_sections`, `_identify_section_type` and `_get_text_bbox`
 * are line for line those of the parallel processor, so they are the
 * definitions of module ParallelProcessor applied to the processor's own
 * marker table. What this module adds is `process_pdf`, which runs the
 * pages one after the other, numbering them from 1.
 */
module PdfProcessor {
  import opened Wrappers
  import opened Text
  import opened ParallelProcessor

  /** The processor: only its marker table matters to the model (the output directory is I/O). */
  datatype DocumentProcessor = DocumentProcessor(sectionMarkers: MarkerTable)
  {
    /** `_identify_section_type`: the early-return search of the processor's marker table. */
    function IdentifyType(text: string): (r: Option<string>)
      ensures r.None? <==> forall k :: 0 <= k < |sectionMarkers| ==> !HasMarker(sectionMarkers[k].1, Normalized(text))
      ensures r.Some? ==> exists k :: 0 <= k < |sectionMarkers| && sectionMarkers[k].0 == r.value
                                      && HasMarker(sectionMarkers[k].1, Normalized(text))
                                      && forall j :: 0 <= j < k ==> !HasMarker(sectionMarkers[j].1, Normalized(text))
    {
      IdentifySectionTypeFirstMatch(text, sectionMarkers);
      IdentifySectionType(text, sectionMarkers)
    }

    /** `_get_text_bbox`: right is left plus width, bottom is top plus height. */
    function TextBbox(ocr: OcrData, index: int): (b: Bbox)
      requires ocr.WellFormed() && 0 <= index < |ocr.text|
      ensures b.x1 == ocr.left[index] && b.y1 == ocr.top[index]
      ensures b.x2 == ocr.left[index] + ocr.width[index] && b.y2 == ocr.top[index] + ocr.height[index]
    {
      GetTextBbox(ocr, index)
    }

    /** `_extract_sections`: the token loop of the parallel processor, over the processor's marker table. */
    method ExtractPageSections(ocr: OcrData, pageNum: int) returns (sections: seq<MedicalSection>)
      requires ocr.WellFormed()
      ensures sections == PageSections(ocr, pageNum, sectionMarkers)
      ensures forall s :: s in sections ==> WellFormedSection(s, pageNum, sectionMarkers)
    {
      sections := ExtractSections(ocr, pageNum, sectionMarkers);
      PageSectionsWellFormed(ocr, pageNum, sectionMarkers);
    }

    /** `process_pdf`, given the OCR output of each page image in document order. */
    method ProcessPdf(pages: seq<OcrData>) returns (sections: seq<MedicalSection>)
      requires AllWellFormed(pages)
      ensures sections == ConcatFrom(DocumentPages(pages, sectionMarkers), 0)
    {
      ghost var lists := DocumentPages(pages, sectionMarkers);
      DocumentPagesAt(pages, sectionMarkers);
      sections := [];
      for i := 0 to |pages|
        invariant sections + ConcatFrom(lists, i) == ConcatFrom(lists, 0)
      {
        var pageNum := i + 1;
        var pageSections := ExtractPageSections(pages[i], pageNum);
        ConcatStep(lists, sections, i);
        sections := sections + pageSections;
      }
    }
  }

  /** `MedicalDocumentProcessor()`: the processor with the marker table of the document processors. */
  const Processor := DocumentProcessor(SectionMarkers)

  predicate AllWellFormed(pages: seq<OcrData>) {
    forall k :: 0 <= k < |pages| ==> pages[k].WellFormed()
  }

  /** The sections of each page, page `k + 1` at index `k`. */
  function DocumentPages(pages: seq<OcrData>, table: MarkerTable): (lists: seq<seq<MedicalSection>>)
    requires AllWellFormed(pages)
    ensures |lists| == |pages|
    decreases |pages|
  {
    if pages == [] then []
    else DocumentPages(pages[..|pages| - 1], table) + [PageSections(pages[|pages| - 1], |pages|, table)]
  }

  lemma {:induction false} DocumentPagesAt(pages: seq<OcrData>, table: MarkerTable)
    requires AllWellFormed(pages)
    ensures forall k :: 0 <= k < |pages| ==> DocumentPages(pages, table)[k] == PageSections(pages[k], k + 1, table)
    decreases |pages|
  {
    if pages != [] {
      var init := pages[..|pages| - 1];
      assert forall k :: 0 <= k < |init| ==> init[k] == pages[k];
      DocumentPagesAt(init, table);
    }
  }

  /** The lists from index `k` on, one after the other. */
  function ConcatFrom(lists: seq<seq<MedicalSection>>, k: nat): seq<MedicalSection>
    requires k <= |lists|
    decreases |lists| - k
  {
    if k == |lists| then [] else lists[k] + ConcatFrom(lists, k + 1)
  }

  /** Appending list `i` to a prefix that precedes `ConcatFrom(lists, i)` moves the split one list on. */
  lemma ConcatStep(lists: seq<seq<MedicalSection>>, prefix: seq<MedicalSection>, i: nat)
    requires i < |lists| && prefix + ConcatFrom(lists, i) == ConcatFrom(lists, 0)
    ensures (prefix + lists[i]) + ConcatFrom(lists, i + 1) == ConcatFrom(lists, 0)
  {
    assert (prefix + lists[i]) + ConcatFrom(lists, i + 1) == prefix + (lists[i] + ConcatFrom(lists, i + 1));
  }

  /** Every section of the document is well formed and carries the number of a page of the document. */
  lemma {:induction false} DocumentSectionsWellFormed(pages: seq<OcrData>, table: MarkerTable, k: nat)
    requires AllWellFormed(pages) && k <= |pages|
    ensures forall s :: s in ConcatFrom(DocumentPages(pages, table), k) ==>
              k + 1 <= s.pageNum <= |pages| && WellFormedSection(s, s.pageNum, table)
    decreases |pages| - k
  {
    if k < |pages| {
      DocumentPagesAt(pages, table);
      PageSectionsWellFormed(pages[k], k + 1, table);
      DocumentSectionsWellFormed(pages, table, k + 1);
    }
  }

  /** Some completed task ran page `p`. */
  predicate HasTaskFor(rs: seq<PageResult>, p: int) {
    exists i :: 0 <= i < |rs| && rs[i].pageNum == p
  }

  /** Every page of `lists` was run by exactly one task, which succeeded with that page's sections. */
  predicate AllTasksSucceeded(lists: seq<seq<MedicalSection>>, rs: seq<PageResult>) {
    && DistinctPages(rs)
    && (forall i :: 0 <= i < |rs| ==>
          1 <= rs[i].pageNum <= |lists| && rs[i].sections == Some(lists[rs[i].pageNum - 1]))
    && (forall p :: 1 <= p <= |lists| ==> HasTaskFor(rs, p))
  }

  lemma {:induction false} RangeIsConcat(lists: seq<seq<MedicalSection>>, rs: seq<PageResult>, k: nat)
    requires AllTasksSucceeded(lists, rs) && k <= |lists|
    ensures ResultsInRange(rs, k + 1, |lists|) == ConcatFrom(lists, k)
    decreases |lists| - k
  {
    if k < |lists| {
      RangeIsConcat(lists, rs, k + 1);
      assert HasTaskFor(rs, k + 1);
      var i :| 0 <= i < |rs| && rs[i].pageNum == k + 1;
      assert SucceededOn(rs, i, k + 1);
      assert SectionsOfPage(rs, k + 1) == lists[k];
    }
  }

  /**
   * The tasks of the parallel processor ran the pages of the document: each
   * page `p` by exactly one task, on the OCR output of image `p`, and none raised.
   */
  predicate TasksRanPages(pages: seq<OcrData>, done: seq<PageOutcome>) {
    && (forall i, j :: 0 <= i < j < |done| ==> done[i].pageNum != done[j].pageNum)
    && (forall i :: 0 <= i < |done| ==> 1 <= done[i].pageNum <= |pages| && done[i].ocr == Some(pages[done[i].pageNum - 1]))
    && (forall p :: 1 <= p <= |pages| ==> RanPage(done, p))
  }

  /** Some task ran page `p`. */
  predicate RanPage(done: seq<PageOutcome>, p: int) {
    exists i :: 0 <= i < |done| && done[i].pageNum == p
  }

  /** Tasks that ran the pages of the document ran them on well-formed OCR output. */
  lemma TasksRanWellFormed(pages: seq<OcrData>, done: seq<PageOutcome>)
    requires AllWellFormed(pages) && TasksRanPages(pages, done)
    ensures OutcomesWellFormed(done)
  {
    forall i | 0 <= i < |done| && done[i].ocr.Some?
      ensures done[i].ocr.value.WellFormed()
    {
      assert done[i].ocr.value == pages[done[i].pageNum - 1];
    }
  }

  /** The task that ran page `p` produced the sequential processor's sections of page `p`. */
  lemma TasksRanDistinct(pages: seq<OcrData>, done: seq<PageOutcome>)
    requires TasksRanPages(pages, done) && OutcomesWellFormed(done)
    ensures DistinctPages(Results(done, SectionMarkers))
  {
    var rs := Results(done, SectionMarkers);
    forall i, j | 0 <= i < j < |rs|
      ensures rs[i].pageNum != rs[j].pageNum
    {
      assert rs[i] == TaskResult(done[i], SectionMarkers);
      assert rs[j] == TaskResult(done[j], SectionMarkers);
    }
  }

  lemma TasksRanCover(pages: seq<OcrData>, done: seq<PageOutcome>)
    requires TasksRanPages(pages, done) && OutcomesWellFormed(done)
    ensures forall p :: 1 <= p <= |pages| ==> HasTaskFor(Results(done, SectionMarkers), p)
  {
    var rs := Results(done, SectionMarkers);
    forall p | 1 <= p <= |pages|
      ensures HasTaskFor(rs, p)
    {
      assert RanPage(done, p);
      var i :| 0 <= i < |done| && done[i].pageNum == p;
      assert rs[i] == TaskResult(done[i], SectionMarkers);
    }
  }

  /** Tasks that ran the pages of the document succeeded with the sequential processor's section lists. */
  lemma TasksRanPagesSucceeded(pages: seq<OcrData>, done: seq<PageOutcome>)
    requires AllWellFormed(pages) && TasksRanPages(pages, done)
    ensures OutcomesWellFormed(done)
    ensures AllTasksSucceeded(DocumentPages(pages, SectionMarkers), Results(done, SectionMarkers))
  {
    TasksRanWellFormed(pages, done);
    TasksRanDistinct(pages, done);
    TasksRanCover(pages, done);
    DocumentPagesAt(pages, SectionMarkers);
    TasksRanSections(pages, DocumentPages(pages, SectionMarkers), done);
  }

  lemma TasksRanSections(pages: seq<OcrData>, lists: seq<seq<MedicalSection>>, done: seq<PageOutcome>)
    requires AllWellFormed(pages) && TasksRanPages(pages, done) && OutcomesWellFormed(done)
    requires |lists| == |pages|
    requires forall k :: 0 <= k < |pages| ==> lists[k] == PageSections(pages[k], k + 1, SectionMarkers)
    ensures forall i :: 0 <= i < |done| ==>
              1 <= Results(done, SectionMarkers)[i].pageNum <= |lists|
              && Results(done, SectionMarkers)[i].sections == Some(lists[Results(done, SectionMarkers)[i].pageNum - 1])
  {
    forall i | 0 <= i < |done|
      ensures 1 <= Results(done, SectionMarkers)[i].pageNum <= |lists|
      ensures Results(done, SectionMarkers)[i].sections == Some(lists[Results(done, SectionMarkers)[i].pageNum - 1])
    {
      TaskRanSectionAt(pages, lists, done, i);
    }
  }

  lemma TaskRanSectionAt(pages: seq<OcrData>, lists: seq<seq<MedicalSection>>, done: seq<PageOutcome>, i: nat)
    requires AllWellFormed(pages) && TasksRanPages(pages, done) && OutcomesWellFormed(done)
    requires |lists| == |pages|
    requires forall k :: 0 <= k < |pages| ==> lists[k] == PageSections(pages[k], k + 1, SectionMarkers)
    requires i < |done|
    ensures 1 <= Results(done, SectionMarkers)[i].pageNum <= |lists|
    ensures Results(done, SectionMarkers)[i].sections == Some(lists[Results(done, SectionMarkers)[i].pageNum - 1])
  {
    TaskRanSection(pages, lists, done[i]);
  }

  /** A task that ran page `o.pageNum` on that page's OCR output got that page's sections. */
  lemma TaskRanSection(pages: seq<OcrData>, lists: seq<seq<MedicalSection>>, o: PageOutcome)
    requires |lists| == |pages| && 1 <= o.pageNum <= |pages| && o.ocr == Some(pages[o.pageNum - 1])
    requires pages[o.pageNum - 1].WellFormed()
    requires lists[o.pageNum - 1] == PageSections(pages[o.pageNum - 1], o.pageNum, SectionMarkers)
    ensures TaskResult(o, SectionMarkers).pageNum == o.pageNum
    ensures TaskResult(o, SectionMarkers).sections == Some(lists[o.pageNum - 1])
  {
  }

  /** Results of successful tasks, one per page, merge into the pages' sections in page order. */
  lemma MergedIsConcat(lists: seq<seq<MedicalSection>>, rs: seq<PageResult>)
    requires AllTasksSucceeded(lists, rs)
    ensures MergedResults(rs) == ConcatFrom(lists, 0)
  {
    assert DistinctPages(rs);
    assert forall i :: 0 <= i < |rs| ==> 1 <= rs[i].pageNum <= |lists|;
    MergedInPageOrder(rs, 1, |lists|);
    RangeIsConcat(lists, rs, 0);
  }

  /**
   * When every page task succeeds, the parallel processor returns exactly what
   * the sequential one does, whatever order the tasks complete in.
   */
  lemma ParallelMatchesSequential(pages: seq<OcrData>, done: seq<PageOutcome>)
    requires AllWellFormed(pages) && TasksRanPages(pages, done)
    ensures OutcomesWellFormed(done)
    ensures MergedResults(Results(done, SectionMarkers)) == ConcatFrom(DocumentPages(pages, Processor.sectionMarkers), 0)
  {
    TasksRanPagesSucceeded(pages, done);
    MergedIsConcat(DocumentPages(pages, SectionMarkers), Results(done, SectionMarkers));
  }
}
