/**
 * Section extraction from OCR output, and the page-ordered merge of the
 * per-page results (prognosis_validation/chunking/parallel_processor.py).
 *
 * The OCR engine is outside the model: a page's OCR output is given as the
 * parallel lists `text`, `left`, `top`, `width` and `height` it produces.
 */
module ParallelProcessor {
  import opened Wrappers
  import opened Text

  /** Bounding box `(x1, y1, x2, y2)`. */
  datatype Bbox = Bbox(x1: int, y1: int, x2: int, y2: int)

  /** A logical section of a medical document. */
  datatype MedicalSection = MedicalSection(title: string, content: string, pageNum: int, bbox: Bbox)

  /** The word-level OCR output of one page: one entry per recognised token. */
  datatype OcrData = OcrData(text: seq<string>, left: seq<int>, top: seq<int>, width: seq<int>, height: seq<int>)
  {
    /** The OCR engine produces lists of equal length. */
    predicate WellFormed() {
      |left| == |text| && |top| == |text| && |width| == |text| && |height| == |text|
    }
  }

  /** An insertion-ordered dictionary from section type to its marker phrases. */
  type MarkerTable = seq<(string, seq<string>)>

  /** The marker table of the document processors, in its declaration order. */
  const SectionMarkers: MarkerTable := [
    ("patient_info", ["Patient Name", "DOB:", "Date of Birth"]),
    ("history", ["Prior injury details", "Medical History", "Past Medical History"]),
    ("symptoms", ["Current Symptoms", "Chief Complaint", "Present Illness"]),
    ("diagnosis", ["Diagnosis", "Assessment", "Clinical Impression"]),
    ("treatment", ["Treatment", "Plan", "Recommendations", "Medications"]),
    ("procedures", ["Procedure", "Surgery", "Intervention"]),
    ("vitals", ["Vital Signs", "Blood Pressure", "Temperature"]),
    ("labs", ["Laboratory", "Lab Results", "Test Results"]),
    ("imaging", ["Imaging", "X-ray", "MRI", "CT Scan"])
  ]

  /** `any(marker.lower() in t for marker in markers)` */
  predicate HasMarker(markers: seq<string>, t: string) {
    exists m :: m in markers && Contains(t, Lower(m))
  }

  /** The token, lower-cased and stripped, as the marker lookup compares it. */
  function Normalized(text: string): string {
    Strip(Lower(text))
  }

  /** `title` is one of the section types of `table`. */
  predicate IsSectionType(table: MarkerTable, title: string) {
    exists k :: 0 <= k < |table| && table[k].0 == title
  }

  /** `identify_section_type`: the early-return search of the marker table. */
  function IdentifySectionType(text: string, table: MarkerTable): Option<string>
    decreases |table|
  {
    if table == [] then None
    else if HasMarker(table[0].1, Normalized(text)) then Some(table[0].0)
    else IdentifySectionType(text, table[1..])
  }

  /**
   * The section type found is the first one, in table order, one of whose markers
   * occurs (ignoring case) in the lower-cased, stripped token; `None` when none does.
   */
  lemma {:induction false} IdentifySectionTypeFirstMatch(text: string, table: MarkerTable)
    ensures IdentifySectionType(text, table).None? <==>
              forall k :: 0 <= k < |table| ==> !HasMarker(table[k].1, Normalized(text))
    ensures IdentifySectionType(text, table).Some? ==>
              exists k :: 0 <= k < |table| && table[k].0 == IdentifySectionType(text, table).value
                          && HasMarker(table[k].1, Normalized(text))
                          && forall j :: 0 <= j < k ==> !HasMarker(table[j].1, Normalized(text))
    decreases |table|
  {
    if table != [] && !HasMarker(table[0].1, Normalized(text)) {
      IdentifySectionTypeFirstMatch(text, table[1..]);
      assert forall k :: 1 <= k < |table| ==> table[k] == table[1..][k - 1];
      if IdentifySectionType(text, table).Some? {
        var k :| 0 <= k < |table[1..]| && table[1..][k].0 == IdentifySectionType(text, table).value
                 && HasMarker(table[1..][k].1, Normalized(text))
                 && forall j :: 0 <= j < k ==> !HasMarker(table[1..][j].1, Normalized(text));
        assert forall j :: 0 <= j < k + 1 ==> !HasMarker(table[j].1, Normalized(text)) by {
          forall j | 0 <= j < k + 1 ensures !HasMarker(table[j].1, Normalized(text)) {
            if j > 0 { assert table[j] == table[1..][j - 1]; }
          }
        }
      }
    }
  }

  /** `get_text_bbox`: the box of token `index`, as `(left, top, left + width, top + height)`. */
  function GetTextBbox(ocr: OcrData, index: int): (b: Bbox)
    requires ocr.WellFormed() && 0 <= index < |ocr.text|
    ensures b.x1 == ocr.left[index] && b.y1 == ocr.top[index]
    ensures b.x2 - b.x1 == ocr.width[index] && b.y2 - b.y1 == ocr.height[index]
  {
    Bbox(ocr.left[index], ocr.top[index],
         ocr.left[index] + ocr.width[index], ocr.top[index] + ocr.height[index])
  }

  // ---------------------------------------------------------------------------
  // A declarative description of the sections of a page
  // ---------------------------------------------------------------------------

  /** How the extraction loop treats a token: skipped, as a section header, or as body text. */
  datatype TokenKind = Blank | Header(sectionType: string) | Body

  /**
   * A whitespace-only token is skipped; a token whose section type is a
   * non-empty string opens a section of that type; any other token is body text.
   */
  function Classify(tok: string, table: MarkerTable): (k: TokenKind)
    ensures k.Blank? <==> Strip(tok) == ""
    ensures k.Header? <==> Strip(tok) != "" && IdentifySectionType(tok, table).Some? && IdentifySectionType(tok, table).value != ""
    ensures k.Header? ==> k.sectionType != "" && IdentifySectionType(tok, table) == Some(k.sectionType)
  {
    if Strip(tok) == "" then Blank
    else
      var r := IdentifySectionType(tok, table);
      if r.Some? && r.value != "" then Header(r.value) else Body
  }

  /**
   * The tests the extraction loop makes on a token: is it blank after
   * stripping, and if not, does it have a non-empty section type.
   */
  method ClassifyToken(text: string, table: MarkerTable) returns (kind: TokenKind)
    ensures kind == Classify(text, table)
  {
    if Strip(text) == "" {
      return Blank;
    }
    var sectionType := IdentifySectionType(text, table);
    if sectionType.Some? && sectionType.value != "" {
      kind := Header(sectionType.value);
    } else {
      kind := Body;
    }
  }

  /** A header's section type is one of the table's. */
  lemma HeaderTypeInTable(tok: string, table: MarkerTable)
    requires Classify(tok, table).Header?
    ensures IsSectionType(table, Classify(tok, table).sectionType)
  {
    IdentifySectionTypeFirstMatch(tok, table);
  }

  /** The kinds of all tokens of a page. */
  function Kinds(text: seq<string>, table: MarkerTable): (ks: seq<TokenKind>)
    ensures |ks| == |text|
    decreases |text|
  {
    if text == [] then [] else Kinds(text[..|text| - 1], table) + [Classify(text[|text| - 1], table)]
  }

  lemma {:induction false} KindsAt(text: seq<string>, table: MarkerTable)
    ensures forall i :: 0 <= i < |text| ==> Kinds(text, table)[i] == Classify(text[i], table)
    decreases |text|
  {
    if text != [] {
      var init := text[..|text| - 1];
      KindsAt(init, table);
      assert forall i :: 0 <= i < |init| ==> init[i] == text[i];
    }
  }

  /** The index of the first header at or after `i`, or `|ks|` when there is none. */
  function NextHeader(ks: seq<TokenKind>, i: nat): (h: nat)
    requires i <= |ks|
    ensures i <= h <= |ks|
    ensures h < |ks| ==> ks[h].Header?
    decreases |ks| - i
  {
    if i == |ks| then i
    else if ks[i].Header? then i
    else NextHeader(ks, i + 1)
  }

  /** The body tokens of `text[a..b]`, in order. */
  function BodyTokens(text: seq<string>, ks: seq<TokenKind>, a: nat, b: nat): seq<string>
    requires |ks| == |text| && a <= b <= |text|
    decreases b - a
  {
    if a == b then []
    else BodyTokens(text, ks, a, b - 1) + (if ks[b - 1].Body? then [text[b - 1]] else [])
  }

  /**
   * The sections that start at header `h` and at the headers after it. The
   * section of header `h` holds the body tokens up to the next header, joined by
   * single spaces, and takes its box from that next header (from the last token
   * when there is no further header); a header with no body tokens gives none.
   */
  function SectionsFrom(ocr: OcrData, ks: seq<TokenKind>, page: int, h: nat): seq<MedicalSection>
    requires ocr.WellFormed() && |ks| == |ocr.text| && h < |ks| && ks[h].Header?
    decreases |ks| - h
  {
    var n := |ks|;
    var next := NextHeader(ks, h + 1);
    var body := BodyTokens(ocr.text, ks, h + 1, next);
    var here := if body == [] then []
                else [MedicalSection(ks[h].sectionType, Join(" ", body), page,
                                     GetTextBbox(ocr, if next < n then next else n - 1))];
    here + (if next < n then SectionsFrom(ocr, ks, page, next) else [])
  }

  /** The sections that start at the first header at or after `i`. */
  function SectionsAfter(ocr: OcrData, ks: seq<TokenKind>, page: int, i: nat): seq<MedicalSection>
    requires ocr.WellFormed() && |ks| == |ocr.text| && i <= |ks|
  {
    var first := NextHeader(ks, i);
    if first < |ks| then SectionsFrom(ocr, ks, page, first) else []
  }

  /** The sections of a page: those of its headers; tokens before the first header belong to none. */
  function PageSections(ocr: OcrData, page: int, table: MarkerTable): seq<MedicalSection>
    requires ocr.WellFormed()
  {
    SectionsAfter(ocr, Kinds(ocr.text, table), page, 0)
  }

  // ---------------------------------------------------------------------------
  // extract_sections
  // ---------------------------------------------------------------------------

  /** The variables of the extraction loop: sections emitted, the open section's type, its body so far, and its header's index. */
  datatype Pass = Pass(sections: seq<MedicalSection>, current: Option<string>, currentText: seq<string>, h: nat)

  /**
   * The state of the extraction loop before token `i`: with no open section
   * nothing has been emitted and the remaining sections are those after `i`;
   * with a section open at header `h`, its body so far is that of `h + 1..i`,
   * and the sections emitted followed by those from `h` on are all of them.
   */
  ghost predicate ExtractInv(ocr: OcrData, ks: seq<TokenKind>, page: int, target: seq<MedicalSection>, i: nat, st: Pass)
    requires ocr.WellFormed() && |ks| == |ocr.text| && i <= |ks|
  {
    (st.current.None? ==> st.sections == [] && target == SectionsAfter(ocr, ks, page, i))
    && (st.current.Some? ==>
          st.h < i && ks[st.h].Header? && st.current.value == ks[st.h].sectionType && st.current.value != ""
          && st.currentText == BodyTokens(ocr.text, ks, st.h + 1, i)
          && NextHeader(ks, st.h + 1) == NextHeader(ks, i)
          && target == st.sections + SectionsFrom(ocr, ks, page, st.h))
  }

  lemma ExtractBlankStep(ocr: OcrData, ks: seq<TokenKind>, page: int, target: seq<MedicalSection>, i: nat, st: Pass)
    requires ocr.WellFormed() && |ks| == |ocr.text| && i < |ks| && ks[i].Blank?
    requires ExtractInv(ocr, ks, page, target, i, st)
    ensures ExtractInv(ocr, ks, page, target, i + 1, st)
  {
    assert NextHeader(ks, i) == NextHeader(ks, i + 1);
    if st.current.Some? {
      assert BodyTokens(ocr.text, ks, st.h + 1, i + 1) == BodyTokens(ocr.text, ks, st.h + 1, i);
    }
  }

  lemma ExtractBodyStep(ocr: OcrData, ks: seq<TokenKind>, page: int, target: seq<MedicalSection>, i: nat, st: Pass)
    requires ocr.WellFormed() && |ks| == |ocr.text| && i < |ks| && ks[i].Body?
    requires ExtractInv(ocr, ks, page, target, i, st)
    ensures ExtractInv(ocr, ks, page, target, i + 1, st.(currentText := st.currentText + [ocr.text[i]]))
  {
    assert NextHeader(ks, i) == NextHeader(ks, i + 1);
    if st.current.Some? {
      assert BodyTokens(ocr.text, ks, st.h + 1, i + 1) == BodyTokens(ocr.text, ks, st.h + 1, i) + [ocr.text[i]];
    }
  }

  /** The section open at header `h` ends at the header `i` that follows its body. */
  lemma SectionClosesAt(ocr: OcrData, ks: seq<TokenKind>, page: int, h: nat, i: nat, body: seq<string>)
    requires ocr.WellFormed() && |ks| == |ocr.text| && h < i < |ks| && ks[h].Header? && ks[i].Header?
    requires NextHeader(ks, h + 1) == i && body == BodyTokens(ocr.text, ks, h + 1, i)
    ensures SectionsFrom(ocr, ks, page, h)
            == (if body == [] then [] else [MedicalSection(ks[h].sectionType, Join(" ", body), page, GetTextBbox(ocr, i))])
               + SectionsFrom(ocr, ks, page, i)
  {
  }

  /** The same, after the sections `prefix` emitted before header `h`. */
  lemma SectionClosesAfter(ocr: OcrData, ks: seq<TokenKind>, page: int, h: nat, i: nat, title: string, body: seq<string>, prefix: seq<MedicalSection>)
    requires ocr.WellFormed() && |ks| == |ocr.text| && h < i < |ks| && ks[h].Header? && ks[i].Header?
    requires NextHeader(ks, h + 1) == i && body == BodyTokens(ocr.text, ks, h + 1, i) && title == ks[h].sectionType
    ensures prefix + SectionsFrom(ocr, ks, page, h)
            == (if body != [] then prefix + [MedicalSection(title, Join(" ", body), page, GetTextBbox(ocr, i))] else prefix)
               + SectionsFrom(ocr, ks, page, i)
  {
    SectionClosesAt(ocr, ks, page, h, i, body);
    var rest := SectionsFrom(ocr, ks, page, i);
    if body != [] {
      var x := MedicalSection(title, Join(" ", body), page, GetTextBbox(ocr, i));
      assert prefix + ([x] + rest) == (prefix + [x]) + rest;
    } else {
      assert [] + rest == rest;
    }
  }

  /** At a header, the open section is emitted (when it has a body) and the target continues from the header. */
  lemma CloseOpenSection(ocr: OcrData, ks: seq<TokenKind>, page: int, target: seq<MedicalSection>, i: nat, st: Pass)
    requires ocr.WellFormed() && |ks| == |ocr.text| && st.h < i < |ks| && ks[i].Header? && ks[st.h].Header?
    requires st.current == Some(ks[st.h].sectionType) && st.current.value != ""
    requires st.currentText == BodyTokens(ocr.text, ks, st.h + 1, i) && NextHeader(ks, st.h + 1) == i
    requires target == st.sections + SectionsFrom(ocr, ks, page, st.h)
    ensures target == (if st.current.Some? && st.current.value != "" && st.currentText != []
                       then st.sections + [MedicalSection(st.current.value, Join(" ", st.currentText), page, GetTextBbox(ocr, i))]
                       else st.sections)
                      + SectionsFrom(ocr, ks, page, i)
  {
    SectionClosesAfter(ocr, ks, page, st.h, i, st.current.value, st.currentText, st.sections);
  }

  /** With no section open yet, the target starts at the first header. */
  lemma FirstHeader(ocr: OcrData, ks: seq<TokenKind>, page: int, target: seq<MedicalSection>, i: nat, sections: seq<MedicalSection>)
    requires ocr.WellFormed() && |ks| == |ocr.text| && i < |ks| && ks[i].Header?
    requires sections == [] && target == SectionsAfter(ocr, ks, page, i)
    ensures target == sections + SectionsFrom(ocr, ks, page, i)
  {
    assert NextHeader(ks, i) == i;
    assert sections + SectionsFrom(ocr, ks, page, i) == SectionsFrom(ocr, ks, page, i);
  }

  /** The target from header `i` on, once the section open before it is emitted. */
  lemma ExtractHeaderTarget(ocr: OcrData, ks: seq<TokenKind>, page: int, target: seq<MedicalSection>, i: nat, st: Pass)
    requires ocr.WellFormed() && |ks| == |ocr.text| && i < |ks| && ks[i].Header?
    requires ExtractInv(ocr, ks, page, target, i, st)
    ensures target == (if st.current.Some? && st.current.value != "" && st.currentText != []
                       then st.sections + [MedicalSection(st.current.value, Join(" ", st.currentText), page, GetTextBbox(ocr, i))]
                       else st.sections)
                      + SectionsFrom(ocr, ks, page, i)
  {
    assert NextHeader(ks, i) == i;
    if st.current.Some? {
      CloseOpenSection(ocr, ks, page, target, i, st);
    } else {
      FirstHeader(ocr, ks, page, target, i, st.sections);
    }
  }

  lemma ExtractHeaderStep(ocr: OcrData, ks: seq<TokenKind>, page: int, target: seq<MedicalSection>, i: nat, st: Pass)
    requires ocr.WellFormed() && |ks| == |ocr.text| && i < |ks| && ks[i].Header? && ks[i].sectionType != ""
    requires ExtractInv(ocr, ks, page, target, i, st)
    ensures ExtractInv(ocr, ks, page, target, i + 1,
                       Pass(if st.current.Some? && st.current.value != "" && st.currentText != []
                            then st.sections + [MedicalSection(st.current.value, Join(" ", st.currentText), page, GetTextBbox(ocr, i))]
                            else st.sections,
                            Some(ks[i].sectionType), [], i))
  {
    ExtractHeaderTarget(ocr, ks, page, target, i, st);
    assert BodyTokens(ocr.text, ks, i + 1, i + 1) == [];
  }

  /** After the last token, emitting the open section completes the page. */
  lemma ExtractFinish(ocr: OcrData, ks: seq<TokenKind>, page: int, target: seq<MedicalSection>, st: Pass)
    requires ocr.WellFormed() && |ks| == |ocr.text|
    requires ExtractInv(ocr, ks, page, target, |ks|, st)
    ensures target == if st.current.Some? && st.current.value != "" && st.currentText != []
                      then st.sections + [MedicalSection(st.current.value, Join(" ", st.currentText), page, GetTextBbox(ocr, |ks| - 1))]
                      else st.sections
  {
  }

  /** The kinds of the tokens of a page, by which its sections are defined. */
  lemma PageKinds(ocr: OcrData, page: int, table: MarkerTable) returns (ks: seq<TokenKind>)
    requires ocr.WellFormed()
    ensures |ks| == |ocr.text| && PageSections(ocr, page, table) == SectionsAfter(ocr, ks, page, 0)
    ensures forall i {:trigger Classify(ocr.text[i], table)} :: 0 <= i < |ks| ==> ks[i] == Classify(ocr.text[i], table)
  {
    ks := Kinds(ocr.text, table);
    KindsAt(ocr.text, table);
  }

  /** `extract_sections`: the left-to-right pass over the tokens of one page. */
  method ExtractSections(ocr: OcrData, page: int, table: MarkerTable) returns (sections: seq<MedicalSection>)
    requires ocr.WellFormed()
    ensures sections == PageSections(ocr, page, table)
  {
    ghost var ks := PageKinds(ocr, page, table);
    ghost var target := SectionsAfter(ocr, ks, page, 0);
    sections := [];
    var current: Option<string> := None;
    var currentText: seq<string> := [];
    ghost var h: nat := 0;
    var n := |ocr.text|;
    for i := 0 to n
      invariant ExtractInv(ocr, ks, page, target, i, Pass(sections, current, currentText, h))
    {
      var text := ocr.text[i];
      var kind := ClassifyToken(text, table);
      assert ks[i] == kind;
      match kind {
        case Blank =>
          ExtractBlankStep(ocr, ks, page, target, i, Pass(sections, current, currentText, h));
        case Header(sectionType) =>
          ExtractHeaderStep(ocr, ks, page, target, i, Pass(sections, current, currentText, h));
          if current.Some? && current.value != "" && currentText != [] {
            sections := sections + [MedicalSection(current.value, Join(" ", currentText), page, GetTextBbox(ocr, i))];
          }
          current := Some(sectionType);
          currentText := [];
          h := i;
        case Body =>
          ExtractBodyStep(ocr, ks, page, target, i, Pass(sections, current, currentText, h));
          currentText := currentText + [text];
      }
    }
    ExtractFinish(ocr, ks, page, target, Pass(sections, current, currentText, h));
    if current.Some? && current.value != "" && currentText != [] {
      sections := sections + [MedicalSection(current.value, Join(" ", currentText), page, GetTextBbox(ocr, n - 1))];
    }
  }

  // ---------------------------------------------------------------------------
  // Properties of the sections of a page
  // ---------------------------------------------------------------------------

  /** Every body token is body text: neither blank nor a header. */
  lemma {:induction false} BodyTokensNotBlank(text: seq<string>, table: MarkerTable, a: nat, b: nat)
    requires a <= b <= |text|
    ensures forall t :: t in BodyTokens(text, Kinds(text, table), a, b) ==> Classify(t, table) == Body && Strip(t) != ""
    decreases b - a
  {
    if a < b {
      BodyTokensNotBlank(text, table, a, b - 1);
      KindsAt(text, table);
      assert Kinds(text, table)[b - 1] == Classify(text[b - 1], table);
    }
  }

  /** A non-empty list of non-blank tokens joins to a non-blank string. */
  lemma JoinOfBodyIsNotBlank(body: seq<string>)
    requires body != [] && forall t :: t in body ==> Strip(t) != ""
    ensures !IsBlank(Join(" ", body))
  {
    assert Strip(body[0]) != "";
    StripEmptyIffBlank(body[0]);
    var j :| 0 <= j < |body[0]| && !IsSpace(body[0][j]);
    JoinStartsWithFirst(" ", body);
    assert Join(" ", body)[j] == body[0][j];
  }

  /** Every section of a page has a title from the table, the page's number and non-blank content. */
  predicate WellFormedSection(s: MedicalSection, page: int, table: MarkerTable) {
    s.pageNum == page && s.title != "" && IsSectionType(table, s.title) && !IsBlank(s.content)
  }

  lemma {:induction false} SectionsFromWellFormed(ocr: OcrData, page: int, table: MarkerTable, h: nat)
    requires ocr.WellFormed() && h < |ocr.text| && Kinds(ocr.text, table)[h].Header?
    ensures forall s :: s in SectionsFrom(ocr, Kinds(ocr.text, table), page, h) ==> WellFormedSection(s, page, table)
    decreases |ocr.text| - h
  {
    var ks := Kinds(ocr.text, table);
    KindsAt(ocr.text, table);
    assert ks[h] == Classify(ocr.text[h], table);
    HeaderTypeInTable(ocr.text[h], table);
    var next := NextHeader(ks, h + 1);
    var body := BodyTokens(ocr.text, ks, h + 1, next);
    if body != [] {
      BodyTokensNotBlank(ocr.text, table, h + 1, next);
      JoinOfBodyIsNotBlank(body);
    }
    if next < |ocr.text| {
      SectionsFromWellFormed(ocr, page, table, next);
    }
  }

  /**
   * Every extracted section carries the page number it was extracted with, a
   * title that is a section type of the table, and content that is not blank.
   */
  lemma PageSectionsWellFormed(ocr: OcrData, page: int, table: MarkerTable)
    requires ocr.WellFormed()
    ensures forall s :: s in PageSections(ocr, page, table) ==> WellFormedSection(s, page, table)
  {
    var first := NextHeader(Kinds(ocr.text, table), 0);
    if first < |ocr.text| {
      SectionsFromWellFormed(ocr, page, table, first);
    }
  }

  /** Two pages whose tokens and boxes agree from index `i` on. */
  predicate AgreeFrom(ocr: OcrData, ocr': OcrData, i: nat)
    requires ocr.WellFormed() && ocr'.WellFormed()
  {
    |ocr.text| == |ocr'.text| && i <= |ocr.text|
    && forall k :: i <= k < |ocr.text| ==>
         ocr.text[k] == ocr'.text[k] && ocr.left[k] == ocr'.left[k] && ocr.top[k] == ocr'.top[k]
         && ocr.width[k] == ocr'.width[k] && ocr.height[k] == ocr'.height[k]
  }

  /** Two kind sequences of one length that agree from index `i` on. */
  predicate KindsAgreeFrom(ks: seq<TokenKind>, ks': seq<TokenKind>, i: nat) {
    |ks| == |ks'| && i <= |ks| && forall k :: i <= k < |ks| ==> ks[k] == ks'[k]
  }

  lemma {:induction false} NextHeaderLocal(ks: seq<TokenKind>, ks': seq<TokenKind>, i: nat)
    requires KindsAgreeFrom(ks, ks', i)
    ensures NextHeader(ks, i) == NextHeader(ks', i)
    decreases |ks| - i
  {
    if i < |ks| && !ks[i].Header? {
      NextHeaderLocal(ks, ks', i + 1);
    }
  }

  lemma {:induction false} BodyTokensLocal(text: seq<string>, text': seq<string>, ks: seq<TokenKind>, ks': seq<TokenKind>, a: nat, b: nat)
    requires KindsAgreeFrom(ks, ks', a) && |text| == |ks| && |text'| == |ks'| && a <= b <= |ks|
    requires forall k :: a <= k < |text| ==> text[k] == text'[k]
    ensures BodyTokens(text, ks, a, b) == BodyTokens(text', ks', a, b)
    decreases b - a
  {
    if a < b {
      BodyTokensLocal(text, text', ks, ks', a, b - 1);
    }
  }

  lemma {:induction false} SectionsFromLocal(ocr: OcrData, ocr': OcrData, ks: seq<TokenKind>, ks': seq<TokenKind>, page: int, h: nat)
    requires ocr.WellFormed() && ocr'.WellFormed() && AgreeFrom(ocr, ocr', h)
    requires |ks| == |ocr.text| && KindsAgreeFrom(ks, ks', h)
    requires h < |ks| && ks[h].Header?
    ensures SectionsFrom(ocr, ks, page, h) == SectionsFrom(ocr', ks', page, h)
    decreases |ks| - h
  {
    var n := |ks|;
    NextHeaderLocal(ks, ks', h + 1);
    var next := NextHeader(ks, h + 1);
    BodyTokensLocal(ocr.text, ocr'.text, ks, ks', h + 1, next);
    var box := if next < n then next else n - 1;
    assert GetTextBbox(ocr, box) == GetTextBbox(ocr', box);
    if next < n {
      assert AgreeFrom(ocr, ocr', next) && KindsAgreeFrom(ks, ks', next);
      SectionsFromLocal(ocr, ocr', ks, ks', page, next);
    }
  }

  /** A header directly followed by another header emits nothing: its section is dropped. */
  lemma ConsecutiveHeaders(ocr: OcrData, ks: seq<TokenKind>, page: int, h: nat)
    requires ocr.WellFormed() && |ks| == |ocr.text| && h + 1 < |ks| && ks[h].Header? && ks[h + 1].Header?
    ensures SectionsFrom(ocr, ks, page, h) == SectionsFrom(ocr, ks, page, h + 1)
  {
    assert NextHeader(ks, h + 1) == h + 1;
    assert BodyTokens(ocr.text, ks, h + 1, h + 1) == [];
  }

  /** Each token of a section's body is a body token of the range, at its position. */
  lemma {:induction false} BodyTokensFromRange(text: seq<string>, ks: seq<TokenKind>, a: nat, b: nat)
    requires |ks| == |text| && a <= b <= |text|
    ensures forall t :: t in BodyTokens(text, ks, a, b) ==> exists k :: a <= k < b && ks[k].Body? && text[k] == t
    decreases b - a
  {
    if a < b {
      BodyTokensFromRange(text, ks, a, b - 1);
      var init := BodyTokens(text, ks, a, b - 1);
      forall t | t in BodyTokens(text, ks, a, b) ensures exists k :: a <= k < b && ks[k].Body? && text[k] == t {
        if t in init {
          var k :| a <= k < b - 1 && ks[k].Body? && text[k] == t;
          assert a <= k < b;
        } else {
          assert ks[b - 1].Body? && text[b - 1] == t;
        }
      }
    }
  }

  /** `NextHeader` passes over a run of non-header tokens. */
  lemma {:induction false} NextHeaderSkips(ks: seq<TokenKind>, i: nat, j: nat)
    requires i <= j <= |ks|
    requires forall k :: i <= k < j ==> !ks[k].Header?
    ensures NextHeader(ks, i) == NextHeader(ks, j)
    decreases j - i
  {
    if i < j {
      NextHeaderSkips(ks, i + 1, j);
    }
  }

  /**
   * Tokens before the first header are discarded: two pages that agree from the
   * first header of the first on, and whose tokens before it are not headers,
   * have the same sections.
   */
  lemma PrefixBeforeFirstHeaderIgnored(ocr: OcrData, ocr': OcrData, page: int, table: MarkerTable)
    requires ocr.WellFormed() && ocr'.WellFormed()
    requires AgreeFrom(ocr, ocr', NextHeader(Kinds(ocr.text, table), 0))
    requires forall k :: 0 <= k < NextHeader(Kinds(ocr.text, table), 0) ==> !Classify(ocr'.text[k], table).Header?
    ensures PageSections(ocr, page, table) == PageSections(ocr', page, table)
  {
    var ks, ks' := Kinds(ocr.text, table), Kinds(ocr'.text, table);
    var first := NextHeader(ks, 0);
    KindsAt(ocr.text, table);
    KindsAt(ocr'.text, table);
    assert KindsAgreeFrom(ks, ks', first);
    NextHeaderLocal(ks, ks', first);
    NextHeaderSkips(ks', 0, first);
    if first < |ks| {
      SectionsFromLocal(ocr, ocr', ks, ks', page, first);
    }
  }

  /** A page without header tokens has no sections. */
  lemma NoHeaderNoSections(ocr: OcrData, page: int, table: MarkerTable)
    requires ocr.WellFormed()
    requires forall k :: 0 <= k < |ocr.text| ==> !Classify(ocr.text[k], table).Header?
    ensures PageSections(ocr, page, table) == []
  {
    KindsAt(ocr.text, table);
    NextHeaderSkips(Kinds(ocr.text, table), 0, |ocr.text|);
  }

  // ---------------------------------------------------------------------------
  // process_pdf: collecting the per-page results and merging them in page order
  // ---------------------------------------------------------------------------

  /** A finished page task, in completion order: its page number and its OCR output, or `None` if it raised. */
  datatype PageOutcome = PageOutcome(pageNum: int, ocr: Option<OcrData>)

  predicate OutcomesWellFormed(done: seq<PageOutcome>) {
    forall i :: 0 <= i < |done| && done[i].ocr.Some? ==> done[i].ocr.value.WellFormed()
  }

  /** What `future.result()` yields for a task: its page number and, unless it raised, the page's sections. */
  datatype PageResult = PageResult(pageNum: int, sections: Option<seq<MedicalSection>>)

  /** The result of the task `process_single_page` for one page. */
  function TaskResult(o: PageOutcome, table: MarkerTable): PageResult
    requires o.ocr.Some? ==> o.ocr.value.WellFormed()
  {
    PageResult(o.pageNum, if o.ocr.Some? then Some(PageSections(o.ocr.value, o.pageNum, table)) else None)
  }

  /** The results of the completed tasks, in completion order. */
  function Results(done: seq<PageOutcome>, table: MarkerTable): (rs: seq<PageResult>)
    requires OutcomesWellFormed(done)
    ensures |rs| == |done|
    ensures forall i :: 0 <= i < |done| ==> rs[i] == TaskResult(done[i], table)
  {
    seq(|done|, i requires 0 <= i < |done| => TaskResult(done[i], table))
  }

  /** The `page_sections` dictionary after the results `rs` have been collected. */
  function Collected(rs: seq<PageResult>): map<int, seq<MedicalSection>>
    decreases |rs|
  {
    if rs == [] then map[]
    else
      var last := rs[|rs| - 1];
      var m := Collected(rs[..|rs| - 1]);
      if last.sections.Some? then m[last.pageNum := last.sections.value] else m
  }

  /** The keys of the `page_sections` dictionary in insertion order: each page the first time a task for it succeeded. */
  function CollectedKeys(rs: seq<PageResult>): seq<int>
    decreases |rs|
  {
    if rs == [] then []
    else
      var last := rs[|rs| - 1];
      var keys := CollectedKeys(rs[..|rs| - 1]);
      if last.sections.Some? && last.pageNum !in keys then keys + [last.pageNum] else keys
  }

  /** Collecting one more result. */
  lemma CollectStep(rs: seq<PageResult>, i: nat)
    requires i < |rs|
    ensures var r, m, keys := rs[i], Collected(rs[..i]), CollectedKeys(rs[..i]);
            && Collected(rs[..i + 1]) == (if r.sections.Some? then m[r.pageNum := r.sections.value] else m)
            && CollectedKeys(rs[..i + 1]) == (if r.sections.Some? && r.pageNum !in keys then keys + [r.pageNum] else keys)
  {
    assert rs[..i + 1][..i] == rs[..i];
  }

  /** `keys` lists exactly the keys of `m`. */
  ghost predicate KeyListOf(m: map<int, seq<MedicalSection>>, keys: seq<int>) {
    forall p :: p in keys <==> p in m
  }

  /** No integer occurs twice. */
  predicate Distinct(xs: seq<int>) {
    forall i, j :: 0 <= i < j < |xs| ==> xs[i] != xs[j]
  }

  /** The dictionary's key list holds its keys, each once. */
  lemma {:induction false} CollectedKeysAreKeys(rs: seq<PageResult>)
    ensures KeyListOf(Collected(rs), CollectedKeys(rs))
    ensures Distinct(CollectedKeys(rs))
    decreases |rs|
  {
    if rs != [] {
      CollectedKeysAreKeys(rs[..|rs| - 1]);
    }
  }

  /** Strictly ascending. */
  predicate Ascending(xs: seq<int>) {
    forall i, j :: 0 <= i < j < |xs| ==> xs[i] < xs[j]
  }

  /** `x` inserted into an ascending list before its first element not below `x`. */
  function Insert(x: int, xs: seq<int>): (r: seq<int>)
    ensures |r| == |xs| + 1
    ensures forall y :: y in r <==> y == x || y in xs
    decreases |xs|
  {
    if xs == [] || x <= xs[0] then [x] + xs else [xs[0]] + Insert(x, xs[1..])
  }

  /** Python's `sorted` on a list of integers (insertion sort). */
  function Sorted(xs: seq<int>): (r: seq<int>)
    ensures |r| == |xs|
    ensures forall y :: y in r <==> y in xs
    decreases |xs|
  {
    if xs == [] then [] else Insert(xs[0], Sorted(xs[1..]))
  }

  /** An element below every element of an ascending list keeps it ascending in front. */
  lemma AscendingCons(x: int, r: seq<int>)
    requires Ascending(r) && forall y :: y in r ==> x < y
    ensures Ascending([x] + r)
  {
    var s := [x] + r;
    forall i, j | 0 <= i < j < |s| ensures s[i] < s[j] {
      assert s[j] == r[j - 1];
      if i > 0 {
        assert s[i] == r[i - 1];
      } else {
        assert r[j - 1] in r;
      }
    }
  }

  lemma {:induction false} InsertAscending(x: int, xs: seq<int>)
    requires Ascending(xs) && x !in xs
    ensures Ascending(Insert(x, xs))
    decreases |xs|
  {
    if xs == [] || x <= xs[0] {
      forall y | y in xs ensures x < y {
        var k :| 0 <= k < |xs| && xs[k] == y;
        assert xs[0] <= xs[k];
      }
      AscendingCons(x, xs);
    } else {
      var t := xs[1..];
      assert Ascending(t) by {
        forall i, j | 0 <= i < j < |t| ensures t[i] < t[j] {
          assert t[i] == xs[i + 1] && t[j] == xs[j + 1];
        }
      }
      assert x !in t by {
        forall k | 0 <= k < |t| ensures t[k] != x {
          assert t[k] == xs[k + 1];
        }
      }
      InsertAscending(x, t);
      var r := Insert(x, t);
      forall y | y in r ensures xs[0] < y {
        if y != x {
          var k :| 0 <= k < |t| && t[k] == y;
          assert xs[k + 1] == y;
        }
      }
      AscendingCons(xs[0], r);
    }
  }

  /** Sorting a list of distinct integers gives them in strictly ascending order. */
  lemma {:induction false} SortedAscending(xs: seq<int>)
    requires Distinct(xs)
    ensures Ascending(Sorted(xs))
    decreases |xs|
  {
    if xs != [] {
      assert Distinct(xs[1..]) by {
        forall i, j | 0 <= i < j < |xs[1..]| ensures xs[1..][i] != xs[1..][j] {
          assert xs[1..][i] == xs[i + 1] && xs[1..][j] == xs[j + 1];
        }
      }
      SortedAscending(xs[1..]);
      assert xs[0] !in xs[1..] by {
        forall k | 0 <= k < |xs[1..]| ensures xs[1..][k] != xs[0] {
          assert xs[1..][k] == xs[k + 1];
        }
      }
      InsertAscending(xs[0], Sorted(xs[1..]));
    }
  }

  /** The sections of the listed pages of a dictionary, one page after the other. */
  function PagesInOrder(m: map<int, seq<MedicalSection>>, order: seq<int>): seq<MedicalSection>
    requires forall k :: 0 <= k < |order| ==> order[k] in m
    decreases |order|
  {
    if order == [] then [] else m[order[0]] + PagesInOrder(m, order[1..])
  }

  /** The merged result of a page dictionary and its key list: `for page_num in sorted(keys): extend`. */
  function Merged(m: map<int, seq<MedicalSection>>, keys: seq<int>): seq<MedicalSection>
    requires forall p :: p in keys ==> p in m
  {
    var order := Sorted(keys);
    assert forall k :: 0 <= k < |order| ==> order[k] in order;
    PagesInOrder(m, order)
  }

  /** What `process_pdf` returns once the results `rs` have been collected. */
  function MergedResults(rs: seq<PageResult>): seq<MedicalSection>
  {
    CollectedKeysAreKeys(rs);
    Merged(Collected(rs), CollectedKeys(rs))
  }

  /** `process_pdf` of the parallel processor, from the moment its page tasks complete, in completion order `done`. */
  method ProcessPdf(done: seq<PageOutcome>) returns (allSections: seq<MedicalSection>)
    requires OutcomesWellFormed(done)
    ensures allSections == MergedResults(Results(done, SectionMarkers))
  {
    ghost var rs := Results(done, SectionMarkers);
    var pageSections: map<int, seq<MedicalSection>> := map[];
    var keys: seq<int> := [];
    for i := 0 to |done|
      invariant pageSections == Collected(rs[..i]) && keys == CollectedKeys(rs[..i])
    {
      CollectStep(rs, i);
      var outcome := done[i];
      if outcome.ocr.Some? {
        var sections := ExtractSections(outcome.ocr.value, outcome.pageNum, SectionMarkers);
        if outcome.pageNum !in keys {
          keys := keys + [outcome.pageNum];
        }
        pageSections := pageSections[outcome.pageNum := sections];
      }
    }
    assert rs[..|done|] == rs;
    CollectedKeysAreKeys(rs);
    allSections := CombineInPageOrder(pageSections, keys);
  }

  /** The final loop of `process_pdf`: the sections of each page, taken in ascending page number. */
  method CombineInPageOrder(pageSections: map<int, seq<MedicalSection>>, keys: seq<int>) returns (allSections: seq<MedicalSection>)
    requires forall p :: p in keys ==> p in pageSections
    ensures allSections == Merged(pageSections, keys)
  {
    var order := Sorted(keys);
    assert forall k :: 0 <= k < |order| ==> order[k] in pageSections by {
      forall k | 0 <= k < |order| ensures order[k] in pageSections {
        assert order[k] in order;
      }
    }
    allSections := [];
    for j := 0 to |order|
      invariant allSections + PagesInOrder(pageSections, order[j..]) == PagesInOrder(pageSections, order)
    {
      assert order[j..][1..] == order[j + 1..];
      allSections := allSections + pageSections[order[j]];
    }
  }

  // ---------------------------------------------------------------------------
  // Properties of the merge
  // ---------------------------------------------------------------------------

  /** The sections of pages `lo..hi` of a page dictionary, in ascending page number; an absent page gives none. */
  function PagesInRange(m: map<int, seq<MedicalSection>>, lo: int, hi: int): seq<MedicalSection>
    decreases hi - lo
  {
    if lo > hi then [] else (if lo in m then m[lo] else []) + PagesInRange(m, lo + 1, hi)
  }

  /** A range without pages of the dictionary contributes nothing. */
  lemma {:induction false} EmptyRange(m: map<int, seq<MedicalSection>>, lo: int, hi: int)
    requires forall p :: lo <= p <= hi ==> p !in m
    ensures PagesInRange(m, lo, hi) == []
    decreases hi - lo
  {
    if lo <= hi {
      EmptyRange(m, lo + 1, hi);
    }
  }

  /** A page range splits at any page in it. */
  lemma {:induction false} SplitRange(m: map<int, seq<MedicalSection>>, lo: int, mid: int, hi: int)
    requires lo <= mid <= hi + 1
    ensures PagesInRange(m, lo, hi) == PagesInRange(m, lo, mid - 1) + PagesInRange(m, mid, hi)
    decreases mid - lo
  {
    if lo < mid {
      SplitRange(m, lo + 1, mid, hi);
    }
  }

  /** The tail of a strictly ascending list lists the keys above its head. */
  lemma AscendingTail(m: map<int, seq<MedicalSection>>, order: seq<int>, lo: int, hi: int)
    requires Ascending(order) && order != []
    requires forall k :: 0 <= k < |order| ==> lo <= order[k] <= hi
    requires forall p :: lo <= p && p in m ==> p in order
    ensures Ascending(order[1..])
    ensures forall k :: 0 <= k < |order[1..]| ==> order[0] + 1 <= order[1..][k] <= hi
    ensures forall p :: order[0] + 1 <= p && p in m ==> p in order[1..]
    ensures forall p :: lo <= p < order[0] ==> p !in m
  {
    forall k | 0 <= k < |order[1..]| ensures order[0] + 1 <= order[1..][k] <= hi {
      assert order[1..][k] == order[k + 1];
    }
    forall p | order[0] + 1 <= p && p in m ensures p in order[1..] {
      var k :| 0 <= k < |order| && order[k] == p;
      assert k != 0;
      assert order[1..][k - 1] == p;
    }
    assert forall p :: lo <= p < order[0] ==> p !in m;
  }

  /**
   * Listing the pages of a dictionary in strictly ascending order is
   * enumerating the page range they lie in.
   */
  lemma {:induction false} AscendingIsPagesInRange(m: map<int, seq<MedicalSection>>, order: seq<int>, lo: int, hi: int)
    requires Ascending(order)
    requires forall k :: 0 <= k < |order| ==> lo <= order[k] <= hi && order[k] in m
    requires forall p :: lo <= p && p in m ==> p in order
    ensures PagesInOrder(m, order) == PagesInRange(m, lo, hi)
    decreases |order|
  {
    if order == [] {
      EmptyRange(m, lo, hi);
    } else {
      var f := order[0];
      AscendingTail(m, order, lo, hi);
      assert f in m && lo <= f <= hi;
      SplitRange(m, lo, f, hi);
      EmptyRange(m, lo, f - 1);
      assert PagesInRange(m, f, hi) == m[f] + PagesInRange(m, f + 1, hi);
      assert forall k :: 0 <= k < |order[1..]| ==> order[1..][k] in m;
      AscendingIsPagesInRange(m, order[1..], f + 1, hi);
      assert PagesInOrder(m, order) == m[f] + PagesInOrder(m, order[1..]);
    }
  }

  /** Page numbers of distinct tasks are distinct. */
  predicate DistinctPages(rs: seq<PageResult>) {
    forall i, j :: 0 <= i < j < |rs| ==> rs[i].pageNum != rs[j].pageNum
  }

  /** Task `i` succeeded on page `p`. */
  predicate SucceededOn(rs: seq<PageResult>, i: int, p: int) {
    0 <= i < |rs| && rs[i].pageNum == p && rs[i].sections.Some?
  }

  /**
   * With one task per page, the dictionary holds exactly the pages whose task
   * succeeded, each with that task's sections, whatever the completion order.
   */
  lemma {:induction false} CollectedPages(rs: seq<PageResult>)
    requires DistinctPages(rs)
    ensures forall p :: p in Collected(rs) <==> exists i :: SucceededOn(rs, i, p)
    ensures forall i :: 0 <= i < |rs| && rs[i].sections.Some? ==>
              rs[i].pageNum in Collected(rs) && Collected(rs)[rs[i].pageNum] == rs[i].sections.value
    decreases |rs|
  {
    if rs != [] {
      var init, last := rs[..|rs| - 1], rs[|rs| - 1];
      assert forall i :: 0 <= i < |init| ==> init[i] == rs[i];
      CollectedPages(init);
      assert Collected(rs) == if last.sections.Some? then Collected(init)[last.pageNum := last.sections.value] else Collected(init);
      forall p | p in Collected(rs) ensures exists i :: SucceededOn(rs, i, p) {
        if SucceededOn(rs, |rs| - 1, p) {
        } else {
          assert p in Collected(init);
          var i :| SucceededOn(init, i, p);
          assert SucceededOn(rs, i, p);
        }
      }
      forall p | exists i :: SucceededOn(rs, i, p) ensures p in Collected(rs) {
        var i :| SucceededOn(rs, i, p);
        if i < |init| {
          assert SucceededOn(init, i, p);
        }
      }
    }
  }

  /** The sections of page `p` in the results, when a task succeeded on it. */
  ghost function SectionsOfPage(rs: seq<PageResult>, p: int): seq<MedicalSection>
  {
    if exists i :: SucceededOn(rs, i, p) then
      var i :| SucceededOn(rs, i, p);
      rs[i].sections.value
    else []
  }

  /** The sections of pages `lo..hi` of the results, in ascending page number. */
  ghost function ResultsInRange(rs: seq<PageResult>, lo: int, hi: int): seq<MedicalSection>
    decreases hi - lo
  {
    if lo > hi then [] else SectionsOfPage(rs, lo) + ResultsInRange(rs, lo + 1, hi)
  }

  lemma {:induction false} PagesInRangeOfCollected(rs: seq<PageResult>, lo: int, hi: int)
    requires DistinctPages(rs)
    ensures PagesInRange(Collected(rs), lo, hi) == ResultsInRange(rs, lo, hi)
    decreases hi - lo
  {
    if lo <= hi {
      CollectedPages(rs);
      PagesInRangeOfCollected(rs, lo + 1, hi);
    }
  }

  /**
   * The merged result lists the sections of page `lo`, then of page `lo + 1`,
   * and so on up to `hi`, each in extraction order; a page whose task failed
   * contributes nothing, and the order in which the tasks completed is irrelevant.
   */
  lemma MergedInPageOrder(rs: seq<PageResult>, lo: int, hi: int)
    requires DistinctPages(rs)
    requires forall i :: 0 <= i < |rs| ==> lo <= rs[i].pageNum <= hi
    ensures MergedResults(rs) == ResultsInRange(rs, lo, hi)
  {
    var m, keys := Collected(rs), CollectedKeys(rs);
    CollectedPages(rs);
    CollectedKeysAreKeys(rs);
    SortedAscending(keys);
    var order := Sorted(keys);
    forall k | 0 <= k < |order| ensures lo <= order[k] <= hi && order[k] in m {
      assert order[k] in order;
      var i :| SucceededOn(rs, i, order[k]);
    }
    AscendingIsPagesInRange(m, order, lo, hi);
    PagesInRangeOfCollected(rs, lo, hi);
  }
}
