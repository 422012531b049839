/**
 * The query side of the retrieval pipeline (prognosis_validation/rag/query_rag.py):
 * query enhancement, the section filter and projection of `search`, and
 * `format_context`.
 *
 * The vector store is a function parameter taking the enhanced query, `top_k`
 * and `min_similarity`; embeddings, the engine's singleton set-up and the
 * OpenAI call are not modelled. A similarity is a float in the source and a
 * `real` here, and the `.2%` rendering of a similarity is a parameter.
 */
module QueryRag {
  import opened Wrappers
  import opened Text
  import opened Metadata

  /** One result of the store: `{'content': ..., 'metadata': ..., 'similarity': ...}`, similarity optional. */
  datatype SearchHit = SearchHit(content: string, metadata: MetaMap, similarity: Option<real>)

  // ---------------------------------------------------------------------------
  // _enhance_medical_query
  // ---------------------------------------------------------------------------

  const MedicalTerms: set<string> :=
    {"symptoms", "diagnosis", "treatment", "medication", "history", "examination", "tests", "results"}

  const ContextPrefix: string := "medical context: "
  const ContextSuffix: string := " considering " + "symptoms" + ", diagnosis, and treatment"

  /** Some medical term is a substring of the lower-cased query. */
  predicate MentionsMedicalTerm(query: string) {
    exists term :: term in MedicalTerms && Contains(Lower(query), term)
  }

  /** `_enhance_medical_query`: a query without a medical term is wrapped in medical context. */
  function EnhanceMedicalQuery(query: string): (r: string)
    ensures MentionsMedicalTerm(query) ==> r == query
    ensures !MentionsMedicalTerm(query) ==> r == ContextPrefix + query + ContextSuffix
  {
    if !MentionsMedicalTerm(query) then ContextPrefix + query + ContextSuffix else query
  }

  /** The wrapping mentions "symptoms", whatever it wraps. */
  lemma WrappedMentionsSymptoms(query: string)
    ensures MentionsMedicalTerm(ContextPrefix + query + ContextSuffix)
  {
    var head := ContextPrefix + query + " considering ";
    var s := ContextPrefix + query + ContextSuffix;
    assert s == head + "symptoms" + ", diagnosis, and treatment";
    var k := |head|;
    OccursInMiddle(head, "symptoms", ", diagnosis, and treatment");
    assert Lower("symptoms") == "symptoms";
    LowerKeepsOccurrence(s, "symptoms", k);
    ContainsAt(Lower(s), "symptoms", k);
    assert "symptoms" in MedicalTerms;
  }

  /** Every enhanced query mentions a medical term. */
  lemma EnhancedMentionsTerm(query: string)
    ensures MentionsMedicalTerm(EnhanceMedicalQuery(query))
  {
    if !MentionsMedicalTerm(query) {
      WrappedMentionsSymptoms(query);
    }
  }

  /** Enhancing an enhanced query changes nothing. */
  lemma EnhanceIdempotent(query: string)
    ensures EnhanceMedicalQuery(EnhanceMedicalQuery(query)) == EnhanceMedicalQuery(query)
  {
    EnhancedMentionsTerm(query);
  }

  // ---------------------------------------------------------------------------
  // search: section filter and projection
  // ---------------------------------------------------------------------------

  /** `r['metadata']['section_type']` as the string whose `lower()` is taken, or the exception raised. */
  function SectionTypeOf(hit: SearchHit): Result<string, string> {
    if "section_type" !in hit.metadata then Failure("KeyError: 'section_type'")
    else match hit.metadata["section_type"]
      case MStr(s) => Success(s)
      case _ => Failure("AttributeError: section_type has no attribute 'lower'")
  }

  /** The section type of `hit` is a string equal to `wanted` up to case. */
  predicate InSection(hit: SearchHit, wanted: string) {
    SectionTypeOf(hit).Success? && Lower(SectionTypeOf(hit).value) == Lower(wanted)
  }

  /** `if section_filter:` — `None` and the empty string both mean no filter. */
  predicate FilterActive(sectionFilter: Option<string>) {
    sectionFilter.Some? && sectionFilter.value != ""
  }

  /** Every hit has a string section type. */
  predicate AllTyped(results: seq<SearchHit>) {
    forall i :: 0 <= i < |results| ==> SectionTypeOf(results[i]).Success?
  }

  /** The hits in section `wanted`, in order. */
  function Kept(results: seq<SearchHit>, wanted: string): (kept: seq<SearchHit>)
    ensures |kept| <= |results|
    decreases |results|
  {
    if results == [] then []
    else Kept(results[..|results| - 1], wanted) + (if InSection(results[|results| - 1], wanted) then [results[|results| - 1]] else [])
  }

  /** The list comprehension of `search`: it fails if some hit's section type is missing or not a string. */
  function FilterBySection(results: seq<SearchHit>, sectionFilter: Option<string>): (r: Result<seq<SearchHit>, string>)
    ensures !FilterActive(sectionFilter) ==> r == Success(results)
    ensures FilterActive(sectionFilter) ==> (r.Success? <==> AllTyped(results))
  {
    if !FilterActive(sectionFilter) then Success(results)
    else if !AllTyped(results) then Failure(FirstFailure(results))
    else Success(Kept(results, sectionFilter.value))
  }

  /** The exception of the first hit without a string section type. */
  function FirstFailure(results: seq<SearchHit>): string
    decreases |results|
  {
    if results == [] then ""
    else if SectionTypeOf(results[0]).Failure? then SectionTypeOf(results[0]).error
    else FirstFailure(results[1..])
  }

  /** The filter keeps exactly the hits of the wanted section. */
  lemma {:induction false} KeptExactly(results: seq<SearchHit>, wanted: string)
    ensures forall h :: h in Kept(results, wanted) <==> h in results && InSection(h, wanted)
    decreases |results|
  {
    if results != [] {
      var n := |results| - 1;
      var init := results[..n];
      var last := results[n];
      KeptExactly(init, wanted);
      assert results == init + [last];
      assert Kept(results, wanted) == Kept(init, wanted) + (if InSection(last, wanted) then [last] else []);
      forall h ensures h in Kept(results, wanted) <==> h in results && InSection(h, wanted) {
        assert h in results <==> h in init || h == last;
      }
    }
  }

  /** Appending one hit appends it to the filtered hits exactly when it is of the wanted section. */
  lemma KeptSnoc(init: seq<SearchHit>, last: SearchHit, wanted: string)
    ensures Kept(init + [last], wanted) == Kept(init, wanted) + (if InSection(last, wanted) then [last] else [])
  {
    assert (init + [last])[..|init|] == init;
  }

  /** When every hit is of the wanted section, the filter keeps them all, in order. */
  lemma {:induction false} KeptAll(results: seq<SearchHit>, wanted: string)
    requires forall i :: 0 <= i < |results| ==> InSection(results[i], wanted)
    ensures Kept(results, wanted) == results
    decreases |results|
  {
    if results != [] {
      var n := |results| - 1;
      var init := results[..n];
      forall i | 0 <= i < |init| ensures InSection(init[i], wanted) {
        assert init[i] == results[i];
      }
      KeptAll(init, wanted);
      assert results == init + [results[n]];
      KeptSnoc(init, results[n], wanted);
    }
  }

  /** The filter distributes over concatenation, so it keeps the order and the repetitions of the hits. */
  lemma {:induction false} KeptAppend(a: seq<SearchHit>, b: seq<SearchHit>, wanted: string)
    ensures Kept(a + b, wanted) == Kept(a, wanted) + Kept(b, wanted)
    decreases |b|
  {
    if b == [] {
      assert a + b == a;
    } else {
      var init, last := b[..|b| - 1], b[|b| - 1];
      var tail := if InSection(last, wanted) then [last] else [];
      calc {
        Kept(a + b, wanted);
        { assert a + b == (a + init) + [last]; }
        Kept((a + init) + [last], wanted);
        { KeptSnoc(a + init, last, wanted); }
        Kept(a + init, wanted) + tail;
        { KeptAppend(a, init, wanted); }
        (Kept(a, wanted) + Kept(init, wanted)) + tail;
        Kept(a, wanted) + (Kept(init, wanted) + tail);
        { assert b == init + [last]; KeptSnoc(init, last, wanted); }
        Kept(a, wanted) + Kept(b, wanted);
      }
    }
  }

  /** A hit as `search` returns it: a missing similarity becomes 0.0. */
  function Processed(hit: SearchHit): (p: SearchHit)
    ensures p.content == hit.content && p.metadata == hit.metadata && p.similarity.Some?
    ensures hit.similarity.Some? ==> p == hit
    ensures hit.similarity.None? ==> p.similarity == Some(0.0)
  {
    SearchHit(hit.content, hit.metadata, Some(hit.similarity.GetOr(0.0)))
  }

  /** The projection loop of `search`. */
  method ProcessResults(results: seq<SearchHit>) returns (processed: seq<SearchHit>)
    ensures |processed| == |results|
    ensures forall i :: 0 <= i < |results| ==> processed[i] == Processed(results[i])
  {
    processed := [];
    for i := 0 to |results|
      invariant |processed| == i
      invariant forall k :: 0 <= k < i ==> processed[k] == Processed(results[k])
    {
      processed := processed + [Processed(results[i])];
    }
  }

  /**
   * `search`, given the store's lookup: the enhanced query goes to the store,
   * then the filter, then the projection.
   */
  method Search(query: string, topK: int, minSimilarity: real, sectionFilter: Option<string>,
                getSimilarChunks: (string, int, real) -> seq<SearchHit>)
    returns (r: Result<seq<SearchHit>, string>)
    ensures var filtered := FilterBySection(getSimilarChunks(EnhanceMedicalQuery(query), topK, minSimilarity), sectionFilter);
            && (r.Success? <==> filtered.Success?)
            && (r.Success? ==> |r.value| == |filtered.value|
                               && forall i :: 0 <= i < |r.value| ==> r.value[i] == Processed(filtered.value[i]))
  {
    var enhancedQuery := EnhanceMedicalQuery(query);
    var results := getSimilarChunks(enhancedQuery, topK, minSimilarity);
    var filtered := FilterBySection(results, sectionFilter);
    if filtered.Failure? {
      return Failure(filtered.error);
    }
    var processed := ProcessResults(filtered.value);
    return Success(processed);
  }

  // ---------------------------------------------------------------------------
  // format_context
  // ---------------------------------------------------------------------------

  const NoResultsMessage: string := "No relevant medical documents found."

  /** `result['metadata'].get('section_type', 'general')`: the key of the hit's group. */
  function SectionKey(hit: SearchHit): MetaValue {
    if "section_type" in hit.metadata then hit.metadata["section_type"] else MStr("general")
  }

  /** The group keys in order of first appearance: the insertion order of the `sections` dict. */
  function FirstSeen(results: seq<SearchHit>): (keys: seq<MetaValue>)
    decreases |results|
  {
    if results == [] then []
    else
      var keys := FirstSeen(results[..|results| - 1]);
      var k := SectionKey(results[|results| - 1]);
      if k in keys then keys else keys + [k]
  }

  /** The hits of group `key`, in input order. */
  function GroupOf(results: seq<SearchHit>, key: MetaValue): seq<SearchHit>
    decreases |results|
  {
    if results == [] then []
    else
      var last := results[|results| - 1];
      GroupOf(results[..|results| - 1], key) + (if SectionKey(last) == key then [last] else [])
  }

  /** The header line of a group. */
  function Header(section: string): string {
    "\n=== " + Upper(section) + " ==="
  }

  /** The `i`-th entry of a group, numbered from 1. */
  function Entry(i: nat, item: SearchHit, percent: real -> string): string {
    "\nEntry " + NatToString(i) + " (Relevance: " + percent(item.similarity.GetOr(0.0)) + "):\n" + item.content
  }

  /** The entries of a group, numbered 1, 2, ... in order. */
  function Entries(items: seq<SearchHit>, percent: real -> string): (parts: seq<string>)
    ensures |parts| == |items|
    decreases |items|
  {
    if items == [] then []
    else Entries(items[..|items| - 1], percent) + [Entry(|items|, items[|items| - 1], percent)]
  }

  predicate AllStrings(keys: seq<MetaValue>) {
    forall p :: 0 <= p < |keys| ==> keys[p].MStr?
  }

  /** The parts of the groups `keys`, each a header followed by its entries. */
  function SectionParts(results: seq<SearchHit>, keys: seq<MetaValue>, percent: real -> string): seq<string>
    requires AllStrings(keys)
    decreases |keys|
  {
    if keys == [] then []
    else
      var k := keys[|keys| - 1];
      SectionParts(results, keys[..|keys| - 1], percent) + ([Header(k.s)] + Entries(GroupOf(results, k), percent))
  }

  /** What `format_context` returns; `section.upper()` fails on a section type that is not a string. */
  function FormattedContext(results: seq<SearchHit>, percent: real -> string): Result<string, string> {
    if results == [] then Success(NoResultsMessage)
    else if !AllStrings(FirstSeen(results)) then Failure("AttributeError: section_type has no attribute 'upper'")
    else Success(Join("\n", SectionParts(results, FirstSeen(results), percent)))
  }

  /** `format_context`: group the hits by section, then render each group under its header. */
  method FormatContext(results: seq<SearchHit>, percent: real -> string) returns (r: Result<string, string>)
    ensures r == FormattedContext(results, percent)
    ensures results == [] ==> r == Success(NoResultsMessage)
  {
    if results == [] {
      return Success(NoResultsMessage);
    }
    var sectionOrder, sections := GroupBySection(results);
    var contextParts: seq<string> := [];
    for j := 0 to |sectionOrder|
      invariant AllStrings(sectionOrder[..j])
      invariant contextParts == SectionParts(results, sectionOrder[..j], percent)
    {
      var section := sectionOrder[j];
      if !section.MStr? {
        assert !AllStrings(FirstSeen(results)) by { assert !sectionOrder[j].MStr?; }
        return Failure("AttributeError: section_type has no attribute 'upper'");
      }
      var groupParts := RenderGroup(section.s, sections[section], percent);
      SectionPartsStep(results, sectionOrder, j, percent);
      contextParts := contextParts + groupParts;
    }
    assert sectionOrder[..|sectionOrder|] == sectionOrder;
    return Success(Join("\n", contextParts));
  }

  /**
   * The grouping loop of `format_context`: the `sections` dict, with its
   * insertion order kept alongside as `sectionOrder`.
   */
  method GroupBySection(results: seq<SearchHit>) returns (sectionOrder: seq<MetaValue>, sections: map<MetaValue, seq<SearchHit>>)
    ensures sectionOrder == FirstSeen(results)
    ensures forall k :: k in sections <==> k in sectionOrder
    ensures forall k :: k in sections ==> sections[k] == GroupOf(results, k)
  {
    sectionOrder := [];
    sections := map[];
    for i := 0 to |results|
      invariant sectionOrder == FirstSeen(results[..i])
      invariant forall k :: k in sections <==> k in sectionOrder
      invariant forall k :: k in sections ==> sections[k] == GroupOf(results[..i], k)
    {
      GroupStep(results, i);
      var section := SectionKey(results[i]);
      if section !in sections {
        sections := sections[section := []];
        sectionOrder := sectionOrder + [section];
        NotSeenEmptyGroup(results[..i], section);
      }
      sections := sections[section := sections[section] + [results[i]]];
    }
    assert results[..|results|] == results;
  }

  /** The header of one group and its numbered entries (`enumerate(items, 1)`). */
  method RenderGroup(section: string, items: seq<SearchHit>, percent: real -> string) returns (parts: seq<string>)
    ensures parts == [Header(section)] + Entries(items, percent)
  {
    parts := [Header(section)];
    for i := 0 to |items|
      invariant parts == [Header(section)] + Entries(items[..i], percent)
    {
      EntriesStep(items, i, percent);
      parts := parts + [Entry(i + 1, items[i], percent)];
    }
    assert items[..|items|] == items;
  }

  lemma GroupStep(results: seq<SearchHit>, i: nat)
    requires i < |results|
    ensures FirstSeen(results[..i + 1]) ==
            if SectionKey(results[i]) in FirstSeen(results[..i]) then FirstSeen(results[..i])
            else FirstSeen(results[..i]) + [SectionKey(results[i])]
    ensures forall k :: GroupOf(results[..i + 1], k) ==
              GroupOf(results[..i], k) + (if SectionKey(results[i]) == k then [results[i]] else [])
  {
    assert results[..i + 1][..i] == results[..i];
  }

  lemma EntriesStep(items: seq<SearchHit>, i: nat, percent: real -> string)
    requires i < |items|
    ensures Entries(items[..i + 1], percent) == Entries(items[..i], percent) + [Entry(i + 1, items[i], percent)]
  {
    assert items[..i + 1][..i] == items[..i];
  }

  lemma SectionPartsStep(results: seq<SearchHit>, keys: seq<MetaValue>, j: nat, percent: real -> string)
    requires j < |keys| && AllStrings(keys[..j]) && keys[j].MStr?
    ensures AllStrings(keys[..j + 1])
    ensures SectionParts(results, keys[..j + 1], percent) ==
            SectionParts(results, keys[..j], percent) + ([Header(keys[j].s)] + Entries(GroupOf(results, keys[j]), percent))
  {
    assert keys[..j + 1][..j] == keys[..j];
    var upTo := keys[..j + 1];
    forall p | 0 <= p < |upTo| ensures upTo[p].MStr? {
      if p < j {
        assert upTo[p] == keys[..j][p];
      }
    }
  }

  // ---------------------------------------------------------------------------
  // Properties of the grouping
  // ---------------------------------------------------------------------------

  /** A key that no hit has has an empty group. */
  lemma {:induction false} NotSeenEmptyGroup(results: seq<SearchHit>, key: MetaValue)
    requires key !in FirstSeen(results)
    ensures GroupOf(results, key) == []
    decreases |results|
  {
    if results != [] {
      var init := results[..|results| - 1];
      NotSeenEmptyGroup(init, key);
    }
  }

  /** The groups are keyed by exactly the section keys that occur, each once. */
  lemma {:induction false} FirstSeenKeys(results: seq<SearchHit>)
    ensures forall p, q :: 0 <= p < q < |FirstSeen(results)| ==> FirstSeen(results)[p] != FirstSeen(results)[q]
    ensures forall k :: k in FirstSeen(results) <==> exists i :: 0 <= i < |results| && SectionKey(results[i]) == k
    decreases |results|
  {
    if results != [] {
      var init := results[..|results| - 1];
      FirstSeenKeys(init);
      assert forall i :: 0 <= i < |init| ==> init[i] == results[i];
    }
  }

  /**
   * Groups come in order of first appearance: a hit of an earlier group comes
   * before every hit of a later one.
   */
  ghost predicate Precedes(results: seq<SearchHit>, a: MetaValue, b: MetaValue) {
    exists i :: 0 <= i < |results| && SectionKey(results[i]) == a
                && forall j :: 0 <= j <= i ==> SectionKey(results[j]) != b
  }

  lemma {:induction false} FirstSeenInOrder(results: seq<SearchHit>)
    ensures forall p, q :: 0 <= p < q < |FirstSeen(results)| ==>
              Precedes(results, FirstSeen(results)[p], FirstSeen(results)[q])
    decreases |results|
  {
    if results != [] {
      var n := |results| - 1;
      var init := results[..n];
      var keys := FirstSeen(results);
      var before := FirstSeen(init);
      FirstSeenInOrder(init);
      FirstSeenKeys(init);
      assert forall i :: 0 <= i < n ==> init[i] == results[i];
      forall p, q | 0 <= p < q < |keys|
        ensures Precedes(results, keys[p], keys[q])
      {
        if q < |before| {
          assert keys[p] == before[p] && keys[q] == before[q];
          assert Precedes(init, before[p], before[q]);
          var i :| 0 <= i < n && SectionKey(init[i]) == before[p]
                   && forall j :: 0 <= j <= i ==> SectionKey(init[j]) != before[q];
          assert SectionKey(results[i]) == keys[p];
          forall j | 0 <= j <= i ensures SectionKey(results[j]) != keys[q] {
            assert SectionKey(init[j]) != before[q];
          }
        } else {
          assert keys[p] == before[p] && keys[q] == SectionKey(results[n]) && keys[q] !in before;
          assert before[p] in before;
          var i :| 0 <= i < n && SectionKey(init[i]) == before[p];
          assert SectionKey(results[i]) == keys[p];
          forall j | 0 <= j <= i ensures SectionKey(results[j]) != keys[q] {
            assert SectionKey(init[j]) != keys[q];
          }
        }
      }
    }
  }

  /** The groups `keys`, one after the other. */
  function AllGroups(results: seq<SearchHit>, keys: seq<MetaValue>): seq<SearchHit>
    decreases |keys|
  {
    if keys == [] then [] else AllGroups(results, keys[..|keys| - 1]) + GroupOf(results, keys[|keys| - 1])
  }

  predicate DistinctKeys(keys: seq<MetaValue>) {
    forall p, q :: 0 <= p < q < |keys| ==> keys[p] != keys[q]
  }

  /** Adding one hit adds it to the groups `keys` once if its key is among them, and not at all otherwise. */
  lemma {:induction false} AllGroupsStep(results: seq<SearchHit>, hit: SearchHit, keys: seq<MetaValue>)
    requires DistinctKeys(keys)
    ensures multiset(AllGroups(results + [hit], keys)) ==
            multiset(AllGroups(results, keys)) + (if SectionKey(hit) in keys then multiset{hit} else multiset{})
    decreases |keys|
  {
    if keys != [] {
      var init := keys[..|keys| - 1];
      var k := keys[|keys| - 1];
      assert DistinctKeys(init);
      AllGroupsStep(results, hit, init);
      var more := results + [hit];
      GroupOfSnoc(results, hit, k);
      assert AllGroups(more, keys) == AllGroups(more, init) + GroupOf(more, k);
      assert AllGroups(results, keys) == AllGroups(results, init) + GroupOf(results, k);
      if SectionKey(hit) == k {
        assert SectionKey(hit) !in init;
        assert multiset(GroupOf(more, k)) == multiset(GroupOf(results, k)) + multiset{hit};
      } else {
        assert SectionKey(hit) in keys <==> SectionKey(hit) in init;
        assert GroupOf(more, k) == GroupOf(results, k);
      }
    }
  }

  /** Adding one hit adds it to its own group, at the end, and leaves every other group as it was. */
  lemma GroupOfSnoc(results: seq<SearchHit>, hit: SearchHit, key: MetaValue)
    ensures GroupOf(results + [hit], key) == GroupOf(results, key) + (if SectionKey(hit) == key then [hit] else [])
  {
    assert (results + [hit])[..|results|] == results;
  }

  /** Every hit lands in exactly one group: the groups together are the hits, rearranged. */
  lemma {:induction false} GroupsPartition(results: seq<SearchHit>)
    ensures multiset(AllGroups(results, FirstSeen(results))) == multiset(results)
    decreases |results|
  {
    if results != [] {
      var n := |results| - 1;
      var init := results[..n];
      var hit := results[n];
      var before := FirstSeen(init);
      GroupsPartition(init);
      FirstSeenKeys(init);
      assert DistinctKeys(before);
      AllGroupsStep(init, hit, before);
      assert init + [hit] == results;
      assert multiset(results) == multiset(init) + multiset{hit};
      var k := SectionKey(hit);
      if k !in before {
        NotSeenEmptyGroup(init, k);
        assert (before + [k])[..|before|] == before;
        assert GroupOf(results, k) == [hit];
        assert AllGroups(results, FirstSeen(results)) == AllGroups(results, before) + [hit];
        assert multiset(AllGroups(results, before)) == multiset(init);
      } else {
        assert FirstSeen(results) == before;
        assert multiset(AllGroups(results, before)) == multiset(init) + multiset{hit};
      }
    }
  }

  /** The `i`-th entry of a group is numbered `i + 1`. */
  lemma {:induction false} EntriesAt(items: seq<SearchHit>, percent: real -> string)
    ensures forall i :: 0 <= i < |items| ==> Entries(items, percent)[i] == Entry(i + 1, items[i], percent)
    decreases |items|
  {
    if items != [] {
      var init := items[..|items| - 1];
      EntriesAt(init, percent);
      assert forall i :: 0 <= i < |init| ==> init[i] == items[i];
    }
  }

  /** The rendered context has one header per group and one entry per hit. */
  lemma {:induction false} SectionPartsCount(results: seq<SearchHit>, keys: seq<MetaValue>, percent: real -> string)
    requires AllStrings(keys)
    ensures |SectionParts(results, keys, percent)| == |keys| + |AllGroups(results, keys)|
    decreases |keys|
  {
    if keys != [] {
      var init := keys[..|keys| - 1];
      assert AllStrings(init);
      SectionPartsCount(results, init, percent);
    }
  }

  lemma PartsPerHit(results: seq<SearchHit>, percent: real -> string)
    requires AllStrings(FirstSeen(results))
    ensures |SectionParts(results, FirstSeen(results), percent)| == |FirstSeen(results)| + |results|
  {
    SectionPartsCount(results, FirstSeen(results), percent);
    GroupsPartition(results);
    assert |multiset(AllGroups(results, FirstSeen(results)))| == |multiset(results)|;
  }
}
