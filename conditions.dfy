/** The condition extractor: maps findings text to one focused search query
    per medical condition category it mentions. */
module Conditions {
  import opened Text

  /** A row of the category table: its keywords and its canonical query. */
  datatype Category = Category(keywords: seq<string>, query: string)

  /** The 13 categories, in priority order: vision, hearing, spine,
      neuropathy, endocrine, renal, cardiovascular, respiratory, mental,
      neurological, cancer, immune, skin. */
  const ConditionMap: seq<Category> := [
    Category(["visual acuity", "vision loss", "visual field", "retinopathy", "macular",
              "blindness", "optic", "glaucoma", "cataract"],
             "loss of central visual acuity visual field contraction visual efficiency impairment"),
    Category(["hearing loss", "deaf", "audiometric", "cochlear", "tinnitus"],
             "hearing loss audiometric cochlear implant speech recognition"),
    Category(["back pain", "spine", "disc", "herniation", "stenosis", "lumbar",
              "cervical", "nerve root", "radiculopathy"],
             "disorders of the spine nerve root compression lumbar cervical"),
    Category(["neuropathy", "peripheral neuropathy", "decreased sensation", "numbness",
              "tingling", "nerve damage"],
             "peripheral neuropathy disorganization of motor function sensory disturbance"),
    Category(["diabetes", "diabetic", "a1c", "insulin", "endocrine", "thyroid"],
             "endocrine disorders diabetes complications multiple body systems"),
    Category(["ckd", "kidney", "renal", "egfr", "dialysis", "transplant", "creatinine"],
             "chronic kidney disease renal impairment genitourinary"),
    Category(["heart", "cardiac", "coronary", "hypertension", "heart failure", "arrhythmia"],
             "chronic heart failure ischemic heart disease cardiovascular"),
    Category(["copd", "asthma", "pulmonary", "lung", "breathing", "oxygen", "fev1"],
             "chronic pulmonary insufficiency asthma respiratory disorders"),
    Category(["depression", "anxiety", "ptsd", "bipolar", "schizophrenia", "mental",
              "psychiatric", "psychological"],
             "depressive disorders anxiety disorders mental disorders cognitive limitations"),
    Category(["seizure", "epilepsy", "stroke", "multiple sclerosis", "parkinsons",
              "cerebral", "brain injury"],
             "epilepsy cerebral palsy central nervous system vascular accident neurological"),
    Category(["cancer", "tumor", "malignant", "chemotherapy", "radiation", "oncology",
              "carcinoma", "lymphoma", "leukemia"],
             "neoplastic diseases malignant cancer treatment effects"),
    Category(["hiv", "lupus", "autoimmune", "immune", "rheumatoid", "inflammatory bowel"],
             "immune system disorders systemic lupus inflammatory arthritis"),
    Category(["dermatitis", "skin lesions", "burns", "psoriasis", "skin disorder"],
             "skin disorders dermatitis burns ichthyosis")
  ]

  /** A category fires on lower-cased text when one of its keywords occurs
      there as a whole word. */
  predicate Fires(textLower: string, c: Category) {
    exists k :: 0 <= k < |c.keywords| && HasWholeWord(textLower, c.keywords[k])
  }

  /** The queries of the categories in `cats` that fire, in table order. */
  function Fired(textLower: string, cats: seq<Category>): seq<string>
  {
    if cats == [] then []
    else
      var last := cats[|cats| - 1];
      Fired(textLower, cats[..|cats| - 1]) + (if Fires(textLower, last) then [last.query] else [])
  }

  /** What `_extract_condition_queries` returns for `medicalText`. */
  function ConditionQueries(medicalText: string): seq<string>
  {
    Fired(Lower(medicalText), ConditionMap)
  }

  method ExtractConditionQueries(medicalText: string) returns (subQueries: seq<string>)
    ensures subQueries == ConditionQueries(medicalText)
  {
    var textLower := Lower(medicalText);
    subQueries := FiredQueries(textLower, ConditionMap);
  }

  /** The loop over the table, in order. */
  method FiredQueries(textLower: string, cats: seq<Category>) returns (subQueries: seq<string>)
    ensures subQueries == Fired(textLower, cats)
  {
    subQueries := [];
    var i := 0;
    while i < |cats|
      invariant 0 <= i <= |cats|
      invariant subQueries == Fired(textLower, cats[..i])
    {
      var hit := CategoryFires(textLower, cats[i]);
      FiredPrefix(textLower, cats, i);
      if hit {
        subQueries := subQueries + [cats[i].query];
      }
      i := i + 1;
    }
    assert cats[..|cats|] == cats;
  }

  /** `any(re.search(...) for kw in keywords)`: stops at the first keyword
      that occurs. */
  method CategoryFires(textLower: string, c: Category) returns (hit: bool)
    ensures hit == Fires(textLower, c)
  {
    var keywords := c.keywords;
    hit := false;
    var k := 0;
    while k < |keywords| && !hit
      invariant 0 <= k <= |keywords|
      invariant hit <==> exists j :: 0 <= j < k && HasWholeWord(textLower, keywords[j])
    {
      hit := HasWholeWord(textLower, keywords[k]);
      k := k + 1;
    }
  }

  lemma FiredPrefix(textLower: string, cats: seq<Category>, i: nat)
    requires i < |cats|
    ensures Fired(textLower, cats[..i + 1]) ==
            Fired(textLower, cats[..i]) + (if Fires(textLower, cats[i]) then [cats[i].query] else [])
  {
    assert cats[..i + 1][..i] == cats[..i];
  }

  /** A query is produced exactly when a category carrying it fires. */
  lemma {:induction false} FiredMembership(textLower: string, cats: seq<Category>, q: string)
    ensures q in Fired(textLower, cats) <==>
            exists k :: 0 <= k < |cats| && cats[k].query == q && Fires(textLower, cats[k])
  {
    if cats != [] {
      var init := cats[..|cats| - 1];
      FiredMembership(textLower, init, q);
      assert forall k :: 0 <= k < |init| ==> init[k] == cats[k];
    }
  }

  /** The table positions of the categories that fire, in table order. */
  function FiredPositions(textLower: string, cats: seq<Category>): seq<nat>
  {
    if cats == [] then []
    else
      var n := |cats| - 1;
      FiredPositions(textLower, cats[..n]) + (if Fires(textLower, cats[n]) then [n] else [])
  }

  lemma {:induction false} FiredPositionsIncrease(textLower: string, cats: seq<Category>)
    ensures forall i :: 0 <= i < |FiredPositions(textLower, cats)| ==> FiredPositions(textLower, cats)[i] < |cats|
    ensures forall i, j :: 0 <= i < j < |FiredPositions(textLower, cats)| ==>
              FiredPositions(textLower, cats)[i] < FiredPositions(textLower, cats)[j]
  {
    if cats != [] {
      var n := |cats| - 1;
      var idx0 := FiredPositions(textLower, cats[..n]);
      FiredPositionsIncrease(textLower, cats[..n]);
      var idx := FiredPositions(textLower, cats);
      assert idx == idx0 + (if Fires(textLower, cats[n]) then [n] else []);
      forall i | 0 <= i < |idx|
        ensures idx[i] < |cats|
      {
        if i < |idx0| {
          assert idx[i] == idx0[i];
        }
      }
      forall i, j | 0 <= i < j < |idx|
        ensures idx[i] < idx[j]
      {
        assert idx[i] == idx0[i];
        if j < |idx0| {
          assert idx[j] == idx0[j];
        }
      }
    }
  }

  lemma {:induction false} FiredPositionsExact(textLower: string, cats: seq<Category>)
    ensures forall k :: 0 <= k < |cats| ==>
              (Fires(textLower, cats[k]) <==> k in FiredPositions(textLower, cats))
  {
    if cats != [] {
      var n := |cats| - 1;
      var init := cats[..n];
      var idx0 := FiredPositions(textLower, init);
      FiredPositionsExact(textLower, init);
      FiredPositionsIncrease(textLower, init);
      forall i | 0 <= i < |idx0|
        ensures idx0[i] != n
      {
        assert idx0[i] < |init|;
      }
      assert n !in idx0;
      assert FiredPositions(textLower, cats) == idx0 + (if Fires(textLower, cats[n]) then [n] else []);
      forall k | 0 <= k < |cats|
        ensures Fires(textLower, cats[k]) <==> k in FiredPositions(textLower, cats)
      {
        if k < n {
          assert init[k] == cats[k];
        }
      }
    }
  }

  lemma {:induction false} FiredAtPositions(textLower: string, cats: seq<Category>)
    ensures |FiredPositions(textLower, cats)| == |Fired(textLower, cats)|
    ensures forall i :: 0 <= i < |FiredPositions(textLower, cats)| ==>
              FiredPositions(textLower, cats)[i] < |cats| &&
              Fired(textLower, cats)[i] == cats[FiredPositions(textLower, cats)[i]].query
  {
    FiredPositionsIncrease(textLower, cats);
    if cats != [] {
      var n := |cats| - 1;
      var init := cats[..n];
      FiredAtPositions(textLower, init);
      FiredPositionsIncrease(textLower, init);
      var idx0 := FiredPositions(textLower, init);
      forall i | 0 <= i < |idx0|
        ensures init[idx0[i]] == cats[idx0[i]]
      {
      }
    }
  }

  /** Table order: the produced queries are those of a strictly increasing
      run of table positions, and every firing category is among them. */
  lemma FiredInTableOrder(textLower: string, cats: seq<Category>)
    returns (idx: seq<nat>)
    ensures |idx| == |Fired(textLower, cats)|
    ensures forall i :: 0 <= i < |idx| ==>
              idx[i] < |cats| && Fired(textLower, cats)[i] == cats[idx[i]].query
    ensures forall i, j :: 0 <= i < j < |idx| ==> idx[i] < idx[j]
    ensures forall k :: 0 <= k < |cats| ==> (Fires(textLower, cats[k]) <==> k in idx)
  {
    idx := FiredPositions(textLower, cats);
    FiredPositionsIncrease(textLower, cats);
    FiredPositionsExact(textLower, cats);
    FiredAtPositions(textLower, cats);
  }

  /** No query appears twice when the categories carry distinct queries. */
  lemma {:induction false} FiredDistinct(textLower: string, cats: seq<Category>)
    requires forall a, b :: 0 <= a < b < |cats| ==> cats[a].query != cats[b].query
    ensures forall i, j :: 0 <= i < j < |Fired(textLower, cats)| ==>
              Fired(textLower, cats)[i] != Fired(textLower, cats)[j]
  {
    if cats != [] {
      var n := |cats| - 1;
      var init := cats[..n];
      FiredDistinct(textLower, init);
      if Fires(textLower, cats[n]) {
        FiredMembership(textLower, init, cats[n].query);
        assert forall k :: 0 <= k < n ==> init[k] == cats[k];
      }
    }
  }

  /** The 13 canonical queries are pairwise different. */
  lemma ConditionMapQueriesDistinct()
    ensures forall a, b :: 0 <= a < b < |ConditionMap| ==> ConditionMap[a].query != ConditionMap[b].query
  {
  }

  /** Each category contributes its query at most once, and only if one of
      its keywords occurs as a whole word, ignoring case. */
  lemma ConditionQueriesSpec(medicalText: string)
    ensures forall q :: q in ConditionQueries(medicalText) <==>
              exists k :: 0 <= k < |ConditionMap| && ConditionMap[k].query == q
                          && Fires(Lower(medicalText), ConditionMap[k])
    ensures forall i, j :: 0 <= i < j < |ConditionQueries(medicalText)| ==>
              ConditionQueries(medicalText)[i] != ConditionQueries(medicalText)[j]
  {
    forall q {
      FiredMembership(Lower(medicalText), ConditionMap, q);
    }
    ConditionMapQueriesDistinct();
    FiredDistinct(Lower(medicalText), ConditionMap);
  }

  /** Nothing matches, nothing is returned. */
  lemma NoMatchNoQueries(medicalText: string)
    ensures ConditionQueries(medicalText) == [] <==>
            forall k :: 0 <= k < |ConditionMap| ==> !Fires(Lower(medicalText), ConditionMap[k])
  {
    ConditionQueriesSpec(medicalText);
    if ConditionQueries(medicalText) != [] {
      assert ConditionQueries(medicalText)[0] in ConditionQueries(medicalText);
    }
    forall k | 0 <= k < |ConditionMap| && Fires(Lower(medicalText), ConditionMap[k])
      ensures ConditionMap[k].query in ConditionQueries(medicalText)
    {
    }
  }

  /** Matching ignores case: upper-casing the findings changes nothing. */
  lemma ConditionQueriesIgnoreCase(medicalText: string)
    ensures ConditionQueries(Upper(medicalText)) == ConditionQueries(medicalText)
  {
    LowerOfUpper(medicalText);
  }
}
