/** Node 3 of the pipeline (`compare_and_recommend`): one recommendation per
    search group. Groups with fewer than three listings get a fixed notice;
    the others get the language model's comparison of their first three
    listings under the category's criteria. */
module Recommend {
  import opened Wrappers
  import opened Text
  import opened Checklist
  import opened Search

  /** The comparison criteria per shopping category. */
  const CategoryCriteria: map<string, string> := map[
    "여성의류" := "디자인, 계절 적합성, 소재, 사이즈 다양성, 가격 등을 기준으로 비교해줘.",
    "남성의류" := "스타일, 활용도, 소재 품질, 브랜드, 가격 등을 기준으로 비교해줘.",
    "패션잡화" := "디자인, 실용성, 브랜드, 재질, 가격 등을 기준으로 비교해줘.",
    "신발" := "착화감, 용도, 재질, 내구성, 디자인, 가격 등을 기준으로 비교해줘.",
    "화장품/미용" := "성분, 피부타입 적합성, 사용감, 브랜드, 가격 등을 기준으로 비교해줘.",
    "신선식품" := "신선도, 영양 성분, 수확 시기, 원산지, 유통기한 등을 기준으로 비교해줘.",
    "가공식품" := "맛, 유통기한, 성분, 조리 편의성, 가격 등을 기준으로 비교해줘.",
    "건강식품" := "주요 영양소, 건강에 미치는 효과, 복용 편의성, 인증 여부, 가격 등을 비교해줘.",
    "출산/유아동" := "안전성, 피부 친화성, 연령 적합성, 기능성, 가격 등을 기준으로 비교해줘.",
    "반려동물용품" := "안전성, 반려동물 선호도, 기능, 재질, 가격 등을 기준으로 비교해줘.",
    "가전" := "성능, 에너지 효율, 브랜드 신뢰도, 편의 기능, 가격 등을 기준으로 비교해줘.",
    "휴대폰/카메라" := "성능, 브랜드, 배터리 수명, 기능, 가격 등을 기준으로 비교해줘.",
    "PC/주변기기" := "성능, 호환성, 브랜드, 기능성, 가격 등을 기준으로 비교해줘.",
    "가구" := "디자인, 내구성, 크기, 수납 기능, 가격 등을 기준으로 비교해줘.",
    "조명/인테리어" := "밝기, 디자인, 에너지 효율, 설치 편의성, 가격 등을 기준으로 비교해줘.",
    "패브릭/홈데코" := "재질, 세탁 용이성, 디자인, 계절성, 가격 등을 기준으로 비교해줘.",
    "주방용품" := "재질, 내구성, 세척 용이성, 기능성, 가격 등을 기준으로 비교해줘.",
    "생활용품" := "실용성, 내구성, 사용 편의성, 디자인, 가격 등을 기준으로 비교해줘.",
    "스포츠/레저" := "내구성, 사용 목적 적합성, 기능성, 휴대성, 가격 등을 기준으로 비교해줘.",
    "자동차/오토바이" := "성능, 브랜드, 연비, 안전 기능, 유지비용 등을 기준으로 비교해줘.",
    "키덜트/취미" := "희소성, 디자인, 만족도, 수집 가치, 가격 등을 기준으로 비교해줘.",
    "건강의료용품" := "정확성, 안전성, 사용 편의성, 인증 여부, 가격 등을 기준으로 비교해줘.",
    "악기/문구" := "사용감, 내구성, 기능성, 브랜드, 가격 등을 기준으로 비교해줘.",
    "공구" := "내구성, 사용 용이성, 기능, 브랜드, 가격 등을 기준으로 비교해줘.",
    "렌탈관" := "렌탈 기간, 비용, 유지보수 조건, 최신 모델 여부, 브랜드 신뢰도 등을 기준으로 비교해줘.",
    "e쿠폰/티켓/생활편의" := "사용처, 유효기간, 할인율, 사용 조건, 가격 등을 기준으로 비교해줘.",
    "여행" := "여행지 매력도, 일정 구성, 가격, 포함 혜택, 후기 평점 등을 기준으로 비교해줘."
  ]

  /** The criteria used for a category the table does not know. */
  const FallbackCriteria: string := "가격, 성능, 사용자 리뷰, 가성비 등을 기준으로 비교해줘."

  /** The categories the extraction prompt offers the model, in its order. */
  const OfferedCategories: seq<string> := [
    "여성의류", "남성의류", "패션잡화", "신발", "화장품/미용", "신선식품", "가공식품", "건강식품",
    "출산/유아동", "반려동물용품", "가전", "휴대폰/카메라", "PC/주변기기", "가구",
    "조명/인테리어", "패브릭/홈데코", "주방용품", "생활용품", "스포츠/레저", "자동차/오토바이",
    "키덜트/취미", "건강의료용품", "악기/문구", "공구", "렌탈관", "e쿠폰/티켓/생활편의", "여행"
  ]

  /** Fewest listings a comparison needs. */
  const MinListings: nat := 3

  /** One recommendation: the entry's keyword and category and the summary text. */
  datatype Recommendation = Recommendation(keyword: string, category: string, summary: string)

  /** The outcome of one group: its recommendation and the prompts sent to the model for it. */
  datatype Step = Step(recommendation: Recommendation, asked: seq<string>)

  /** The outcome of the whole node: the recommendations and every prompt sent, in order. */
  datatype Outcome = Outcome(recommendations: seq<Recommendation>, asked: seq<string>)

  /** `CATEGORY_PROMPT_MAP.get(category, fallback)`. */
  function Criteria(category: string): string {
    if category in CategoryCriteria then CategoryCriteria[category] else FallbackCriteria
  }

  /** The notice for a keyword with too few listings. */
  function ShortageNotice(keyword: string): string {
    "'" + keyword + "'에 대한 상품이 부족하여 비교할 수 없습니다."
  }

  /** One numbered listing line of the comparison prompt. */
  function ListingLine(n: string, item: Listing): string {
    n + ". " + item.title + " - " + item.lprice + "원\n"
  }

  /** The comparison prompt: the keyword, the first three listings' titles and
      prices, and the criteria. The instruction prose around them is left out. */
  function ComparisonPrompt(keyword: string, items: seq<Listing>, criteria: string): string
    requires |items| >= MinListings
  {
    "'" + keyword + "'\n"
      + ListingLine("1", items[0]) + ListingLine("2", items[1]) + ListingLine("3", items[2])
      + criteria
  }

  /** The body of the loop for one entry and its group. `criteria` is the
      category lookup the prompt quotes; node 3 passes `Criteria`. */
  function RecommendOne(entry: Keyword, group: Group, llm: string -> string, criteria: string -> string): (step: Step)
    ensures step.recommendation.keyword == entry.keyword
    ensures step.recommendation.category == entry.category
    ensures |group.items| < MinListings <==> step.asked == []
    ensures |step.asked| <= 1
  {
    if |group.items| < MinListings then
      Step(Recommendation(entry.keyword, entry.category, ShortageNotice(entry.keyword)), [])
    else
      var prompt := ComparisonPrompt(entry.keyword, group.items, criteria(entry.category));
      Step(Recommendation(entry.keyword, entry.category, Strip(llm(prompt))), [prompt])
  }

  /** The loop body node 3 runs, as a value the loop can be given. */
  function CompareStep(llm: string -> string, criteria: string -> string): (Keyword, Group) -> Step {
    (entry, group) => RecommendOne(entry, group, llm, criteria)
  }

  /** The loop `for idx, group in enumerate(search_results)` from `idx` on,
      for any loop body `step`: it reads `keywords[idx]`, which raises once
      `idx` passes the entries, and otherwise collects each step's
      recommendation and prompts in group order. */
  function RecommendFrom(keywords: seq<Keyword>, groups: seq<Group>, idx: nat,
                         step: (Keyword, Group) -> Step): (r: Result<Outcome>)
    requires idx <= |groups|
    ensures r.Ok? <==> |groups| <= |keywords| || idx == |groups|
    ensures r.Err? ==> r.fault == IndexOutOfRange(if idx < |keywords| then |keywords| else idx, |keywords|)
    ensures r.Ok? ==> |r.value.recommendations| == |groups| - idx
    decreases |groups| - idx
  {
    if idx == |groups| then Ok(Outcome([], []))
    else if idx >= |keywords| then Err(IndexOutOfRange(idx, |keywords|))
    else
      var here := step(keywords[idx], groups[idx]);
      match RecommendFrom(keywords, groups, idx + 1, step)
      case Ok(rest) => Ok(Outcome([here.recommendation] + rest.recommendations, here.asked + rest.asked))
      case Err(f) => Err(f)
  }

  /** Position `i - idx` of the loop's output is the step's recommendation for group `i`. */
  lemma {:induction false} RecommendFromAt(keywords: seq<Keyword>, groups: seq<Group>, idx: nat,
                                           step: (Keyword, Group) -> Step, i: nat)
    requires idx <= i < |groups| <= |keywords|
    ensures RecommendFrom(keywords, groups, idx, step).value.recommendations[i - idx]
         == step(keywords[i], groups[i]).recommendation
    decreases i - idx
  {
    var r := RecommendFrom(keywords, groups, idx, step);
    var rest := RecommendFrom(keywords, groups, idx + 1, step);
    if idx < i {
      RecommendFromAt(keywords, groups, idx + 1, step, i);
      assert r.value.recommendations[i - idx] == rest.value.recommendations[i - (idx + 1)];
    }
  }

  /** Node 3: one recommendation per group, or the `IndexError` of reading
      past the entries when there are more groups than entries. */
  function RecommendAll(keywords: seq<Keyword>, groups: seq<Group>, llm: string -> string): (r: Result<Outcome>)
    ensures r.Ok? <==> |groups| <= |keywords|
    ensures r.Err? ==> r.fault == IndexOutOfRange(|keywords|, |keywords|)
    ensures r.Ok? ==> |r.value.recommendations| == |groups|
  {
    RecommendFrom(keywords, groups, 0, CompareStep(llm, Criteria))
  }

  /** Recommendation `i` of the loop with the node's body is the body's
      result for entry `i` and group `i`. */
  lemma CompareStepAt(keywords: seq<Keyword>, groups: seq<Group>, llm: string -> string, criteria: string -> string, i: nat)
    requires i < |groups| <= |keywords|
    ensures RecommendFrom(keywords, groups, 0, CompareStep(llm, criteria)).value.recommendations[i]
         == RecommendOne(keywords[i], groups[i], llm, criteria).recommendation
  {
    var step := CompareStep(llm, criteria);
    RecommendFromAt(keywords, groups, 0, step, i);
    assert step(keywords[i], groups[i]).recommendation == RecommendOne(keywords[i], groups[i], llm, criteria).recommendation;
  }

  /** Every recommendation carries its entry's keyword and category; a group
      with fewer than three listings gets the shortage notice, any other the
      model's stripped answer to the group's comparison prompt, which quotes
      the criteria of the entry's category. */
  lemma RecommendationContents(keywords: seq<Keyword>, groups: seq<Group>, llm: string -> string, i: nat)
    requires i < |groups| <= |keywords|
    ensures RecommendAll(keywords, groups, llm).value.recommendations[i].keyword == keywords[i].keyword
    ensures RecommendAll(keywords, groups, llm).value.recommendations[i].category == keywords[i].category
    ensures |groups[i].items| < MinListings ==>
      RecommendAll(keywords, groups, llm).value.recommendations[i].summary == ShortageNotice(keywords[i].keyword)
    ensures |groups[i].items| >= MinListings ==>
      RecommendAll(keywords, groups, llm).value.recommendations[i].summary
        == Strip(llm(ComparisonPrompt(keywords[i].keyword, groups[i].items, Criteria(keywords[i].category))))
  {
    CompareStepAt(keywords, groups, llm, Criteria, i);
  }

  // ---------------------------------------------------------------- model calls

  /** How many groups have enough listings to be compared. */
  function Comparable(groups: seq<Group>): nat {
    if |groups| == 0 then 0
    else (if |groups[0].items| >= MinListings then 1 else 0) + Comparable(groups[1..])
  }

  /** The comparison prompts of the groups from `idx` on that have at least
      three listings, in group order: the prompts node 3 should send. */
  function Prompts(keywords: seq<Keyword>, groups: seq<Group>, idx: nat, criteria: string -> string): seq<string>
    requires idx <= |groups| <= |keywords|
    decreases |groups| - idx
  {
    if idx == |groups| then []
    else
      var here := if |groups[idx].items| >= MinListings
        then [ComparisonPrompt(keywords[idx].keyword, groups[idx].items, criteria(keywords[idx].category))]
        else [];
      here + Prompts(keywords, groups, idx + 1, criteria)
  }

  /** The model is asked exactly once per group with at least three listings,
      in group order, and never for the others; each prompt is the comparison
      prompt of such a group. */
  lemma {:induction false} AskedOncePerComparableGroup(keywords: seq<Keyword>, groups: seq<Group>, idx: nat,
                                                       llm: string -> string, criteria: string -> string)
    requires idx <= |groups| <= |keywords|
    ensures RecommendFrom(keywords, groups, idx, CompareStep(llm, criteria)).Ok?
    ensures RecommendFrom(keywords, groups, idx, CompareStep(llm, criteria)).value.asked
         == Prompts(keywords, groups, idx, criteria)
    ensures |RecommendFrom(keywords, groups, idx, CompareStep(llm, criteria)).value.asked| == Comparable(groups[idx..])
    ensures forall p :: p in RecommendFrom(keywords, groups, idx, CompareStep(llm, criteria)).value.asked ==>
      exists i :: idx <= i < |groups| && |groups[i].items| >= MinListings &&
        p == ComparisonPrompt(keywords[i].keyword, groups[i].items, criteria(keywords[i].category))
    decreases |groups| - idx
  {
    if idx < |groups| {
      AskedOncePerComparableGroup(keywords, groups, idx + 1, llm, criteria);
      assert groups[idx..][1..] == groups[idx + 1..];
    }
  }

  /** A group with fewer than three listings gets the same recommendation
      whatever the model would answer: the model is not consulted for it. */
  lemma ShortGroupIgnoresModel(keywords: seq<Keyword>, groups: seq<Group>, llm: string -> string, llm': string -> string,
                               criteria: string -> string, i: nat)
    requires i < |groups| <= |keywords|
    ensures |groups[i].items| < MinListings ==>
      RecommendFrom(keywords, groups, 0, CompareStep(llm, criteria)).value.recommendations[i]
        == RecommendFrom(keywords, groups, 0, CompareStep(llm', criteria)).value.recommendations[i]
  {
    CompareStepAt(keywords, groups, llm, criteria, i);
    CompareStepAt(keywords, groups, llm', criteria, i);
  }

  /** Only the first three listings enter the comparison prompt. */
  lemma PromptUsesFirstThree(keyword: string, items: seq<Listing>, items': seq<Listing>, criteria: string)
    requires |items| >= MinListings && |items'| >= MinListings
    ensures items[..MinListings] == items'[..MinListings] ==>
      ComparisonPrompt(keyword, items, criteria) == ComparisonPrompt(keyword, items', criteria)
  {
    if items[..MinListings] == items'[..MinListings] {
      assert items[0] == items[..MinListings][0] && items'[0] == items'[..MinListings][0];
      assert items[1] == items[..MinListings][1] && items'[1] == items'[..MinListings][1];
      assert items[2] == items[..MinListings][2] && items'[2] == items'[..MinListings][2];
    }
  }

  // ---------------------------------------------------------------- the criteria table

  /** The fallback text is used exactly for categories the table lacks. */
  lemma FallbackOnlyForUnknown(category: string)
    ensures Criteria(category) == FallbackCriteria <==> category !in CategoryCriteria
  {
    assert FallbackCriteria !in CategoryCriteria.Values;
  }

  /** The table covers exactly the categories the extraction prompt offers. */
  lemma TableMatchesOfferedCategories()
    ensures CategoryCriteria.Keys == set c | c in OfferedCategories
  {
  }
}
