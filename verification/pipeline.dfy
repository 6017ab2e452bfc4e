/** The three-node graph (checklist generator, shopping searcher,
    recommender) as plain function composition over the shared state record.
    Each node returns the fields it writes; the graph overwrites those fields
    and carries every other field forward. The language model and the
    shopping search are the parameters `llm` and `search`. */
module Pipeline {
  import opened Wrappers
  import opened Text
  import opened Checklist
  import opened Search
  import opened Recommend

  /** The graph state schema `AppState`. */
  datatype AppState = AppState(
    question: string,
    checklistMessage: string,
    checklist: string,
    keywords: seq<Keyword>,
    searchResults: seq<Group>,
    recommendations: seq<Recommendation>)

  /** The keys of the state. */
  datatype Field = Question | ChecklistMessage | ChecklistField | Keywords | SearchResults | Recommendations

  /** A node's return value: `Some` for each key present in the returned dictionary. */
  datatype Update = Update(
    question: Option<string>,
    checklistMessage: Option<string>,
    checklist: Option<string>,
    keywords: Option<seq<Keyword>>,
    searchResults: Option<seq<Group>>,
    recommendations: Option<seq<Recommendation>>)

  /** What one node produced: its update and the prompts it sent to the model. */
  datatype NodeResult = NodeResult(update: Update, asked: seq<string>)

  /** A finished run: the final state and every prompt sent, in order. */
  datatype Trace = Trace(state: AppState, asked: seq<string>)

  /** The update writes key `f`. */
  predicate Writes(u: Update, f: Field) {
    match f
    case Question => u.question.Some?
    case ChecklistMessage => u.checklistMessage.Some?
    case ChecklistField => u.checklist.Some?
    case Keywords => u.keywords.Some?
    case SearchResults => u.searchResults.Some?
    case Recommendations => u.recommendations.Some?
  }

  /** The two states agree on key `f`. */
  predicate SameAt(s: AppState, t: AppState, f: Field) {
    match f
    case Question => s.question == t.question
    case ChecklistMessage => s.checklistMessage == t.checklistMessage
    case ChecklistField => s.checklist == t.checklist
    case Keywords => s.keywords == t.keywords
    case SearchResults => s.searchResults == t.searchResults
    case Recommendations => s.recommendations == t.recommendations
  }

  /** How the graph folds a node's return value into the state: every
      returned key overwrites, every other key is carried forward. */
  function Apply(s: AppState, u: Update): AppState {
    AppState(
      u.question.GetOr(s.question),
      u.checklistMessage.GetOr(s.checklistMessage),
      u.checklist.GetOr(s.checklist),
      u.keywords.GetOr(s.keywords),
      u.searchResults.GetOr(s.searchResults),
      u.recommendations.GetOr(s.recommendations))
  }

  /** `u` then `v` as one update: `v` wins where both write. */
  function Then(u: Update, v: Update): (w: Update)
    ensures forall f :: Writes(w, f) <==> Writes(u, f) || Writes(v, f)
  {
    Update(
      if v.question.Some? then v.question else u.question,
      if v.checklistMessage.Some? then v.checklistMessage else u.checklistMessage,
      if v.checklist.Some? then v.checklist else u.checklist,
      if v.keywords.Some? then v.keywords else u.keywords,
      if v.searchResults.Some? then v.searchResults else u.searchResults,
      if v.recommendations.Some? then v.recommendations else u.recommendations)
  }

  /** Keys a node does not return keep their value. */
  lemma ApplyKeepsUnwritten(s: AppState, u: Update, f: Field)
    ensures !Writes(u, f) ==> SameAt(Apply(s, u), s, f)
  {
  }

  /** Folding two updates one after the other is folding their combination:
      the order of nodes matters only where they write the same key. */
  lemma ApplyThen(s: AppState, u: Update, v: Update)
    ensures Apply(Apply(s, u), v) == Apply(s, Then(u, v))
  {
  }

  // ---------------------------------------------------------------- the nodes

  /** The extraction prompt: the question quoted at the situation line and
      again at the closing input line. The instruction prose, the category
      list and the examples between them are left out. */
  function ChecklistPrompt(question: string): string {
    "'" + question + "'\n'" + question + "'"
  }

  /** Node 1 (`generate_checklist`): ask the model once, parse its reply, and
      return the question, the message, the checklist string and the entries. */
  function GenerateChecklist(s: AppState, llm: string -> string): (r: NodeResult)
    ensures forall f :: Writes(r.update, f) <==> !(f == SearchResults || f == Recommendations)
    ensures r.asked == [ChecklistPrompt(s.question)]
    ensures Apply(s, r.update).question == s.question
  {
    var prompt := ChecklistPrompt(s.question);
    var parsed := ParseReply(llm(prompt));
    NodeResult(Update(Some(s.question), Some(parsed.message), Some(parsed.checklist), Some(parsed.keywords), None, None),
               [prompt])
  }

  /** Node 2 (`search_naver_items`): one search per entry; returns the entries
      unchanged and the result groups. It never asks the model. */
  function SearchItems(s: AppState, search: Request -> Response): (r: NodeResult)
    ensures forall f :: Writes(r.update, f) <==> f == Keywords || f == SearchResults
    ensures r.asked == []
    ensures Apply(s, r.update).keywords == s.keywords
    ensures |Apply(s, r.update).searchResults| == |s.keywords|
  {
    NodeResult(Update(None, None, None, Some(s.keywords), Some(SearchAll(s.keywords, search)), None), [])
  }

  /** Node 3 (`compare_and_recommend`): returns the groups unchanged and the
      recommendations, or fails with the `IndexError` when the state holds
      more groups than entries. */
  function CompareAndRecommend(s: AppState, llm: string -> string): (r: Result<NodeResult>)
    ensures r.Ok? <==> |s.searchResults| <= |s.keywords|
    ensures r.Ok? ==> forall f :: Writes(r.value.update, f) <==> f == SearchResults || f == Recommendations
    ensures r.Ok? ==> Apply(s, r.value.update).searchResults == s.searchResults
    ensures r.Ok? ==> |Apply(s, r.value.update).recommendations| == |s.searchResults|
  {
    match RecommendAll(s.keywords, s.searchResults, llm)
    case Ok(o) =>
      Ok(NodeResult(Update(None, None, None, None, Some(s.searchResults), Some(o.recommendations)), o.asked))
    case Err(f) => Err(f)
  }

  // ---------------------------------------------------------------- the graph

  /** The graph run from state `s`: node 1, then node 2, then node 3, each
      folded into the state before the next reads it. */
  function RunFrom(s: AppState, llm: string -> string, search: Request -> Response): (r: Result<Trace>)
    ensures r.Ok?
  {
    var n1 := GenerateChecklist(s, llm);
    var s1 := Apply(s, n1.update);
    var n2 := SearchItems(s1, search);
    var s2 := Apply(s1, n2.update);
    match CompareAndRecommend(s2, llm)
    case Ok(n3) => Ok(Trace(Apply(s2, n3.update), n1.asked + n2.asked + n3.asked))
    case Err(f) => Err(f)
  }

  /** The state the graph is invoked with: only the question is set. */
  function Initial(question: string): AppState {
    AppState(question, "", "", [], [], [])
  }

  /** `app.invoke({"question": question})`. */
  function Invoke(question: string, llm: string -> string, search: Request -> Response): Result<Trace> {
    RunFrom(Initial(question), llm, search)
  }

  // ---------------------------------------------------------------- properties of a run

  /** A run folds a single combined update into the starting state, and
      that update writes every key: no value of the starting state survives
      except what node 1 copies from it (the question). */
  lemma RunWritesEveryKey(s: AppState, llm: string -> string, search: Request -> Response)
    ensures var n1 := GenerateChecklist(s, llm);
      var s1 := Apply(s, n1.update);
      var n2 := SearchItems(s1, search);
      var s2 := Apply(s1, n2.update);
      var n3 := CompareAndRecommend(s2, llm).value;
      var u := Then(Then(n1.update, n2.update), n3.update);
      && (forall f :: Writes(u, f))
      && RunFrom(s, llm, search).value.state == Apply(s, u)
  {
    var n1 := GenerateChecklist(s, llm);
    var s1 := Apply(s, n1.update);
    var n2 := SearchItems(s1, search);
    var s2 := Apply(s1, n2.update);
    var n3 := CompareAndRecommend(s2, llm).value;
    ApplyThen(s, n1.update, n2.update);
    ApplyThen(s, Then(n1.update, n2.update), n3.update);
  }

  /** Every key the nodes read was written by an earlier node, so a run
      depends on the starting state only through its question. */
  lemma RunReadsOnlyQuestion(s: AppState, s': AppState, llm: string -> string, search: Request -> Response)
    ensures s.question == s'.question ==> RunFrom(s, llm, search) == RunFrom(s', llm, search)
  {
  }

  /** The final state keeps the question and holds the parse of the model's
      reply to the extraction prompt. */
  lemma RunKeepsParse(s: AppState, llm: string -> string, search: Request -> Response)
    ensures var t := RunFrom(s, llm, search).value.state;
      var parsed := ParseReply(llm(ChecklistPrompt(s.question)));
      && t.question == s.question
      && t.checklistMessage == parsed.message
      && t.checklist == parsed.checklist
      && t.keywords == parsed.keywords
  {
  }

  /** In the final state entries, result groups and recommendations line up
      index by index: group `i` and recommendation `i` both belong to entry `i`. */
  lemma RunAligned(s: AppState, llm: string -> string, search: Request -> Response)
    ensures var t := RunFrom(s, llm, search).value.state;
      && |t.searchResults| == |t.keywords|
      && |t.recommendations| == |t.keywords|
      && (forall i :: 0 <= i < |t.keywords| ==> t.searchResults[i].keyword == t.keywords[i].keyword)
      && (forall i :: 0 <= i < |t.keywords| ==>
            t.recommendations[i].keyword == t.keywords[i].keyword &&
            t.recommendations[i].category == t.keywords[i].category)
  {
    var t := RunFrom(s, llm, search).value.state;
    forall i | 0 <= i < |t.keywords|
      ensures t.recommendations[i].keyword == t.keywords[i].keyword
      ensures t.recommendations[i].category == t.keywords[i].category
    {
      RecommendationContents(t.keywords, t.searchResults, llm, i);
    }
  }

  /** The model is asked the extraction prompt first, and then exactly once
      for each entry whose search returned at least three listings, in entry
      order, with that entry's comparison prompt. */
  lemma RunAsks(s: AppState, llm: string -> string, search: Request -> Response)
    ensures var r := RunFrom(s, llm, search).value;
      && |r.state.searchResults| <= |r.state.keywords|
      && r.asked == [ChecklistPrompt(s.question)] + Prompts(r.state.keywords, r.state.searchResults, 0, Criteria)
      && |r.asked| == 1 + Comparable(r.state.searchResults)
  {
    var s1 := Apply(s, GenerateChecklist(s, llm).update);
    var s2 := Apply(s1, SearchItems(s1, search).update);
    AskedOncePerComparableGroup(s2.keywords, s2.searchResults, 0, llm, Criteria);
    assert s2.searchResults[0..] == s2.searchResults;
  }

  /** An entry whose search request fails gets the shortage notice, without
      asking the model about it. */
  lemma FailedSearchGivesNotice(s: AppState, llm: string -> string, search: Request -> Response, i: nat)
    ensures var t := RunFrom(s, llm, search).value.state;
      i < |t.keywords| && search(RequestFor(t.keywords[i].keyword)).status != 200 ==>
        t.searchResults[i].items == [] &&
        t.recommendations[i].summary == ShortageNotice(t.keywords[i].keyword)
  {
    var t := RunFrom(s, llm, search).value.state;
    if i < |t.keywords| && search(RequestFor(t.keywords[i].keyword)).status != 200 {
      FailedRequestEmptiesGroup(t.keywords, search, i);
      RecommendationContents(t.keywords, t.searchResults, llm, i);
    }
  }

  /** End to end: when the model answers the extraction prompt with prose
      in which the cut token does not occur, the marker, and any tail, the run's entries are the parse of
      the marker body and the message is the stripped prose. */
  lemma RunOnMarkedReply(question: string, llm: string -> string, search: Request -> Response,
                         pre: string, body: string, post: string)
    requires Find(pre, MessageCut).None? && ']' !in body
    requires llm(ChecklistPrompt(question)) == pre + MarkerOpen + (body + "]" + post)
    requires IsTrimmed(pre + MarkerOpen + (body + "]" + post))
    ensures var t := Invoke(question, llm, search).value.state;
      t.keywords == ParseBody(body) && t.checklistMessage == Strip(pre)
  {
    RunKeepsParse(Initial(question), llm, search);
    ParseMarkedReply(pre, body, post);
  }
}
