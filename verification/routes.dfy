/** The two endpoints of the suggestion backend. `/suggest` truncates the
    heard text, defaults the context, classifies the intent, asks the reply
    generator (falling back on the phrase pack when it fails), ranks the
    replies by their learnt weights and numbers them; `/log_choice` teaches
    the weight map which reply was tapped. */
module Routes {
  import opened Text
  import opened Results
  import opened PySlice
  import Intents
  import PhrasePacks
  import WeightStore
  import ReplyCleaning
  import opened Ranking

  /** `last_text[:300]`: how much of the heard text is looked at. */
  const MaxTextLength: nat := 300

  /** `scored[:6]`: how many suggestions are returned at most. */
  const MaxSuggestions: nat := 6

  const DefaultContext: string := "generic"

  datatype SuggestReq = SuggestReq(sessionId: string, lastText: string, context: Option<string>, mode: Option<string>)

  /** One suggestion; `scoreTenths` is the score `1.0 + 0.3 * w` times ten. */
  datatype SuggestItem = SuggestItem(id: string, text: string, intent: string, scoreTenths: int)

  datatype LogChoiceReq = LogChoiceReq(sessionId: string, suggestionId: string, context: string, intent: string, text: string)

  /** The language model call: the raw text of its reply, or `None` when the
      call raises. */
  type Generator = (string, string) -> Option<string>

  /** `req.context or "generic"`: a missing or empty context becomes
      `generic`; any other context is kept as given. */
  function EffectiveContext(context: Option<string>): (r: string)
    ensures r != ""
    ensures context.Some? && context.value != "" ==> r == context.value
    ensures context.None? || context.value == "" ==> r == DefaultContext
  {
    match context
    case Some(c) => if c == "" then DefaultContext else c
    case None => DefaultContext
  }

  /** `generate_replies(text, context)`, or the first six phrases of the
      intent's pack when it raises: either because the model call failed or
      because fewer than six lines survived cleaning. */
  function CandidateReplies(text: string, context: string, intent: string, gen: Generator): (r: seq<string>)
    requires intent in PhrasePacks.Packs
    ensures |r| == ReplyCleaning.ReplyCount
    ensures gen(text, context).None? ==> r == PhrasePacks.Fallback(intent)
    ensures gen(text, context).Some? ==>
              var lines := ReplyCleaning.CleanedLines(gen(text, context).value, ReplyCleaning.IsWrittenMarker);
              if |lines| < ReplyCleaning.ReplyCount then r == PhrasePacks.Fallback(intent)
              else r == lines[..ReplyCleaning.ReplyCount]
  {
    match gen(text, context)
    case None => PhrasePacks.Fallback(intent)
    case Some(raw) =>
      match ReplyCleaning.GenerateReplies(raw)
      case Success(replies) => replies
      case Failure(_) => PhrasePacks.Fallback(intent)
  }

  /** Pairs each reply with its stored weight, in reply order. */
  function Weigh(replies: seq<string>, weights: WeightStore.Weights, context: string, intent: string): (r: seq<Scored>)
    ensures |r| == |replies|
    ensures Texts(r) == replies
    ensures forall k | 0 <= k < |r| :: r[k].weight == WeightStore.GetWeight(weights, context, intent, replies[k])
  {
    if replies == [] then []
    else [Scored(WeightStore.GetWeight(weights, context, intent, replies[0]), replies[0])]
         + Weigh(replies[1..], weights, context, intent)
  }

  /** The first six ranked pairs, numbered from `"0"` in order, all carrying
      the request's intent. */
  function Number(ranked: seq<Scored>, intent: string): (r: seq<SuggestItem>)
    ensures |r| == (if |ranked| < MaxSuggestions then |ranked| else MaxSuggestions)
    ensures forall k | 0 <= k < |r| ::
              r[k] == SuggestItem(DecimalString(k), ranked[k].text, intent, ScoreTenths(ranked[k].weight))
  {
    var top := Prefix(ranked, MaxSuggestions);
    seq(|top|, k requires 0 <= k < |top| => SuggestItem(DecimalString(k), top[k].text, intent, ScoreTenths(top[k].weight)))
  }

  /** The texts of the returned suggestions, in order. */
  function ItemTexts(items: seq<SuggestItem>): (r: seq<string>)
    ensures |r| == |items|
    ensures forall k | 0 <= k < |items| :: r[k] == items[k].text
  {
    seq(|items|, k requires 0 <= k < |items| => items[k].text)
  }

  /** The replies `/suggest` ranks for the truncated text and the effective
      context. */
  function RequestReplies(text: string, context: string, gen: Generator): (r: seq<string>)
    ensures |r| == ReplyCleaning.ReplyCount
  {
    PhrasePacks.PackKeysAreLabels();
    CandidateReplies(text, context, Intents.ClassifyIntent(text), gen)
  }

  /** Every weighed pair carries the weight of its own text. */
  lemma WeighedPairsCarryTheirWeight(replies: seq<string>, weights: WeightStore.Weights, context: string, intent: string, s: Scored)
    requires s in multiset(Weigh(replies, weights, context, intent))
    ensures s.weight == WeightStore.GetWeight(weights, context, intent, s.text)
  {
    var w := Weigh(replies, weights, context, intent);
    var k :| 0 <= k < |w| && w[k] == s;
    assert Texts(w)[k] == s.text;
  }

  /** Numbering keeps the descending order, now read off the scores. */
  lemma NumberKeepsOrder(ranked: seq<Scored>, intent: string)
    requires SortedDesc(ranked)
    ensures var r := Number(ranked, intent);
      forall k | 0 < k < |r| ::
        r[k - 1].scoreTenths > r[k].scoreTenths
        || (r[k - 1].scoreTenths == r[k].scoreTenths && !StrLess(r[k - 1].text, r[k].text))
  {
    var r := Number(ranked, intent);
    forall k | 0 < k < |r|
      ensures r[k - 1].scoreTenths > r[k].scoreTenths
              || (r[k - 1].scoreTenths == r[k].scoreTenths && !StrLess(r[k - 1].text, r[k].text))
    {
      assert Geq(ranked[k - 1], ranked[k]);
    }
  }

  /** Numbering six pairs or fewer keeps every text. */
  lemma NumberKeepsTexts(ranked: seq<Scored>, intent: string)
    requires |ranked| <= MaxSuggestions
    ensures ItemTexts(Number(ranked, intent)) == Texts(ranked)
  {
  }

  /** Ranks and numbers the replies: by weight and then text, both
      descending, at most six, each with its own weight's score. */
  function Rank(replies: seq<string>, weights: WeightStore.Weights, context: string, intent: string): (r: seq<SuggestItem>)
    ensures |r| == (if |replies| < MaxSuggestions then |replies| else MaxSuggestions)
    ensures forall k | 0 <= k < |r| :: r[k].id == DecimalString(k) && r[k].intent == intent
    ensures forall k | 0 <= k < |r| ::
              r[k].scoreTenths == ScoreTenths(WeightStore.GetWeight(weights, context, intent, r[k].text))
    ensures forall k | 0 < k < |r| ::
              r[k - 1].scoreTenths > r[k].scoreTenths
              || (r[k - 1].scoreTenths == r[k].scoreTenths && !StrLess(r[k - 1].text, r[k].text))
    ensures |replies| <= MaxSuggestions ==> multiset(ItemTexts(r)) == multiset(replies)
  {
    var ranked := SortDesc(Weigh(replies, weights, context, intent));
    SortDescSorted(Weigh(replies, weights, context, intent));
    NumberKeepsOrder(ranked, intent);
    RankKeepsTexts(replies, weights, context, intent);
    RankedScores(replies, weights, context, intent);
    Number(ranked, intent)
  }

  lemma RankKeepsTexts(replies: seq<string>, weights: WeightStore.Weights, context: string, intent: string)
    ensures |replies| <= MaxSuggestions ==>
              multiset(ItemTexts(Number(SortDesc(Weigh(replies, weights, context, intent)), intent))) == multiset(replies)
  {
    var scored := Weigh(replies, weights, context, intent);
    SortTexts(scored);
    if |replies| <= MaxSuggestions {
      NumberKeepsTexts(SortDesc(scored), intent);
    }
  }

  /** After sorting and numbering, every item carries the score of its own
      text's weight: sorting moves whole pairs. */
  lemma RankedScores(replies: seq<string>, weights: WeightStore.Weights, context: string, intent: string)
    ensures var r := Number(SortDesc(Weigh(replies, weights, context, intent)), intent);
      forall k | 0 <= k < |r| ::
        r[k].scoreTenths == ScoreTenths(WeightStore.GetWeight(weights, context, intent, r[k].text))
  {
    var scored := Weigh(replies, weights, context, intent);
    var ranked := SortDesc(scored);
    var r := Number(ranked, intent);
    forall k | 0 <= k < |r|
      ensures ranked[k].weight == WeightStore.GetWeight(weights, context, intent, ranked[k].text)
    {
      assert ranked[k] in multiset(scored);
      WeighedPairsCarryTheirWeight(replies, weights, context, intent, ranked[k]);
    }
  }

  /** `suggest`: six suggestions, numbered in order, each carrying the
      classified intent of the first 300 characters and the score of its own
      weight, ranked by score and then text, both descending, and holding
      exactly the candidate replies. */
  function Suggest(req: SuggestReq, weights: WeightStore.Weights, gen: Generator): (r: seq<SuggestItem>)
    ensures |r| == MaxSuggestions
    ensures forall k | 0 <= k < |r| :: r[k].id == DecimalString(k)
    ensures forall k | 0 <= k < |r| :: r[k].intent == Intents.ClassifyIntent(Prefix(req.lastText, MaxTextLength))
    ensures forall k | 0 <= k < |r| ::
              r[k].scoreTenths == ScoreTenths(WeightStore.GetWeight(weights, EffectiveContext(req.context), r[k].intent, r[k].text))
    ensures forall k | 0 < k < |r| ::
              r[k - 1].scoreTenths > r[k].scoreTenths
              || (r[k - 1].scoreTenths == r[k].scoreTenths && !StrLess(r[k - 1].text, r[k].text))
    ensures multiset(ItemTexts(r))
         == multiset(RequestReplies(Prefix(req.lastText, MaxTextLength), EffectiveContext(req.context), gen))
  {
    SuggestFor(Prefix(req.lastText, MaxTextLength), EffectiveContext(req.context), weights, gen)
  }

  /** The suggestions for an already truncated text and effective context. */
  function SuggestFor(text: string, context: string, weights: WeightStore.Weights, gen: Generator): seq<SuggestItem> {
    Rank(RequestReplies(text, context, gen), weights, context, Intents.ClassifyIntent(text))
  }

  /** Only the first 300 characters of the heard text matter: two requests
      that agree on them get the same suggestions. */
  lemma SuggestSeesOnlyTruncatedText(req: SuggestReq, other: string, weights: WeightStore.Weights, gen: Generator)
    requires Prefix(req.lastText, MaxTextLength) == Prefix(other, MaxTextLength)
    ensures Suggest(req.(lastText := other), weights, gen) == Suggest(req, weights, gen)
  {
  }

  /** A missing context, an empty one and `generic` are the same request. */
  lemma MissingContextIsGeneric(req: SuggestReq, weights: WeightStore.Weights, gen: Generator)
    ensures Suggest(req.(context := None), weights, gen) == Suggest(req.(context := Some(DefaultContext)), weights, gen)
    ensures Suggest(req.(context := Some("")), weights, gen) == Suggest(req.(context := Some(DefaultContext)), weights, gen)
  {
    assert EffectiveContext(None) == EffectiveContext(Some("")) == EffectiveContext(Some(DefaultContext));
  }

  /** When the generator raises, the suggestions are the first six phrases
      of the intent's pack, in ranked order. */
  lemma FailingGeneratorFallsBack(req: SuggestReq, weights: WeightStore.Weights, gen: Generator)
    requires gen(Prefix(req.lastText, MaxTextLength), EffectiveContext(req.context)).None?
    ensures var intent := Intents.ClassifyIntent(Prefix(req.lastText, MaxTextLength));
      && intent in PhrasePacks.Packs
      && multiset(ItemTexts(Suggest(req, weights, gen))) == multiset(PhrasePacks.Fallback(intent))
  {
    PhrasePacks.PackKeysAreLabels();
  }

  /** `log_choice`: the tapped reply's weight in its context and intent rises
      by exactly one and no other triple's weight changes. */
  function LogChoice(weights: WeightStore.Weights, req: LogChoiceReq): (w': WeightStore.Weights)
    ensures WeightStore.GetWeight(w', req.context, req.intent, req.text)
         == WeightStore.GetWeight(weights, req.context, req.intent, req.text) + 1
    ensures forall c, i, t | WeightStore.Key(c, i, t) != WeightStore.Key(req.context, req.intent, req.text) ::
              WeightStore.GetWeight(w', c, i, t) == WeightStore.GetWeight(weights, c, i, t)
  {
    WeightStore.Bump(weights, req.context, req.intent, req.text)
  }

  /** Logging a choice raises that reply's score by 0.3 the next time the
      same reply is ranked for the same context and intent. */
  lemma ChoiceRaisesScore(weights: WeightStore.Weights, req: LogChoiceReq)
    ensures ScoreTenths(WeightStore.GetWeight(LogChoice(weights, req), req.context, req.intent, req.text))
         == ScoreTenths(WeightStore.GetWeight(weights, req.context, req.intent, req.text)) + 3
  {
  }
}
