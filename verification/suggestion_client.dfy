/** The speech screen's side of the backend: the `/suggest` payload, the
    answer turned into the contextual buttons, the refresh button's status
    messages, and the `/log_choice` payload sent when a button is tapped.
    The network is a parameter: the reply to a request is an input. */
module SuggestionClient {
  import opened Results
  import Routes
  import Contexts
  import WeightStore
  import LiveSession

  /** The mode the speech screen always asks for. */
  const Mode: string := "contextual"

  const RefreshedMessage: string := "Suggestions refreshed"
  const RefreshFailedMessage: string := "Failed to fetch suggestions"

  /** What `res.json()` yields: a body that is not JSON, or an object whose
      `suggestions` field may be missing or null. */
  datatype Body = Malformed | Json(suggestions: Option<seq<Routes.SuggestItem>>)

  /** What `fetch` yields: a rejected promise, or a response with its `ok`
      flag and body. */
  datatype Reply = NetworkFailure | Reply(ok: bool, body: Body)

  /** The `/suggest` body built by `fetchSuggestions`. Reading `.value` of
      a missing selection throws before anything is sent. */
  function SuggestPayload(sessionId: string, transcript: string, selected: Option<Contexts.Context>): (r: Option<Routes.SuggestReq>)
    ensures r.Some? <==> selected.Some?
    ensures r.Some? ==> r.value.sessionId == sessionId && r.value.lastText == transcript
    ensures r.Some? ==> r.value.context == Some(selected.value.value) && r.value.mode == Some(Mode)
  {
    match selected
    case None => None
    case Some(ctx) => Some(Routes.SuggestReq(sessionId, transcript, Some(ctx.value), Some(Mode)))
  }

  /** The rest of `fetchSuggestions`: a failed fetch, a response that is
      not ok and a body that is not JSON all throw; a missing or null
      `suggestions` field reads as no suggestions. */
  function ReadSuggestions(reply: Reply): (r: Result<seq<Routes.SuggestItem>, string>)
    ensures r.Success? <==> reply.Reply? && reply.ok && reply.body.Json?
    ensures r.Success? && reply.body.suggestions.None? ==> r.value == []
    ensures r.Success? && reply.body.suggestions.Some? ==> r.value == reply.body.suggestions.value
  {
    match reply
    case NetworkFailure => Failure("fetch rejected")
    case Reply(ok, body) =>
      if !ok then Failure("Suggest failed")
      else match body
        case Malformed => Failure("invalid JSON")
        case Json(items) => Success(items.GetOr([]))
  }

  /** The buttons shown after a refresh, the status message it leaves, and
      the request it sent, if any. */
  datatype Refreshed = Refreshed(shown: seq<Routes.SuggestItem>, status: LiveSession.Status, sent: Option<Routes.SuggestReq>)

  /** The refresh button's handler: on success the buttons are replaced by
      the answer; on any failure the old buttons stay and an error status
      is shown. The reply is ignored when no request could be built. */
  function Refresh(shown: seq<Routes.SuggestItem>, sessionId: string, transcript: string,
                   selected: Option<Contexts.Context>, reply: Reply): (r: Refreshed)
    ensures r.sent == SuggestPayload(sessionId, transcript, selected)
    ensures r.status.kind == LiveSession.Success <==> selected.Some? && ReadSuggestions(reply).Success?
    ensures r.status.kind == LiveSession.Success ==> r.shown == ReadSuggestions(reply).value
    ensures r.status.kind != LiveSession.Success ==> r.shown == shown && r.status == LiveSession.Status(RefreshFailedMessage, LiveSession.Error)
  {
    var payload := SuggestPayload(sessionId, transcript, selected);
    if payload.None? then Refreshed(shown, LiveSession.Status(RefreshFailedMessage, LiveSession.Error), None)
    else match ReadSuggestions(reply)
      case Success(items) => Refreshed(items, LiveSession.Status(RefreshedMessage, LiveSession.Success), payload)
      case Failure(_) => Refreshed(shown, LiveSession.Status(RefreshFailedMessage, LiveSession.Error), payload)
  }

  /** The `/log_choice` body `logChoice` builds for a tapped suggestion; a
      missing selection throws inside the `try` and nothing is sent. */
  function LogPayload(sessionId: string, selected: Option<Contexts.Context>, item: Routes.SuggestItem): (r: Option<Routes.LogChoiceReq>)
    ensures r.Some? <==> selected.Some?
    ensures r.Some? ==> r.value.sessionId == sessionId && r.value.context == selected.value.value
    ensures r.Some? ==> r.value.suggestionId == item.id && r.value.intent == item.intent && r.value.text == item.text
  {
    match selected
    case None => None
    case Some(ctx) => Some(Routes.LogChoiceReq(sessionId, item.id, ctx.value, item.intent, item.text))
  }

  /** The backend only ever sees a context's value: the label and the
      text typed for it change neither payload. */
  lemma PayloadsSeeOnlyTheValue(sessionId: string, transcript: string, a: Contexts.Context, b: Contexts.Context, item: Routes.SuggestItem)
    requires a.value == b.value
    ensures SuggestPayload(sessionId, transcript, Some(a)) == SuggestPayload(sessionId, transcript, Some(b))
    ensures LogPayload(sessionId, Some(a), item) == LogPayload(sessionId, Some(b), item)
  {
  }

  /** When the backend answers a refresh, the buttons are exactly the
      suggestions `/suggest` computed for the payload, in its order. */
  lemma RefreshShowsBackendAnswer(shown: seq<Routes.SuggestItem>, sessionId: string, transcript: string,
                                  ctx: Contexts.Context, weights: WeightStore.Weights, gen: Routes.Generator)
    ensures var req := SuggestPayload(sessionId, transcript, Some(ctx)).value;
      var r := Refresh(shown, sessionId, transcript, Some(ctx), Reply(true, Json(Some(Routes.Suggest(req, weights, gen)))));
      r.shown == Routes.Suggest(req, weights, gen) && r.status == LiveSession.Status(RefreshedMessage, LiveSession.Success)
  {
  }

  /** A refresh that fails for any reason leaves the buttons as they were. */
  lemma FailedRefreshKeepsButtons(shown: seq<Routes.SuggestItem>, sessionId: string, transcript: string,
                                  selected: Option<Contexts.Context>, reply: Reply)
    requires !(reply.Reply? && reply.ok && reply.body.Json?)
    ensures Refresh(shown, sessionId, transcript, selected, reply).shown == shown
  {
  }

  /** Client and backend agree on where a choice is counted: logging a
      tapped suggestion raises by one the weight `/suggest` reads for that
      reply, intent and context the next time it ranks for the same
      selection, and no other weight. */
  lemma TapCountsWhereSuggestLooks(weights: WeightStore.Weights, sessionId: string, transcript: string,
                                   ctx: Contexts.Context, item: Routes.SuggestItem)
    requires ctx.value != ""
    ensures var log := LogPayload(sessionId, Some(ctx), item).value;
      var req := SuggestPayload(sessionId, transcript, Some(ctx)).value;
      var key := Routes.EffectiveContext(req.context);
      && WeightStore.GetWeight(Routes.LogChoice(weights, log), key, item.intent, item.text)
         == WeightStore.GetWeight(weights, key, item.intent, item.text) + 1
      && forall c, i, t | WeightStore.Key(c, i, t) != WeightStore.Key(key, item.intent, item.text) ::
           WeightStore.GetWeight(Routes.LogChoice(weights, log), c, i, t) == WeightStore.GetWeight(weights, c, i, t)
  {
  }
}
