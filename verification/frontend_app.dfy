/** The page as a whole: the three screens, the context choice on the home
    screen, the transcript engine and the two button panels on the speech
    screen, and the requests the page sends to the backend. Every DOM event
    is one `Event`; `Step` returns the new page and the requests sent. */
module FrontendApp {
  import opened Results
  import Contexts
  import LiveSession
  import SuggestionClient
  import Routes

  /** `GENERIC_PHRASES`: the fixed buttons of the speech screen. */
  const GenericPhrases: seq<string> := [
    "Yes", "No", "Maybe", "I don't know",
    "Can you repeat that?", "I need help", "Thank you", "Excuse me",
    "I understand", "Please wait", "I'm sorry", "One moment please",
    "I agree", "I disagree", "Could you speak slower?", "I'm ready"
  ]

  datatype Screen = Home | Record | Speech

  /** `contextLabel` is the text of the record and speech screens' context label;
      `shown` the contextual buttons; `generic` the generic buttons. */
  datatype App = App(screen: Screen, choice: Contexts.Choice, contextLabel: string, session: LiveSession.Session,
                     shown: seq<Routes.SuggestItem>, generic: seq<string>, sessionId: string)

  /** A request body sent to the backend. */
  datatype Request = SuggestRequest(suggest: Routes.SuggestReq) | LogRequest(log: Routes.LogChoiceReq)

  datatype Stepped = Stepped(app: App, sent: seq<Request>)

  /** The page as loaded: home screen, nothing chosen, no buttons. */
  function Initial(sessionId: string, hasRecognizer: bool, hasSynthesis: bool): (r: App)
    ensures Valid(r) && r.screen == Home
  {
    Contexts.InitialIsValid();
    App(Home, Contexts.Initial, "", LiveSession.Initial(hasRecognizer, hasSynthesis), [], [], sessionId)
  }

  predicate Valid(a: App) {
    Contexts.Valid(a.choice) && LiveSession.Valid(a.session)
  }

  /** What the user and the browser can do. Home-screen events act only on
      the home screen, and so on; the recogniser and timers act on any
      screen. */
  datatype Event =
    | PickCard(index: nat)
    | TypeContext(value: string)
    | StartPressed
    | RecordPressed(startThrows: bool)
    | BackFromRecord
    | BackFromSpeech
    | Live(event: LiveSession.Event)
    | RefreshPressed(reply: SuggestionClient.Reply)
    | GenericTapped(index: nat)
    | SuggestionTapped(index: nat)

  /** The start button: only enabled once a context is chosen, it opens the
      record screen with the context's display label. Without a selection
      the screen still switches and reading the label throws, so the label
      stays as it was; the choice's invariant rules that case out. */
  function Start(a: App): (r: App)
    ensures a.choice.startEnabled ==> r.screen == Record
    ensures Valid(a) && a.choice.startEnabled ==> r.contextLabel == Contexts.DisplayLabel(Contexts.Selected(a.choice).value)
    ensures !a.choice.startEnabled ==> r == a
  {
    if !a.choice.startEnabled then a
    else match Contexts.Selected(a.choice)
      case Some(ctx) => a.(screen := Record, contextLabel := Contexts.DisplayLabel(ctx))
      case None => a.(screen := Record)
  }

  /** The record button: the speech screen with the generic buttons, and
      recording switched on unless it already is. The 100 ms delay before
      the toggle is not modelled. */
  function OpenSpeech(a: App, startThrows: bool): (r: App)
    ensures r.screen == Speech && r.generic == GenericPhrases
    ensures a.session.isRecording ==> r.session == a.session
    ensures !a.session.isRecording ==> r.session == LiveSession.Toggle(a.session, startThrows)
  {
    var s := if a.session.isRecording then a.session else LiveSession.Toggle(a.session, startThrows);
    a.(screen := Speech, generic := GenericPhrases, session := s)
  }

  /** Leaving the speech screen pauses recording first; that toggle only
      stops, so whether `start()` would throw does not matter. */
  function LeaveSpeech(a: App): (r: App)
    ensures r.screen == Record && !r.session.isRecording
  {
    var s := if a.session.isRecording then LiveSession.Toggle(a.session, false) else a.session;
    a.(screen := Record, session := s)
  }

  /** The refresh button: the buttons and the status bar follow
      `SuggestionClient.Refresh` for the current transcript and context. */
  function RefreshButtons(a: App, reply: SuggestionClient.Reply): (r: Stepped)
    ensures var q := SuggestionClient.SuggestPayload(a.sessionId, a.session.transcript, Contexts.Selected(a.choice));
      r.sent == if q.Some? then [SuggestRequest(q.value)] else []
    ensures r.app.session == a.session.(status := r.app.session.status) && r.app.session.status.Some?
    ensures r.app.choice == a.choice && r.app.screen == a.screen
    ensures var out := SuggestionClient.Refresh(a.shown, a.sessionId, a.session.transcript, Contexts.Selected(a.choice), reply);
      r.app.shown == out.shown && r.app.session.status == Some(out.status)
  {
    var out := SuggestionClient.Refresh(a.shown, a.sessionId, a.session.transcript, Contexts.Selected(a.choice), reply);
    Stepped(a.(shown := out.shown, session := a.session.(status := Some(out.status))),
            if out.sent.Some? then [SuggestRequest(out.sent.value)] else [])
  }

  /** A contextual button: the phrase is spoken and the choice logged. */
  function Tap(a: App, k: nat): (r: Stepped)
    requires k < |a.shown|
    ensures r.app.session == LiveSession.SpeakPhrase(a.session, a.shown[k].text)
    ensures var l := SuggestionClient.LogPayload(a.sessionId, Contexts.Selected(a.choice), a.shown[k]);
      r.sent == if l.Some? then [LogRequest(l.value)] else []
    ensures r.app.shown == a.shown && r.app.choice == a.choice
  {
    var l := SuggestionClient.LogPayload(a.sessionId, Contexts.Selected(a.choice), a.shown[k]);
    Stepped(a.(session := LiveSession.SpeakPhrase(a.session, a.shown[k].text)),
            if l.Some? then [LogRequest(l.value)] else [])
  }

  /** One event. Buttons outside the current screen, and buttons that do
      not exist, do nothing. */
  function Step(a: App, e: Event): (r: Stepped)
    ensures |r.sent| <= 1
    ensures r.sent != [] ==> (e.RefreshPressed? && r.sent[0].SuggestRequest?) || (e.SuggestionTapped? && r.sent[0].LogRequest?)
  {
    match e
    case PickCard(i) =>
      Stepped(if a.screen == Home then a.(choice := Contexts.SelectCard(a.choice, i)) else a, [])
    case TypeContext(v) =>
      Stepped(if a.screen == Home then a.(choice := Contexts.CustomInput(a.choice, v)) else a, [])
    case StartPressed =>
      Stepped(if a.screen == Home then Start(a) else a, [])
    case RecordPressed(t) =>
      Stepped(if a.screen == Record then OpenSpeech(a, t) else a, [])
    case BackFromRecord =>
      Stepped(if a.screen == Record then a.(screen := Home) else a, [])
    case BackFromSpeech =>
      Stepped(if a.screen == Speech then LeaveSpeech(a) else a, [])
    case Live(le) =>
      Stepped(a.(session := LiveSession.Step(a.session, le)), [])
    case RefreshPressed(reply) =>
      if a.screen == Speech then RefreshButtons(a, reply) else Stepped(a, [])
    case GenericTapped(k) =>
      if a.screen == Speech && k < |a.generic| then Stepped(a.(session := LiveSession.SpeakPhrase(a.session, a.generic[k])), [])
      else Stepped(a, [])
    case SuggestionTapped(k) =>
      if a.screen == Speech && k < |a.shown| then Tap(a, k) else Stepped(a, [])
  }

  /** Every event keeps the page's invariant. */
  lemma StepKeepsValid(a: App, e: Event)
    requires Valid(a)
    ensures Valid(Step(a, e).app)
  {
    match e
    case PickCard(i) => Contexts.SelectCardKeepsValid(a.choice, i);
    case TypeContext(v) => Contexts.CustomInputKeepsValid(a.choice, v);
    case StartPressed =>
    case RecordPressed(t) => LiveSession.ToggleKeepsValid(a.session, t);
    case BackFromRecord =>
    case BackFromSpeech => LiveSession.ToggleKeepsValid(a.session, false);
    case Live(le) => LiveSession.StepKeepsValid(a.session, le);
    case RefreshPressed(reply) =>
    case GenericTapped(k) =>
      if a.screen == Speech && k < |a.generic| {
        LiveSession.StepKeepsValid(a.session, LiveSession.SpeakText(a.generic[k]));
      }
    case SuggestionTapped(k) =>
      if a.screen == Speech && k < |a.shown| {
        LiveSession.StepKeepsValid(a.session, LiveSession.SpeakText(a.shown[k].text));
      }
  }

  /** Nothing on the page ever shortens the transcript sent to the backend:
      it only grows, by recognised sentences and spoken phrases. */
  lemma TranscriptOnlyGrows(a: App, e: Event)
    ensures a.session.transcript <= Step(a, e).app.session.transcript
  {
    match e
    case Live(le) => SessionTranscriptGrows(a.session, le);
    case GenericTapped(k) =>
    case SuggestionTapped(k) =>
    case RefreshPressed(reply) =>
    case _ =>
  }

  lemma SessionTranscriptGrows(s: LiveSession.Session, e: LiveSession.Event)
    ensures s.transcript <= LiveSession.Step(s, e).transcript
  {
    match e
    case Result(batch) =>
      var s1 := LiveSession.SetLiveTranscript(s, LiveSession.InterimText(batch));
      assert s1.transcript == s.transcript;
    case _ =>
  }

  /** A choice is counted where the next ranking looks: after a refresh
      the backend answered, tapping a suggestion logs it under the same
      context the refresh was ranked in, with the tapped text and intent. */
  lemma TapLogsUnderRefreshContext(a: App, reply: SuggestionClient.Reply, k: nat)
    requires Valid(a) && a.screen == Speech
    requires var r1 := Step(a, RefreshPressed(reply)); r1.sent != [] && k < |r1.app.shown|
    ensures var r1 := Step(a, RefreshPressed(reply));
      var r2 := Step(r1.app, SuggestionTapped(k));
      && |r2.sent| == 1 && r2.sent[0].LogRequest?
      && r2.sent[0].log.context == Routes.EffectiveContext(r1.sent[0].suggest.context)
      && r2.sent[0].log.text == r1.app.shown[k].text && r2.sent[0].log.intent == r1.app.shown[k].intent
  {
    var r1 := Step(a, RefreshPressed(reply));
    StepKeepsValid(a, RefreshPressed(reply));
    Contexts.SelectedValueIsKnown(a.choice);
  }

  /** A tapped phrase, once spoken, is part of what the next refresh asks
      about. */
  lemma TappedPhraseReachesNextRefresh(a: App, k: nat, reply: SuggestionClient.Reply)
    requires Valid(a) && a.screen == Speech && k < |a.shown| && a.session.hasSynthesis && a.choice.selected.Some?
    ensures var r1 := Step(a, SuggestionTapped(k));
      var r2 := Step(r1.app, RefreshPressed(reply));
      var t := r2.sent[0].suggest.lastText;
      |r2.sent| == 1 && |t| >= |a.shown[k].text| + 1 && t[|t| - |a.shown[k].text| - 1..] == a.shown[k].text + " "
  {
    var r1 := Step(a, SuggestionTapped(k));
    StepKeepsValid(a, SuggestionTapped(k));
    Contexts.SelectedValueIsKnown(r1.app.choice);
  }

  /** Leaving the speech screen always pauses recording and keeps the
      transcript. */
  lemma LeavingSpeechPauses(a: App)
    requires Valid(a) && a.screen == Speech
    ensures var r := Step(a, BackFromSpeech).app;
      r.screen == Record && !r.session.isRecording && r.session.transcript == a.session.transcript
  {
  }

  /** The start button opens the record screen exactly when it is enabled,
      which is exactly when a context is chosen. */
  lemma StartNeedsAContext(a: App)
    requires Valid(a) && a.screen == Home
    ensures Step(a, StartPressed).app.screen == Record <==> a.choice.startEnabled
    ensures Step(a, StartPressed).app.screen == Record ==> a.choice.selected.Some?
  {
  }
}
