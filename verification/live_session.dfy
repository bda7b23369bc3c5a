/** The speech screen's transcript engine: the lines shown (newest first,
    as `insertBefore(firstChild)` builds them), the one live line that
    interim results are written to, the `transcript` accumulator sent to
    the backend, the recogniser and speech-synthesis calls, and the status
    bar. Timers are a logical clock in milliseconds; the recogniser's
    `start()` throwing is an input to the events that call it. */
module LiveSession {
  import opened Text
  import opened Results

  /** How long a transcript sentence stays before its timer removes it. */
  const SentenceLifetime: nat := 5000

  const NoSpeech: string := "no-speech"
  const NotSupported: string := "Speech recognition not supported in this browser"
  const MicrophoneDenied: string := "Microphone access denied"
  const RecordingOn: string := "Recording conversation..."
  const RecordingPaused: string := "Recording paused"
  const RecognitionErrorPrefix: string := "Recognition error: "

  datatype Speaker = User | Assistant

  /** A transcript element: `interim` is the CSS class, `visible` its
      `display` style, `expiry` the time its removal timer fires. */
  datatype Line = Line(id: nat, speaker: Speaker, text: string, interim: bool, visible: bool, expiry: Option<nat>)

  /** The status bar's message type: '' , 'error' or 'success'. */
  datatype StatusKind = Plain | Error | Success

  datatype Status = Status(message: string, kind: StatusKind)

  /** Calls made on the recogniser and on `speechSynthesis`, in order. */
  datatype RecognizerCall = Start | Stop
  datatype SynthCall = Cancel | Speak(text: string)

  /** `live` is `liveLineEl`; `listening` whether the recogniser is
      running; `hasRecognizer` and `hasSynthesis` what the browser offers. */
  datatype Session = Session(
    lines: seq<Line>,
    live: Option<nat>,
    transcript: string,
    nextId: nat,
    clock: nat,
    isRecording: bool,
    hasRecognizer: bool,
    listening: bool,
    recognizerCalls: seq<RecognizerCall>,
    hasSynthesis: bool,
    synthCalls: seq<SynthCall>,
    status: Option<Status>)

  function Initial(hasRecognizer: bool, hasSynthesis: bool): (s: Session)
    ensures Valid(s)
  {
    Session([], None, "", 0, 0, false, hasRecognizer, false, [], hasSynthesis, [], None)
  }

  function Ids(lines: seq<Line>): (r: seq<nat>)
    ensures |r| == |lines|
    ensures forall k | 0 <= k < |lines| :: r[k] == lines[k].id
  {
    seq(|lines|, k requires 0 <= k < |lines| => lines[k].id)
  }

  /** The engine's invariant: lines are told apart by id; the live line is
      among the lines, and it is the only interim line; only finished lines carry
      a timer, and no timer is overdue; only a present recogniser can be
      recording. */
  predicate Valid(s: Session) {
    && DistinctIds(s.lines)
    && (forall k | 0 <= k < |s.lines| :: s.lines[k].id < s.nextId)
    && LiveIsOnlyInterim(s.lines, s.live)
    && TimersPending(s.lines, s.clock)
    && (s.isRecording ==> s.hasRecognizer)
  }

  /** No two lines share an id. */
  predicate DistinctIds(lines: seq<Line>) {
    forall i, j | 0 <= i < j < |lines| :: lines[i].id != lines[j].id
  }

  /** The live line is among the lines and is the only interim line; whether
      it is displayed is not part of the invariant. */
  predicate LiveIsOnlyInterim(lines: seq<Line>, live: Option<nat>) {
    && (live.Some? ==> live.value in Ids(lines))
    && (forall k | 0 <= k < |lines| :: lines[k].interim <==> live == Some(lines[k].id))
  }

  /** Interim lines have no timer, and no timer is overdue. */
  predicate TimersPending(lines: seq<Line>, clock: nat) {
    forall k | 0 <= k < |lines| ::
      && (lines[k].interim ==> lines[k].expiry.None?)
      && (lines[k].expiry.Some? ==> lines[k].expiry.value > clock)
  }

  /** At most one line is interim. */
  lemma AtMostOneInterim(s: Session, i: nat, j: nat)
    requires Valid(s) && i < |s.lines| && j < |s.lines|
    requires s.lines[i].interim && s.lines[j].interim
    ensures i == j
  {
    assert s.lines[i].id == s.lines[j].id;
    assert Ids(s.lines)[i] == Ids(s.lines)[j];
  }

  /** The line with id `id` changed by `f`, the others as they were. */
  function SetText(lines: seq<Line>, id: nat, text: string, visible: bool): (r: seq<Line>)
    ensures |r| == |lines|
    ensures forall k | 0 <= k < |lines| :: r[k] == if lines[k].id == id then lines[k].(text := text, visible := visible) else lines[k]
  {
    seq(|lines|, k requires 0 <= k < |lines| => if lines[k].id == id then lines[k].(text := text, visible := visible) else lines[k])
  }

  /** The promoted line: final text, no longer interim, display unchanged
      unless `show` is set. */
  function Finalize(lines: seq<Line>, id: nat, text: string, show: bool): (r: seq<Line>)
    ensures |r| == |lines|
    ensures forall k | 0 <= k < |lines| ::
              r[k] == if lines[k].id == id then lines[k].(text := text, interim := false, visible := lines[k].visible || show) else lines[k]
  {
    seq(|lines|, k requires 0 <= k < |lines| =>
      if lines[k].id == id then lines[k].(text := text, interim := false, visible := lines[k].visible || show) else lines[k])
  }

  /** The lines without the one with id `id`, in order. */
  function Without(lines: seq<Line>, id: nat): (r: seq<Line>)
    ensures |r| <= |lines|
    ensures forall k | 0 <= k < |r| :: r[k].id != id
    decreases |lines|
  {
    if lines == [] then []
    else
      var rest := Without(lines[1..], id);
      if lines[0].id == id then rest else [lines[0]] + rest
  }

  /** The lines whose timers have not fired by `now`, in order. */
  function Unexpired(lines: seq<Line>, now: nat): (r: seq<Line>)
    ensures |r| <= |lines|
    ensures forall k | 0 <= k < |r| :: r[k].expiry.None? || r[k].expiry.value > now
    decreases |lines|
  {
    if lines == [] then []
    else
      var rest := Unexpired(lines[1..], now);
      if lines[0].expiry.Some? && lines[0].expiry.value <= now then rest else [lines[0]] + rest
  }

  /** The removal keeps exactly the lines it should: a line stays iff it is
      in the input and passes the test. */
  lemma WithoutKeeps(lines: seq<Line>, id: nat, l: Line)
    ensures l in Without(lines, id) <==> l in lines && l.id != id
    decreases |lines|
  {
    if lines != [] {
      WithoutKeeps(lines[1..], id, l);
    }
  }

  lemma UnexpiredKeeps(lines: seq<Line>, now: nat, l: Line)
    ensures l in Unexpired(lines, now) <==> l in lines && (l.expiry.None? || l.expiry.value > now)
    decreases |lines|
  {
    if lines != [] {
      UnexpiredKeeps(lines[1..], now, l);
    }
  }

  /** `ensureLiveLine`: the existing live line, or a new empty interim line
      at the bottom of the display. */
  function EnsureLiveLine(s: Session): (r: Session)
    ensures r.live.Some?
    ensures s.live.Some? ==> r == s
    ensures s.live.None? ==> (r.lines == [Line(s.nextId, User, "", true, true, None)] + s.lines
                              && r.live == Some(s.nextId) && r.nextId == s.nextId + 1)
    ensures r.transcript == s.transcript && r.isRecording == s.isRecording
  {
    if s.live.Some? then s
    else s.(lines := [Line(s.nextId, User, "", true, true, None)] + s.lines, live := Some(s.nextId), nextId := s.nextId + 1)
  }

  /** `setLiveTranscript`: the live line shows the trimmed text and is
      hidden when that is empty; every other line stays as it was, and a
      new live line is the first line. */
  function SetLiveTranscript(s: Session, text: string): (r: Session)
    ensures r.live.Some? && (s.live.Some? ==> r.live == s.live)
    ensures r.transcript == s.transcript && r.isRecording == s.isRecording
    ensures forall k | 0 <= k < |r.lines| :: r.lines[k].id == r.live.value ==>
              r.lines[k].text == JsTrim(text) && r.lines[k].visible == (JsTrim(text) != "")
    ensures s.live.Some? ==> |r.lines| == |s.lines|
    ensures s.live.Some? ==> forall k | 0 <= k < |s.lines| && s.lines[k].id != s.live.value :: r.lines[k] == s.lines[k]
    ensures s.live.None? ==> |r.lines| == |s.lines| + 1 && r.lines[0].id == r.live.value
    ensures s.live.None? ==> forall k | 0 <= k < |s.lines| && s.lines[k].id != r.live.value :: r.lines[k + 1] == s.lines[k]
  {
    var e := EnsureLiveLine(s);
    var t := JsTrim(text);
    e.(lines := SetText(e.lines, e.live.value, t, t != ""))
  }

  /** `clearLiveTranscript`: the live line, if any, is removed. */
  function ClearLiveTranscript(s: Session): (r: Session)
    ensures r.live.None?
    ensures s.live.None? ==> r == s
    ensures s.live.Some? ==> r.lines == Without(s.lines, s.live.value)
    ensures r.transcript == s.transcript
  {
    if s.live.Some? then s.(lines := Without(s.lines, s.live.value), live := None) else s
  }

  /** `addTranscriptSentence`: a finished line at the bottom, removed
      `SentenceLifetime` ms later, and the text appended to `transcript`. */
  function AddTranscriptSentence(s: Session, text: string, speaker: Speaker): (r: Session)
    ensures r.lines == [Line(s.nextId, speaker, text, false, true, Some(s.clock + SentenceLifetime))] + s.lines
    ensures r.transcript == s.transcript + text + " "
    ensures r.live == s.live && r.nextId == s.nextId + 1 && r.clock == s.clock
  {
    s.(lines := [Line(s.nextId, speaker, text, false, true, Some(s.clock + SentenceLifetime))] + s.lines,
       nextId := s.nextId + 1,
       transcript := s.transcript + text + " ")
  }

  /** A recogniser result: the text of one result and whether it is final. */
  datatype Fragment = Fragment(text: string, isFinal: bool)

  /** The interim texts of a batch, concatenated. */
  function InterimText(batch: seq<Fragment>): string
    decreases |batch|
  {
    if batch == [] then ""
    else InterimText(batch[..|batch| - 1]) + (if batch[|batch| - 1].isFinal then "" else batch[|batch| - 1].text)
  }

  /** The final texts of a batch, concatenated. */
  function FinalText(batch: seq<Fragment>): string
    decreases |batch|
  {
    if batch == [] then ""
    else FinalText(batch[..|batch| - 1]) + (if batch[|batch| - 1].isFinal then batch[|batch| - 1].text else "")
  }

  /** A single fragment's text goes to exactly one of the two texts: the
      final text when it is final, the interim text otherwise. */
  lemma SplitFragment(f: Fragment)
    ensures f.isFinal ==> InterimText([f]) == "" && FinalText([f]) == f.text
    ensures !f.isFinal ==> InterimText([f]) == f.text && FinalText([f]) == ""
  {
    assert [f][..0] == [];
  }

  /** Both texts are built piece by piece in batch order: the texts of a
      concatenated batch are the concatenated texts of its parts. With
      `SplitFragment`, every fragment's text appears in order in exactly one
      of the two texts. */
  lemma {:induction false} SplitBatchAppend(a: seq<Fragment>, b: seq<Fragment>)
    ensures InterimText(a + b) == InterimText(a) + InterimText(b)
    ensures FinalText(a + b) == FinalText(a) + FinalText(b)
    decreases |b|
  {
    if b == [] {
      assert a + b == a;
    } else {
      var b' := b[..|b| - 1];
      assert (a + b)[..|a + b| - 1] == a + b';
      assert (a + b)[|a + b| - 1] == b[|b| - 1];
      SplitBatchAppend(a, b');
    }
  }

  /** The two texts together are exactly as long as all fragments' texts. */
  lemma {:induction false} SplitBatchLength(batch: seq<Fragment>)
    ensures |InterimText(batch)| + |FinalText(batch)| == Sum(batch)
    decreases |batch|
  {
    if batch != [] {
      SplitBatchLength(batch[..|batch| - 1]);
    }
  }

  function Sum(batch: seq<Fragment>): nat
    decreases |batch|
  {
    if batch == [] then 0 else Sum(batch[..|batch| - 1]) + |batch[|batch| - 1].text|
  }

  /** `onresult` as written. `show` is false for the source's behaviour,
      which leaves a promoted line with the display the interim text gave
      it; the corrected handler passes true. */
  function OnResultWith(s: Session, batch: seq<Fragment>, show: bool): (r: Session)
    ensures r.isRecording == s.isRecording && r.listening == s.listening
    ensures r.recognizerCalls == s.recognizerCalls && r.status == s.status
  {
    var s1 := SetLiveTranscript(s, InterimText(batch));
    var cleaned := JsTrim(FinalText(batch));
    if cleaned == "" then s1
    else
      match s1.live
      case Some(id) =>
        s1.(lines := Finalize(s1.lines, id, cleaned, show), live := None, transcript := s1.transcript + cleaned + " ")
      case None =>
        var s2 := AddTranscriptSentence(s1, cleaned, User);
        s2.(transcript := s2.transcript + cleaned + " ")
  }

  /** `onresult` as the source writes it. */
  function OnResult(s: Session, batch: seq<Fragment>): Session {
    OnResultWith(s, batch, false)
  }

  /** `onresult` with a promoted line always shown. */
  function OnResultIntended(s: Session, batch: seq<Fragment>): Session {
    OnResultWith(s, batch, true)
  }

  /** Every batch fills the live slot before the final text is looked at,
      so a non-empty final is always promoted in place and the
      `addTranscriptSentence` fallback is never taken. */
  lemma LiveSlotFilledBeforeFinal(s: Session, batch: seq<Fragment>)
    ensures SetLiveTranscript(s, InterimText(batch)).live.Some?
  {
  }

  /** A batch with a non-empty trimmed final promotes the live line: it
      takes the final text and loses the interim flag, the slot empties,
      the final goes into `transcript` once, and no other line changes. */
  lemma FinalIsPromoted(s: Session, batch: seq<Fragment>, show: bool)
    requires Valid(s) && JsTrim(FinalText(batch)) != ""
    ensures var s1 := SetLiveTranscript(s, InterimText(batch));
      var r := OnResultWith(s, batch, show);
      var cleaned := JsTrim(FinalText(batch));
      && r.live.None?
      && r.transcript == s.transcript + cleaned + " "
      && |r.lines| == |s1.lines|
      && (forall k | 0 <= k < |r.lines| :: s1.lines[k].id == s1.live.value ==>
            r.lines[k].text == cleaned && !r.lines[k].interim && r.lines[k].expiry.None?)
      && (forall k | 0 <= k < |r.lines| :: s1.lines[k].id != s1.live.value ==> r.lines[k] == s1.lines[k])
  {
    var s1 := SetLiveTranscript(s, InterimText(batch));
    LiveLineHasNoTimer(s, InterimText(batch));
  }

  /** Measured against the session before the batch: promoting a live line
      that already existed leaves every other line as it was. */
  lemma PromotionKeepsOtherLines(s: Session, batch: seq<Fragment>, show: bool)
    requires Valid(s) && s.live.Some? && JsTrim(FinalText(batch)) != ""
    ensures var r := OnResultWith(s, batch, show);
      |r.lines| == |s.lines| && forall k | 0 <= k < |s.lines| && s.lines[k].id != s.live.value :: r.lines[k] == s.lines[k]
  {
    FinalIsPromoted(s, batch, show);
  }

  /** The live line never carries a timer, so neither does the line it is
      promoted to. */
  lemma LiveLineHasNoTimer(s: Session, text: string)
    requires Valid(s)
    ensures var s1 := SetLiveTranscript(s, text);
      forall k | 0 <= k < |s1.lines| :: s1.lines[k].id == s1.live.value ==> s1.lines[k].expiry.None?
  {
    var e := EnsureLiveLine(s);
    if s.live.Some? {
      forall k | 0 <= k < |e.lines| && e.lines[k].id == e.live.value ensures e.lines[k].expiry.None? {
        assert e.lines[k].interim;
      }
    } else {
      forall k | 0 < k < |e.lines| ensures e.lines[k].id < s.nextId {
        assert e.lines[k] == s.lines[k - 1];
        assert Ids(s.lines)[k - 1] == s.lines[k - 1].id;
      }
    }
  }

  /** A batch whose final text trims to nothing leaves `transcript` alone
      and only sets the live line to the trimmed interim text, shown iff it
      is non-empty. */
  lemma InterimOnlyBatch(s: Session, batch: seq<Fragment>, show: bool)
    requires JsTrim(FinalText(batch)) == ""
    ensures var r := OnResultWith(s, batch, show);
      var t := JsTrim(InterimText(batch));
      && r.transcript == s.transcript
      && r.live.Some? && (s.live.Some? ==> r.live == s.live)
      && (forall k | 0 <= k < |r.lines| :: r.lines[k].id == r.live.value ==> r.lines[k].text == t && r.lines[k].visible == (t != ""))
      && (s.live.Some? ==> |r.lines| == |s.lines|)
      && (s.live.Some? ==> forall k | 0 <= k < |s.lines| && s.lines[k].id != s.live.value :: r.lines[k] == s.lines[k])
      && (s.live.None? ==> |r.lines| == |s.lines| + 1)
      && (s.live.None? ==> forall k | 0 <= k < |s.lines| && s.lines[k].id != r.live.value :: r.lines[k + 1] == s.lines[k])
  {
  }

  /** As written, a final result that arrives without interim text is
      promoted into a hidden line: the spoken sentence never shows. */
  lemma PromotedLineHiddenAsWritten(s: Session)
    requires s.live.None?
    ensures var r := OnResult(s, [Fragment("hello", true)]);
      r.lines[0].text == "hello" && !r.lines[0].interim && !r.lines[0].visible
  {
    HelloTrims();
    assert InterimText([Fragment("hello", true)]) == "" by {
      assert [Fragment("hello", true)][..0] == [];
    }
    assert FinalText([Fragment("hello", true)]) == "hello" by {
      assert [Fragment("hello", true)][..0] == [];
    }
  }

  /** With the corrected handler the promoted line is always shown. */
  lemma PromotedLineShownIntended(s: Session, batch: seq<Fragment>)
    requires Valid(s) && JsTrim(FinalText(batch)) != ""
    ensures var s1 := SetLiveTranscript(s, InterimText(batch));
      var r := OnResultIntended(s, batch);
      forall k | 0 <= k < |r.lines| :: s1.lines[k].id == s1.live.value ==> r.lines[k].visible
  {
  }

  lemma HelloTrims()
    ensures JsTrim("hello") == "hello" && JsTrim("") == ""
  {
    TrimKeepsKept("hello", IsJsWhitespace);
  }

  /** `setTimeout` firing: the clock advances by `elapsed` and every line
      whose timer has fired is removed. */
  function Tick(s: Session, elapsed: nat): (r: Session)
    ensures r.clock == s.clock + elapsed
    ensures r.live == s.live && r.transcript == s.transcript && r.isRecording == s.isRecording
  {
    s.(clock := s.clock + elapsed, lines := Unexpired(s.lines, s.clock + elapsed))
  }

  /** A sentence added at time t is displayed until t + 5000 and gone at
      t + 5000; the lines around it are not touched by its timer. */
  lemma SentenceLivesFiveSeconds(s: Session, text: string, speaker: Speaker, elapsed: nat)
    ensures var a := AddTranscriptSentence(s, text, speaker);
      var l := a.lines[0];
      l in Tick(a, elapsed).lines <==> elapsed < SentenceLifetime
    ensures var a := AddTranscriptSentence(s, text, speaker);
      forall l | l in s.lines && (l.expiry.None? || l.expiry.value > s.clock + elapsed) :: l in Tick(a, elapsed).lines
  {
    var a := AddTranscriptSentence(s, text, speaker);
    UnexpiredKeeps(a.lines, s.clock + elapsed, a.lines[0]);
    forall l | l in s.lines && (l.expiry.None? || l.expiry.value > s.clock + elapsed) ensures l in Tick(a, elapsed).lines {
      UnexpiredKeeps(a.lines, s.clock + elapsed, l);
    }
  }

  /** A promoted line has no timer: no tick ever removes it. */
  lemma PromotedLineNeverExpires(s: Session, batch: seq<Fragment>, show: bool, elapsed: nat, k: nat)
    requires Valid(s) && JsTrim(FinalText(batch)) != ""
    requires var s1 := SetLiveTranscript(s, InterimText(batch));
      k < |s1.lines| && s1.lines[k].id == s1.live.value
    ensures var r := OnResultWith(s, batch, show);
      k < |r.lines| && r.lines[k] in Tick(r, elapsed).lines
  {
    PromotedHasNoTimer(s, batch, show);
    TimerlessLineStays(OnResultWith(s, batch, show), elapsed, k);
  }

  /** A line without a timer survives every tick. */
  lemma TimerlessLineStays(s: Session, elapsed: nat, k: nat)
    requires k < |s.lines| && s.lines[k].expiry.None?
    ensures s.lines[k] in Tick(s, elapsed).lines
  {
    UnexpiredKeeps(s.lines, s.clock + elapsed, s.lines[k]);
  }

  lemma PromotedHasNoTimer(s: Session, batch: seq<Fragment>, show: bool)
    requires Valid(s) && JsTrim(FinalText(batch)) != ""
    ensures var s1 := SetLiveTranscript(s, InterimText(batch));
      var r := OnResultWith(s, batch, show);
      |r.lines| == |s1.lines| && forall k | 0 <= k < |r.lines| && s1.lines[k].id == s1.live.value :: r.lines[k].expiry.None?
  {
    LiveLineHasNoTimer(s, InterimText(batch));
  }

  /** `speakPhrase`: with speech synthesis, cancel, speak, and add the
      phrase as an assistant sentence; without it nothing happens. */
  function SpeakPhrase(s: Session, text: string): (r: Session)
    ensures !s.hasSynthesis ==> r == s
    ensures s.hasSynthesis ==> (r.synthCalls == s.synthCalls + [Cancel, Speak(text)]
                                && r.transcript == s.transcript + text + " "
                                && r.lines == [Line(s.nextId, Assistant, text, false, true, Some(s.clock + SentenceLifetime))] + s.lines)
  {
    if s.hasSynthesis then AddTranscriptSentence(s.(synthCalls := s.synthCalls + [Cancel, Speak(text)]), text, Assistant)
    else s
  }

  /** `onerror`: "no-speech" is ignored; any other code is reported. */
  function OnError(s: Session, code: string): (r: Session)
    ensures code == NoSpeech ==> r == s
    ensures code != NoSpeech ==> r == s.(status := Some(Status(RecognitionErrorPrefix + code, Error)))
    ensures r.isRecording == s.isRecording
  {
    if code == NoSpeech then s else s.(status := Some(Status(RecognitionErrorPrefix + code, Error)))
  }

  /** `onend`: the recogniser has stopped; while recording it is started
      again, and a failure to restart is only logged to the console. */
  function OnEnd(s: Session, startThrows: bool): (r: Session)
    ensures r.isRecording == s.isRecording
    ensures r.recognizerCalls == if s.isRecording then s.recognizerCalls + [Start] else s.recognizerCalls
    ensures r.listening <==> s.isRecording && !startThrows
    ensures r.lines == s.lines && r.transcript == s.transcript && r.status == s.status
  {
    if s.isRecording then s.(recognizerCalls := s.recognizerCalls + [Start], listening := !startThrows)
    else s.(listening := false)
  }

  /** `toggleSpeechRecording`. Starting needs a recogniser whose `start()`
      does not throw; stopping stops the recogniser, removes the live line
      and always leaves recording off. */
  function Toggle(s: Session, startThrows: bool): (r: Session)
    ensures !s.isRecording ==> (r.isRecording <==> s.hasRecognizer && !startThrows)
    ensures !s.isRecording && !s.hasRecognizer ==> r == s.(status := Some(Status(NotSupported, Error)))
    ensures !s.isRecording && s.hasRecognizer ==> r.recognizerCalls == s.recognizerCalls + [Start]
    ensures !s.isRecording && s.hasRecognizer && startThrows ==> r.status == Some(Status(MicrophoneDenied, Error))
    ensures !s.isRecording && s.hasRecognizer && !startThrows ==> r.status == Some(Status(RecordingOn, Plain)) && r.listening
    ensures !s.isRecording ==> r.lines == s.lines && r.live == s.live
    ensures s.isRecording ==> !r.isRecording && r.live.None? && !r.listening && r.status == Some(Status(RecordingPaused, Plain))
    ensures s.isRecording ==> r.recognizerCalls == s.recognizerCalls + (if s.hasRecognizer then [Stop] else [])
    ensures s.isRecording ==> r.lines == (if s.live.Some? then Without(s.lines, s.live.value) else s.lines)
    ensures r.transcript == s.transcript
  {
    if !s.isRecording then
      if !s.hasRecognizer then s.(status := Some(Status(NotSupported, Error)))
      else
        var s1 := s.(recognizerCalls := s.recognizerCalls + [Start]);
        if startThrows then s1.(status := Some(Status(MicrophoneDenied, Error)))
        else s1.(isRecording := true, listening := true, status := Some(Status(RecordingOn, Plain)))
    else
      var s1 := if s.hasRecognizer then s.(recognizerCalls := s.recognizerCalls + [Stop], listening := false) else s;
      ClearLiveTranscript(s1).(isRecording := false, listening := false, status := Some(Status(RecordingPaused, Plain)))
  }

  /** Pausing and then receiving `onend` does not restart the recogniser. */
  lemma PauseThenEndStaysStopped(s: Session, throws1: bool, throws2: bool)
    requires s.isRecording
    ensures var r := OnEnd(Toggle(s, throws1), throws2);
      !r.isRecording && !r.listening && r.recognizerCalls == s.recognizerCalls + (if s.hasRecognizer then [Stop] else [])
  {
  }

  /** The events the engine reacts to. */
  datatype Event =
    | Result(batch: seq<Fragment>)
    | End(startThrows: bool)
    | RecognitionError(code: string)
    | ToggleRecording(startThrows: bool)
    | SpeakText(text: string)
    | Elapse(elapsed: nat)

  /** One event, with `onresult` as written. */
  function Step(s: Session, e: Event): Session {
    match e
    case Result(batch) => OnResult(s, batch)
    case End(t) => OnEnd(s, t)
    case RecognitionError(code) => OnError(s, code)
    case ToggleRecording(t) => Toggle(s, t)
    case SpeakText(text) => SpeakPhrase(s, text)
    case Elapse(dt) => Tick(s, dt)
  }

  /** Neither `onend` nor `onerror` ever changes whether recording is on;
      only the toggle does. */
  lemma OnlyToggleSwitchesRecording(s: Session, e: Event)
    requires !e.ToggleRecording?
    ensures Step(s, e).isRecording == s.isRecording
  {
  }

  /** Every event keeps the invariant; in particular there is never more
      than one interim line. */
  lemma StepKeepsValid(s: Session, e: Event)
    requires Valid(s)
    ensures Valid(Step(s, e))
  {
    match e
    case Result(batch) => OnResultKeepsValid(s, batch, false);
    case End(t) =>
    case RecognitionError(code) =>
    case ToggleRecording(t) => ToggleKeepsValid(s, t);
    case SpeakText(text) => AddSentenceKeepsValid(s.(synthCalls := s.synthCalls + [Cancel, Speak(text)]), text, Assistant);
    case Elapse(dt) => TickKeepsValid(s, dt);
  }

  lemma EnsureLiveLineKeepsValid(s: Session)
    requires Valid(s)
    ensures Valid(EnsureLiveLine(s))
  {
    var r := EnsureLiveLine(s);
    if s.live.None? {
      assert Ids(r.lines)[0] == s.nextId;
      forall k | 0 < k < |r.lines| ensures r.lines[k] == s.lines[k - 1] {
      }
    }
  }

  lemma SetLiveKeepsValid(s: Session, text: string)
    requires Valid(s)
    ensures Valid(SetLiveTranscript(s, text))
  {
    var e := EnsureLiveLine(s);
    EnsureLiveLineKeepsValid(s);
    var r := SetLiveTranscript(s, text);
    assert Ids(r.lines) == Ids(e.lines);
  }

  lemma OnResultKeepsValid(s: Session, batch: seq<Fragment>, show: bool)
    requires Valid(s)
    ensures Valid(OnResultWith(s, batch, show))
  {
    var s1 := SetLiveTranscript(s, InterimText(batch));
    SetLiveKeepsValid(s, InterimText(batch));
    var cleaned := JsTrim(FinalText(batch));
    if cleaned != "" {
      PromoteKeepsValid(s1, cleaned, show);
    }
  }

  /** Promoting the live line of a valid session keeps it valid. */
  lemma PromoteKeepsValid(s1: Session, cleaned: string, show: bool)
    requires Valid(s1) && s1.live.Some?
    ensures Valid(s1.(lines := Finalize(s1.lines, s1.live.value, cleaned, show), live := None,
                      transcript := s1.transcript + cleaned + " "))
  {
    var r := Finalize(s1.lines, s1.live.value, cleaned, show);
    assert Ids(r) == Ids(s1.lines);
  }

  lemma AddSentenceKeepsValid(s: Session, text: string, speaker: Speaker)
    requires Valid(s)
    ensures Valid(AddTranscriptSentence(s, text, speaker))
  {
    var r := AddTranscriptSentence(s, text, speaker);
    if s.live.Some? {
      var k :| 0 <= k < |s.lines| && Ids(s.lines)[k] == s.live.value;
      assert Ids(r.lines)[k + 1] == s.live.value;
    }
    forall k | 0 < k < |r.lines| ensures r.lines[k] == s.lines[k - 1] {
    }
  }

  lemma TickKeepsValid(s: Session, elapsed: nat)
    requires Valid(s)
    ensures Valid(Tick(s, elapsed))
  {
    var r := Tick(s, elapsed);
    var now := s.clock + elapsed;
    UnexpiredDistinct(s.lines, now);
    forall k | 0 <= k < |r.lines|
      ensures r.lines[k].id < r.nextId
      ensures r.lines[k].interim <==> r.live == Some(r.lines[k].id)
      ensures r.lines[k].interim ==> r.lines[k].expiry.None?
    {
      UnexpiredKeeps(s.lines, now, r.lines[k]);
      var j :| 0 <= j < |s.lines| && s.lines[j] == r.lines[k];
      assert Ids(s.lines)[j] == s.lines[j].id;
    }
    if s.live.Some? {
      var k :| 0 <= k < |s.lines| && Ids(s.lines)[k] == s.live.value;
      UnexpiredKeeps(s.lines, now, s.lines[k]);
      var j :| 0 <= j < |r.lines| && r.lines[j] == s.lines[k];
      assert Ids(r.lines)[j] == s.live.value;
    }
  }

  /** Dropping lines keeps ids distinct. */
  lemma {:induction false} UnexpiredDistinct(lines: seq<Line>, now: nat)
    requires DistinctIds(lines)
    ensures DistinctIds(Unexpired(lines, now))
    decreases |lines|
  {
    if lines != [] {
      TailDistinct(lines);
      UnexpiredDistinct(lines[1..], now);
      var rest := Unexpired(lines[1..], now);
      forall k | 0 <= k < |rest| ensures rest[k].id != lines[0].id {
        UnexpiredKeeps(lines[1..], now, rest[k]);
        var j :| 0 <= j < |lines[1..]| && lines[1..][j] == rest[k];
        assert lines[j + 1] == rest[k];
      }
      ConsDistinct(lines[0], rest);
    }
  }

  lemma {:induction false} WithoutDistinct(lines: seq<Line>, id: nat)
    requires DistinctIds(lines)
    ensures DistinctIds(Without(lines, id))
    decreases |lines|
  {
    if lines != [] {
      TailDistinct(lines);
      WithoutDistinct(lines[1..], id);
      var rest := Without(lines[1..], id);
      forall k | 0 <= k < |rest| ensures rest[k].id != lines[0].id {
        WithoutKeeps(lines[1..], id, rest[k]);
        var j :| 0 <= j < |lines[1..]| && lines[1..][j] == rest[k];
        assert lines[j + 1] == rest[k];
      }
      ConsDistinct(lines[0], rest);
    }
  }

  lemma TailDistinct(lines: seq<Line>)
    requires DistinctIds(lines) && lines != []
    ensures DistinctIds(lines[1..])
  {
    forall i, j | 0 <= i < j < |lines| - 1 ensures lines[1..][i].id != lines[1..][j].id {
      assert lines[1..][i] == lines[i + 1] && lines[1..][j] == lines[j + 1];
    }
  }

  /** A line whose id is new to distinct lines can go in front. */
  lemma ConsDistinct(l: Line, rest: seq<Line>)
    requires DistinctIds(rest)
    requires forall k | 0 <= k < |rest| :: rest[k].id != l.id
    ensures DistinctIds([l] + rest)
  {
    var r := [l] + rest;
    forall i, j | 0 <= i < j < |r| ensures r[i].id != r[j].id {
      assert r[j] == rest[j - 1];
      if i > 0 {
        assert r[i] == rest[i - 1];
      }
    }
  }

  lemma ToggleKeepsValid(s: Session, startThrows: bool)
    requires Valid(s)
    ensures Valid(Toggle(s, startThrows))
  {
    if s.isRecording && s.live.Some? {
      WithoutDistinct(s.lines, s.live.value);
      var r := Toggle(s, startThrows);
      forall k | 0 <= k < |r.lines| ensures !r.lines[k].interim && r.lines[k].id < r.nextId
        && (r.lines[k].expiry.Some? ==> r.lines[k].expiry.value > r.clock) {
        WithoutKeeps(s.lines, s.live.value, r.lines[k]);
        var j :| 0 <= j < |s.lines| && s.lines[j] == r.lines[k];
      }
    }
  }
}
