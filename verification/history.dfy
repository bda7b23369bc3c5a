/** The per-session conversation history of the backend: for each session
    its latest context and a bounded log of exchanges (what was heard and
    which reply was chosen), and the prompt text built from the latest
    exchanges. Timestamps and the JSON file are outside the model. */
module History {
  import opened Text
  import opened Results
  import opened PySlice

  /** `MAX_HISTORY_PER_SESSION`: how many exchanges a session keeps. */
  const MaxHistoryPerSession: nat := 20

  /** `MAX_CONTEXT_FOR_LLM`: how many exchanges the prompt shows by default. */
  const MaxContextForLlm: nat := 10

  const HeardTag: string := "[Heard]: "
  const RepliedTag: string := "[User replied]: "

  datatype Exchange = Exchange(transcript: string, chosenReply: Option<string>)

  datatype Session = Session(context: string, exchanges: seq<Exchange>)

  /** The history dict: `order` is its key order (insertion order, which
      `get_common_replies` iterates in) and `sessions` its entries. */
  datatype History = History(order: seq<string>, sessions: map<string, Session>)

  /** The key order lists every session exactly once. */
  predicate Valid(h: History) {
    && Distinct(h.order)
    && (forall sid | sid in h.sessions :: sid in h.order)
    && (forall sid | sid in h.order :: sid in h.sessions)
  }

  const Empty: History := History([], map[])

  /** A session's exchanges, none when it does not exist. */
  function ExchangesOf(h: History, sid: string): seq<Exchange> {
    if sid in h.sessions then h.sessions[sid].exchanges else []
  }

  /** `add_exchange`: appends the exchange, keeps only the last 20, and sets
      the session's context; a new session is created and goes last in the
      key order; no other session changes. */
  function AddExchange(h: History, sid: string, context: string, transcript: string, chosenReply: Option<string>): (h': History)
    ensures sid in h'.sessions && h'.sessions[sid].context == context
    ensures forall s | s != sid :: (s in h'.sessions <==> s in h.sessions)
    ensures forall s | s != sid && s in h.sessions :: h'.sessions[s] == h.sessions[s]
    ensures h'.order == if sid in h.sessions then h.order else h.order + [sid]
  {
    var session := Session(context, LastN(ExchangesOf(h, sid) + [Exchange(transcript, chosenReply)], MaxHistoryPerSession));
    if sid in h.sessions then History(h.order, h.sessions[sid := session])
    else History(h.order + [sid], h.sessions[sid := session])
  }

  /** The session keeps the latest `MAX_HISTORY_PER_SESSION` exchanges of
      its log with the new one appended: all of them while there are few
      enough, and the new exchange is the latest. */
  lemma AddExchangeKeepsLatest(h: History, sid: string, context: string, transcript: string, chosenReply: Option<string>)
    ensures var prior := ExchangesOf(h, sid) + [Exchange(transcript, chosenReply)];
      var exs := AddExchange(h, sid, context, transcript, chosenReply).sessions[sid].exchanges;
      && |exs| == (if |prior| > MaxHistoryPerSession then MaxHistoryPerSession else |prior|)
      && exs == prior[|prior| - |exs|..]
  {
    var prior := ExchangesOf(h, sid) + [Exchange(transcript, chosenReply)];
    assert AddExchange(h, sid, context, transcript, chosenReply).sessions[sid].exchanges
        == LastN(prior, MaxHistoryPerSession);
    LastNIsSuffix(prior, MaxHistoryPerSession);
  }

  /** The new exchange is the session's latest. */
  lemma AddExchangeEndsWithNew(h: History, sid: string, context: string, transcript: string, chosenReply: Option<string>)
    ensures var exs := AddExchange(h, sid, context, transcript, chosenReply).sessions[sid].exchanges;
      exs != [] && exs[|exs| - 1] == Exchange(transcript, chosenReply)
  {
    var prior := ExchangesOf(h, sid) + [Exchange(transcript, chosenReply)];
    assert AddExchange(h, sid, context, transcript, chosenReply).sessions[sid].exchanges
        == LastN(prior, MaxHistoryPerSession);
    LastNEndsWith(ExchangesOf(h, sid), Exchange(transcript, chosenReply), MaxHistoryPerSession);
  }

  /** Adding an exchange keeps every session listed once in the key order. */
  lemma AddExchangeKeepsValid(h: History, sid: string, context: string, transcript: string, chosenReply: Option<string>)
    requires Valid(h)
    ensures Valid(AddExchange(h, sid, context, transcript, chosenReply))
  {
    var h' := AddExchange(h, sid, context, transcript, chosenReply);
    if sid !in h.sessions {
      assert forall i | 0 <= i < |h.order| :: h'.order[i] == h.order[i];
      assert h'.order[|h.order|] == sid;
    }
  }

  /** `update_last_exchange_with_choice`: records the chosen reply on the
      session's latest exchange; nothing happens for an unknown session or
      one without exchanges. */
  function UpdateLastExchangeWithChoice(h: History, sid: string, chosenReply: string): (h': History)
    ensures ExchangesOf(h, sid) == [] ==> h' == h
    ensures ExchangesOf(h, sid) != [] ==>
              var exs := ExchangesOf(h, sid);
              var exs' := ExchangesOf(h', sid);
              && |exs'| == |exs|
              && exs'[..|exs| - 1] == exs[..|exs| - 1]
              && exs'[|exs| - 1] == exs[|exs| - 1].(chosenReply := Some(chosenReply))
              && h'.sessions[sid].context == h.sessions[sid].context
    ensures h'.order == h.order && h'.sessions.Keys == h.sessions.Keys
    ensures forall s | s != sid && s in h.sessions :: h'.sessions[s] == h.sessions[s]
  {
    if sid in h.sessions && h.sessions[sid].exchanges != [] then
      var s := h.sessions[sid];
      var n := |s.exchanges|;
      var exs := s.exchanges[n - 1 := s.exchanges[n - 1].(chosenReply := Some(chosenReply))];
      History(h.order, h.sessions[sid := s.(exchanges := exs)])
    else h
  }

  /** A field the prompt shows: Python's truthiness of a string. */
  predicate Shown(field: Option<string>) {
    field.Some? && field.value != ""
  }

  /** The prompt lines of some exchanges: for each, a `[Heard]` line when the
      transcript is non-empty and then a `[User replied]` line when a
      non-empty reply was chosen. */
  function PromptLines(exs: seq<Exchange>): (lines: seq<string>)
    ensures |lines| <= 2 * |exs|
    decreases |exs|
  {
    if exs == [] then []
    else PromptLines(exs[..|exs| - 1]) + ExchangeLines(exs[|exs| - 1])
  }

  function ExchangeLines(ex: Exchange): (lines: seq<string>)
    ensures |lines| <= 2
  {
    (if ex.transcript != "" then [HeardTag + ex.transcript] else [])
    + (if Shown(ex.chosenReply) then [RepliedTag + ex.chosenReply.value] else [])
  }

  /** The exchanges `exchanges[-max_exchanges:]` selects. */
  function Window(exs: seq<Exchange>, maxExchanges: int): (w: seq<Exchange>)
    ensures maxExchanges == 0 ==> w == exs
    ensures maxExchanges > 0 ==> |w| == (if |exs| < maxExchanges then |exs| else maxExchanges)
    ensures maxExchanges < 0 ==> |w| == (if |exs| < -maxExchanges then 0 else |exs| + maxExchanges)
    ensures w == exs[|exs| - |w|..]
  {
    Suffix(exs, -maxExchanges)
  }

  /** `get_history_for_llm`: the prompt lines of the session's last
      `max_exchanges` exchanges (10 when not given; 0 means all), joined by
      newlines; empty for an unknown session. */
  function GetHistoryForLlm(h: History, sid: string, maxExchanges: Option<int>): (r: string)
    ensures sid !in h.sessions ==> r == ""
    ensures sid in h.sessions ==>
              r == Join(PromptLines(Window(h.sessions[sid].exchanges, maxExchanges.GetOr(MaxContextForLlm as int))), "\n")
  {
    var m := maxExchanges.GetOr(MaxContextForLlm as int);
    if sid !in h.sessions then ""
    else
      var exs := Window(h.sessions[sid].exchanges, m);
      if exs == [] then "" else Join(PromptLines(exs), "\n")
  }

  /** The prompt lines of a concatenation are the lines of each part. */
  lemma {:induction false} PromptLinesAppend(a: seq<Exchange>, b: seq<Exchange>)
    ensures PromptLines(a + b) == PromptLines(a) + PromptLines(b)
    decreases |b|
  {
    if b != [] {
      var ab := a + b;
      assert ab[..|ab| - 1] == a + b[..|b| - 1];
      assert ab[|ab| - 1] == b[|b| - 1];
      PromptLinesAppend(a, b[..|b| - 1]);
    } else {
      assert a + b == a;
    }
  }

  /** Every prompt line is tagged and holds no newline when no field does. */
  lemma {:induction false} PromptLinesAreTagged(exs: seq<Exchange>)
    requires NoNewlines(exs)
    ensures forall k | 0 <= k < |PromptLines(exs)| ::
              var line := PromptLines(exs)[k];
              '\n' !in line
              && ((|line| > |HeardTag| && line[..|HeardTag|] == HeardTag)
                  || (|line| > |RepliedTag| && line[..|RepliedTag|] == RepliedTag))
    decreases |exs|
  {
    if exs != [] {
      PromptLinesAreTagged(exs[..|exs| - 1]);
      var ex := exs[|exs| - 1];
      assert '\n' !in HeardTag + ex.transcript;
      assert ex.chosenReply.Some? ==> '\n' !in RepliedTag + ex.chosenReply.value;
    }
  }

  /** The number of `[Heard]` lines is the number of exchanges with a
      transcript, and likewise for replies. */
  function HeardCount(exs: seq<Exchange>): nat
    decreases |exs|
  {
    if exs == [] then 0 else HeardCount(exs[..|exs| - 1]) + (if exs[|exs| - 1].transcript != "" then 1 else 0)
  }

  function RepliedCount(exs: seq<Exchange>): nat
    decreases |exs|
  {
    if exs == [] then 0 else RepliedCount(exs[..|exs| - 1]) + (if Shown(exs[|exs| - 1].chosenReply) then 1 else 0)
  }

  /** One line per non-empty field, and no other lines. */
  lemma {:induction false} PromptLineCount(exs: seq<Exchange>)
    ensures |PromptLines(exs)| == HeardCount(exs) + RepliedCount(exs)
    decreases |exs|
  {
    if exs != [] {
      PromptLineCount(exs[..|exs| - 1]);
    }
  }

  /** No transcript or chosen reply holds a newline. */
  predicate NoNewlines(exs: seq<Exchange>) {
    forall k | 0 <= k < |exs| ::
      '\n' !in exs[k].transcript && (exs[k].chosenReply.Some? ==> '\n' !in exs[k].chosenReply.value)
  }

  lemma NoNewlinesInWindow(exs: seq<Exchange>, m: int)
    requires NoNewlines(exs)
    ensures NoNewlines(Window(exs, m))
  {
    var w := Window(exs, m);
    forall k | 0 <= k < |w|
      ensures '\n' !in w[k].transcript && (w[k].chosenReply.Some? ==> '\n' !in w[k].chosenReply.value)
    {
      assert w[k] == exs[|exs| - |w| + k];
    }
  }

  /** The prompt reads back: when no field holds a newline and some line is
      shown, splitting the prompt on newlines gives back the prompt lines of
      the window. */
  lemma PromptSplitsIntoLines(h: History, sid: string, maxExchanges: Option<int>)
    requires sid in h.sessions && NoNewlines(h.sessions[sid].exchanges)
    requires PromptLines(Window(h.sessions[sid].exchanges, maxExchanges.GetOr(MaxContextForLlm as int))) != []
    ensures Split(GetHistoryForLlm(h, sid, maxExchanges), '\n')
         == PromptLines(Window(h.sessions[sid].exchanges, maxExchanges.GetOr(MaxContextForLlm as int)))
  {
    var w := Window(h.sessions[sid].exchanges, maxExchanges.GetOr(MaxContextForLlm as int));
    NoNewlinesInWindow(h.sessions[sid].exchanges, maxExchanges.GetOr(MaxContextForLlm as int));
    PromptLinesAreTagged(w);
    SplitJoin(PromptLines(w), '\n');
  }

  /** `clear_session`: removes exactly that session. */
  function ClearSession(h: History, sid: string): (h': History)
    ensures h'.order == Remove(h.order, sid)
    ensures sid !in h'.sessions && sid !in h'.order
    ensures forall s | s != sid :: (s in h'.sessions <==> s in h.sessions)
    ensures forall s | s != sid && s in h.sessions :: h'.sessions[s] == h.sessions[s]
  {
    History(Remove(h.order, sid), h.sessions - {sid})
  }

  lemma ClearSessionKeepsValid(h: History, sid: string)
    requires Valid(h)
    ensures Valid(ClearSession(h, sid))
  {
    RemoveKeepsDistinct(h.order, sid);
  }

  /** The order without `sid`, the rest in their order. */
  function Remove(order: seq<string>, sid: string): (r: seq<string>)
    ensures forall s :: s in r <==> s in order && s != sid
    decreases |order|
  {
    if order == [] then []
    else (if order[0] == sid then [] else [order[0]]) + Remove(order[1..], sid)
  }

  predicate Distinct(xs: seq<string>) {
    forall i, j | 0 <= i < j < |xs| :: xs[i] != xs[j]
  }

  lemma {:induction false} RemoveKeepsDistinct(order: seq<string>, sid: string)
    requires Distinct(order)
    ensures Distinct(Remove(order, sid))
    decreases |order|
  {
    if order != [] {
      assert Distinct(order[1..]) by {
        forall i, j | 0 <= i < j < |order| - 1 ensures order[1..][i] != order[1..][j] {
          assert order[1..][i] == order[i + 1] && order[1..][j] == order[j + 1];
        }
      }
      RemoveKeepsDistinct(order[1..], sid);
      var rest := Remove(order[1..], sid);
      assert order[0] !in order[1..] by {
        forall k | 0 <= k < |order| - 1 ensures order[1..][k] != order[0] {
          assert order[1..][k] == order[k + 1];
        }
      }
      assert order[0] !in rest;
      var r := Remove(order, sid);
      if order[0] != sid {
        assert r == [order[0]] + rest;
        forall i, j | 0 <= i < j < |r| ensures r[i] != r[j] {
          if i == 0 {
            assert r[j] == rest[j - 1];
          } else {
            assert r[i] == rest[i - 1] && r[j] == rest[j - 1];
          }
        }
      } else {
        assert r == rest;
      }
    }
  }

  /** `clear_all`. */
  function ClearAll(h: History): (h': History)
    ensures Valid(h')
    ensures forall sid :: sid !in h'.sessions
  {
    Empty
  }

  /** After clearing, every prompt is empty. */
  lemma ClearedHistoryIsSilent(h: History, sid: string, maxExchanges: Option<int>)
    ensures GetHistoryForLlm(ClearAll(h), sid, maxExchanges) == ""
    ensures GetHistoryForLlm(ClearSession(h, sid), sid, maxExchanges) == ""
  {
  }

  /** Adding exchanges to one session never changes another session's prompt. */
  lemma AddExchangeKeepsOtherPrompts(h: History, sid: string, context: string, transcript: string,
                                     chosenReply: Option<string>, other: string, maxExchanges: Option<int>)
    requires other != sid
    ensures GetHistoryForLlm(AddExchange(h, sid, context, transcript, chosenReply), other, maxExchanges)
         == GetHistoryForLlm(h, other, maxExchanges)
  {
  }

  /** Adding an exchange with a transcript makes it the last prompt line
      but for a chosen reply. */
  lemma NewExchangeEndsThePrompt(h: History, sid: string, context: string, transcript: string)
    requires transcript != ""
    ensures var h' := AddExchange(h, sid, context, transcript, None);
      var lines := PromptLines(Window(h'.sessions[sid].exchanges, MaxContextForLlm as int));
      lines != [] && lines[|lines| - 1] == HeardTag + transcript
  {
    var h' := AddExchange(h, sid, context, transcript, None);
    AddExchangeEndsWithNew(h, sid, context, transcript, None);
    LastExchangeEndsThePrompt(Window(h'.sessions[sid].exchanges, MaxContextForLlm as int), transcript);
  }

  lemma LastExchangeEndsThePrompt(w: seq<Exchange>, transcript: string)
    requires w != [] && w[|w| - 1] == Exchange(transcript, None) && transcript != ""
    ensures PromptLines(w) != [] && PromptLines(w)[|PromptLines(w)| - 1] == HeardTag + transcript
  {
    assert ExchangeLines(w[|w| - 1]) == [HeardTag + transcript];
  }
}
