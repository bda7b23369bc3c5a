/** `get_common_replies`: how often each non-empty chosen reply occurs in
    the sessions of one context, the replies in first-seen order, sorted
    stably by count descending, and cut to `limit`. */
module CommonReplies {
  import opened Results
  import opened PySlice
  import opened History

  /** One entry of the `reply_counts` dict. */
  datatype Tallied = Tallied(reply: string, count: nat)

  /** The chosen replies of some exchanges that Python finds truthy, in
      order. */
  function ChosenIn(exs: seq<Exchange>): (r: seq<string>)
    ensures forall k | 0 <= k < |r| :: r[k] != ""
    decreases |exs|
  {
    if exs == [] then []
    else
      var ex := exs[|exs| - 1];
      ChosenIn(exs[..|exs| - 1]) + (if Shown(ex.chosenReply) then [ex.chosenReply.value] else [])
  }

  /** The sessions' chosen replies along the key order, skipping sessions
      of another context. */
  function ChosenAlong(order: seq<string>, sessions: map<string, Session>, context: string): (r: seq<string>)
    ensures forall k | 0 <= k < |r| :: r[k] != ""
    decreases |order|
  {
    if order == [] then [] else ChosenAlong(order[..|order| - 1], sessions, context) + SessionReplies(sessions, order[|order| - 1], context)
  }

  /** What one key of the history contributes: nothing unless it is a
      session of the context. */
  function SessionReplies(sessions: map<string, Session>, sid: string, context: string): seq<string> {
    if sid in sessions && sessions[sid].context == context then ChosenIn(sessions[sid].exchanges) else []
  }

  /** Every reply the loop of `get_common_replies` counts, in the order it
      counts them. */
  function ChosenReplies(h: History, context: string): seq<string> {
    ChosenAlong(h.order, h.sessions, context)
  }

  /** A counted reply was chosen in some exchange of a session of the
      context. */
  lemma {:induction false} ChosenInWitness(exs: seq<Exchange>, x: string)
    requires x in ChosenIn(exs)
    ensures exists k | 0 <= k < |exs| :: exs[k].chosenReply == Some(x)
    decreases |exs|
  {
    var init := exs[..|exs| - 1];
    var ex := exs[|exs| - 1];
    if x in ChosenIn(init) {
      ChosenInWitness(init, x);
      var k :| 0 <= k < |init| && init[k].chosenReply == Some(x);
      assert exs[k] == init[k];
    } else {
      assert ex.chosenReply == Some(x);
    }
  }

  lemma {:induction false} ChosenAlongWitness(order: seq<string>, sessions: map<string, Session>, context: string, x: string)
    requires x in ChosenAlong(order, sessions, context)
    ensures exists sid | sid in order :: sid in sessions && sessions[sid].context == context
                                        && x in ChosenIn(sessions[sid].exchanges)
    decreases |order|
  {
    var init := order[..|order| - 1];
    var sid := order[|order| - 1];
    assert ChosenAlong(order, sessions, context) == ChosenAlong(init, sessions, context) + SessionReplies(sessions, sid, context);
    if x in ChosenAlong(init, sessions, context) {
      ChosenAlongWitness(init, sessions, context, x);
      var s :| s in init && s in sessions && sessions[s].context == context
               && x in ChosenIn(sessions[s].exchanges);
      assert s in order;
    } else {
      assert sid in order;
    }
  }

  /** Only sessions of the requested context contribute, and only through a
      reply that was actually chosen. */
  lemma ChosenRepliesAreChosen(h: History, context: string, x: string)
    requires x in ChosenReplies(h, context)
    ensures x != ""
    ensures exists sid | sid in h.order :: sid in h.sessions && h.sessions[sid].context == context
              && exists k | 0 <= k < |h.sessions[sid].exchanges| :: h.sessions[sid].exchanges[k].chosenReply == Some(x)
  {
    ChosenAlongWitness(h.order, h.sessions, context, x);
    var sid :| sid in h.order && sid in h.sessions && h.sessions[sid].context == context
               && x in ChosenIn(h.sessions[sid].exchanges);
    ChosenInWitness(h.sessions[sid].exchanges, x);
  }

  /** Opening a session of another context leaves the counted replies as
      they were. */
  lemma OtherContextIsIgnored(h: History, sid: string, other: string, context: string,
                              transcript: string, chosenReply: Option<string>)
    requires sid !in h.sessions && other != context
    ensures ChosenReplies(AddExchange(h, sid, other, transcript, chosenReply), context) == ChosenReplies(h, context)
  {
    var h' := AddExchange(h, sid, other, transcript, chosenReply);
    assert h'.order == h.order + [sid];
    assert h'.order[..|h'.order| - 1] == h.order;
    assert SessionReplies(h'.sessions, sid, context) == [];
    ChosenAlongSameSessions(h.order, h.sessions, h'.sessions, context);
  }

  /** The counted replies along an order depend only on the sessions it
      names. */
  lemma {:induction false} ChosenAlongSameSessions(order: seq<string>, s1: map<string, Session>, s2: map<string, Session>, context: string)
    requires forall sid | sid in order :: SessionReplies(s1, sid, context) == SessionReplies(s2, sid, context)
    ensures ChosenAlong(order, s1, context) == ChosenAlong(order, s2, context)
    decreases |order|
  {
    if order != [] {
      var init := order[..|order| - 1];
      assert forall sid | sid in init :: sid in order;
      ChosenAlongSameSessions(init, s1, s2, context);
      assert order[|order| - 1] in order;
    }
  }

  /** The replies of some tallies, in order. */
  function Replies(ts: seq<Tallied>): (r: seq<string>)
    ensures |r| == |ts|
    ensures forall k | 0 <= k < |ts| :: r[k] == ts[k].reply
  {
    seq(|ts|, k requires 0 <= k < |ts| => ts[k].reply)
  }

  /** No reply is counted twice. */
  predicate DistinctReplies(ts: seq<Tallied>) {
    forall i, j | 0 <= i < j < |ts| :: ts[i].reply != ts[j].reply
  }

  /** Where `reply` has its entry, or -1 when it has none. */
  function IndexOf(ts: seq<Tallied>, reply: string): (i: int)
    ensures -1 <= i < |ts|
    ensures i >= 0 ==> ts[i].reply == reply
    ensures i < 0 <==> reply !in Replies(ts)
    decreases |ts|
  {
    if ts == [] then -1
    else if ts[|ts| - 1].reply == reply then |ts| - 1
    else
      var i := IndexOf(ts[..|ts| - 1], reply);
      assert Replies(ts) == Replies(ts[..|ts| - 1]) + [ts[|ts| - 1].reply];
      i
  }

  /** `reply_counts[reply] = reply_counts.get(reply, 0) + 1`: the entry of
      `reply` counts one more, or a new entry with count 1 goes last. */
  function AddOne(ts: seq<Tallied>, reply: string): (r: seq<Tallied>)
    ensures |r| == if reply in Replies(ts) then |ts| else |ts| + 1
  {
    var i := IndexOf(ts, reply);
    if i >= 0 then ts[i := ts[i].(count := ts[i].count + 1)] else ts + [Tallied(reply, 1)]
  }

  /** The tally of some replies, one `AddOne` per reply. */
  function Tally(replies: seq<string>): (r: seq<Tallied>)
    ensures |r| <= |replies|
    decreases |replies|
  {
    if replies == [] then [] else AddOne(Tally(replies[..|replies| - 1]), replies[|replies| - 1])
  }

  /** Counting a reply already present bumps its entry in place; a new reply
      is appended. Either way the tallies stay distinct. */
  lemma AddOneSpec(ts: seq<Tallied>, reply: string)
    requires DistinctReplies(ts)
    ensures var r := AddOne(ts, reply);
      && DistinctReplies(r)
      && (reply in Replies(ts) ==> Replies(r) == Replies(ts))
      && (reply !in Replies(ts) ==> Replies(r) == Replies(ts) + [reply] && r[|ts|].count == 1)
      && (forall k | 0 <= k < |ts| :: r[k].count == ts[k].count + (if ts[k].reply == reply then 1 else 0))
  {
    var r := AddOne(ts, reply);
    if reply !in Replies(ts) {
      assert forall k | 0 <= k < |ts| :: Replies(ts)[k] != reply;
    }
  }

  /** The tally of `replies` has one entry per distinct reply, in the order
      each was first met, and each entry counts that reply's occurrences. */
  lemma {:induction false} TallySpec(replies: seq<string>)
    ensures var ts := Tally(replies);
      && DistinctReplies(ts)
      && (forall x :: x in Replies(ts) <==> x in replies)
      && (forall k | 0 <= k < |ts| :: ts[k].count == multiset(replies)[ts[k].reply])
    decreases |replies|
  {
    if replies != [] {
      var init := replies[..|replies| - 1];
      var x := replies[|replies| - 1];
      assert replies == init + [x];
      TallySpec(init);
      var ts := Tally(init);
      AddOneSpec(ts, x);
      var r := AddOne(ts, x);
      forall k | 0 <= k < |r| ensures r[k].count == multiset(replies)[r[k].reply] {
        if k == |ts| {
          assert x !in init;
        }
      }
    }
  }

  /** The tally as the reply sequence grows: an old reply keeps the key
      order, a new one goes last. */
  lemma TallyKeyOrder(replies: seq<string>, x: string)
    ensures Replies(Tally(replies + [x]))
         == if x in replies then Replies(Tally(replies)) else Replies(Tally(replies)) + [x]
  {
    assert (replies + [x])[..|replies|] == replies;
    assert Tally(replies + [x]) == AddOne(Tally(replies), x);
    TallySpec(replies);
    AddOneSpec(Tally(replies), x);
  }

  /** Counts never increase along the sequence. */
  predicate ByCount(ts: seq<Tallied>) {
    forall i | 0 < i < |ts| :: ts[i - 1].count >= ts[i].count
  }

  /** The entries with count `c`, in order. */
  function WithCount(ts: seq<Tallied>, c: nat): (r: seq<Tallied>)
    ensures |r| <= |ts|
    decreases |ts|
  {
    if ts == [] then []
    else WithCount(ts[..|ts| - 1], c) + (if ts[|ts| - 1].count == c then [ts[|ts| - 1]] else [])
  }

  lemma {:induction false} WithCountAppend(a: seq<Tallied>, b: seq<Tallied>, c: nat)
    ensures WithCount(a + b, c) == WithCount(a, c) + WithCount(b, c)
    decreases |b|
  {
    if b == [] {
      assert a + b == a;
    } else {
      var init := b[..|b| - 1];
      assert (a + b)[..|a + b| - 1] == a + init;
      WithCountAppend(a, init, c);
    }
  }

  lemma WithCountOne(x: Tallied, c: nat)
    ensures WithCount([x], c) == if x.count == c then [x] else []
  {
    assert [x][..0] == [];
  }

  /** Places `x` after every entry counting at least as much: one step of a
      stable insertion sort on count descending. */
  function InsertByCount(s: seq<Tallied>, x: Tallied): (r: seq<Tallied>)
    ensures |r| == |s| + 1
    ensures multiset(r) == multiset(s) + multiset{x}
    decreases |s|
  {
    if s == [] || s[|s| - 1].count >= x.count then s + [x]
    else
      assert s == s[..|s| - 1] + [s[|s| - 1]];
      InsertByCount(s[..|s| - 1], x) + [s[|s| - 1]]
  }

  /** `sorted(reply_counts.items(), key=count, reverse=True)`: Python's
      sort is stable and `reverse=True` keeps equal counts in their
      original order. */
  function SortByCount(ts: seq<Tallied>): (r: seq<Tallied>)
    ensures |r| == |ts|
    ensures multiset(r) == multiset(ts)
    decreases |ts|
  {
    if ts == [] then []
    else
      assert ts == ts[..|ts| - 1] + [ts[|ts| - 1]];
      InsertByCount(SortByCount(ts[..|ts| - 1]), ts[|ts| - 1])
  }

  lemma {:induction false} InsertByCountSorted(s: seq<Tallied>, x: Tallied)
    requires ByCount(s)
    ensures ByCount(InsertByCount(s, x))
    ensures var r := InsertByCount(s, x); r[|r| - 1] == x || r[|r| - 1] == s[|s| - 1]
    decreases |s|
  {
    if s != [] && s[|s| - 1].count < x.count {
      var init := s[..|s| - 1];
      assert ByCount(init);
      InsertByCountSorted(init, x);
    }
  }

  lemma {:induction false} SortByCountSorted(ts: seq<Tallied>)
    ensures ByCount(SortByCount(ts))
    decreases |ts|
  {
    if ts != [] {
      SortByCountSorted(ts[..|ts| - 1]);
      InsertByCountSorted(SortByCount(ts[..|ts| - 1]), ts[|ts| - 1]);
    }
  }

  /** Inserting keeps every count's entries in order and puts `x` last
      among those with its count. */
  lemma {:induction false} InsertByCountStable(s: seq<Tallied>, x: Tallied, c: nat)
    ensures WithCount(InsertByCount(s, x), c) == WithCount(s, c) + WithCount([x], c)
    decreases |s|
  {
    if s == [] || s[|s| - 1].count >= x.count {
      WithCountAppend(s, [x], c);
    } else {
      var init := s[..|s| - 1];
      var last := s[|s| - 1];
      InsertByCountStable(init, x, c);
      assert InsertByCount(s, x) == InsertByCount(init, x) + [last];
      assert s == init + [last];
      StableStep(init, last, x, InsertByCount(init, x), c);
    }
  }

  /** An entry passed over by the insertion has a smaller count than `x`,
      so the two never meet in one count's entries. */
  lemma StableStep(init: seq<Tallied>, last: Tallied, x: Tallied, t: seq<Tallied>, c: nat)
    requires last.count < x.count
    requires WithCount(t, c) == WithCount(init, c) + WithCount([x], c)
    ensures WithCount(t + [last], c) == WithCount(init + [last], c) + WithCount([x], c)
  {
    WithCountAppend(t, [last], c);
    WithCountAppend(init, [last], c);
    WithCountOne(last, c);
    WithCountOne(x, c);
    if x.count == c {
      assert WithCount([last], c) == [];
      assert WithCount(t + [last], c) == WithCount(t, c) + [];
      assert WithCount(init + [last], c) == WithCount(init, c) + [];
    } else {
      assert WithCount([x], c) == [];
      assert WithCount(t, c) == WithCount(init, c) + [];
    }
  }

  /** The sort is stable: entries with equal counts keep their order. */
  lemma {:induction false} SortByCountStable(ts: seq<Tallied>, c: nat)
    ensures WithCount(SortByCount(ts), c) == WithCount(ts, c)
    decreases |ts|
  {
    if ts != [] {
      SortByCountStable(ts[..|ts| - 1], c);
      InsertByCountStable(SortByCount(ts[..|ts| - 1]), ts[|ts| - 1], c);
    }
  }

  /** Counts along a sorted sequence never increase, between any two
      positions. */
  lemma {:induction false} ByCountPairwise(ts: seq<Tallied>, i: nat, j: nat)
    requires ByCount(ts) && i <= j < |ts|
    ensures ts[i].count >= ts[j].count
    decreases j - i
  {
    if i < j {
      ByCountPairwise(ts, i + 1, j);
    }
  }

  /** An entry of a rearrangement of `a` is an entry of `a`. */
  lemma FromMultiset(a: seq<Tallied>, y: Tallied)
    requires y in multiset(a)
    ensures exists p | 0 <= p < |a| :: a[p] == y
  {
    assert y in a;
  }

  /** Inserting an entry whose reply is new keeps the replies distinct. */
  lemma {:induction false} InsertByCountDistinct(s: seq<Tallied>, x: Tallied)
    requires DistinctReplies(s)
    requires forall k | 0 <= k < |s| :: s[k].reply != x.reply
    ensures DistinctReplies(InsertByCount(s, x))
    decreases |s|
  {
    if s != [] && s[|s| - 1].count < x.count {
      var init := s[..|s| - 1];
      var last := s[|s| - 1];
      InsertByCountDistinct(init, x);
      var t := InsertByCount(init, x);
      forall i | 0 <= i < |t| ensures t[i].reply != last.reply {
        assert t[i] in multiset(t);
        if t[i] != x {
          FromMultiset(init, t[i]);
          var p :| 0 <= p < |init| && init[p] == t[i];
          assert s[p] == t[i];
        }
      }
      assert InsertByCount(s, x) == t + [last];
    }
  }

  /** Sorting distinct tallies keeps them distinct. */
  lemma {:induction false} SortByCountDistinct(ts: seq<Tallied>)
    requires DistinctReplies(ts)
    ensures DistinctReplies(SortByCount(ts))
    decreases |ts|
  {
    if ts != [] {
      var init := ts[..|ts| - 1];
      var x := ts[|ts| - 1];
      SortByCountDistinct(init);
      var t := SortByCount(init);
      forall k | 0 <= k < |t| ensures t[k].reply != x.reply {
        assert t[k] in multiset(t);
        FromMultiset(init, t[k]);
        var p :| 0 <= p < |init| && init[p] == t[k];
        assert ts[p] == t[k];
      }
      InsertByCountDistinct(t, x);
    }
  }

  /** The length of a distinct sequence is the number of its elements. */
  lemma {:induction false} DistinctCard(s: seq<string>)
    requires forall i, j | 0 <= i < j < |s| :: s[i] != s[j]
    ensures |set x | x in s| == |s|
    decreases |s|
  {
    if s != [] {
      var init := s[..|s| - 1];
      DistinctCard(init);
      assert (set x | x in s) == (set x | x in init) + {s[|s| - 1]};
      assert s[|s| - 1] !in init;
    }
  }

  /** The tallies `get_common_replies` keeps: `sorted_replies[:limit]`. */
  function TopTallies(chosen: seq<string>, limit: int): seq<Tallied> {
    Prefix(SortByCount(Tally(chosen)), limit)
  }

  /** `get_common_replies(context, limit)`: distinct chosen replies of the
      context, as many as asked for while there are enough. */
  function GetCommonReplies(h: History, context: string, limit: int := 10): (r: seq<string>)
    ensures var chosen := ChosenReplies(h, context);
      && (limit >= 0 ==> |r| == (if limit < |set x | x in chosen| then limit else |set x | x in chosen|))
      && (forall k | 0 <= k < |r| :: r[k] in chosen)
      && (forall i, j | 0 <= i < j < |r| :: r[i] != r[j])
  {
    TopEntries(ChosenReplies(h, context), limit);
    Replies(TopTallies(ChosenReplies(h, context), limit))
  }

  /** The tally's replies are distinct. */
  lemma TallyDistinct(chosen: seq<string>)
    ensures DistinctReplies(Tally(chosen))
  {
    TallySpec(chosen);
  }

  /** An entry of the sorted tally is a counted reply with its number of
      occurrences. */
  lemma SortedEntry(chosen: seq<string>, y: Tallied)
    requires y in multiset(SortByCount(Tally(chosen)))
    ensures y.reply in chosen && y.count == multiset(chosen)[y.reply]
  {
    var ts := Tally(chosen);
    TallySpec(chosen);
    FromMultiset(ts, y);
    var p :| 0 <= p < |ts| && ts[p] == y;
    assert Replies(ts)[p] == y.reply;
  }

  /** Every counted reply has its entry in the sorted tally. */
  lemma SortedHasEntry(chosen: seq<string>, x: string) returns (q: nat)
    requires x in chosen
    ensures var sorted := SortByCount(Tally(chosen));
      q < |sorted| && sorted[q].reply == x && sorted[q].count == multiset(chosen)[x]
  {
    var ts := Tally(chosen);
    var sorted := SortByCount(ts);
    TallySpec(chosen);
    assert x in Replies(ts);
    var p :| 0 <= p < |ts| && Replies(ts)[p] == x;
    assert ts[p] in multiset(sorted);
    FromMultiset(sorted, ts[p]);
    q :| 0 <= q < |sorted| && sorted[q] == ts[p];
  }

  /** The tally has as many entries as there are distinct counted
      replies. */
  lemma TallySize(chosen: seq<string>)
    ensures |Tally(chosen)| == |set x | x in chosen|
  {
    var keys := Replies(Tally(chosen));
    TallySpec(chosen);
    assert (set x | x in keys) == (set x | x in chosen);
    DistinctCard(keys);
  }

  /** The kept tallies are counted replies with their numbers of
      occurrences, distinct, and as many as asked for while there are
      enough. */
  lemma TopEntries(chosen: seq<string>, limit: int)
    ensures var top := TopTallies(chosen, limit);
      && (limit >= 0 ==> |top| == (if limit < |set x | x in chosen| then limit else |set x | x in chosen|))
      && (forall k | 0 <= k < |top| :: top[k].reply in chosen && top[k].count == multiset(chosen)[top[k].reply])
      && DistinctReplies(top)
  {
    var sorted := SortByCount(Tally(chosen));
    var top := TopTallies(chosen, limit);
    assert top == sorted[..|top|];
    TallyDistinct(chosen);
    SortByCountDistinct(Tally(chosen));
    forall k | 0 <= k < |top| ensures top[k].reply in chosen && top[k].count == multiset(chosen)[top[k].reply] {
      assert top[k] == sorted[k];
      assert sorted[k] in multiset(sorted);
      SortedEntry(chosen, top[k]);
    }
    TallySize(chosen);
  }

  /** The kept tallies come in order of count. */
  lemma TopByCount(chosen: seq<string>, limit: int)
    ensures ByCount(TopTallies(chosen, limit))
  {
    var sorted := SortByCount(Tally(chosen));
    var top := TopTallies(chosen, limit);
    SortByCountSorted(Tally(chosen));
    assert forall k | 0 <= k < |top| :: top[k] == sorted[k];
  }

  /** The replies come in order of how often they were chosen. */
  lemma CommonRepliesByCount(h: History, context: string, limit: int)
    ensures var r := GetCommonReplies(h, context, limit);
      var m := multiset(ChosenReplies(h, context));
      forall i, j | 0 <= i < j < |r| :: m[r[i]] >= m[r[j]]
  {
    var chosen := ChosenReplies(h, context);
    var top := TopTallies(chosen, limit);
    TopEntries(chosen, limit);
    TopByCount(chosen, limit);
    forall i, j | 0 <= i < j < |top| ensures top[i].count >= top[j].count {
      ByCountPairwise(top, i, j);
    }
  }

  /** A reply that was counted but not kept was chosen no more often than
      any kept one. */
  lemma TopIsTop(chosen: seq<string>, limit: int, x: string)
    requires x in chosen && x !in Replies(TopTallies(chosen, limit))
    ensures var top := TopTallies(chosen, limit);
      forall k | 0 <= k < |top| :: top[k].count >= multiset(chosen)[x]
  {
    var sorted := SortByCount(Tally(chosen));
    var top := TopTallies(chosen, limit);
    assert top == sorted[..|top|];
    SortByCountSorted(Tally(chosen));
    var q := SortedHasEntry(chosen, x);
    assert forall k | 0 <= k < |top| :: sorted[k].reply != x by {
      forall k | 0 <= k < |top| ensures sorted[k].reply != x {
        assert Replies(top)[k] == sorted[k].reply;
      }
    }
    assert q >= |top|;
    forall k | 0 <= k < |top| ensures top[k].count >= sorted[q].count {
      ByCountPairwise(sorted, k, q);
    }
  }

  /** A reply left out was chosen no more often than any reply returned. */
  lemma CommonRepliesAreTop(h: History, context: string, limit: int, x: string)
    requires x in ChosenReplies(h, context) && x !in GetCommonReplies(h, context, limit)
    ensures var r := GetCommonReplies(h, context, limit);
      var m := multiset(ChosenReplies(h, context));
      forall k | 0 <= k < |r| :: m[r[k]] >= m[x]
  {
    var chosen := ChosenReplies(h, context);
    TopEntries(chosen, limit);
    TopIsTop(chosen, limit, x);
  }

  /** Replies chosen equally often come in the order they were first
      chosen: the tally's key order. */
  lemma CommonRepliesTiesKeepFirstSeen(h: History, context: string, c: nat)
    ensures var ts := Tally(ChosenReplies(h, context));
      WithCount(SortByCount(ts), c) == WithCount(ts, c)
  {
    SortByCountStable(Tally(ChosenReplies(h, context)), c);
  }
}
