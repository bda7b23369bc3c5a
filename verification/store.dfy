/** The additive weight map that ranks suggestions: one integer per
    (context, intent, reply text) triple, addressed by the triple joined with
    `||`, absent triples weighing 0. */
module WeightStore {

  type Weights = map<string, int>

  /** `_key`: the three parts joined by `||`. */
  function Key(context: string, intent: string, text: string): string {
    context + "||" + intent + "||" + text
  }

  /** `get_weight`: the stored value, or 0 when the key was never bumped. */
  function GetWeight(w: Weights, context: string, intent: string, text: string): int {
    var k := Key(context, intent, text);
    if k in w then w[k] else 0
  }

  /** `bump`: raises one triple's weight by `delta` (1 unless given) and
      leaves every entry with a different key as it was. */
  function Bump(w: Weights, context: string, intent: string, text: string, delta: int := 1): (w': Weights)
    ensures GetWeight(w', context, intent, text) == GetWeight(w, context, intent, text) + delta
    ensures forall c, i, t | Key(c, i, t) != Key(context, intent, text) ::
              GetWeight(w', c, i, t) == GetWeight(w, c, i, t)
    ensures w'.Keys == w.Keys + {Key(context, intent, text)}
    ensures forall k | k in w && k != Key(context, intent, text) :: w'[k] == w[k]
  {
    var k := Key(context, intent, text);
    w[k := (if k in w then w[k] else 0) + delta]
  }

  /** A bump that omits `delta` adds exactly one. */
  lemma DefaultDeltaIsOne(w: Weights, context: string, intent: string, text: string)
    ensures GetWeight(Bump(w, context, intent, text), context, intent, text)
         == GetWeight(w, context, intent, text) + 1
  {
  }

  /** The key is a plain concatenation, so distinct triples can share one
      weight: a context holding `||` collides with a shorter context. */
  lemma DistinctTriplesCanShareAWeight(w: Weights)
    ensures ("a||b", "c", "d") != ("a", "b||c", "d")
    ensures GetWeight(Bump(w, "a||b", "c", "d"), "a", "b||c", "d") == GetWeight(w, "a", "b||c", "d") + 1
  {
    assert Key("a||b", "c", "d") == Key("a", "b||c", "d");
  }

  /** One call of `bump`, as recorded for replay. */
  datatype BumpCall = BumpCall(context: string, intent: string, text: string, delta: int)

  /** The store a sequence of bumps builds from an empty map. */
  function Replay(log: seq<BumpCall>): Weights
    decreases |log|
  {
    if |log| == 0 then map[]
    else
      var b := log[|log| - 1];
      Bump(Replay(log[..|log| - 1]), b.context, b.intent, b.text, b.delta)
  }

  /** The sum of the deltas of the bumps addressed to `key`. */
  function DeltaSum(log: seq<BumpCall>, key: string): int
    decreases |log|
  {
    if |log| == 0 then 0
    else
      var b := log[|log| - 1];
      DeltaSum(log[..|log| - 1], key) + (if Key(b.context, b.intent, b.text) == key then b.delta else 0)
  }

  /** Independent account of the store: a triple's weight is the sum of the
      deltas of every bump whose key equals the triple's key. */
  lemma {:induction false} WeightIsSumOfBumps(log: seq<BumpCall>, context: string, intent: string, text: string)
    ensures GetWeight(Replay(log), context, intent, text) == DeltaSum(log, Key(context, intent, text))
    decreases |log|
  {
    if |log| > 0 {
      WeightIsSumOfBumps(log[..|log| - 1], context, intent, text);
    }
  }

  lemma {:induction false} UnaddressedSumIsZero(log: seq<BumpCall>, key: string)
    requires forall j | 0 <= j < |log| :: Key(log[j].context, log[j].intent, log[j].text) != key
    ensures DeltaSum(log, key) == 0
    decreases |log|
  {
    if |log| > 0 {
      UnaddressedSumIsZero(log[..|log| - 1], key);
    }
  }

  /** A triple no bump was addressed to weighs 0. */
  lemma NeverBumpedWeighsZero(log: seq<BumpCall>, context: string, intent: string, text: string)
    requires forall j | 0 <= j < |log| :: Key(log[j].context, log[j].intent, log[j].text) != Key(context, intent, text)
    ensures GetWeight(Replay(log), context, intent, text) == 0
  {
    WeightIsSumOfBumps(log, context, intent, text);
    UnaddressedSumIsZero(log, Key(context, intent, text));
  }
}
