/** The static phrase packs the suggestion backend falls back on when reply
    generation fails: one list of ready-made replies per intent. */
module PhrasePacks {
  import Intents

  const Packs: map<string, seq<string>> := map[
    "generic" := [
      "Yes.", "No.", "I\U{2019}m not sure.", "Please repeat.",
      "One moment.", "Could you type that?",
      "Thank you.", "Sorry, I don\U{2019}t understand."
    ],
    "clarify" := [
      "Sorry, can you rephrase?",
      "Could you type that again?",
      "Please speak slowly.",
      "Can you show me on your phone?",
      "Do you mean this?",
      "I understand a little\U{2014}please repeat."
    ],
    "directions" := [
      "Please show me on the map.",
      "Where are you going?",
      "Left or right?",
      "Which station?",
      "How far is it?",
      "Can you point to the place?"
    ],
    "payment" := [
      "Cash or card?",
      "How much is it?",
      "Can you show the price?",
      "I will pay by card.",
      "I don\U{2019}t have cash.",
      "Please type the amount."
    ],
    "emergency" := [
      "I need help.",
      "Please call emergency services.",
      "I need a doctor.",
      "I am lost\U{2014}can you help me?",
      "Please call 999.",
      "I am not feeling well."
    ]
  ]

  /** The number of replies the fallback keeps. */
  const FallbackSize: nat := 6

  /** The packs are keyed by exactly the five intent labels, so every label
      the classifier returns has a pack. */
  lemma PackKeysAreLabels()
    ensures Packs.Keys == Intents.Labels
    ensures forall text :: Intents.ClassifyIntent(text) in Packs
  {
  }

  /** Every pack holds at least the six replies the fallback takes. */
  lemma PacksAreLargeEnough()
    ensures forall intent | intent in Packs :: |Packs[intent]| >= FallbackSize
  {
  }

  /** `PHRASEPACKS[intent][:6]`: exactly six replies, the first six of the
      pack in their listed order. */
  function Fallback(intent: string): (r: seq<string>)
    requires intent in Packs
    ensures |r| == FallbackSize
    ensures forall i | 0 <= i < FallbackSize :: r[i] == Packs[intent][i]
  {
    PacksAreLargeEnough();
    Packs[intent][..FallbackSize]
  }

  /** The generic pack has eight replies; its fallback keeps the first six
      and drops the last two. */
  lemma GenericFallbackDropsTwo()
    ensures |Packs["generic"]| == 8
    ensures Fallback("generic") == Packs["generic"][..6]
    ensures "Thank you." !in Fallback("generic")
  {
    assert Fallback("generic") == ["Yes.", "No.", "I\U{2019}m not sure.", "Please repeat.", "One moment.", "Could you type that?"];
  }
}
