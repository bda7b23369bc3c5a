/** The keyword intent classifier of the suggestion backend: an ordered list
    of rules, each an alternation of literal keywords searched for
    case-insensitively anywhere in the text; the first rule that matches
    names the intent, and text no rule matches is `generic`. */
module Intents {
  import opened Text

  datatype Rule = Rule(name: string, keywords: seq<string>)

  const Generic: string := "generic"

  /** The rules in the order they are tried. */
  const Rules: seq<Rule> := [
    Rule("emergency", ["help", "emergency", "doctor", "police", "ambulance", "999"]),
    Rule("directions", ["where", "direction", "station", "bus", "train", "map"]),
    Rule("payment", ["pay", "price", "card", "cash", "\U{00A3}", "pound"]),
    Rule("clarify", ["repeat", "again", "sorry", "clarify", "what"])
  ]

  /** Every label the classifier can produce. */
  const Labels: set<string> := {"emergency", "directions", "payment", "clarify", "generic"}

  /** A case-insensitive search for any of the rule's keywords. Matching is
      plain substring containment, with no word boundaries. */
  predicate Matches(rule: Rule, text: string) {
    exists k | 0 <= k < |rule.keywords| :: Contains(Lower(text), Lower(rule.keywords[k]))
  }

  /** Tries `rules` in order and returns the label of the first that matches. */
  function FirstMatch(rules: seq<Rule>, text: string): (r: string)
    ensures r == Generic || exists k | 0 <= k < |rules| :: r == rules[k].name
    ensures (forall k | 0 <= k < |rules| :: !Matches(rules[k], text)) ==> r == Generic
    ensures forall k | 0 <= k < |rules| && Matches(rules[k], text) ::
              (forall j | 0 <= j < k :: !Matches(rules[j], text)) ==> r == rules[k].name
    decreases |rules|
  {
    if |rules| == 0 then Generic
    else if Matches(rules[0], text) then rules[0].name
    else
      var r := FirstMatch(rules[1..], text);
      assert forall k | 1 <= k < |rules| :: rules[k] == rules[1..][k - 1];
      r
  }

  /** `classify_intent`: one of the five labels; `generic` exactly when no
      rule matches; otherwise the label of the first matching rule. */
  function ClassifyIntent(text: string): (r: string)
    ensures r in Labels
    ensures r == Generic <==> forall k | 0 <= k < |Rules| :: !Matches(Rules[k], text)
    ensures forall k | 0 <= k < |Rules| && Matches(Rules[k], text) ::
              (forall j | 0 <= j < k :: !Matches(Rules[j], text)) ==> r == Rules[k].name
  {
    RuleNamesAreLabels();
    FirstMatch(Rules, text)
  }

  /** Each rule is named by a label other than `generic`. */
  lemma RuleNamesAreLabels()
    ensures forall k | 0 <= k < |Rules| :: Rules[k].name in Labels && Rules[k].name != Generic
  {
    forall k | 0 <= k < |Rules|
      ensures Rules[k].name in Labels && Rules[k].name != Generic
    {
      assert k == 0 || k == 1 || k == 2 || k == 3;
    }
  }

  lemma KeywordsNonEmpty()
    ensures forall k, j | 0 <= k < |Rules| && 0 <= j < |Rules[k].keywords| :: |Rules[k].keywords[j]| > 0
  {
  }

  /** Nothing is contained in the empty string except the empty string. */
  lemma EmptyContainsNothing(sub: string)
    requires |sub| > 0
    ensures !Contains("", sub)
  {
  }

  /** Text without any keyword, the empty string among it, is `generic`. */
  lemma EmptyTextIsGeneric()
    ensures ClassifyIntent("") == Generic
  {
    KeywordsNonEmpty();
    forall k, j | 0 <= k < |Rules| && 0 <= j < |Rules[k].keywords|
      ensures !Contains(Lower(""), Lower(Rules[k].keywords[j]))
    {
      EmptyContainsNothing(Lower(Rules[k].keywords[j]));
    }
  }

  /** The emergency rule is tried first, so it wins over every other rule:
      text that mentions both help and payment is an emergency. */
  lemma EmergencyWins(text: string)
    requires Contains(Lower(text), "help")
    ensures ClassifyIntent(text) == "emergency"
  {
    assert Lower(Rules[0].keywords[0]) == "help";
    assert Matches(Rules[0], text);
  }

  /** Keywords match inside longer words: "helpful" is an emergency. */
  lemma HelpfulIsEmergency()
    ensures ClassifyIntent("helpful") == "emergency"
  {
    ContainsAt(Lower("helpful"), "help", 0);
    EmergencyWins("helpful");
  }

  /** Matching ignores ASCII case: "BUS" asks for directions. */
  lemma UpperCaseDirections()
    ensures ClassifyIntent("BUS") == "directions"
  {
    BusMatchesDirections();
    BusIsNoEmergency();
  }

  lemma BusMatchesDirections()
    ensures Matches(Rules[1], "BUS")
  {
    assert Lower("BUS") == "bus";
    ContainsAt("bus", "bus", 0);
    assert Lower(Rules[1].keywords[3]) == "bus";
  }

  lemma BusIsNoEmergency()
    ensures !Matches(Rules[0], "BUS")
  {
    var t := Lower("BUS");
    assert t == "bus";
    var kws := Rules[0].keywords;
    forall j | 0 <= j < |kws|
      ensures !Contains(t, Lower(kws[j]))
    {
      var kw := Lower(kws[j]);
      assert kw[0] == LowerChar(kws[j][0]);
      assert kw[0] in "hedpa9";
      if Contains(t, kw) {
        ContainsImpliesChars(t, kw);
      }
    }
  }

  /** Two texts that match the same rules are classified alike. */
  lemma {:induction false} FirstMatchDependsOnMatches(rules: seq<Rule>, a: string, b: string)
    requires forall k | 0 <= k < |rules| :: Matches(rules[k], a) <==> Matches(rules[k], b)
    ensures FirstMatch(rules, a) == FirstMatch(rules, b)
    decreases |rules|
  {
    if |rules| > 0 && !Matches(rules[0], a) {
      assert forall k | 0 <= k < |rules| - 1 :: rules[1..][k] == rules[k + 1];
      FirstMatchDependsOnMatches(rules[1..], a, b);
    }
  }

  /** Classification is insensitive to ASCII case. */
  lemma ClassifyIgnoresCase(text: string)
    ensures ClassifyIntent(Lower(text)) == ClassifyIntent(text)
  {
    LowerIdempotent(text);
    FirstMatchDependsOnMatches(Rules, Lower(text), text);
  }
}
