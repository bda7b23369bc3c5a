/** The home screen's context choice: six preset cards, a free-text field,
    the start button's enabled flag, and the label the next screens show.
    The preset objects are shared, so text typed after picking a card is
    stored on the preset itself; a selection therefore refers to a preset
    by its index, and the presets live in the state. */
module Contexts {
  import opened Text
  import opened Results

  /** A context object: its name (the card label), the `value` sent to the backend, and
      `additionalContext`, absent until the free-text field sets it. */
  datatype Context = Context(name: string, value: string, additional: Option<string>)

  /** The `CONTEXTS` table (emoji left out). */
  const Presets: seq<Context> := [
    Context("Medical", "medical", None),
    Context("Restaurant", "restaurant", None),
    Context("Shopping", "shopping", None),
    Context("Work", "work", None),
    Context("Family", "family", None),
    Context("Others", "others", None)
  ]

  /** The value a free-text context is sent with. */
  const CustomValue: string := "custom"

  /** What `selectedContext` points at: one of the presets, or a context
      object made from the free text. */
  datatype Selection = Preset(index: nat) | Custom(context: Context)

  /** `presets` are the shared preset objects, `card` the card carrying the
      `selected` class, `input` the free-text field. */
  datatype Choice = Choice(presets: seq<Context>, selected: Option<Selection>, card: Option<nat>,
                           input: string, startEnabled: bool)

  /** Nothing chosen yet; the start button starts disabled. */
  const Initial: Choice := Choice(Presets, None, None, "", false)

  /** The presets keep their labels and values, and a card is marked exactly
      when its preset is the selection. */
  predicate Valid(c: Choice) {
    && |c.presets| == |Presets|
    && (forall i | 0 <= i < |Presets| :: c.presets[i].name == Presets[i].name && c.presets[i].value == Presets[i].value)
    && (c.card.Some? <==> (c.selected.Some? && c.selected.value.Preset?))
    && (c.card.Some? ==> c.card.value < |Presets| && c.selected.value.index == c.card.value)
    && (c.selected.Some? && c.selected.value.Custom? ==> c.selected.value.context.value == CustomValue)
    && (c.startEnabled ==> c.selected.Some?)
  }

  lemma InitialIsValid()
    ensures Valid(Initial)
  {
  }

  /** `selectedContext`, resolved. */
  function Selected(c: Choice): (r: Option<Context>)
    ensures r.Some? ==> c.selected.Some?
    ensures Valid(c) ==> (r.Some? <==> c.selected.Some?)
  {
    match c.selected
    case None => None
    case Some(Preset(i)) => if i < |c.presets| then Some(c.presets[i]) else None
    case Some(Custom(ctx)) => Some(ctx)
  }

  /** `selectContext`: marks the card, selects its preset, empties the
      field and enables start. A preset keeps text typed for it earlier. */
  function SelectCard(c: Choice, i: nat): (r: Choice)
    ensures i < |c.presets| ==> r.card == Some(i) && r.selected == Some(Preset(i)) && r.input == "" && r.startEnabled
    ensures i < |c.presets| ==> Selected(r) == Some(c.presets[i])
    ensures r.presets == c.presets
    ensures i >= |c.presets| ==> r == c
  {
    if i < |c.presets| then c.(card := Some(i), selected := Some(Preset(i)), input := "", startEnabled := true) else c
  }

  /** `selectedContext.additionalContext = text`: on a preset this writes
      the shared preset object. */
  function SetAdditional(c: Choice, text: string): (r: Choice)
    ensures r.selected.Some? <==> c.selected.Some?
    ensures r.card == c.card && r.input == c.input && r.startEnabled == c.startEnabled
  {
    match c.selected
    case None => c
    case Some(Preset(i)) =>
      if i < |c.presets| then c.(presets := c.presets[i := c.presets[i].(additional := Some(text))]) else c
    case Some(Custom(ctx)) => c.(selected := Some(Custom(ctx.(additional := Some(text)))))
  }

  /** The `input` handler of the free-text field as written. */
  function CustomInput(c: Choice, value: string): (r: Choice)
    ensures r.input == value
    ensures var t := JsTrim(value);
      && (t != "" ==> r.startEnabled && r.selected.Some?)
      && (t != "" && c.selected.Some? ==> Selected(r).Some? == Selected(c).Some?)
      && (t == "" ==> r.presets == c.presets && r.selected == c.selected)
      && (t == "" && c.card.None? ==> !r.startEnabled)
      && (t == "" && c.card.Some? ==> r.startEnabled == c.startEnabled)
    ensures r.card == c.card
  {
    var t := JsTrim(value);
    var c' := c.(input := value);
    if t != "" && c.selected.Some? then SetAdditional(c', t).(startEnabled := true)
    else if t != "" then c'.(selected := Some(Custom(Context(t, CustomValue, None))), startEnabled := true)
    else if c.card.None? then c'.(startEnabled := false)
    else c'
  }

  /** The free-text handler with the evident intent for a free-text
      context: further typing replaces its label instead of being appended
      to it as additional context. Text typed after picking a card is still
      stored on the preset. */
  function CustomInputIntended(c: Choice, value: string): (r: Choice)
    ensures r.input == value && r.card == c.card
    ensures var t := JsTrim(value);
      t != "" && c.card.None? && Valid(c) ==> Selected(r) == Some(Context(t, CustomValue, None))
  {
    var t := JsTrim(value);
    if t != "" && c.selected.Some? && c.selected.value.Custom? then
      c.(input := value, selected := Some(Custom(Context(t, CustomValue, None))), startEnabled := true)
    else CustomInput(c, value)
  }

  /** Both handlers keep the choice valid. */
  lemma CustomInputKeepsValid(c: Choice, value: string)
    requires Valid(c)
    ensures Valid(CustomInput(c, value))
    ensures Valid(CustomInputIntended(c, value))
  {
  }

  lemma SelectCardKeepsValid(c: Choice, i: nat)
    requires Valid(c)
    ensures Valid(SelectCard(c, i))
  {
  }

  /** The value the backend receives is a preset's value or "custom", and
      never empty. */
  lemma SelectedValueIsKnown(c: Choice)
    requires Valid(c) && c.selected.Some?
    ensures Selected(c).Some?
    ensures var v := Selected(c).value.value;
      v != "" && (v == CustomValue || exists i | 0 <= i < |Presets| :: v == Presets[i].value)
  {
    if c.selected.value.Preset? {
      var i := c.selected.value.index;
      assert Selected(c).value.value == Presets[i].value;
    }
  }

  /** The label the record and speech screens show: `label - additional`
      when there is additional text, the label otherwise. */
  function DisplayLabel(ctx: Context): (r: string)
    ensures ctx.additional.Some? && ctx.additional.value != "" ==> |r| == |ctx.name| + 3 + |ctx.additional.value|
    ensures !(ctx.additional.Some? && ctx.additional.value != "") ==> r == ctx.name
  {
    if ctx.additional.Some? && ctx.additional.value != "" then ctx.name + " - " + ctx.additional.value else ctx.name
  }

  /** The label starts with the context's own label. */
  lemma DisplayLabelStartsWithLabel(ctx: Context)
    ensures StartsWith(DisplayLabel(ctx), ctx.name)
  {
    var r := DisplayLabel(ctx);
    assert r[..|ctx.name|] == ctx.name;
  }

  /** As written, a free-text context freezes its label at the first
      keystroke: typing "c" and then "ca" shows "c - ca". */
  lemma FrozenCustomLabelAsWritten()
    ensures var c := CustomInput(CustomInput(Initial, "c"), "ca");
      Selected(c).Some? && DisplayLabel(Selected(c).value) == "c - ca"
  {
    assert JsTrim("c") == "c" by {
      TrimKeepsKept("c", IsJsWhitespace);
    }
    assert JsTrim("ca") == "ca" by {
      TrimKeepsKept("ca", IsJsWhitespace);
    }
  }

  /** With the intended handler the same keystrokes show "ca". */
  lemma CustomLabelFollowsInputIntended()
    ensures var c := CustomInputIntended(CustomInputIntended(Initial, "c"), "ca");
      Selected(c).Some? && DisplayLabel(Selected(c).value) == "ca"
  {
    assert JsTrim("c") == "c" by {
      TrimKeepsKept("c", IsJsWhitespace);
    }
    assert JsTrim("ca") == "ca" by {
      TrimKeepsKept("ca", IsJsWhitespace);
    }
  }

  /** Text typed after picking a card is kept on the shared preset: emptying
      the field does not remove it, and picking the same card again shows
      it still. */
  lemma AdditionalTextSticksToPreset(c: Choice, i: nat, text: string)
    requires Valid(c) && i < |Presets| && JsTrim(text) != ""
    ensures var c1 := CustomInput(SelectCard(c, i), text);
      var c2 := SelectCard(CustomInput(c1, ""), i);
      Selected(c2) == Some(c.presets[i].(additional := Some(JsTrim(text))))
  {
    assert JsTrim("") == "";
  }

  /** The value the backend receives never depends on typed text when a card
      is picked: it is the preset's value. */
  lemma PresetValueIgnoresTyping(c: Choice, i: nat, text: string)
    requires Valid(c) && i < |Presets|
    ensures var c1 := CustomInput(SelectCard(c, i), text);
      Selected(c1).Some? && Selected(c1).value.value == Presets[i].value
  {
  }

  /** A free-text context is sent as "custom", whatever was typed. */
  lemma CustomValueIsFixed(value: string)
    requires JsTrim(value) != ""
    ensures Selected(CustomInput(Initial, value)) == Some(Context(JsTrim(value), CustomValue, None))
  {
  }
}
