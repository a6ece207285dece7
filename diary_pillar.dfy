/**
 * The diary page of one pillar: the header gradient picked from the pillar's colour
 * classes, and the reflection / action-plan form with its save guard.
 */
module DiaryPillar {
  import opened Opt
  import opened Text
  import UseCards

  /** The colour words `getGradientClass` looks for, in the order it tries them. */
  const Keywords: seq<string> := ["emerald", "purple", "blue", "pink", "indigo", "green"]

  /** The header gradient of one colour word. */
  function Gradient(word: string): string {
    "bg-gradient-to-br " + UseCards.Shade(word)
  }

  /** Colour word `i` is in `color` and no word tried before it is. */
  predicate FirstFound(color: string, i: int) {
    0 <= i < |Keywords| && Contains(color, Keywords[i]) && forall j :: 0 <= j < i ==> !Contains(color, Keywords[j])
  }

  /** `getGradientClass`: the six tests in their order, then the emerald default. */
  function GradientClass(color: string): (g: string)
    ensures exists k :: k in Keywords && g == Gradient(k)
  {
    assert Keywords[0] == "emerald" && Keywords[1] == "purple" && Keywords[2] == "blue";
    assert Keywords[3] == "pink" && Keywords[4] == "indigo" && Keywords[5] == "green";
    if Contains(color, "emerald") then Gradient("emerald")
    else if Contains(color, "purple") then Gradient("purple")
    else if Contains(color, "blue") then Gradient("blue")
    else if Contains(color, "pink") then Gradient("pink")
    else if Contains(color, "indigo") then Gradient("indigo")
    else if Contains(color, "green") then Gradient("green")
    else Gradient("emerald")
  }

  /**
   * The first colour word found, in the fixed order, decides the gradient; with none
   * found it is the emerald one.
   */
  lemma GradientPrecedence(color: string)
    ensures forall i :: FirstFound(color, i) ==> GradientClass(color) == Gradient(Keywords[i])
    ensures (forall i :: 0 <= i < |Keywords| ==> !Contains(color, Keywords[i])) ==> GradientClass(color) == Gradient("emerald")
  {
    assert Keywords[0] == "emerald" && Keywords[1] == "purple" && Keywords[2] == "blue";
    assert Keywords[3] == "pink" && Keywords[4] == "indigo" && Keywords[5] == "green";
  }

  /**
   * The gradient class of a colour `from-W-500 to-W-600` whose word `W` is the `i`-th
   * keyword, when each keyword tried before it lacks a character the colour lacks.
   */
  lemma WordColorGradient(i: int, missing: seq<char>)
    requires 0 <= i < |Keywords| && |missing| == i
    requires forall j :: 0 <= j < i ==> missing[j] in Keywords[j] && missing[j] !in Keywords[i]
    requires forall j :: 0 <= j < i ==> missing[j] !in "from-" && missing[j] !in "-500 to-" && missing[j] !in "-600"
    ensures GradientClass(UseCards.Shade(Keywords[i])) == Gradient(Keywords[i])
  {
    var w := Keywords[i];
    var color := UseCards.Shade(w);
    assert color[5..5 + |w|] == w;
    OccursContained(color, w, 5);
    forall j | 0 <= j < i
      ensures !Contains(color, Keywords[j])
    {
      ShadeLacks(w, missing[j]);
      MissingCharNotContained(color, Keywords[j], missing[j]);
    }
    GradientPrecedence(color);
    assert FirstFound(color, i);
  }

  /** Each colour word's own colour classes get that word's gradient. */
  lemma ShadeGradient(i: int)
    requires 0 <= i < |Keywords|
    ensures GradientClass(UseCards.Shade(Keywords[i])) == Gradient(Keywords[i])
  {
    if i < 3 {
      EarlyShadeGradient(i);
    } else {
      LateShadeGradient(i);
    }
  }

  /** ShadeGradient for emerald, purple and blue. */
  lemma EarlyShadeGradient(i: int)
    requires 0 <= i < 3
    ensures GradientClass(UseCards.Shade(Keywords[i])) == Gradient(Keywords[i])
  {
    if i == 0 {
      WordColorGradient(i, []);
    } else if i == 1 {
      WordColorGradient(i, ['a']);
    } else {
      WordColorGradient(i, ['a', 'p']);
    }
  }

  /** ShadeGradient for pink, indigo and green. */
  lemma LateShadeGradient(i: int)
    requires 3 <= i < |Keywords|
    ensures GradientClass(UseCards.Shade(Keywords[i])) == Gradient(Keywords[i])
  {
    if i == 3 {
      WordColorGradient(i, ['a', 'u', 'b']);
    } else if i == 4 {
      WordColorGradient(i, ['a', 'p', 'b', 'p']);
    } else {
      WordColorGradient(i, ['a', 'p', 'b', 'p', 'i']);
    }
  }

  /**
   * The colour classes of a word without the letters l, p, b, i and n hold none of
   * the six words (each has one of those letters) and get the emerald gradient.
   */
  lemma SageGradient(w: string)
    requires 'l' !in w && 'p' !in w && 'b' !in w && 'i' !in w && 'n' !in w
    ensures GradientClass(UseCards.Shade(w)) == Gradient("emerald")
  {
    var color := UseCards.Shade(w);
    ShadeLacks(w, 'l');
    ShadeLacks(w, 'p');
    ShadeLacks(w, 'b');
    ShadeLacks(w, 'i');
    ShadeLacks(w, 'n');
    MissingCharNotContained(color, "emerald", 'l');
    MissingCharNotContained(color, "purple", 'p');
    MissingCharNotContained(color, "blue", 'b');
    MissingCharNotContained(color, "pink", 'p');
    MissingCharNotContained(color, "indigo", 'i');
    MissingCharNotContained(color, "green", 'n');
    NoneFoundGradient(color);
  }

  /** A character in neither the word nor the fixed text around it is not in its colour classes. */
  lemma ShadeLacks(w: string, c: char)
    requires c !in w && c !in "from-" && c !in "-500 to-" && c !in "-600"
    ensures c !in UseCards.Shade(w)
  {
  }

  /** With none of the six words in the colour, the emerald default applies. */
  lemma NoneFoundGradient(color: string)
    requires !Contains(color, "emerald") && !Contains(color, "purple") && !Contains(color, "blue")
    requires !Contains(color, "pink") && !Contains(color, "indigo") && !Contains(color, "green")
    ensures GradientClass(color) == Gradient("emerald")
  {
  }

  /** The position in `Keywords` of a category's colour word; -1 for a category without one. */
  function WordIndex(categoria: string): int {
    if categoria == "financeiro" then 0
    else if categoria == "espiritual" then 1
    else if categoria == "produtividade" then 2
    else if categoria == "social" then 3
    else if categoria == "educacao" then 4
    else if categoria == "saude" then 5
    else -1
  }

  /** The category table gives each of the six categories the colour classes of its word. */
  lemma KnownCategoryShade(categoria: string)
    requires 0 <= WordIndex(categoria)
    ensures categoria in UseCards.ColorMap
    ensures UseCards.CategoryColor(categoria) == UseCards.Shade(Keywords[WordIndex(categoria)])
  {
  }

  /** Any other category is not in the table and gets the sage colour classes. */
  lemma OtherCategoryShade(categoria: string)
    requires WordIndex(categoria) < 0
    ensures categoria !in UseCards.ColorMap
    ensures UseCards.CategoryColor(categoria) == UseCards.Shade("sage")
  {
  }

  /**
   * Each of the six categories gets the gradient of its own colour classes; any other
   * category, whose colour is the sage default, gets the emerald gradient.
   */
  lemma CategoryGradient(categoria: string)
    ensures categoria in UseCards.ColorMap ==>
      GradientClass(UseCards.CategoryColor(categoria)) == "bg-gradient-to-br " + UseCards.CategoryColor(categoria)
    ensures categoria !in UseCards.ColorMap ==> GradientClass(UseCards.CategoryColor(categoria)) == Gradient("emerald")
  {
    if 0 <= WordIndex(categoria) {
      KnownCategoryShade(categoria);
      ShadeGradient(WordIndex(categoria));
    } else {
      OtherCategoryShade(categoria);
      SageGradient("sage");
    }
  }

  /** What `saveEntry(pillarId, currentReflection, actionPlan)` is called with. */
  datatype SaveCall = SaveCall(pillarId: string, reflection: string, actionPlan: string)

  /** `!pillarId`: the route has no pillar id, or an empty one. */
  predicate MissingId(pillarId: Option<string>) {
    pillarId.None? || pillarId.value == ""
  }

  /**
   * The guard of `handleSave`: a pillar id, and a reflection or an action plan that is
   * not blank after trimming; then the call it makes, with the texts as typed.
   */
  function SaveRequest(pillarId: Option<string>, reflection: string, actionPlan: string): (r: Option<SaveCall>)
    ensures r.Some? <==> !MissingId(pillarId) && !(IsBlank(reflection) && IsBlank(actionPlan))
    ensures r.Some? ==> r.value == SaveCall(pillarId.value, reflection, actionPlan)
  {
    if MissingId(pillarId) || (IsBlank(reflection) && IsBlank(actionPlan)) then None
    else Some(SaveCall(pillarId.value, reflection, actionPlan))
  }

  /** The save button's `disabled`: both texts blank after trimming, or a save under way. */
  predicate SaveDisabled(reflection: string, actionPlan: string, saving: bool) {
    (IsBlank(reflection) && IsBlank(actionPlan)) || saving
  }

  /**
   * On a pillar's page (an id present) and with no save under way, the button is
   * enabled exactly when pressing it saves.
   */
  lemma EnabledIffSaves(pillarId: string, reflection: string, actionPlan: string)
    requires pillarId != ""
    ensures !SaveDisabled(reflection, actionPlan, false) <==> SaveRequest(Some(pillarId), reflection, actionPlan).Some?
  {
  }

  /** Text made only of whitespace is blank, so two such fields are never saved. */
  lemma WhitespaceNotSaved(pillarId: Option<string>, reflection: string, actionPlan: string)
    requires forall k :: 0 <= k < |reflection| ==> IsWhitespace(reflection[k])
    requires forall k :: 0 <= k < |actionPlan| ==> IsWhitespace(actionPlan[k])
    ensures SaveRequest(pillarId, reflection, actionPlan) == None
  {
    BlankIffAllWhitespace(reflection);
    BlankIffAllWhitespace(actionPlan);
  }

  /** The diary form of one pillar. */
  class DiaryForm {
    const pillarId: Option<string>
    var currentReflection: string
    var actionPlan: string
    var saving: bool

    /** Empty texts, nothing being saved. */
    constructor (pillarId: Option<string>)
      ensures this.pillarId == pillarId && currentReflection == "" && actionPlan == "" && !saving
    {
      this.pillarId := pillarId;
      currentReflection := "";
      actionPlan := "";
      saving := false;
    }

    /**
     * `handleSave`, with `succeeds` standing for whether `saveEntry` returns or throws.
     * A refused save changes nothing. Otherwise both texts are cleared after a success
     * and kept after a failure, and `saving` is false once it is over.
     */
    method HandleSave(succeeds: bool) returns (call: Option<SaveCall>)
      modifies this
      ensures call == SaveRequest(pillarId, old(currentReflection), old(actionPlan))
      ensures call.Some? && succeeds ==> currentReflection == "" && actionPlan == "" && Disabled()
      ensures call.None? || !succeeds ==> currentReflection == old(currentReflection) && actionPlan == old(actionPlan)
      ensures call.Some? ==> !saving
      ensures call.None? ==> saving == old(saving)
    {
      call := SaveRequest(pillarId, currentReflection, actionPlan);
      if call.None? {
        return;
      }
      saving := true;
      if succeeds {
        currentReflection := "";
        actionPlan := "";
      }
      saving := false;
    }

    /** Whether the save button is disabled now. */
    function Disabled(): bool
      reads this
    {
      SaveDisabled(currentReflection, actionPlan, saving)
    }
  }
}
