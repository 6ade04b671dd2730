/** `createInitialPrompt` and `createDetailPrompt`: the two template texts the
    script sends to the model. The source file has CRLF line endings, which a
    template literal reads as a single newline, so each line break below is
    `\n` followed by the eight spaces of indentation the template carries. */
module Prompts {
  import opened Wrappers
  import opened Text
  import opened SuggestionParser

  const InitialLead := "I have these ingredients: "

  /** A reply in the format the initial prompt asks for: a `## ` heading line,
      then the description and the ingredients on one more line. */
  function ReplyInFormat(name: string, description: string, ingredients: string): string
  {
    ("## " + name) + "\n" + DetailsLine(description, ingredients)
  }

  /** The second line of such a reply. */
  function DetailsLine(description: string, ingredients: string): string
  {
    (description + " ") + IngredientsLabel + (" " + ingredients)
  }

  /** The format as the prompt spells it out; its `\n` is the escape in the template. */
  const FormatExample := ReplyInFormat("[Name]", "[Description]", "[ingredients]")

  const InitialRequest := ". Suggest 3 specific recipes I can make. For each provide:\n"
    + "        1. Creative recipe name\n"
    + "        2. One-sentence description\n"
    + "        3. Main ingredients used\n"
    + "        Format each like: " + FormatExample

  const DetailLead := "Provide detailed instructions for: "

  const DetailRequest := ". Include:\n"
    + "        1. Ingredients list with quantities\n"
    + "        2. Step-by-step instructions\n"
    + "        3. Cooking time\n"
    + "        4. Serving size\n"
    + "        Format with markdown headers (### for sections)"

  /** The text a template puts around its one slot. */
  function Fill(lead: string, slot: string, request: string): string
  {
    lead + slot + request
  }

  /** The slot of a filled template, if `p` has the template's lead and request around it. */
  function SlotOf(p: string, lead: string, request: string): (r: Option<string>)
    ensures r.Some? ==> p == Fill(lead, r.value, request)
  {
    if |lead| + |request| <= |p| && p[..|lead|] == lead && p[|p| - |request|..] == request
    then
      var slot := p[|lead|..|p| - |request|];
      assert p == p[..|lead|] + slot + p[|p| - |request|..];
      Some(slot)
    else None
  }

  /** `createInitialPrompt(ingredients)`. */
  function CreateInitialPrompt(ingredients: string): (p: string)
    ensures StartsWith(p, InitialLead)
  {
    Fill(InitialLead, ingredients, InitialRequest)
  }

  /** `createDetailPrompt(recipeName)`. */
  function CreateDetailPrompt(recipeName: string): (p: string)
    ensures StartsWith(p, DetailLead)
  {
    Fill(DetailLead, recipeName, DetailRequest)
  }

  /** What was filled into a template can be read back out of it. */
  lemma SlotOfFill(lead: string, slot: string, request: string)
    ensures SlotOf(Fill(lead, slot, request), lead, request) == Some(slot)
  {
    var p := Fill(lead, slot, request);
    assert p[..|lead|] == lead;
    assert p[|p| - |request|..] == request;
    assert p[|lead|..|p| - |request|] == slot;
  }

  /** The ingredients the user typed are carried into the initial prompt unchanged. */
  lemma InitialPromptCarriesIngredients(ingredients: string)
    ensures SlotOf(CreateInitialPrompt(ingredients), InitialLead, InitialRequest) == Some(ingredients)
  {
    SlotOfFill(InitialLead, ingredients, InitialRequest);
  }

  /** The recipe name is carried into the detail prompt unchanged. */
  lemma DetailPromptCarriesName(recipeName: string)
    ensures SlotOf(CreateDetailPrompt(recipeName), DetailLead, DetailRequest) == Some(recipeName)
  {
    SlotOfFill(DetailLead, recipeName, DetailRequest);
  }

  /** Different ingredients give different prompts, and so do different names. */
  lemma PromptsInjective(x: string, y: string)
    ensures CreateInitialPrompt(x) == CreateInitialPrompt(y) ==> x == y
    ensures CreateDetailPrompt(x) == CreateDetailPrompt(y) ==> x == y
  {
    InitialPromptCarriesIngredients(x);
    InitialPromptCarriesIngredients(y);
    DetailPromptCarriesName(x);
    DetailPromptCarriesName(y);
  }

  /** No initial prompt is a detail prompt. */
  lemma PromptsDistinct(x: string, y: string)
    ensures CreateInitialPrompt(x) != CreateDetailPrompt(y)
  {
    assert CreateInitialPrompt(x)[0] == 'I';
    assert CreateDetailPrompt(y)[0] == 'P';
  }

  /** A reply written in the format the initial prompt asks for gives one
      suggestion whose description is empty: the description is asked for on
      the same line as `Ingredients:`, and a line with that label only ever
      sets the ingredients. The one exception is a second line that itself
      starts with `## `, which opens a second record. */
  lemma RequestedFormatOneRecord(name: string, description: string, ingredients: string)
    requires '\n' !in name && '\n' !in description && '\n' !in ingredients
    requires !IsHeading(DetailsLine(description, ingredients))
    ensures IsIngredientsLine(DetailsLine(description, ingredients))
    ensures Suggestions(ReplyInFormat(name, description, ingredients))
         == [Suggestion(Trim(name), "", IngredientsField(DetailsLine(description, ingredients)))]
  {
    var h, l := "## " + name, DetailsLine(description, ingredients);
    ReplyLines(name, description, ingredients);
    LabelInDetails(description, ingredients);
    HeadingAndLine(h, l);
    assert h[3..] == name;
  }

  /** The label sits right after the description and its space. */
  lemma LabelInDetails(description: string, ingredients: string)
    ensures IsIngredientsLine(DetailsLine(description, ingredients))
  {
    var l, p := DetailsLine(description, ingredients), |description| + 1;
    assert l[p..p + |IngredientsLabel|] == IngredientsLabel;
    assert OccursAt(l, IngredientsLabel, p);
    ContainsIff(l, IngredientsLabel);
  }

  /** With no `I` in the description and the ingredients, the ingredients
      field is the ingredients, trimmed. */
  lemma RequestedFormatLeavesDescriptionEmpty(name: string, description: string, ingredients: string)
    requires '\n' !in name && '\n' !in description && '\n' !in ingredients
    requires 'I' !in description && 'I' !in ingredients
    requires !IsHeading(DetailsLine(description, ingredients))
    ensures Suggestions(ReplyInFormat(name, description, ingredients))
         == [Suggestion(Trim(name), "", Trim(ingredients))]
  {
    var d, r := description + " ", " " + ingredients;
    RequestedFormatOneRecord(name, description, ingredients);
    LabelledLine(d, r);
    TrimSpaceFirst(ingredients);
  }

  /** The two lines of a reply in the format hold no newline, and the first is a heading. */
  lemma ReplyLines(name: string, description: string, ingredients: string)
    requires '\n' !in name && '\n' !in description && '\n' !in ingredients
    ensures '\n' !in "## " + name && '\n' !in DetailsLine(description, ingredients)
    ensures IsHeading("## " + name)
  {
  }

  /** The prompt's own example is such a reply. */
  lemma FormatExampleLeavesDescriptionEmpty()
    ensures Suggestions(FormatExample) == [Suggestion("[Name]", "", "[ingredients]")]
  {
    ExamplePlaceholders();
    assert DetailsLine("[Description]", "[ingredients]")[0] == '[';
    RequestedFormatLeavesDescriptionEmpty("[Name]", "[Description]", "[ingredients]");
  }

  /** The placeholders of the example hold no newline and no `I`, and `trim` keeps them. */
  lemma ExamplePlaceholders()
    ensures '\n' !in "[Name]" && '\n' !in "[Description]" && '\n' !in "[ingredients]"
    ensures 'I' !in "[Description]" && 'I' !in "[ingredients]"
    ensures Trim("[Name]") == "[Name]" && Trim("[ingredients]") == "[ingredients]"
  {
    TrimWord("[Name]");
    TrimWord("[ingredients]");
    NoNewline("[Name]");
    NoNewline("[Description]");
    NoNewline("[ingredients]");
  }

  lemma NoNewline(w: string)
    requires w != [] && w[0] == '[' && forall i :: 0 < i < |w| ==> 'A' <= w[i] <= 'z' || w[i] == ']'
    ensures '\n' !in w
  {
  }

  /** `trim` keeps a word in brackets. */
  lemma TrimWord(w: string)
    requires |w| >= 2 && w[0] == '[' && w[|w| - 1] == ']'
    ensures Trim(w) == w
  {
    TrimPadded([], w, []);
    assert [] + w + [] == w;
  }
}
