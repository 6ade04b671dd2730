/** `processAIResponse` and the decision part of `handleUserMessage`: what the
    chat shows for a reply, and for a message the user sends. Whether a
    request is the initial one is a parameter here; the script finds it out
    by looking for a suggestion card on the page. */
module ResponseInterpreter {
  import opened Wrappers
  import opened Text
  import opened SuggestionParser
  import opened Formatter
  import opened ChiefAIClient
  import opened ErrorMessages
  import opened Prompts

  /** What the chat shows as the AI's answer. */
  datatype Display =
      /** Suggestion cards, one per record. */
    | SuggestionList(suggestions: seq<Suggestion>)
      /** The reply as it came. */
    | RawReply(text: string)
      /** The reply turned into HTML by the formatter. */
    | Formatted(html: string)
      /** One of the notices for a failed request. */
    | ErrorNotice(notice: Notice)

  /** `processAIResponse(response, isInitialRequest)`. */
  function ProcessAIResponse(response: string, isInitialRequest: bool): (d: Display)
    ensures d.SuggestionList? || d.RawReply? || d.Formatted?
    ensures d.SuggestionList? ==> d.suggestions == Suggestions(response) && |d.suggestions| > 0
  {
    if isInitialRequest then
      var suggestions := Suggestions(response);
      if |suggestions| > 0 then SuggestionList(suggestions) else RawReply(response)
    else Formatted(FormatRecipeResponse(response))
  }

  /** In initial mode the reply is shown as it came exactly when it has no
      `## ` heading line, and otherwise as one card per heading line. */
  lemma InitialReply(response: string)
    ensures ProcessAIResponse(response, true) == RawReply(response) <==> NoHeading(Lines(response))
    ensures ProcessAIResponse(response, true).SuggestionList? <==> !NoHeading(Lines(response))
    ensures ProcessAIResponse(response, true).SuggestionList? ==>
      |ProcessAIResponse(response, true).suggestions| == CountHeadings(Lines(response))
  {
    SuggestionsEmptyIff(response);
    SuggestionCount(response);
  }

  /** In detail mode the reply is always formatted, and what is shown holds no newline. */
  lemma DetailReply(response: string)
    ensures ProcessAIResponse(response, false) == Formatted(FormatRecipeResponse(response))
    ensures '\n' !in ProcessAIResponse(response, false).html
  {
  }

  /** A reply in the format the initial prompt asks for gives one card, with
      an empty description; without `I` in the description and the
      ingredients, the card's ingredients are the ingredients, trimmed. */
  lemma RequestedFormatCard(name: string, description: string, ingredients: string)
    requires '\n' !in name && '\n' !in description && '\n' !in ingredients
    requires !IsHeading(DetailsLine(description, ingredients))
    ensures IsIngredientsLine(DetailsLine(description, ingredients))
    ensures ProcessAIResponse(ReplyInFormat(name, description, ingredients), true)
         == SuggestionList([Suggestion(Trim(name), "", IngredientsField(DetailsLine(description, ingredients)))])
    ensures 'I' !in description && 'I' !in ingredients ==>
      ProcessAIResponse(ReplyInFormat(name, description, ingredients), true)
         == SuggestionList([Suggestion(Trim(name), "", Trim(ingredients))])
  {
    RequestedFormatOneRecord(name, description, ingredients);
    if 'I' !in description && 'I' !in ingredients {
      RequestedFormatLeavesDescriptionEmpty(name, description, ingredients);
    }
  }

  /** The prompt for a message: the initial prompt builds on the ingredients,
      the detail prompt on a recipe name. */
  function PromptFor(message: string, isInitialRequest: bool): string
  {
    if isInitialRequest then CreateInitialPrompt(message) else CreateDetailPrompt(message)
  }

  /** `handleUserMessage`: a message that is blank once trimmed sends nothing;
      otherwise the trimmed message goes into the prompt for the mode, the
      request is made with the default retries, and either the reply is
      processed or the error's message is classified. */
  function HandleUserMessage(input: string, isInitialRequest: bool, transport: (string, nat) -> Outcome): Option<Display>
  {
    var message := Trim(input);
    if message == "" then None
    else
      match Call(PromptFor(message, isInitialRequest), DefaultRetries, transport, 0)
      case Success(reply) => Some(ProcessAIResponse(reply, isInitialRequest))
      case Failure(error) => Some(ErrorNotice(Classify(error)))
  }

  /** Nothing is sent exactly when the message is all whitespace; otherwise
      the prompt carries the trimmed message, a reply is processed in the
      mode of the request, a failure shows the notice for the last attempt's
      error, and the answer is a notice exactly when every attempt failed. */
  lemma HandleUserMessageOutcome(input: string, isInitialRequest: bool, transport: (string, nat) -> Outcome)
    ensures HandleUserMessage(input, isInitialRequest, transport).None? <==> AllWhitespace(input)
    ensures !AllWhitespace(input) ==>
      var prompt := PromptFor(Trim(input), isInitialRequest);
      var r := Call(prompt, DefaultRetries, transport, 0);
      HandleUserMessage(input, isInitialRequest, transport)
        == Some(if r.Success? then ProcessAIResponse(r.value, isInitialRequest)
                else ErrorNotice(Classify(AttemptResult(transport(prompt, DefaultRetries)).error)))
    ensures !AllWhitespace(input) ==>
      var prompt := PromptFor(Trim(input), isInitialRequest);
      (HandleUserMessage(input, isInitialRequest, transport).value.ErrorNotice? <==>
        forall k :: 0 <= k <= DefaultRetries ==> AttemptResult(transport(prompt, k)).Failure?)
  {
    TrimSpec(input);
    if !AllWhitespace(input) {
      CallFailsIff(PromptFor(Trim(input), isInitialRequest), DefaultRetries, transport);
    }
  }

  /** The prompt for a message carries the message, in the template of its mode. */
  lemma PromptForCarriesMessage(message: string, isInitialRequest: bool)
    ensures isInitialRequest ==> SlotOf(PromptFor(message, true), InitialLead, InitialRequest) == Some(message)
    ensures !isInitialRequest ==> SlotOf(PromptFor(message, false), DetailLead, DetailRequest) == Some(message)
  {
    InitialPromptCarriesIngredients(message);
    DetailPromptCarriesName(message);
  }
}
