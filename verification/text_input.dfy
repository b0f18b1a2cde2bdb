/**
 * `src/components/TextInput.tsx`: a text area capped at 500 characters whose
 * trimmed content is handed to the parent on the button or on Ctrl/Cmd+Enter.
 * The component's state is its text; the parent's callback becomes an
 * optional submitted value.
 */
module TextInput {
  import opened Wrappers
  import opened JsString

  const MaxLength: nat := 500
  const EnterKey := "Enter"

  /** `onChange`: the new value, cut to its first 500 characters. */
  function OnChange(value: string): (text: string)
    ensures |text| == Min(|value|, MaxLength)
    ensures text == value[..|text|]
  {
    if |value| <= MaxLength then value else value[..MaxLength]
  }

  /** The text after an event, and what `onSubmit` received, if it was called. */
  datatype Submit = Submit(text: string, submitted: Option<string>)

  /**
   * `handleSubmit`: blank text is ignored and stays; otherwise the trimmed
   * text is submitted and the area is cleared.
   */
  function HandleSubmit(text: string): (r: Submit)
    ensures r.submitted.None? <==> AllWhitespace(text)
    ensures r.submitted.None? ==> r.text == text
    ensures r.submitted.Some? ==>
              && r.text == ""
              && r.submitted.value != ""
              && Trimmed(r.submitted.value)
              && |r.submitted.value| <= |text|
  {
    var trimmed := Trim(text);
    if |trimmed| == 0 then Submit(text, None)
    else Submit("", Some(trimmed))
  }

  /** The parts of a keyboard event `handleKeyDown` looks at. */
  datatype KeyEvent = KeyEvent(key: string, ctrlKey: bool, metaKey: bool)

  /** Whether a key press submits: Enter together with Ctrl or Meta. */
  predicate SubmitsOn(e: KeyEvent) {
    e.key == EnterKey && (e.ctrlKey || e.metaKey)
  }

  /**
   * `handleKeyDown`: a submitting key press has its default prevented and
   * runs `handleSubmit`; any other key leaves the text and calls nothing.
   */
  function HandleKeyDown(text: string, e: KeyEvent): (r: (bool, Submit))
    ensures r.0 <==> SubmitsOn(e)
    ensures !SubmitsOn(e) ==> r.1 == Submit(text, None)
    ensures SubmitsOn(e) ==> r.1 == HandleSubmit(text)
  {
    if SubmitsOn(e) then (true, HandleSubmit(text)) else (false, Submit(text, None))
  }

  /** The submit button's `disabled` attribute. */
  function ButtonDisabled(disabled: bool, text: string): (r: bool)
    ensures r <==> disabled || AllWhitespace(text)
  {
    disabled || |Trim(text)| == 0
  }

  /** An enabled button always submits something. */
  lemma EnabledButtonSubmits(text: string)
    requires !ButtonDisabled(false, text)
    ensures HandleSubmit(text).submitted.Some?
  {
  }

  /** Whatever is typed, a submitted string is never longer than the cap. */
  lemma SubmittedWithinCap(value: string)
    ensures var r := HandleSubmit(OnChange(value));
            r.submitted.Some? ==> 0 < |r.submitted.value| <= MaxLength
  {
  }

  /** The whitespace typed around a sentence is what submission drops, nothing more. */
  lemma SubmitDropsMargins(before: string, sentence: string, after: string)
    requires AllWhitespace(before) && AllWhitespace(after)
    requires Trimmed(sentence) && sentence != ""
    ensures HandleSubmit(before + sentence + after) == Submit("", Some(sentence))
  {
    TrimUnique(before, sentence, after);
  }

  /** Plain Enter inserts a newline rather than submitting. */
  lemma PlainEnterDoesNotSubmit(text: string)
    ensures HandleKeyDown(text, KeyEvent(EnterKey, false, false)) == (false, Submit(text, None))
  {
  }
}
