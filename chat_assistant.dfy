/** The chat panel's input box: when a message is sent, what is sent, and how the box is cleared. */
module ChatAssistant {
  import opened Common
  import opened Text

  /** The submit guard: something other than white space was typed and no reply is awaited. */
  predicate CanSubmit(input: string, isLoading: bool)
  {
    Trim(input) != [] && !isLoading
  }

  /** The Send button's `disabled` attribute. */
  predicate SendDisabled(input: string, isLoading: bool)
  {
    isLoading || Trim(input) == []
  }

  /** The button is disabled exactly when submitting would do nothing. */
  lemma DisabledIffGuardFails(input: string, isLoading: bool)
    ensures SendDisabled(input, isLoading) <==> !CanSubmit(input, isLoading)
  {
  }

  /** Input that is nothing but white space is never sent. */
  lemma BlankNeverSent(input: string, isLoading: bool)
    ensures CanSubmit(input, isLoading) <==> !isLoading && !AllSpace(input)
  {
    TrimEmptyIffAllSpace(input);
  }

  /**
   * What is sent is the input with its surrounding white space removed: a
   * non-empty piece of the input that neither starts nor ends with white
   * space and is unchanged by trimming again.
   */
  lemma SentTextIsTrimmed(input: string, isLoading: bool)
    requires CanSubmit(input, isLoading)
    ensures var t := Trim(input);
      t != [] && !IsSpace(t[0]) && !IsSpace(t[|t| - 1]) && Trim(t) == t && |t| <= |input|
  {
    var _ := TrimShape(input);
    TrimEnds(input);
    TrimIdempotent(input);
  }

  /** The `input` state of the chat panel. */
  class ChatInput {
    var input: string

    constructor ()
      ensures input == ""
    {
      input := "";
    }

    /** The text area's `onChange`. */
    method Change(value: string)
      modifies this
      ensures input == value
    {
      input := value;
    }

    /**
     * `handleSubmit`: when the guard holds, the trimmed input is sent
     * (returned here in place of the `onSendMessage` call) and the box is
     * cleared; otherwise nothing is sent and the box keeps its text.
     */
    method Submit(isLoading: bool) returns (sent: Option<string>)
      modifies this
      ensures CanSubmit(old(input), isLoading) ==> sent == Some(Trim(old(input))) && input == ""
      ensures !CanSubmit(old(input), isLoading) ==> sent == None && input == old(input)
    {
      sent := None;
      var trimmed := Trim(input);
      if trimmed != [] && !isLoading {
        sent := Some(trimmed);
        input := "";
      }
    }

    /** `handleKeyPress`: Enter without Shift submits; any other key, or Shift+Enter, does nothing here. */
    method KeyPress(key: string, shiftKey: bool, isLoading: bool) returns (sent: Option<string>)
      modifies this
      ensures key == "Enter" && !shiftKey && CanSubmit(old(input), isLoading) ==>
        sent == Some(Trim(old(input))) && input == ""
      ensures !(key == "Enter" && !shiftKey && CanSubmit(old(input), isLoading)) ==>
        sent == None && input == old(input)
    {
      sent := None;
      if key == "Enter" && !shiftKey {
        sent := Submit(isLoading);
      }
    }
  }
}
