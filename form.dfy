/** The entry form's submit handler: it passes the typed text to the store
    and clears the input only when the store accepted it. */
module Form {
  import opened TodoStore

  /** What a submit can change: the App's list and the form's input text. */
  datatype Screen = Screen(list: TodoList, text: string)

  /** `submit`: an empty input is ignored; otherwise the text is offered to the
      store, and the input is cleared if it was accepted and kept if it was
      refused (where the user is told the item already exists). */
  function Submit(s: Screen): (r: Screen)
    requires |s.text| <= MaxTextLength
    ensures s.text == "" ==> r == s
    ensures s.text != "" && HasPending(s.list, s.text) ==> r == s
    ensures s.text != "" && !HasPending(s.list, s.text) ==> r == Screen(s.list + [Entry(s.text, false)], "")
    ensures r.text == "" || r.text == s.text
  {
    if s.text == "" then s
    else
      var outcome := SubmitEntry(s.list, s.text);
      if outcome.accepted then Screen(outcome.list, "") else Screen(outcome.list, s.text)
  }

  /** The input is cleared exactly when a non-empty text was added to the list. */
  lemma SubmitClearsIffAdded(s: Screen)
    requires |s.text| <= MaxTextLength
    ensures var r := Submit(s);
      (r.text == "" && s.text != "") <==> |r.list| == |s.list| + 1
  {
  }

  /** Submitting keeps the input within the form's length limit and never
      introduces a duplicate pending entry. */
  lemma SubmitKeepsScreenInvariant(s: Screen)
    requires |s.text| <= MaxTextLength
    requires NoPendingDuplicates(s.list)
    ensures |Submit(s).text| <= MaxTextLength
    ensures NoPendingDuplicates(Submit(s).list)
  {
  }
}
