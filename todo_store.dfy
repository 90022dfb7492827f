/** The in-memory todo list owned by the App component: an ordered sequence of
    entries and the three operations that replace it with a new sequence
    (add a pending entry, set an entry's done flag, delete an entry). */
module TodoStore {

  /** One todo item: its text and whether it has been ticked off. */
  datatype Entry = Entry(text: string, isDone: bool)

  type TodoList = seq<Entry>

  /** The longest text the entry form lets through. */
  const MaxTextLength: nat := 50

  /** What the entry form hands to the store: non-empty and within the form's length limit. */
  predicate ValidText(text: string)
  {
    0 < |text| <= MaxTextLength
  }

  /** `item.text === entry && !item.isDone`: the entry would block adding `text` again. */
  predicate IsPendingWith(e: Entry, text: string)
  {
    e.text == text && !e.isDone
  }

  /** `list.some(...)`: some pending entry of the list already carries `text`. */
  function HasPending(list: TodoList, text: string): (found: bool)
    ensures found <==> exists k :: 0 <= k < |list| && IsPendingWith(list[k], text)
  {
    if list == [] then false
    else IsPendingWith(list[0], text) || HasPending(list[1..], text)
  }

  /** How many pending entries of the list carry `text`. */
  function PendingCount(list: TodoList, text: string): nat
  {
    if list == [] then 0
    else (if IsPendingWith(list[0], text) then 1 else 0) + PendingCount(list[1..], text)
  }

  /** The store's outcome of an add: whether it was accepted, and the new list. */
  datatype Submitted = Submitted(accepted: bool, list: TodoList)

  /** `submitEntry`: refuse the text when a pending entry already carries it,
      otherwise append it as a new pending entry at the end. */
  function SubmitEntry(list: TodoList, entry: string): (r: Submitted)
    requires ValidText(entry)
    ensures r.accepted <==> forall k :: 0 <= k < |list| ==> !IsPendingWith(list[k], entry)
    ensures !r.accepted ==> r.list == list
    ensures r.accepted ==> |r.list| == |list| + 1 && r.list[..|list|] == list
    ensures r.accepted ==> r.list[|list|] == Entry(entry, false)
  {
    if HasPending(list, entry) then Submitted(false, list)
    else Submitted(true, list + [Entry(entry, false)])
  }

  /** `setIsDone`: the list's `map`, where only the entry whose position equals
      `index` gets its done flag replaced. Any other index matches nothing. */
  function SetIsDone(list: TodoList, isDone: bool, index: int): (r: TodoList)
    ensures |r| == |list|
    ensures forall k :: 0 <= k < |list| ==> r[k].text == list[k].text
    ensures forall k :: 0 <= k < |list| && k != index ==> r[k] == list[k]
    ensures 0 <= index < |list| ==> r[index].isDone == isDone
  {
    if list == [] then []
    else
      var head := if index == 0 then list[0].(isDone := isDone) else list[0];
      [head] + SetIsDone(list[1..], isDone, index - 1)
  }

  /** `delItem`: the list's `filter`, dropping only the entry whose position
      equals `index`. Any other index matches nothing. */
  function DelItem(list: TodoList, index: int): (r: TodoList)
    ensures 0 <= index < |list| ==> r == list[..index] + list[index + 1..]
    ensures !(0 <= index < |list|) ==> r == list
  {
    if list == [] then []
    else
      var rest := DelItem(list[1..], index - 1);
      if index == 0 then
        rest
      else
        assert 0 < index < |list| ==> list[1..][..index - 1] + list[1..][index..] == list[1..index] + list[index + 1..];
        assert 0 < index < |list| ==> [list[0]] + list[1..index] == list[..index];
        [list[0]] + rest
  }

  /** No two pending entries share a text. */
  ghost predicate NoPendingDuplicates(list: TodoList)
  {
    forall i, j :: 0 <= i < j < |list| && !list[i].isDone && !list[j].isDone ==> list[i].text != list[j].text
  }

  // ---------------------------------------------------------------------------
  // Counting pending entries

  lemma {:induction false} PendingCountPositive(list: TodoList, text: string)
    ensures PendingCount(list, text) > 0 <==> HasPending(list, text)
  {
    if list != [] {
      PendingCountPositive(list[1..], text);
    }
  }

  lemma {:induction false} PendingCountAppend(list: TodoList, e: Entry, text: string)
    ensures PendingCount(list + [e], text) == PendingCount(list, text) + (if IsPendingWith(e, text) then 1 else 0)
  {
    if list == [] {
      assert list + [e] == [e];
    } else {
      assert (list + [e])[1..] == list[1..] + [e];
      PendingCountAppend(list[1..], e, text);
    }
  }

  // ---------------------------------------------------------------------------
  // Adding

  /** A rejected add finds at least one pending entry with the text and leaves it
      there; an accepted add leaves exactly one, the new last entry. */
  lemma SubmitPendingCount(list: TodoList, entry: string)
    requires ValidText(entry)
    ensures var r := SubmitEntry(list, entry);
      if r.accepted then PendingCount(list, entry) == 0 && PendingCount(r.list, entry) == 1
      else PendingCount(r.list, entry) >= 1
  {
    PendingCountPositive(list, entry);
    PendingCountAppend(list, Entry(entry, false), entry);
  }

  /** Only pending entries block an add: entries with the same text that are
      done do not. */
  lemma DoneEntriesDoNotBlock(list: TodoList, entry: string)
    requires ValidText(entry)
    requires forall k :: 0 <= k < |list| && list[k].text == entry ==> list[k].isDone
    ensures SubmitEntry(list, entry).accepted
    ensures SubmitEntry(list, entry).list == list + [Entry(entry, false)]
  {
  }

  /** An add never creates two pending entries with the same text. */
  lemma SubmitKeepsNoPendingDuplicates(list: TodoList, entry: string)
    requires ValidText(entry)
    requires NoPendingDuplicates(list)
    ensures NoPendingDuplicates(SubmitEntry(list, entry).list)
  {
  }

  // ---------------------------------------------------------------------------
  // Setting the done flag

  /** In range, `setIsDone` is the single-position update of the done flag. */
  lemma {:induction false} SetIsDoneInRange(list: TodoList, isDone: bool, index: int)
    requires 0 <= index < |list|
    ensures SetIsDone(list, isDone, index) == list[index := list[index].(isDone := isDone)]
  {
  }

  /** Out of range, `setIsDone` leaves the list as it was. */
  lemma SetIsDoneOutOfRange(list: TodoList, isDone: bool, index: int)
    requires !(0 <= index < |list|)
    ensures SetIsDone(list, isDone, index) == list
  {
  }

  /** Setting the same flag at the same position twice is setting it once. */
  lemma SetIsDoneIdempotent(list: TodoList, isDone: bool, index: int)
    ensures SetIsDone(SetIsDone(list, isDone, index), isDone, index) == SetIsDone(list, isDone, index)
  {
  }

  /** Marking an entry done cannot create a duplicate pending entry. */
  lemma SetDoneKeepsNoPendingDuplicates(list: TodoList, index: int)
    requires NoPendingDuplicates(list)
    ensures NoPendingDuplicates(SetIsDone(list, true, index))
  {
  }

  /** Marking a done entry pending again can create a duplicate pending entry:
      add "A", mark it done, add "A" again, then clear the first one's flag. */
  lemma ClearingDoneCanDuplicate()
    ensures var s0 := SubmitEntry([], "A").list;
      var s1 := SetIsDone(s0, true, 0);
      var s2 := SubmitEntry(s1, "A");
      var s3 := SetIsDone(s2.list, false, 0);
      NoPendingDuplicates(s2.list) && s2.accepted && !NoPendingDuplicates(s3)
  {
  }

  // ---------------------------------------------------------------------------
  // Deleting

  /** Deleting position `index` keeps the entries before it and shifts every
      later entry down by one. */
  lemma DelItemShifts(list: TodoList, index: int)
    requires 0 <= index < |list|
    ensures |DelItem(list, index)| == |list| - 1
    ensures forall k :: 0 <= k < index ==> DelItem(list, index)[k] == list[k]
    ensures forall k :: index <= k < |list| - 1 ==> DelItem(list, index)[k] == list[k + 1]
  {
  }

  /** Deleting an entry cannot create a duplicate pending entry. */
  lemma DelItemKeepsNoPendingDuplicates(list: TodoList, index: int)
    requires NoPendingDuplicates(list)
    ensures NoPendingDuplicates(DelItem(list, index))
  {
  }

  // ---------------------------------------------------------------------------
  // A run of adds

  /** The list after offering each text in turn to the store, and how many were accepted. */
  datatype Replay = Replay(list: TodoList, accepted: nat)

  /** Adds each text in order; the list grows by exactly the number of accepted adds. */
  function SubmitAll(list: TodoList, entries: seq<string>): (r: Replay)
    requires forall k :: 0 <= k < |entries| ==> ValidText(entries[k])
    ensures |r.list| == |list| + r.accepted
    ensures r.accepted <= |entries|
    ensures r.list[..|list|] == list
    decreases |entries|
  {
    if entries == [] then Replay(list, 0)
    else
      var step := SubmitEntry(list, entries[0]);
      var rest := SubmitAll(step.list, entries[1..]);
      assert rest.list[..|list|] == rest.list[..|step.list|][..|list|];
      Replay(rest.list, rest.accepted + (if step.accepted then 1 else 0))
  }

  /** A run of adds starting from a list without duplicate pending entries
      ends without any either. */
  lemma {:induction false} SubmitAllKeepsNoPendingDuplicates(list: TodoList, entries: seq<string>)
    requires forall k :: 0 <= k < |entries| ==> ValidText(entries[k])
    requires NoPendingDuplicates(list)
    ensures NoPendingDuplicates(SubmitAll(list, entries).list)
    decreases |entries|
  {
    if entries != [] {
      SubmitKeepsNoPendingDuplicates(list, entries[0]);
      SubmitAllKeepsNoPendingDuplicates(SubmitEntry(list, entries[0]).list, entries[1..]);
    }
  }

  // ---------------------------------------------------------------------------
  // Short sessions

  /** Adding the same text twice: the second add is refused and the list keeps one entry. */
  lemma SameTextTwiceRefused()
    ensures var first := SubmitEntry([], "Buy milk");
      var second := SubmitEntry(first.list, "Buy milk");
      first.accepted && !second.accepted && second.list == [Entry("Buy milk", false)]
  {
  }

  /** Adding two entries and deleting the first leaves the second, still pending. */
  lemma DeleteFirstOfTwo()
    ensures var a := SubmitEntry([], "A");
      var b := SubmitEntry(a.list, "B");
      a.accepted && b.accepted && DelItem(b.list, 0) == [Entry("B", false)]
  {
  }
}
