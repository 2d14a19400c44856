/**
 * The multi-select widget: a list of selected option values that the user edits
 * by clicking an option (toggle) or a badge's close button (unselect), and the
 * label shown on each badge.
 */
module MultiSelect {
  import opened Wrappers
  import opened Lists

  datatype SelectOption = SelectOption(labelText: string, value: string)

  /** handleUnselect: the selection without any occurrence of item. */
  function Unselect(selected: seq<string>, item: string): (r: seq<string>)
    ensures item !in r
    ensures forall y :: y != item ==> (y in r <==> y in selected)
    ensures IsSubsequence(r, selected)
    ensures forall y :: y != item ==> multiset(r)[y] == multiset(selected)[y]
  {
    RemoveAllSubsequence(selected, item);
    RemoveAll(selected, item)
  }

  /**
   * Choosing an option in the list: an option already selected is unselected,
   * any other is appended at the end.
   */
  function Toggle(selected: seq<string>, value: string): (r: seq<string>)
    ensures value in r <==> value !in selected
    ensures forall y :: y != value ==> (y in r <==> y in selected)
    ensures value !in selected ==> r == selected + [value]
    ensures value in selected ==> r == Unselect(selected, value)
  {
    if value in selected then Unselect(selected, value) else selected + [value]
  }

  /** Toggling a value that is not selected, and toggling it again, restores the selection. */
  lemma ToggleTwice(selected: seq<string>, value: string)
    requires value !in selected
    ensures Toggle(Toggle(selected, value), value) == selected
  {
    RemoveAllAppended(selected, value);
    RemoveAllAbsent(selected, value);
  }

  /** A selection without duplicates stays without duplicates. */
  lemma ToggleNoDuplicates(selected: seq<string>, value: string)
    requires NoDuplicates(selected)
    ensures NoDuplicates(Toggle(selected, value))
  {
    if value in selected {
      RemoveAllNoDuplicates(selected, value);
    }
  }

  /** Index of the first option whose value is item; |options| when there is none. */
  function FindIndex(options: seq<SelectOption>, item: string): (i: nat)
    ensures i <= |options|
    ensures i < |options| ==> options[i].value == item
    ensures forall j :: 0 <= j < i ==> options[j].value != item
  {
    if options == [] then 0
    else if options[0].value == item then 0
    else 1 + FindIndex(options[1..], item)
  }

  /** The badge label of a selected value: the label of the first option with that value, or none. */
  function BadgeLabel(options: seq<SelectOption>, item: string): (r: Option<string>)
    ensures r.None? <==> forall j :: 0 <= j < |options| ==> options[j].value != item
    ensures r.Some? ==> var i := FindIndex(options, item);
      i < |options| && r.value == options[i].labelText
  {
    var i := FindIndex(options, item);
    if i < |options| then Some(options[i].labelText) else None
  }
}
