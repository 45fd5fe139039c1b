/** The multi-select widget of src/components/ui/multi-select.tsx. The selection is
    owned by the parent: every handler computes a new selection and passes it to
    `onChange`; the widget itself only keeps whether its list is open and the text
    typed into its input. */
module MultiSelect {
  import opened Wrappers
  import opened Types
  import Lists

  /** The default of the `placeholder` prop. */
  const DefaultPlaceholder := "Seleziona..."

  /** `Array.isArray(x) ? x : []`; a prop that is not an array is `None`. */
  function SafeList<T>(x: Option<seq<T>>): (r: seq<T>)
    ensures x.Some? ==> r == x.value
    ensures x.None? ==> r == []
  {
    x.GetOr([])
  }

  function OtherThan(item: string): string -> bool {
    (i: string) => i != item
  }

  /** `handleUnselect`'s new selection: every occurrence of `item` is dropped, the
      rest is kept in order. */
  function Unselect(selected: seq<string>, item: string): (r: seq<string>)
    ensures item !in r
    ensures forall i :: 0 <= i < |r| ==> r[i] in selected
    ensures forall i :: 0 <= i < |selected| && selected[i] != item ==> selected[i] in r
    ensures item !in selected ==> r == selected
  {
    Lists.Filter(selected, OtherThan(item))
  }

  /** Unselecting works piecewise, so the survivors keep their relative order. */
  lemma UnselectConcat(a: seq<string>, b: seq<string>, item: string)
    ensures Unselect(a + b, item) == Unselect(a, item) + Unselect(b, item)
  {
    Lists.FilterConcat(a, b, OtherThan(item));
  }

  /** Unselecting a value that was just selected restores the earlier selection. */
  lemma UnselectUndoesSelect(selected: seq<string>, value: string)
    requires value !in selected
    ensures Unselect(selected + [value], value) == selected
  {
    UnselectConcat(selected, [value], value);
    assert Unselect([value], value) == [];
  }

  /** The keys the handler distinguishes. */
  datatype Key = Delete | Backspace | Escape | OtherKey

  /** The selection the Delete/Backspace branch of `handleKeyDown` passes to
      `onChange`: the last value dropped, when the input text is empty and something
      is selected; otherwise no call. */
  function KeyDownChange(key: Key, inputText: string, selected: seq<string>): (r: Option<seq<string>>)
    ensures r.Some? <==> (key == Delete || key == Backspace) && inputText == "" && selected != []
    ensures r.Some? ==> r.value + [selected[|selected| - 1]] == selected
  {
    if (key == Delete || key == Backspace) && inputText == "" && |selected| > 0 then
      Some(selected[..|selected| - 1])
    else None
  }

  function NotSelected(selected: seq<string>): SelectOption -> bool {
    (o: SelectOption) => o.value !in selected
  }

  function ValueOtherThan(value: string): SelectOption -> bool {
    (o: SelectOption) => o.value != value
  }

  /** `selectables`: the options whose value is not selected, in option order. */
  function Selectables(options: seq<SelectOption>, selected: seq<string>): (r: seq<SelectOption>)
    ensures forall i :: 0 <= i < |r| ==> r[i] in options && r[i].value !in selected
    ensures forall i :: 0 <= i < |options| && options[i].value !in selected ==> options[i] in r
    ensures selected == [] ==> r == options
  {
    Lists.Filter(options, NotSelected(selected))
  }

  /** Selecting a value removes exactly the options carrying it from the selectables
      and keeps the order of the others. */
  lemma {:induction false} SelectablesAfterSelect(options: seq<SelectOption>, selected: seq<string>, value: string)
    ensures Selectables(options, selected + [value]) == Lists.Filter(Selectables(options, selected), ValueOtherThan(value))
  {
    if options != [] {
      var o := options[0];
      var head := if o.value !in selected then [o] else [];
      SelectablesAfterSelect(options[1..], selected, value);
      Lists.FilterConcat(head, Selectables(options[1..], selected), ValueOtherThan(value));
      assert (o.value !in selected + [value]) == (o.value !in selected && o.value != value);
    }
  }

  function ValueIs(item: string): SelectOption -> bool {
    (o: SelectOption) => o.value == item
  }

  /** `selectedOption?.label || item`: the label of the first option with the value,
      unless there is none or its label is empty, in which case the raw value. */
  function BadgeLabel(options: seq<SelectOption>, item: string): (r: string)
    ensures (forall i :: 0 <= i < |options| ==> options[i].value != item) ==> r == item
    ensures forall i ::
      (0 <= i < |options| && options[i].value == item && options[i].labelText != ""
       && (forall j :: 0 <= j < i ==> options[j].value != item)) ==> r == options[i].labelText
    ensures forall i ::
      (0 <= i < |options| && options[i].value == item && options[i].labelText == ""
       && (forall j :: 0 <= j < i ==> options[j].value != item)) ==> r == item
    ensures item != "" ==> r != ""
  {
    var found := Lists.Find(options, ValueIs(item));
    if found.Some? && found.value.labelText != "" then found.value.labelText else item
  }

  /** The input's placeholder: shown only while nothing is selected; an omitted
      `placeholder` prop falls back to the default "Seleziona...". */
  function Placeholder(selected: seq<string>, placeholder: Option<string>): (r: Option<string>)
    ensures r.Some? <==> selected == []
    ensures r.Some? && placeholder.Some? ==> r.value == placeholder.value
    ensures r.Some? && placeholder.None? ==> r.value == "Seleziona..."
  {
    if |selected| == 0 then Some(placeholder.GetOr(DefaultPlaceholder)) else None
  }

  class Widget {
    var open: bool
    var inputValue: string
    /** Every selection passed to `onChange`, oldest first. */
    var changes: seq<seq<string>>

    constructor ()
      ensures !open && inputValue == "" && changes == []
    {
      open := false;
      inputValue := "";
      changes := [];
    }

    /** Whether the option list is drawn. */
    predicate DropdownVisible(options: Option<seq<SelectOption>>, selected: Option<seq<string>>)
      reads this
      ensures DropdownVisible(options, selected) <==>
        open && exists i :: 0 <= i < |SafeList(options)| && SafeList(options)[i].value !in SafeList(selected)
    {
      var r := Selectables(SafeList(options), SafeList(selected));
      assert |r| > 0 ==> r[0] in SafeList(options);
      open && |r| > 0
    }

    /** The input's `onFocus` and `onBlur`. */
    method SetOpen(b: bool)
      modifies this`open
      ensures open == b
    {
      open := b;
    }

    /** The input's `onValueChange`. */
    method SetInputValue(text: string)
      modifies this`inputValue
      ensures inputValue == text
    {
      inputValue := text;
    }

    /** `handleUnselect`. */
    method HandleUnselect(selected: Option<seq<string>>, item: string)
      modifies this`changes
      ensures changes == old(changes) + [Unselect(SafeList(selected), item)]
    {
      changes := changes + [Unselect(SafeList(selected), item)];
    }

    /** `handleKeyDown`, with the input mounted; Escape blurs the input, which closes
        the list. */
    method HandleKeyDown(key: Key, selected: Option<seq<string>>)
      modifies this`changes, this`open
      ensures KeyDownChange(key, inputValue, SafeList(selected)).None? ==> changes == old(changes)
      ensures KeyDownChange(key, inputValue, SafeList(selected)).Some? ==>
        changes == old(changes) + [KeyDownChange(key, inputValue, SafeList(selected)).value]
      ensures key == Escape ==> !open
      ensures key != Escape ==> open == old(open)
    {
      var change := KeyDownChange(key, inputValue, SafeList(selected));
      if change.Some? {
        changes := changes + [change.value];
      }
      if key == Escape {
        open := false;
      }
    }

    /** An item's `onSelect`: only the selectables are offered, so the value was not
        selected yet; it is appended and the typed text cleared. */
    method HandleSelect(option: SelectOption, options: Option<seq<SelectOption>>, selected: Option<seq<string>>)
      requires option in Selectables(SafeList(options), SafeList(selected))
      modifies this`changes, this`inputValue
      ensures inputValue == ""
      ensures changes == old(changes) + [SafeList(selected) + [option.value]]
      ensures option.value !in SafeList(selected)
    {
      inputValue := "";
      changes := changes + [SafeList(selected) + [option.value]];
    }
  }
}
