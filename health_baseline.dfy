/** The third onboarding step (`src/components/onboarding/HealthBaseline.jsx`):
    a list of current supplements edited by adding the trimmed input and
    removing by position, and `handleNext`, which needs an exercise frequency
    and a sleep duration before it passes the six health fields on. */
module HealthBaseline {
  import opened Wrappers
  import opened JsValue
  import opened JsText

  /** `data.currentSupplements || []`. The form starts the list as an array and
      only this step writes it, always as an array. */
  function InitialSupplements(data: Record): (list: seq<Value>)
    requires Truthy(Get(data, "currentSupplements")) ==> Get(data, "currentSupplements").Arr?
    ensures Truthy(Get(data, "currentSupplements")) ==> list == Get(data, "currentSupplements").items
    ensures !Truthy(Get(data, "currentSupplements")) ==> list == []
  {
    var v := Get(data, "currentSupplements");
    if Truthy(v) then v.items else []
  }

  /** The supplement list and the text of the input box. */
  datatype Editor = Editor(list: seq<Value>, input: string)

  /** `handleAddSupplement()` */
  function AddSupplement(e: Editor): Editor
  {
    var t := Trim(e.input);
    if t != "" then Editor(e.list + [Str(t)], "") else e
  }

  /** A non-blank input is appended, trimmed, at the end and the input is
      cleared; an input of white space alone changes neither. */
  lemma AddSupplementSpec(e: Editor)
    ensures !AllSpace(e.input) ==>
      AddSupplement(e) == Editor(e.list + [Str(Trim(e.input))], "")
    ensures AllSpace(e.input) ==> AddSupplement(e) == e
    ensures |AddSupplement(e).list| <= |e.list| + 1
    ensures AddSupplement(e).list[..|e.list|] == e.list
  {
    TrimEmptyIff(e.input);
    var r := AddSupplement(e);
    assert r.list[..|e.list|] == e.list;
  }

  /** The text added never starts or ends with white space. */
  lemma AddedSupplementIsTrimmed(e: Editor)
    requires !AllSpace(e.input)
    ensures var t := AddSupplement(e).list[|e.list|];
      t.Str? && t.s != "" && !IsSpace(t.s[0]) && !IsSpace(t.s[|t.s| - 1])
  {
    TrimEmptyIff(e.input);
    TrimShape(e.input);
  }

  /** `list.filter((_, i) => i !== index)` */
  function RemoveAt(list: seq<Value>, index: int): seq<Value>
  {
    if list == [] then []
    else RemoveAt(list[..|list| - 1], index) + (if |list| - 1 == index then [] else [list[|list| - 1]])
  }

  /** Removing at a position in range drops exactly that element and keeps the
      others in order; any other position leaves the list as it is. */
  lemma {:induction false} RemoveAtSpec(list: seq<Value>, index: int)
    ensures 0 <= index < |list| ==> RemoveAt(list, index) == list[..index] + list[index + 1..]
    ensures !(0 <= index < |list|) ==> RemoveAt(list, index) == list
  {
    if list != [] {
      var init := list[..|list| - 1];
      var last := list[|list| - 1];
      RemoveAtSpec(init, index);
      if index == |list| - 1 {
        assert init == list[..index] && list[index + 1..] == [];
      } else if 0 <= index < |list| - 1 {
        assert init[..index] == list[..index];
        assert init[index + 1..] + [last] == list[index + 1..];
      } else {
        assert init + [last] == list;
      }
    }
  }

  /** `handleRemoveSupplement(index)` on the editor: the input is untouched. */
  function RemoveSupplement(e: Editor, index: int): Editor
  {
    Editor(RemoveAt(e.list, index), e.input)
  }

  /** Adding a supplement and then removing the last position gives back the
      list from before. */
  lemma RemoveUndoesAdd(e: Editor)
    requires !AllSpace(e.input)
    ensures RemoveSupplement(AddSupplement(e), |e.list|).list == e.list
  {
    AddSupplementSpec(e);
    var a := AddSupplement(e).list;
    RemoveAtSpec(a, |e.list|);
    assert a[..|e.list|] == e.list;
    assert a[|e.list| + 1..] == [];
  }

  const Required := "Please fill in all required fields"

  /** The alert shown, and the data given to `updateData` when the step
      advances. */
  datatype Outcome = Outcome(alert: string, update: Option<Record>)

  /** `handleNext()`, over the step's state. */
  function HandleNext(exerciseFrequency: Value, sleepHours: Value, caffeine: Value, alcohol: Value,
                      smoking: Value, e: Editor): Outcome
  {
    if !Truthy(exerciseFrequency) || !Truthy(sleepHours) then Outcome(Required, None)
    else
      Outcome("", Some(map[
        "exerciseFrequency" := exerciseFrequency,
        "sleepHours" := ParseIntValue(sleepHours),
        "caffeine" := caffeine,
        "alcohol" := alcohol,
        "smoking" := smoking,
        "currentSupplements" := Arr(e.list)]))
  }

  /** The step is blocked, with the alert and no update, exactly when the
      exercise frequency or the sleep hours are missing. The other three
      choices are never checked. */
  lemma HandleNextSpec(exerciseFrequency: Value, sleepHours: Value, caffeine: Value, alcohol: Value,
                       smoking: Value, e: Editor)
    ensures HandleNext(exerciseFrequency, sleepHours, caffeine, alcohol, smoking, e).update.None?
            <==> !Truthy(exerciseFrequency) || !Truthy(sleepHours)
    ensures HandleNext(exerciseFrequency, sleepHours, caffeine, alcohol, smoking, e).alert == Required
            <==> !Truthy(exerciseFrequency) || !Truthy(sleepHours)
  {
  }

  /** On success exactly the six health fields are passed on, the sleep hours
      parsed as an integer and the supplements as the edited list. */
  lemma HandleNextUpdate(exerciseFrequency: Value, sleepHours: Value, caffeine: Value, alcohol: Value,
                         smoking: Value, e: Editor)
    requires Truthy(exerciseFrequency) && Truthy(sleepHours)
    ensures var u := HandleNext(exerciseFrequency, sleepHours, caffeine, alcohol, smoking, e).update.value;
      && u.Keys == {"exerciseFrequency", "sleepHours", "caffeine", "alcohol", "smoking", "currentSupplements"}
      && u["exerciseFrequency"] == exerciseFrequency && u["caffeine"] == caffeine
      && u["alcohol"] == alcohol && u["smoking"] == smoking
      && u["sleepHours"] == ParseIntValue(sleepHours)
      && u["currentSupplements"] == Arr(e.list)
  {
  }
}
