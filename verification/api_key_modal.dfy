/** The API-key dialog (components/ApiKeyModal.tsx): an editable key that
    resets to the stored key whenever the dialog's props change, a
    show/hide toggle, a format hint and a save button. */
module ApiKeyModal {
  import opened Wrappers
  import opened JsText

  /** The prefix genuine Gemini keys carry. */
  const KeyPrefix: string := "AIza"

  /** Keys up to this many UTF-16 code units never draw the format hint. */
  const HintMinLength: nat := 10

  datatype Props = Props(isOpen: bool, initialKey: string)

  datatype State = State(key: string, showKey: bool)

  datatype InputType = Text | Password

  /** The parts of the open dialog that depend on state. */
  datatype View = View(inputType: InputType, value: string, formatWarning: bool, saveEnabled: bool)

  /** The state on mount: the stored key, hidden. */
  function Mount(p: Props): (m: State)
    ensures m.key == p.initialKey && !m.showKey
  {
    State(p.initialKey, false)
  }

  /** The effect on `[initialKey, isOpen]`: when either prop changed, the
      edited key is reset to the stored one; `showKey` is never reset. */
  function PropsChanged(m: State, before: Props, after: Props): (r: State)
    ensures r.showKey == m.showKey
    ensures before != after ==> r.key == after.initialKey
    ensures before == after ==> r == m
  {
    if before != after then m.(key := after.initialKey) else m
  }

  /** Typing into the input replaces the key. */
  function Edit(m: State, value: string): (r: State)
    ensures r.key == value && r.showKey == m.showKey
  {
    m.(key := value)
  }

  /** The eye button flips visibility and leaves the key alone. */
  function ToggleShow(m: State): (r: State)
    ensures r.showKey == !m.showKey && r.key == m.key
  {
    m.(showKey := !m.showKey)
  }

  /** The format hint: a key longer than ten code units that does not
      start with "AIza". */
  predicate ShowsFormatWarning(key: string) {
    Utf16Length(key) > HintMinLength && !StartsWith(key, KeyPrefix)
  }

  /** The save button is disabled for the empty key only. */
  predicate SaveDisabled(key: string) {
    key == []
  }

  /** The dialog's rendering: nothing while closed; otherwise the input,
      masked unless `showKey`, the hint and the save button's state. */
  function Render(p: Props, m: State): (v: Option<View>)
    ensures v.None? <==> !p.isOpen
    ensures v.Some? ==> (v.value.inputType == Password <==> !m.showKey)
    ensures v.Some? ==> v.value.value == m.key
    ensures v.Some? ==> (v.value.saveEnabled <==> m.key != [])
    ensures v.Some? ==> (v.value.formatWarning <==> ShowsFormatWarning(m.key))
    ensures v.Some? && v.value.formatWarning ==> v.value.saveEnabled
  {
    if !p.isOpen then None
    else
      Some(View(if m.showKey then Text else Password, m.key,
                ShowsFormatWarning(m.key), !SaveDisabled(m.key)))
  }

  /** Clicking save: the key as typed goes to `onSave`, untrimmed and
      unvalidated, unless the button is disabled or the dialog closed. */
  function Save(p: Props, m: State): (r: Option<string>)
    ensures r.Some? <==> p.isOpen && m.key != []
    ensures r.Some? ==> r.value == m.key
  {
    if p.isOpen && !SaveDisabled(m.key) then Some(m.key) else None
  }

  /** The hint in terms of characters: it always shows for a key of more
      than ten characters without the prefix, never for one of five or
      fewer, and for keys inside the Basic Multilingual Plane exactly when
      the key has more than ten characters and lacks the prefix. */
  lemma FormatWarningByLength(key: string)
    ensures |key| > HintMinLength && !StartsWith(key, KeyPrefix) ==> ShowsFormatWarning(key)
    ensures |key| <= HintMinLength / 2 ==> !ShowsFormatWarning(key)
    ensures StartsWith(key, KeyPrefix) ==> !ShowsFormatWarning(key)
    ensures (forall i :: 0 <= i < |key| ==> (key[i] as int) < 0x1_0000) ==>
              (ShowsFormatWarning(key) <==> |key| > HintMinLength && !StartsWith(key, KeyPrefix))
  {
  }

  /** Two toggles restore the state. */
  lemma ToggleTwice(m: State)
    ensures ToggleShow(ToggleShow(m)) == m
  {
  }

  /** Edits are discarded on reopening: closing and reopening the dialog
      brings back the stored key, while the visibility choice survives. */
  lemma ReopenDiscardsEdits(m: State, initialKey: string, typed: string)
    ensures var open := Props(true, initialKey);
            var closed := Props(false, initialKey);
            var edited := Edit(m, typed);
            var reopened := PropsChanged(PropsChanged(edited, open, closed), closed, open);
            && reopened.key == initialKey
            && reopened.showKey == m.showKey
            && Render(closed, PropsChanged(edited, open, closed)) == None
  {
  }
}
