/** The two TextInput implementations as classes: each callback makes the step of TextInputStates for its event. */
module TextInputs {
  import opened Collections
  import opened TextInputStates

  class TextInputUnstableV0 {
    var enteredSurface: Option<nat>
    var latestSerial: nat
    var inputPanelVisible: bool
    var textDirection: Direction
    var language: Bytes
    var currentPreEdit: PreEdit
    var pendingPreEdit: PreEdit
    var currentCommit: Commit
    var pendingCommit: Commit
    ghost var signals: seq<Signal>
    ghost var history: seq<Event0>

    ghost predicate Valid()
      reads this
    {
      Run0(FRESH, history) == State(
        enteredSurface, latestSerial, inputPanelVisible, textDirection, language,
        currentPreEdit, pendingPreEdit, currentCommit, pendingCommit, signals)
    }

    constructor ()
      ensures Valid() && history == []
    {
      enteredSurface, latestSerial, inputPanelVisible, textDirection, language := None, 0, false, Auto, [];
      currentPreEdit, pendingPreEdit := NO_PREEDIT, NO_PREEDIT;
      currentCommit, pendingCommit := NO_COMMIT, NO_COMMIT;
      signals, history := [], [];
    }

    ghost method Record(e: Event0)
      requires Step0(Run0(FRESH, history), e) == State(
        enteredSurface, latestSerial, inputPanelVisible, textDirection, language,
        currentPreEdit, pendingPreEdit, currentCommit, pendingCommit, signals)
      modifies this`history
      ensures Valid() && history == old(history) + [e]
    {
      assert (history + [e])[..|history|] == history;
      history := history + [e];
    }

    method Enter(surface: Option<nat>)
      requires Valid()
      modifies this
      ensures Valid() && history == old(history) + [Enter0(surface)]
    {
      enteredSurface := surface;
      signals := signals + [Entered];
      Record(Enter0(surface));
    }

    method Leave()
      requires Valid()
      modifies this
      ensures Valid() && history == old(history) + [Leave0]
    {
      enteredSurface := None;
      signals := signals + [Left];
      Record(Leave0);
    }

    method InputPanelState(state: nat)
      requires Valid()
      modifies this
      ensures Valid() && history == old(history) + [Panel0(state)]
    {
      if (if inputPanelVisible then 1 else 0) != state {
        inputPanelVisible := state != 0;
        signals := signals + [InputPanelStateChanged];
      }
      Record(Panel0(state));
    }

    method PreEditString(serial: nat, text: Bytes, commit: Bytes)
      requires Valid()
      modifies this
      ensures Valid() && history == old(history) + [PreEditString0(serial, text, commit)]
    {
      pendingPreEdit := pendingPreEdit.(commitText := commit, text := text);
      if !pendingPreEdit.cursorSet {
        pendingPreEdit := pendingPreEdit.(cursor := |pendingPreEdit.text|);
      }
      currentPreEdit := pendingPreEdit;
      pendingPreEdit := NO_PREEDIT;
      signals := signals + [ComposingTextChanged];
      Record(PreEditString0(serial, text, commit));
    }

    method PreEditCursor(index: int)
      requires Valid()
      modifies this
      ensures Valid() && history == old(history) + [PreEditCursor0(index)]
    {
      pendingPreEdit := pendingPreEdit.(cursor := index, cursorSet := true);
      Record(PreEditCursor0(index));
    }

    method CommitString(serial: nat, text: Bytes)
      requires Valid()
      modifies this
      ensures Valid() && history == old(history) + [CommitString0(serial, text)]
    {
      pendingCommit := pendingCommit.(text := text);
      currentCommit := pendingCommit;
      pendingCommit := NO_COMMIT;
      signals := signals + [Committed];
      Record(CommitString0(serial, text));
    }

    method CursorPosition(index: int, anchor: int)
      requires Valid()
      modifies this
      ensures Valid() && history == old(history) + [CursorPosition0(index, anchor)]
    {
      pendingCommit := pendingCommit.(cursor := index, anchor := anchor);
      Record(CursorPosition0(index, anchor));
    }

    method DeleteSurroundingText(index: int, length: nat)
      requires Valid()
      modifies this
      ensures Valid() && history == old(history) + [DeleteSurrounding0(index, length)]
    {
      var before := Abs(index);
      pendingCommit := pendingCommit.(deletion := Deletion(before, (length - before) % TWO32));
      Record(DeleteSurrounding0(index, length));
    }

    method Keysym(serial: nat, time: nat, sym: nat, key: Wire<Key>)
      requires Valid()
      modifies this
      ensures Valid() && history == old(history) + [Keysym0(serial, time, sym, key)]
    {
      if key.Known? {
        signals := signals + [KeyEvent(sym, key.value, time)];
      }
      Record(Keysym0(serial, time, sym, key));
    }

    method Language(serial: nat, lang: Bytes)
      requires Valid()
      modifies this
      ensures Valid() && history == old(history) + [Language0(serial, lang)]
    {
      if language != lang {
        language := lang;
        signals := signals + [LanguageChanged];
      }
      Record(Language0(serial, lang));
    }

    method TextDirection(serial: nat, direction: Wire<Direction>)
      requires Valid()
      modifies this
      ensures Valid() && history == old(history) + [TextDirection0(serial, direction)]
    {
      if direction.Known? && direction.value != textDirection {
        textDirection := direction.value;
        signals := signals + [TextDirectionChanged];
      }
      Record(TextDirection0(serial, direction));
    }
  }

  class TextInputUnstableV2 {
    var enteredSurface: Option<nat>
    var latestSerial: nat
    var inputPanelVisible: bool
    var textDirection: Direction
    var language: Bytes
    var currentPreEdit: PreEdit
    var pendingPreEdit: PreEdit
    var currentCommit: Commit
    var pendingCommit: Commit
    ghost var signals: seq<Signal>
    ghost var history: seq<Event2>

    ghost predicate Valid()
      reads this
    {
      Run2(FRESH, history) == State(
        enteredSurface, latestSerial, inputPanelVisible, textDirection, language,
        currentPreEdit, pendingPreEdit, currentCommit, pendingCommit, signals)
    }

    constructor ()
      ensures Valid() && history == []
    {
      enteredSurface, latestSerial, inputPanelVisible, textDirection, language := None, 0, false, Auto, [];
      currentPreEdit, pendingPreEdit := NO_PREEDIT, NO_PREEDIT;
      currentCommit, pendingCommit := NO_COMMIT, NO_COMMIT;
      signals, history := [], [];
    }

    ghost method Record(e: Event2)
      requires Step2(Run2(FRESH, history), e) == State(
        enteredSurface, latestSerial, inputPanelVisible, textDirection, language,
        currentPreEdit, pendingPreEdit, currentCommit, pendingCommit, signals)
      modifies this`history
      ensures Valid() && history == old(history) + [e]
    {
      assert (history + [e])[..|history|] == history;
      history := history + [e];
    }

    method Enter(serial: nat, surface: Option<nat>)
      requires Valid()
      modifies this
      ensures Valid() && history == old(history) + [Enter2(serial, surface)]
    {
      latestSerial := serial;
      enteredSurface := surface;
      signals := signals + [Entered];
      Record(Enter2(serial, surface));
    }

    method Leave(serial: nat)
      requires Valid()
      modifies this
      ensures Valid() && history == old(history) + [Leave2(serial)]
    {
      enteredSurface := None;
      latestSerial := serial;
      signals := signals + [Left];
      Record(Leave2(serial));
    }

    method InputPanelState(state: nat)
      requires Valid()
      modifies this
      ensures Valid() && history == old(history) + [Panel2(state)]
    {
      if (if inputPanelVisible then 1 else 0) != state {
        inputPanelVisible := state != 0;
        signals := signals + [InputPanelStateChanged];
      }
      Record(Panel2(state));
    }

    method PreEditString(text: Bytes, commit: Bytes)
      requires Valid()
      modifies this
      ensures Valid() && history == old(history) + [PreEditString2(text, commit)]
    {
      pendingPreEdit := pendingPreEdit.(commitText := commit, text := text);
      if !pendingPreEdit.cursorSet {
        pendingPreEdit := pendingPreEdit.(cursor := |pendingPreEdit.text|);
      }
      currentPreEdit := pendingPreEdit;
      pendingPreEdit := NO_PREEDIT;
      signals := signals + [ComposingTextChanged];
      Record(PreEditString2(text, commit));
    }

    method PreEditCursor(index: int)
      requires Valid()
      modifies this
      ensures Valid() && history == old(history) + [PreEditCursor2(index)]
    {
      pendingPreEdit := pendingPreEdit.(cursor := index, cursorSet := true);
      Record(PreEditCursor2(index));
    }

    method CommitString(text: Bytes)
      requires Valid()
      modifies this
      ensures Valid() && history == old(history) + [CommitString2(text)]
    {
      pendingCommit := pendingCommit.(text := text);
      currentCommit := pendingCommit;
      pendingCommit := NO_COMMIT;
      signals := signals + [Committed];
      Record(CommitString2(text));
    }

    method CursorPosition(index: int, anchor: int)
      requires Valid()
      modifies this
      ensures Valid() && history == old(history) + [CursorPosition2(index, anchor)]
    {
      pendingCommit := pendingCommit.(cursor := index, anchor := anchor);
      Record(CursorPosition2(index, anchor));
    }

    method DeleteSurroundingText(before: nat, after: nat)
      requires Valid()
      modifies this
      ensures Valid() && history == old(history) + [DeleteSurrounding2(before, after)]
    {
      pendingCommit := pendingCommit.(deletion := Deletion(before, after));
      Record(DeleteSurrounding2(before, after));
    }

    method Keysym(time: nat, sym: nat, key: Wire<Key>)
      requires Valid()
      modifies this
      ensures Valid() && history == old(history) + [Keysym2(time, sym, key)]
    {
      if key.Known? {
        signals := signals + [KeyEvent(sym, key.value, time)];
      }
      Record(Keysym2(time, sym, key));
    }

    method Language(lang: Bytes)
      requires Valid()
      modifies this
      ensures Valid() && history == old(history) + [Language2(lang)]
    {
      if language != lang {
        language := lang;
        signals := signals + [LanguageChanged];
      }
      Record(Language2(lang));
    }

    method TextDirection(direction: Wire<Direction>)
      requires Valid()
      modifies this
      ensures Valid() && history == old(history) + [TextDirection2(direction)]
    {
      if direction.Known? && direction.value != textDirection {
        textDirection := direction.value;
        signals := signals + [TextDirectionChanged];
      }
      Record(TextDirection2(direction));
    }
  }
}
