/**
 The state behind a TextInput and the events of the two protocol versions that drive it. Both versions
 collect a pending preedit and a pending commit and publish them when the string arrives.
 */
module TextInputStates {
  import opened Collections

  const TWO32 := 0x1_0000_0000
  const INT32_MAX := 0x7fff_ffff

  type Bytes = seq<nat>   // QByteArray: what the wire string holds before its terminator

  datatype PreEdit = PreEdit(text: Bytes, commitText: Bytes, cursor: int, cursorSet: bool)

  datatype Deletion = Deletion(beforeLength: nat, afterLength: nat)

  datatype Commit = Commit(text: Bytes, cursor: int, anchor: int, deletion: Deletion)

  datatype Direction = LeftToRight | RightToLeft | Auto

  // An enumerator of the protocol, or a value it does not define.
  datatype Wire<T> = Known(value: T) | Unknown(raw: nat)

  datatype Key = Released | Pressed

  datatype Signal =
    | Entered
    | Left
    | InputPanelStateChanged
    | ComposingTextChanged
    | Committed
    | KeyEvent(sym: nat, key: Key, time: nat)
    | LanguageChanged
    | TextDirectionChanged

  datatype State = State(
    surface: Option<nat>,
    latestSerial: nat,
    panelVisible: bool,
    direction: Direction,
    language: Bytes,
    currentPreEdit: PreEdit,
    pendingPreEdit: PreEdit,
    currentCommit: Commit,
    pendingCommit: Commit,
    signals: seq<Signal>)

  const NO_PREEDIT := PreEdit([], [], 0, false)

  const NO_COMMIT := Commit([], 0, 0, Deletion(0, 0))

  // The constructor of the private part that both versions share
  const FRESH := State(None, 0, false, Auto, [], NO_PREEDIT, NO_PREEDIT, NO_COMMIT, NO_COMMIT, [])

  function Say(s: State, signal: Signal): State {
    s.(signals := s.signals + [signal])
  }

  // ---------- what the callbacks of both versions do ----------

  // The visible flag is a bool compared with the number on the wire.
  function SetPanel(s: State, state: nat): State {
    if (if s.panelVisible then 1 else 0) == state then s
    else Say(s.(panelVisible := state != 0), InputPanelStateChanged)
  }

  function SetPreEdit(s: State, text: Bytes, commit: Bytes): State {
    var p := s.pendingPreEdit.(text := text, commitText := commit);
    var q := if p.cursorSet then p else p.(cursor := |text|);
    Say(s.(currentPreEdit := q, pendingPreEdit := NO_PREEDIT), ComposingTextChanged)
  }

  function SetPreEditCursor(s: State, index: int): State {
    s.(pendingPreEdit := s.pendingPreEdit.(cursor := index, cursorSet := true))
  }

  function SetCommit(s: State, text: Bytes): State {
    Say(s.(currentCommit := s.pendingCommit.(text := text), pendingCommit := NO_COMMIT), Committed)
  }

  function SetCursor(s: State, index: int, anchor: int): State {
    s.(pendingCommit := s.pendingCommit.(cursor := index, anchor := anchor))
  }

  function SetDeletion(s: State, before: nat, after: nat): State {
    s.(pendingCommit := s.pendingCommit.(deletion := Deletion(before, after)))
  }

  function SetKey(s: State, time: nat, sym: nat, key: Wire<Key>): State {
    if key.Known? then Say(s, KeyEvent(sym, key.value, time)) else s
  }

  function SetLanguage(s: State, language: Bytes): State {
    if s.language == language then s else Say(s.(language := language), LanguageChanged)
  }

  function SetDirection(s: State, direction: Wire<Direction>): State {
    if direction.Unknown? || direction.value == s.direction then s
    else Say(s.(direction := direction.value), TextDirectionChanged)
  }

  // ---------- version 2 ----------

  datatype Event2 =
    | Enter2(serial: nat, surface: Option<nat>)   // None: a surface this client does not know
    | Leave2(serial: nat)
    | Panel2(state: nat)
    | PreEditString2(text: Bytes, commit: Bytes)
    | PreEditStyling2
    | PreEditCursor2(index: int)
    | CommitString2(text: Bytes)
    | CursorPosition2(index: int, anchor: int)
    | DeleteSurrounding2(before: nat, after: nat)
    | ModifiersMap2
    | Keysym2(time: nat, sym: nat, key: Wire<Key>)
    | Language2(language: Bytes)
    | TextDirection2(direction: Wire<Direction>)
    | ConfigureSurrounding2
    | InputMethodChanged2

  function Step2(s: State, e: Event2): State {
    match e
    case Enter2(serial, surface) => Say(s.(latestSerial := serial, surface := surface), Entered)
    case Leave2(serial) => Say(s.(latestSerial := serial, surface := None), Left)
    case Panel2(state) => SetPanel(s, state)
    case PreEditString2(text, commit) => SetPreEdit(s, text, commit)
    case PreEditCursor2(index) => SetPreEditCursor(s, index)
    case CommitString2(text) => SetCommit(s, text)
    case CursorPosition2(index, anchor) => SetCursor(s, index, anchor)
    case DeleteSurrounding2(before, after) => SetDeletion(s, before, after)
    case Keysym2(time, sym, key) => SetKey(s, time, sym, key)
    case Language2(language) => SetLanguage(s, language)
    case TextDirection2(direction) => SetDirection(s, direction)
    case _ => s
  }

  function Run2(init: State, events: seq<Event2>): State {
    if events == [] then init
    else Step2(Run2(init, events[..|events| - 1]), events[|events| - 1])
  }

  // What the event adds to the signals
  function Told2(s: State, e: Event2): seq<Signal> {
    if s.signals <= Step2(s, e).signals then Step2(s, e).signals[|s.signals|..] else []
  }

  // Language and direction are announced exactly on change; the panel exactly when the number on the wire
  // is not that of its flag, which for 0 and 1 is exactly on change. Every string and focus event is told,
  // and a key event with a known state, with what it carries.
  lemma SignalsExactly2(s: State, e: Event2)
    ensures var t, told := Step2(s, e), Told2(s, e);
            && t.signals == s.signals + told && |told| <= 1
            && (LanguageChanged in told <==> t.language != s.language)
            && (TextDirectionChanged in told <==> t.direction != s.direction)
            && (InputPanelStateChanged in told <==> e.Panel2? && e.state != if s.panelVisible then 1 else 0)
            && (e.Panel2? && e.state <= 1 ==> (InputPanelStateChanged in told <==> t.panelVisible != s.panelVisible))
            && (ComposingTextChanged in told <==> e.PreEditString2?)
            && (Committed in told <==> e.CommitString2?)
            && (Entered in told <==> e.Enter2?) && (Left in told <==> e.Leave2?)
            && (forall sym, key, time :: KeyEvent(sym, key, time) in told <==> e == Keysym2(time, sym, Known(key)))
  {
    var t := Step2(s, e);
    assert t.signals == s.signals || (|t.signals| == |s.signals| + 1 && t.signals[..|s.signals|] == s.signals);
  }

  // ---------- version 0 ----------

  datatype Event0 =
    | Enter0(surface: Option<nat>)
    | Leave0
    | Panel0(state: nat)
    | PreEditString0(serial: nat, text: Bytes, commit: Bytes)
    | PreEditStyling0
    | PreEditCursor0(index: int)
    | CommitString0(serial: nat, text: Bytes)
    | CursorPosition0(index: int, anchor: int)
    | DeleteSurrounding0(index: int, length: nat)
    | ModifiersMap0
    | Keysym0(serial: nat, time: nat, sym: nat, key: Wire<Key>)
    | Language0(serial: nat, language: Bytes)
    | TextDirection0(serial: nat, direction: Wire<Direction>)

  // qAbs; the one number whose absolute value does not fit is no legal argument.
  function Abs(i: int): nat {
    if i < 0 then -i else i
  }

  // Unsigned subtraction wraps around.
  function BeforeOf(index: int): nat {
    Abs(index)
  }

  function AfterOf(index: int, length: nat): nat {
    (length - Abs(index)) % TWO32
  }

  function Step0(s: State, e: Event0): State {
    match e
    case Enter0(surface) => Say(s.(surface := surface), Entered)
    case Leave0 => Say(s.(surface := None), Left)
    case Panel0(state) => SetPanel(s, state)
    case PreEditString0(_, text, commit) => SetPreEdit(s, text, commit)
    case PreEditCursor0(index) => SetPreEditCursor(s, index)
    case CommitString0(_, text) => SetCommit(s, text)
    case CursorPosition0(index, anchor) => SetCursor(s, index, anchor)
    case DeleteSurrounding0(index, length) => SetDeletion(s, BeforeOf(index), AfterOf(index, length))
    case Keysym0(_, time, sym, key) => SetKey(s, time, sym, key)
    case Language0(_, language) => SetLanguage(s, language)
    case TextDirection0(_, direction) => SetDirection(s, direction)
    case _ => s
  }

  function Run0(init: State, events: seq<Event0>): State {
    if events == [] then init
    else Step0(Run0(init, events[..|events| - 1]), events[|events| - 1])
  }

  // ---------- equivalence of the versions ----------

  // The deletion a version 0 event asks for is (before, after).
  ghost predicate Asks(index: int, length: nat, before: nat, after: nat) {
    -INT32_MAX <= index <= INT32_MAX && length < TWO32 && BeforeOf(index) == before && AfterOf(index, length) == after
  }

  // Event e0 tells a version 0 client what e2 tells a version 2 client, serials aside.
  ghost predicate Corresponds(e0: Event0, e2: Event2) {
    match e2
    case Enter2(_, surface) => e0 == Enter0(surface)
    case Leave2(_) => e0 == Leave0
    case Panel2(state) => e0 == Panel0(state)
    case PreEditString2(text, commit) => e0.PreEditString0? && e0.text == text && e0.commit == commit
    case PreEditCursor2(index) => e0 == PreEditCursor0(index)
    case CommitString2(text) => e0.CommitString0? && e0.text == text
    case CursorPosition2(index, anchor) => e0 == CursorPosition0(index, anchor)
    case DeleteSurrounding2(before, after) =>
      e0.DeleteSurrounding0? && e0.index == 0 - before && e0.length == (before + after) % TWO32
    case Keysym2(time, sym, key) => e0.Keysym0? && e0.time == time && e0.sym == sym && e0.key == key
    case Language2(language) => e0.Language0? && e0.language == language
    case TextDirection2(direction) => e0.TextDirection0? && e0.direction == direction
    case _ => e0.PreEditStyling0? || e0.ModifiersMap0?
  }

  // The arguments have the widths of the protocol, and version 0 can express the deletion.
  predicate InRange(e: Event2) {
    e.DeleteSurrounding2? ==> e.before <= INT32_MAX && e.after < TWO32
  }

  // The formula of the correspondence asks for exactly the deletion it came from, and no deletion beyond
  // its range can be asked for in version 0.
  lemma DeletionExact(before: nat, after: nat)
    requires before < TWO32 && after < TWO32
    ensures (exists index, length :: Asks(index, length, before, after)) <==> before <= INT32_MAX
    ensures before <= INT32_MAX ==> Asks(0 - before, (before + after) % TWO32, before, after)
  {
    if before <= INT32_MAX {
      assert (before + after) % TWO32 == before + after || (before + after) % TWO32 == before + after - TWO32;
      assert Asks(0 - before, (before + after) % TWO32, before, after);
    }
  }

  // All a user of TextInput can see is the same.
  ghost predicate ShowsTheSame(s: State, t: State) {
    s == t.(latestSerial := s.latestSerial)
  }

  lemma StepsCorrespond(s0: State, s2: State, e0: Event0, e2: Event2)
    requires ShowsTheSame(s0, s2) && Corresponds(e0, e2) && InRange(e2)
    ensures ShowsTheSame(Step0(s0, e0), Step2(s2, e2))
  {
    if e2.DeleteSurrounding2? {
      DeletionExact(e2.before, e2.after);
    }
  }

  // On every stream of corresponding events both versions show the same state and emit the same signals.
  lemma {:induction false} VersionsAreEquivalent(init: State, e0s: seq<Event0>, e2s: seq<Event2>)
    requires |e0s| == |e2s|
    requires forall i | 0 <= i < |e2s| :: Corresponds(e0s[i], e2s[i]) && InRange(e2s[i])
    ensures ShowsTheSame(Run0(init, e0s), Run2(init, e2s))
  {
    if e2s != [] {
      var last := |e2s| - 1;
      VersionsAreEquivalent(init, e0s[..last], e2s[..last]);
      StepsCorrespond(Run0(init, e0s[..last]), Run2(init, e2s[..last]), e0s[last], e2s[last]);
    }
  }

  // What a version 0 event would be in version 2.
  function To2(e: Event0): Event2 {
    match e
    case Enter0(surface) => Enter2(0, surface)
    case Leave0 => Leave2(0)
    case Panel0(state) => Panel2(state)
    case PreEditString0(_, text, commit) => PreEditString2(text, commit)
    case PreEditCursor0(index) => PreEditCursor2(index)
    case CommitString0(_, text) => CommitString2(text)
    case CursorPosition0(index, anchor) => CursorPosition2(index, anchor)
    case DeleteSurrounding0(index, length) => DeleteSurrounding2(BeforeOf(index), AfterOf(index, length))
    case Keysym0(_, time, sym, key) => Keysym2(time, sym, key)
    case Language0(_, language) => Language2(language)
    case TextDirection0(_, direction) => TextDirection2(direction)
    case PreEditStyling0 => PreEditStyling2
    case ModifiersMap0 => ModifiersMap2
  }

  lemma StepTo2(s0: State, s2: State, e: Event0)
    requires ShowsTheSame(s0, s2)
    ensures ShowsTheSame(Step0(s0, e), Step2(s2, To2(e)))
  {
  }

  function AllTo2(events: seq<Event0>): seq<Event2> {
    seq(|events|, i requires 0 <= i < |events| => To2(events[i]))
  }

  // A version 0 stream read as a version 2 stream: this carries the results about batches over.
  lemma {:induction false} Version0IsVersion2(init: State, events: seq<Event0>)
    ensures ShowsTheSame(Run0(init, events), Run2(init, AllTo2(events)))
  {
    if events != [] {
      var last := |events| - 1;
      Version0IsVersion2(init, events[..last]);
      StepTo2(Run0(init, events[..last]), Run2(init, AllTo2(events[..last])), events[last]);
      assert AllTo2(events)[..last] == AllTo2(events[..last]);
    }
  }

  // ---------- batches ----------

  // The position set since the last preedit string, if any.
  function PendingCursor(events: seq<Event2>): Option<int> {
    if events == [] then None
    else
      match events[|events| - 1]
      case PreEditCursor2(index) => Some(index)
      case PreEditString2(_, _) => None
      case _ => PendingCursor(events[..|events| - 1])
  }

  lemma {:induction false} PendingPreEditIs(init: State, events: seq<Event2>)
    requires init.pendingPreEdit == NO_PREEDIT
    ensures Run2(init, events).pendingPreEdit ==
      match PendingCursor(events) case Some(index) => PreEdit([], [], index, true) case None => NO_PREEDIT
  {
    if events != [] {
      PendingPreEditIs(init, events[..|events| - 1]);
    }
  }

  function PreEditOf(text: Bytes, commit: Bytes, cursor: Option<int>): PreEdit {
    match cursor
    case Some(index) => PreEdit(text, commit, index, true)
    case None => PreEdit(text, commit, |text|, false)
  }

  // A preedit string publishes its own texts, with the last cursor sent since the previous one or, if
  // there was none, the end of the text. Nothing older has any part in it.
  lemma {:induction false} PreEditIsItsBatch(init: State, events: seq<Event2>, text: Bytes, commit: Bytes)
    requires init.pendingPreEdit == NO_PREEDIT
    ensures Run2(init, events + [PreEditString2(text, commit)]).currentPreEdit
         == PreEditOf(text, commit, PendingCursor(events))
  {
    PendingPreEditIs(init, events);
    assert (events + [PreEditString2(text, commit)])[..|events|] == events;
  }

  // What was sent for the next commit since the last commit string; None is what was not sent.
  datatype Batch = Batch(cursor: Option<(int, int)>, deletion: Option<Deletion>)

  function PendingBatch(events: seq<Event2>): Batch {
    if events == [] then Batch(None, None)
    else
      var before := PendingBatch(events[..|events| - 1]);
      match events[|events| - 1]
      case CommitString2(_) => Batch(None, None)
      case CursorPosition2(index, anchor) => before.(cursor := Some((index, anchor)))
      case DeleteSurrounding2(b, a) => before.(deletion := Some(Deletion(b, a)))
      case _ => before
  }

  function CommitOf(text: Bytes, batch: Batch): Commit {
    var (cursor, anchor) := match batch.cursor case Some(pair) => pair case None => (0, 0);
    Commit(text, cursor, anchor, match batch.deletion case Some(d) => d case None => Deletion(0, 0))
  }

  lemma {:induction false} PendingCommitIs(init: State, events: seq<Event2>)
    requires init.pendingCommit == NO_COMMIT
    ensures Run2(init, events).pendingCommit == CommitOf([], PendingBatch(events))
  {
    if events != [] {
      PendingCommitIs(init, events[..|events| - 1]);
    }
  }

  // A commit string publishes its text with the last cursor and deletion sent since the previous one, and
  // zeros for what was not sent; the first batch is no exception.
  lemma {:induction false} CommitIsItsBatch(init: State, events: seq<Event2>, text: Bytes)
    requires init.pendingCommit == NO_COMMIT
    ensures Run2(init, events + [CommitString2(text)]).currentCommit == CommitOf(text, PendingBatch(events))
  {
    PendingCommitIs(init, events);
    assert (events + [CommitString2(text)])[..|events|] == events;
  }

  // Nothing is pending after these events: there are none, or the last one published what was.
  predicate CommitsEnd(past: seq<Event2>) {
    past == [] || past[|past| - 1].CommitString2?
  }

  predicate PreEditsEnd(past: seq<Event2>) {
    past == [] || past[|past| - 1].PreEditString2?
  }

  lemma {:induction false} CommitForgetsThePast(past: seq<Event2>, batch: seq<Event2>)
    requires CommitsEnd(past)
    ensures PendingBatch(past + batch) == PendingBatch(batch)
  {
    if batch == [] {
      assert past + batch == past;
    } else {
      var all, last := past + batch, |batch| - 1;
      CommitForgetsThePast(past, batch[..last]);
      assert all[..|all| - 1] == past + batch[..last];
    }
  }

  lemma {:induction false} PreEditForgetsThePast(past: seq<Event2>, batch: seq<Event2>)
    requires PreEditsEnd(past)
    ensures PendingCursor(past + batch) == PendingCursor(batch)
  {
    if batch == [] {
      assert past + batch == past;
    } else {
      var all, last := past + batch, |batch| - 1;
      PreEditForgetsThePast(past, batch[..last]);
      assert all[..|all| - 1] == past + batch[..last];
    }
  }

  // So a client that receives a batch shows what a new client would, whatever it received before.
  lemma {:induction false} SameBatchShowsTheSame(
    init: State, past: seq<Event2>, batch: seq<Event2>, text: Bytes, commit: Bytes)
    requires init.pendingPreEdit == NO_PREEDIT && PreEditsEnd(past)
    ensures var last := [PreEditString2(text, commit)];
            Run2(init, past + batch + last).currentPreEdit == Run2(FRESH, batch + last).currentPreEdit
  {
    hide Run2, PendingCursor, PreEditOf;
    PreEditForgetsThePast(past, batch);
    PreEditIsItsBatch(init, past + batch, text, commit);
    PreEditIsItsBatch(FRESH, batch, text, commit);
  }

  lemma {:induction false} SameBatchCommitsTheSame(
    init: State, past: seq<Event2>, batch: seq<Event2>, text: Bytes)
    requires init.pendingCommit == NO_COMMIT && CommitsEnd(past)
    ensures var last := [CommitString2(text)];
            Run2(init, past + batch + last).currentCommit == Run2(FRESH, batch + last).currentCommit
  {
    hide Run2, PendingBatch, CommitOf;
    CommitForgetsThePast(past, batch);
    CommitIsItsBatch(init, past + batch, text);
    CommitIsItsBatch(FRESH, batch, text);
  }

  // The same of version 0, whatever numbers its deletions carry.
  lemma {:induction false} PreEditIsItsBatch0(init: State, events: seq<Event0>, serial: nat, text: Bytes, commit: Bytes)
    requires init.pendingPreEdit == NO_PREEDIT
    ensures Run0(init, events + [PreEditString0(serial, text, commit)]).currentPreEdit
         == PreEditOf(text, commit, PendingCursor(AllTo2(events)))
  {
    var all := events + [PreEditString0(serial, text, commit)];
    Version0IsVersion2(init, all);
    assert AllTo2(all) == AllTo2(events) + [PreEditString2(text, commit)];
    PreEditIsItsBatch(init, AllTo2(events), text, commit);
  }

  lemma {:induction false} CommitIsItsBatch0(init: State, events: seq<Event0>, serial: nat, text: Bytes)
    requires init.pendingCommit == NO_COMMIT
    ensures Run0(init, events + [CommitString0(serial, text)]).currentCommit
         == CommitOf(text, PendingBatch(AllTo2(events)))
  {
    var all := events + [CommitString0(serial, text)];
    Version0IsVersion2(init, all);
    assert AllTo2(all) == AllTo2(events) + [CommitString2(text)];
    CommitIsItsBatch(init, AllTo2(events), text);
  }

  // The deletion that a version 0 event asks for, for any numbers: it starts where the index says, and is as
  // long as the length says as far as 32 bits tell.
  lemma Deletion0Exact(s: State, index: int, length: nat)
    requires -INT32_MAX <= index <= INT32_MAX && length < TWO32
    ensures var d := Step0(s, DeleteSurrounding0(index, length)).pendingCommit.deletion;
            && (d.beforeLength == index || d.beforeLength == -index) && d.afterLength < TWO32
            && (d.beforeLength + d.afterLength == length || d.beforeLength + d.afterLength == length + TWO32)
  {
    var before := Abs(index);
    assert (length - before) % TWO32 == if before <= length then length - before else length - before + TWO32;
  }

  // ---------- what is shown after any run ----------

  function SaidSurface(events: seq<Event2>): Option<nat> {
    if events == [] then None
    else
      match events[|events| - 1]
      case Enter2(_, surface) => surface
      case Leave2(_) => None
      case _ => SaidSurface(events[..|events| - 1])
  }

  function SaidSerial(events: seq<Event2>): nat {
    if events == [] then 0
    else
      match events[|events| - 1]
      case Enter2(serial, _) => serial
      case Leave2(serial) => serial
      case _ => SaidSerial(events[..|events| - 1])
  }

  function SaidPanel(events: seq<Event2>): bool {
    events != [] &&
    (match events[|events| - 1]
     case Panel2(state) => state > 0
     case _ => SaidPanel(events[..|events| - 1]))
  }

  function SaidLanguage(events: seq<Event2>): Bytes {
    if events == [] then []
    else
      match events[|events| - 1]
      case Language2(language) => language
      case _ => SaidLanguage(events[..|events| - 1])
  }

  // Unknown directions are as good as not sent.
  function SaidDirection(events: seq<Event2>): Direction {
    if events == [] then Auto
    else
      match events[|events| - 1]
      case TextDirection2(Known(direction)) => direction
      case _ => SaidDirection(events[..|events| - 1])
  }

  function SaidPreEdit(events: seq<Event2>): PreEdit {
    if events == [] then NO_PREEDIT
    else
      var before := events[..|events| - 1];
      match events[|events| - 1]
      case PreEditString2(text, commit) => PreEditOf(text, commit, PendingCursor(before))
      case _ => SaidPreEdit(before)
  }

  function SaidCommit(events: seq<Event2>): Commit {
    if events == [] then NO_COMMIT
    else
      var before := events[..|events| - 1];
      match events[|events| - 1]
      case CommitString2(text) => CommitOf(text, PendingBatch(before))
      case _ => SaidCommit(before)
  }

  // Over every run of version 2, each thing a user can read is what the last event about it said.
  lemma {:induction false} ShownIsLastSaid(events: seq<Event2>)
    ensures var s := Run2(FRESH, events);
            && s.surface == SaidSurface(events) && s.latestSerial == SaidSerial(events)
            && s.panelVisible == SaidPanel(events) && s.language == SaidLanguage(events)
            && s.direction == SaidDirection(events)
            && s.currentPreEdit == SaidPreEdit(events) && s.currentCommit == SaidCommit(events)
  {
    if events != [] {
      var before := events[..|events| - 1];
      ShownIsLastSaid(before);
      PendingPreEditIs(FRESH, before);
      PendingCommitIs(FRESH, before);
    }
  }

  // The same of version 0, which keeps no serial.
  lemma {:induction false} ShownIsLastSaid0(events: seq<Event0>)
    ensures var s, all := Run0(FRESH, events), AllTo2(events);
            && s.surface == SaidSurface(all) && s.panelVisible == SaidPanel(all)
            && s.language == SaidLanguage(all) && s.direction == SaidDirection(all)
            && s.currentPreEdit == SaidPreEdit(all) && s.currentCommit == SaidCommit(all)
            && s.latestSerial == 0
  {
    Version0IsVersion2(FRESH, events);
    ShownIsLastSaid(AllTo2(events));
    NoSerial0(events);
  }

  lemma {:induction false} NoSerial0(events: seq<Event0>)
    ensures Run0(FRESH, events).latestSerial == 0
  {
    if events != [] {
      NoSerial0(events[..|events| - 1]);
    }
  }
}
