/** The scan pipeline as a state machine. A barcode scanner types the code
    as key presses and finishes it with Enter; the window collects the
    characters in its input field and processes the code on Enter. */
module Scanner {
  import Text
  import Extraction
  import opened History

  /** The keys the handler tells apart: the four modifiers it ignores, the
      two end-of-scan keys (main Return and keypad Enter), and every other
      key. */
  datatype KeyCode = Shift | Control | Alt | Meta | Return | Enter | Other

  /** A key press: which key, and the text it types ("" for keys that type
      nothing). */
  datatype KeyEvent = KeyEvent(key: KeyCode, text: string)

  predicate IsModifier(k: KeyCode) {
    k == Shift || k == Control || k == Alt || k == Meta
  }

  predicate EndsScan(k: KeyCode) {
    k == Return || k == Enter
  }

  /** The window's state: the input field's text and the scan history. */
  datatype State = State(buffer: string, history: seq<ScanRecord>)

  /** The state of a newly opened window. */
  const Initial: State := State([], [])

  /** The key handler. `cfg` is the spin-box setting and `now` the clock
      reading at the moment of the press. */
  function KeyPress(s: State, ev: KeyEvent, cfg: Config, now: string): (s': State)
    requires cfg.Valid()
    ensures IsModifier(ev.key) ==> s' == s
    ensures EndsScan(ev.key) ==> s'.buffer == []
    ensures EndsScan(ev.key) && Text.AllSpace(s.buffer) ==> s'.history == s.history
    ensures EndsScan(ev.key) && !Text.AllSpace(s.buffer) ==>
      s'.history == ProcessBarcode(s.history, Text.Strip(s.buffer), cfg, now)
    ensures !IsModifier(ev.key) && !EndsScan(ev.key) ==>
      s'.buffer == s.buffer + ev.text && s'.history == s.history
  {
    if IsModifier(ev.key) then s
    else if EndsScan(ev.key) then
      var barcode := Text.Strip(s.buffer);
      var history := if barcode != [] then ProcessBarcode(s.history, barcode, cfg, now) else s.history;
      State([], history)
    else if ev.text != [] then State(s.buffer + ev.text, s.history)
    else s
  }

  /** A modifier, or an ordinary key that types nothing, changes nothing. */
  lemma IgnoredKeys(s: State, ev: KeyEvent, cfg: Config, now: string)
    requires cfg.Valid()
    requires IsModifier(ev.key) || (!EndsScan(ev.key) && ev.text == [])
    ensures KeyPress(s, ev, cfg, now) == s
  {
  }

  /** Enter adds a record exactly when the stripped input is non-empty; the
      record holds the stripped input as its code, and the earlier records
      are kept. */
  lemma EnterRecordsIff(s: State, ev: KeyEvent, cfg: Config, now: string)
    requires cfg.Valid() && EndsScan(ev.key)
    ensures var s' := KeyPress(s, ev, cfg, now);
      && s'.buffer == []
      && (|s'.history| == |s.history| + 1 <==> Text.Strip(s.buffer) != [])
      && (|s'.history| == |s.history| <==> Text.Strip(s.buffer) == [])
      && s'.history[..|s.history|] == s.history
      && (Text.Strip(s.buffer) != [] ==> s'.history[|s.history|].original == Text.Strip(s.buffer))
  {
  }

  /** The button and key actions on the window. `Press` carries the
      spin-box setting and clock reading current at the press; `Clear`
      carries the operator's answer to the confirmation question. */
  datatype Action =
    | Press(ev: KeyEvent, cfg: Config, now: string)
    | Clear(confirm: bool)

  predicate ValidAction(a: Action) {
    a.Press? ==> a.cfg.Valid()
  }

  predicate AllValid(actions: seq<Action>) {
    forall i :: 0 <= i < |actions| ==> ValidAction(actions[i])
  }

  /** One action. Clearing empties the history but leaves the input field. */
  function Step(s: State, a: Action): (s': State)
    requires ValidAction(a)
    ensures a.Clear? ==> s'.buffer == s.buffer
    ensures a.Clear? ==> s'.history == s.history || s'.history == []
    ensures a.Press? ==> |s.history| <= |s'.history| && s'.history[..|s.history|] == s.history
  {
    match a
    case Press(ev, cfg, now) => KeyPress(s, ev, cfg, now)
    case Clear(confirm) => State(s.buffer, ClearHistory(s.history, confirm).history)
  }

  /** Performs the actions in order. */
  function Run(s: State, actions: seq<Action>): State
    requires AllValid(actions)
    decreases |actions|
  {
    if actions == [] then s else Run(Step(s, actions[0]), actions[1..])
  }

  lemma {:induction false} RunAppend(s: State, a: seq<Action>, b: seq<Action>)
    requires AllValid(a) && AllValid(b)
    ensures AllValid(a + b)
    ensures Run(s, a + b) == Run(Run(s, a), b)
    decreases |a|
  {
    assert AllValid(a + b) by {
      forall i | 0 <= i < |a + b|
        ensures ValidAction((a + b)[i])
      {
        if i < |a| { assert (a + b)[i] == a[i]; } else { assert (a + b)[i] == b[i - |a|]; }
      }
    }
    if a == [] {
      assert a + b == b;
    } else {
      assert (a + b)[0] == a[0];
      assert (a + b)[1..] == a[1..] + b;
      RunAppend(Step(s, a[0]), a[1..], b);
    }
  }

  /** The scanner typing `code`, one ordinary key per character. */
  function TypeText(code: string, cfg: Config, now: string): (actions: seq<Action>)
    requires cfg.Valid()
    ensures |actions| == |code| && AllValid(actions)
  {
    if code == [] then []
    else [Press(KeyEvent(Other, [code[0]]), cfg, now)] + TypeText(code[1..], cfg, now)
  }

  /** Typing appends the typed text to the input field and leaves the
      history alone. */
  lemma {:induction false} TypingAppends(s: State, code: string, cfg: Config, now: string)
    requires cfg.Valid()
    ensures Run(s, TypeText(code, cfg, now)) == State(s.buffer + code, s.history)
    decreases |code|
  {
    if code != [] {
      var first := Press(KeyEvent(Other, [code[0]]), cfg, now);
      var rest := TypeText(code[1..], cfg, now);
      assert TypeText(code, cfg, now)[1..] == rest;
      TypingAppends(Step(s, first), code[1..], cfg, now);
      assert s.buffer + [code[0]] + code[1..] == s.buffer + code;
    }
  }

  /** A whole scan from an empty input field: typing `code` and pressing
      Return records the stripped code when it is not all whitespace, and
      always leaves the input field empty. */
  lemma Scan(history: seq<ScanRecord>, code: string, cfg: Config, now: string)
    requires cfg.Valid()
    ensures var actions := TypeText(code, cfg, now) + [Press(KeyEvent(Return, "\r"), cfg, now)];
      && AllValid(actions)
      && Run(State([], history), actions)
         == if Text.AllSpace(code) then State([], history)
            else State([], ProcessBarcode(history, Text.Strip(code), cfg, now))
  {
    var typing := TypeText(code, cfg, now);
    var enter := [Press(KeyEvent(Return, "\r"), cfg, now)];
    RunAppend(State([], history), typing, enter);
    TypingAppends(State([], history), code, cfg, now);
    assert [] + code == code;
  }

  /** The invariant of the window: every record in the history is one the
      pipeline can produce. */
  predicate Invariant(s: State) {
    AllWellFormed(s.history)
  }

  lemma StepKeepsInvariant(s: State, a: Action)
    requires ValidAction(a) && Invariant(s)
    ensures Invariant(Step(s, a))
  {
    match a
    case Press(ev, cfg, now) =>
      if EndsScan(ev.key) && Text.Strip(s.buffer) != [] {
        ProcessBarcodeWellFormed(s.history, Text.Strip(s.buffer), cfg, now);
      }
    case Clear(confirm) =>
  }

  /** From a well-formed state, whatever actions follow, every record
      holds a stripped non-empty code and the extraction of it under the
      settings it records. */
  lemma {:induction false} RunKeepsInvariant(s: State, actions: seq<Action>)
    requires AllValid(actions) && Invariant(s)
    ensures Invariant(Run(s, actions))
    decreases |actions|
  {
    if actions != [] {
      StepKeepsInvariant(s, actions[0]);
      RunKeepsInvariant(Step(s, actions[0]), actions[1..]);
    }
  }

  /** Key presses never remove records: the history before a press is a
      prefix of the history after it. */
  lemma {:induction false} PressesKeepHistory(s: State, actions: seq<Action>)
    requires AllValid(actions)
    requires forall i :: 0 <= i < |actions| ==> actions[i].Press?
    ensures var h := Run(s, actions).history;
      |s.history| <= |h| && h[..|s.history|] == s.history
    decreases |actions|
  {
    if actions != [] {
      var s1 := Step(s, actions[0]);
      PressesKeepHistory(s1, actions[1..]);
      var h := Run(s, actions).history;
      assert h == Run(s1, actions[1..]).history;
      assert h[..|s1.history|][..|s.history|] == h[..|s.history|];
      assert s1.history[..|s.history|] == s.history;
    }
  }

  /** The window starts with an empty input field and an empty history. */
  lemma InitialInvariant()
    ensures Initial.buffer == [] && Initial.history == []
    ensures Invariant(Initial)
  {
  }

  /** Every history the window can reach holds only well-formed records. */
  lemma ReachableWellFormed(actions: seq<Action>)
    requires AllValid(actions)
    ensures AllWellFormed(Run(Initial, actions).history)
  {
    InitialInvariant();
    RunKeepsInvariant(Initial, actions);
  }
}
