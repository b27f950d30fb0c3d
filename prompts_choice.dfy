/**
 * The yes/no prompt: "y" confirms, "n" declines, "q", ctrl+c or ctrl+d abandon the
 * prompt; each of those ends it, and every other key is ignored.
 */
module YesNoPrompt {
  import opened Wrappers

  /** A key message, by its string form ("y", "ctrl+c", ...), or a window-size message. */
  datatype Msg = KeyMsg(key: string) | WindowSizeMsg(width: int) | OtherMsg

  datatype Model = Model(promptMsg: string, confirmed: bool, enteredKey: string, windowWidth: int, quit: bool)

  function Init(promptMsg: string): (m: Model)
    ensures !m.confirmed && m.enteredKey == "" && !m.quit
  {
    Model(promptMsg, false, "", 0, false)
  }

  /** ynModel.Update: the new model, and whether the program quits. */
  function Update(m: Model, msg: Msg): (r: (Model, bool))
    ensures r.1 <==> msg.KeyMsg? && msg.key in {"q", "ctrl+c", "ctrl+d", "y", "n"}
    ensures msg.KeyMsg? && msg.key == "y" ==> r.0 == m.(enteredKey := "y", confirmed := true)
    ensures msg.KeyMsg? && msg.key == "n" ==> r.0 == m.(enteredKey := "n", confirmed := false)
    ensures msg.KeyMsg? && msg.key in {"q", "ctrl+c", "ctrl+d"} ==> r.0 == m.(quit := true)
    ensures !r.1 ==> r.0 == (if msg.WindowSizeMsg? then m.(windowWidth := msg.width) else m)
  {
    match msg
    case KeyMsg(k) =>
      if k == "q" || k == "ctrl+c" || k == "ctrl+d" then (m.(quit := true), true)
      else if k == "y" then (m.(enteredKey := "y", confirmed := true), true)
      else if k == "n" then (m.(enteredKey := "n", confirmed := false), true)
      else (m, false)
    case WindowSizeMsg(w) => (m.(windowWidth := w), false)
    case OtherMsg => (m, false)
  }

  /** The program's run: messages are handled in order until one quits. */
  function Run(m: Model, msgs: seq<Msg>): (r: (Model, bool))
    decreases |msgs|
  {
    if msgs == [] then (m, false)
    else
      var (next, quits) := Update(m, msgs[0]);
      if quits then (next, true) else Run(next, msgs[1..])
  }

  /** PromptYN: the answer, or None when the prompt was abandoned (the process exits). */
  function PromptYN(final: Model): (r: Option<bool>)
    ensures r.None? <==> final.quit
    ensures r.Some? ==> r.value == final.confirmed
  {
    if final.quit then None else Some(final.confirmed)
  }

  /** The answer is decided by the first of "y", "n", "q", ctrl+c, ctrl+d among the keys; the others are ignored. */
  lemma {:induction false} FirstDecisiveKeyDecides(m: Model, msgs: seq<Msg>, i: nat)
    requires !m.quit
    requires i < |msgs| && msgs[i].KeyMsg? && msgs[i].key in {"y", "n", "q", "ctrl+c", "ctrl+d"}
    requires forall j :: 0 <= j < i ==> !(msgs[j].KeyMsg? && msgs[j].key in {"y", "n", "q", "ctrl+c", "ctrl+d"})
    ensures var (final, quits) := Run(m, msgs);
      quits &&
      PromptYN(final) == (if msgs[i].key == "y" then Some(true) else if msgs[i].key == "n" then Some(false) else None)
    decreases i
  {
    var (next, quits) := Update(m, msgs[0]);
    if i > 0 {
      assert !quits;
      FirstDecisiveKeyDecides(next, msgs[1..], i - 1);
    }
  }
}

/**
 * The profile chooser of "login switch": the cursor moves up and down the list of
 * profiles without leaving it, enter selects the profile under the cursor, q or ctrl+c
 * ends the choice without selecting.
 */
module ProfileSwitch {
  import opened Wrappers

  datatype Msg = KeyMsg(key: string) | OtherMsg

  datatype Model = Model(profiles: seq<string>, initCursor: int, cursor: int, selected: int)

  /** slices.Index: the first position of `x`, or -1. */
  function IndexOf(xs: seq<string>, x: string): (i: int)
    ensures -1 <= i < |xs|
    ensures i >= 0 ==> xs[i] == x && forall j :: 0 <= j < i ==> xs[j] != x
    ensures i == -1 ==> x !in xs
  {
    if xs == [] then -1
    else if xs[0] == x then 0
    else var k := IndexOf(xs[1..], x); if k < 0 then -1 else k + 1
  }

  /** The model promptForProfile starts with: the cursor on the current profile, nothing selected. */
  function Init(profiles: seq<string>, current: string): (m: Model)
    ensures m.cursor == m.initCursor == IndexOf(profiles, current) && m.selected == -1
  {
    var i := IndexOf(profiles, current);
    Model(profiles, i, i, -1)
  }

  /** selectProfileModel.Update: the new model, and whether the program quits. */
  function Update(m: Model, msg: Msg): (r: (Model, bool))
    ensures r.0.profiles == m.profiles && r.0.initCursor == m.initCursor
    ensures r.1 <==> msg.KeyMsg? && msg.key in {"ctrl+c", "q", "enter"}
    ensures msg.KeyMsg? && msg.key == "enter" ==> r.0.selected == m.cursor
    ensures !(msg.KeyMsg? && msg.key == "enter") ==> r.0.selected == m.selected
    ensures msg.KeyMsg? && msg.key in {"up", "k"} ==>
      r.0.cursor == (if m.cursor > 0 then m.cursor - 1 else m.cursor)
    ensures msg.KeyMsg? && msg.key in {"down", "j"} ==>
      r.0.cursor == (if m.cursor < |m.profiles| - 1 then m.cursor + 1 else m.cursor)
    ensures !(msg.KeyMsg? && msg.key in {"up", "k", "down", "j"}) ==> r.0.cursor == m.cursor
  {
    match msg
    case KeyMsg(k) =>
      if k == "ctrl+c" || k == "q" then (m, true)
      else if k == "up" || k == "k" then (if m.cursor > 0 then m.(cursor := m.cursor - 1) else m, false)
      else if k == "down" || k == "j" then (if m.cursor < |m.profiles| - 1 then m.(cursor := m.cursor + 1) else m, false)
      else if k == "enter" then (m.(selected := m.cursor), true)
      else (m, false)
    case OtherMsg => (m, false)
  }

  /** The program's run: messages are handled in order until one quits. */
  function Run(m: Model, msgs: seq<Msg>): (r: (Model, bool))
    decreases |msgs|
  {
    if msgs == [] then (m, false)
    else
      var (next, quits) := Update(m, msgs[0]);
      if quits then (next, true) else Run(next, msgs[1..])
  }

  /** A cursor on the list stays on it, whatever the keys. */
  lemma {:induction false} CursorStaysInRange(m: Model, msgs: seq<Msg>)
    requires 0 <= m.cursor < |m.profiles|
    ensures 0 <= Run(m, msgs).0.cursor < |m.profiles|
    decreases |msgs|
  {
    if msgs != [] {
      var (next, quits) := Update(m, msgs[0]);
      if !quits {
        CursorStaysInRange(next, msgs[1..]);
      }
    }
  }

  /** Cursor and selection stay in [-1, |profiles| - 1] from the initial model on. */
  ghost predicate InBounds(m: Model) {
    -1 <= m.cursor < |m.profiles| && -1 <= m.selected < |m.profiles|
  }

  lemma {:induction false} RunInBounds(m: Model, msgs: seq<Msg>)
    requires InBounds(m)
    ensures InBounds(Run(m, msgs).0) && Run(m, msgs).0.profiles == m.profiles
    decreases |msgs|
  {
    if msgs != [] {
      var (next, quits) := Update(m, msgs[0]);
      if !quits {
        RunInBounds(next, msgs[1..]);
      }
    }
  }

  /** With no current profile among them the cursor starts at -1: "up" keeps it there, "down" moves it to 0.
      These runs describe Update alone: the program never reaches them. The `switch` command
      dereferences the nil current profile before prompting (pkg/cmd/login/switch.go:38), and the
      prompt's first View indexes `profiles[-1]` (switch.go:111); both panic. */
  lemma AbsentCurrentStartsOffList(profiles: seq<string>, current: string)
    requires current !in profiles && |profiles| >= 1
    ensures Init(profiles, current).cursor == -1
    ensures Update(Init(profiles, current), KeyMsg("up")).0.cursor == -1
    ensures Update(Init(profiles, current), KeyMsg("down")).0.cursor == 0
  {
  }

  /** promptForProfile: the selected profile, or an error when nothing was selected. */
  function PromptForProfile(profiles: seq<string>, current: string, msgs: seq<Msg>): (r: Result<string, string>)
    ensures var final := Run(Init(profiles, current), msgs).0;
      (r.Err? <==> final.selected < 0) &&
      (r.Ok? ==> final.selected < |profiles| && r.value == profiles[final.selected])
  {
    var m := Init(profiles, current);
    var final := Run(m, msgs).0;
    RunInBounds(m, msgs);
    if final.selected < 0 then Err("prompt failed") else Ok(profiles[final.selected])
  }

  /** Pressing enter straight away picks the current profile when it is in the list, and fails otherwise.
      The failing case is promptForProfile's own answer; in the program it is never returned, since
      with the current profile absent the `switch` command panics first (pkg/cmd/login/switch.go:38)
      and so would the prompt's first View (switch.go:111). */
  lemma EnterPicksCurrent(profiles: seq<string>, current: string)
    ensures PromptForProfile(profiles, current, [KeyMsg("enter")]) ==
      (if current in profiles then Ok(current) else Err("prompt failed"))
  {
  }
}
