/**
 * The one-line text prompt: typed runes are appended to the entered text, backspace
 * removes the last character, enter accepts (an empty entry takes the default value)
 * and ctrl+c, esc or ctrl+d abandon the prompt. The entered text is a Go string, that
 * is, a byte string holding the UTF-8 encoding of what was typed.
 */
module StringPrompt {
  import opened Wrappers
  import opened Utf8

  datatype KeyType = KeyRunes(runes: string) | KeyBackspace | KeyEnter | KeyCtrlC | KeyEscape | KeyCtrlD | OtherKey

  datatype Msg = KeyMsg(key: KeyType) | WindowSizeMsg(width: int) | OtherMsg

  datatype Model = Model(promptMsg: string, enteredString: seq<byte>, defaultValue: seq<byte>, windowWidth: int, quit: bool)

  // ---------------------------------------------------------------------------
  // Backspace

  /** What backspace does in the source: drop the last byte, whatever character it belongs to. */
  function BackspaceAsWritten(s: seq<byte>): (r: seq<byte>)
    ensures s == [] ==> r == []
    ensures s != [] ==> |r| == |s| - 1 && r == s[..|s| - 1]
  {
    if |s| > 0 then s[..|s| - 1] else s
  }

  /** After typing "é" (two bytes in UTF-8), one backspace leaves half a character behind. */
  lemma BackspaceSplitsCharacter()
    ensures var typed := Encode("é");
      typed == [0xC3, 0xA9] && BackspaceAsWritten(typed) == [0xC3] && BackspaceAsWritten(typed) != Encode("")
  {
    assert EncodeRune('é') == [0xC3, 0xA9];
    assert Encode("é") == EncodeRune('é') + Encode("");
  }

  /** The continuation bytes at the end of `s`, and how many there are. */
  function TrailingContinuations(s: seq<byte>): (n: nat)
    ensures n <= |s|
    ensures forall i :: |s| - n <= i < |s| ==> IsContinuation(s[i])
    ensures n < |s| ==> !IsContinuation(s[|s| - n - 1])
  {
    if s == [] || !IsContinuation(s[|s| - 1]) then 0 else TrailingContinuations(s[..|s| - 1]) + 1
  }

  /** Backspace as evidently intended: drop the whole last character, lead byte and continuation bytes. */
  function Backspace(s: seq<byte>): (r: seq<byte>)
    ensures s == [] ==> r == []
    ensures s != [] ==> |r| < |s| && r == s[..|r|]
  {
    var n := TrailingContinuations(s);
    if n < |s| then s[..|s| - n - 1] else []
  }

  lemma {:induction false} TrailingContinuationsOfRune(p: seq<byte>, c: char)
    ensures TrailingContinuations(p + EncodeRune(c)) == |EncodeRune(c)| - 1
  {
    var e := EncodeRune(c);
    var s := p + e;
    assert s[|s| - |e|] == e[0];
    assert forall i :: |s| - |e| < i < |s| ==> s[i] == e[i - |s| + |e|];
  }

  /** Backspace after typing a character removes exactly that character, whatever came before. */
  lemma BackspaceUndoesRune(s: string, c: char)
    ensures Backspace(Encode(s + [c])) == Encode(s)
  {
    EncodeSnoc(s, c);
    TrailingContinuationsOfRune(Encode(s), c);
    var t := Encode(s) + EncodeRune(c);
    assert t[..|t| - |EncodeRune(c)|] == Encode(s);
  }

  // ---------------------------------------------------------------------------
  // The model

  function Init(promptMsg: string, defaultValue: seq<byte>): (m: Model)
    ensures m.enteredString == [] && !m.quit && m.defaultValue == defaultValue
  {
    Model(promptMsg, [], defaultValue, 0, false)
  }

  /** stringModel.Update: the new model, and whether the program quits. */
  function Update(m: Model, msg: Msg): (r: (Model, bool))
    ensures msg.KeyMsg? && msg.key.KeyRunes? ==>
      r == (m.(enteredString := m.enteredString + Encode(msg.key.runes)), false)
    ensures msg.KeyMsg? && msg.key.KeyBackspace? ==> r == (m.(enteredString := BackspaceAsWritten(m.enteredString)), false)
    ensures msg.KeyMsg? && msg.key.KeyEnter? ==>
      r == (m.(enteredString := if m.enteredString == [] then m.defaultValue else m.enteredString), true)
    ensures msg.KeyMsg? && msg.key in {KeyCtrlC, KeyEscape, KeyCtrlD} ==> r == (m.(quit := true), true)
    ensures (msg.KeyMsg? && msg.key.OtherKey?) || msg.OtherMsg? ==> r == (m, false)
    ensures msg.WindowSizeMsg? ==> r == (m.(windowWidth := msg.width), false)
    ensures r.0.promptMsg == m.promptMsg && r.0.defaultValue == m.defaultValue
  {
    match msg
    case KeyMsg(key) =>
      (match key
       case KeyRunes(runes) => (m.(enteredString := m.enteredString + Encode(runes)), false)
       case KeyBackspace => (m.(enteredString := BackspaceAsWritten(m.enteredString)), false)
       case KeyEnter =>
         (if m.enteredString == [] then m.(enteredString := m.defaultValue) else m, true)
       case KeyCtrlC => (m.(quit := true), true)
       case KeyEscape => (m.(quit := true), true)
       case KeyCtrlD => (m.(quit := true), true)
       case OtherKey => (m, false))
    case WindowSizeMsg(w) => (m.(windowWidth := w), false)
    case OtherMsg => (m, false)
  }

  /** The program's run: messages are handled in order until one quits. */
  function Run(m: Model, msgs: seq<Msg>): (r: (Model, bool))
    ensures !r.1 ==> !r.0.quit || m.quit
    ensures r.0.promptMsg == m.promptMsg && r.0.defaultValue == m.defaultValue
    decreases |msgs|
  {
    if msgs == [] then (m, false)
    else
      var (next, quits) := Update(m, msgs[0]);
      if quits then (next, true) else Run(next, msgs[1..])
  }

  /** The prompt with the corrected backspace: it differs from Update on backspace alone. */
  function UpdateCorrected(m: Model, msg: Msg): (r: (Model, bool))
  {
    if msg == KeyMsg(KeyBackspace) then (m.(enteredString := Backspace(m.enteredString)), false)
    else Update(m, msg)
  }

  /** The run of the corrected prompt. */
  function RunCorrected(m: Model, msgs: seq<Msg>): (r: (Model, bool))
    ensures !r.1 ==> !r.0.quit || m.quit
    ensures r.0.promptMsg == m.promptMsg && r.0.defaultValue == m.defaultValue
    decreases |msgs|
  {
    if msgs == [] then (m, false)
    else
      var (next, quits) := UpdateCorrected(m, msgs[0]);
      if quits then (next, true) else RunCorrected(next, msgs[1..])
  }

  /** Typing a word and pressing enter yields the word's encoding, whatever the default. */
  lemma TypedThenEnter(promptMsg: string, defaultValue: seq<byte>, word: string)
    requires word != []
    ensures Run(Init(promptMsg, defaultValue), [KeyMsg(KeyRunes(word)), KeyMsg(KeyEnter)]) ==
      (Init(promptMsg, defaultValue).(enteredString := Encode(word)), true)
  {
    var m := Init(promptMsg, defaultValue);
    var m1 := Update(m, KeyMsg(KeyRunes(word))).0;
    assert m1.enteredString == Encode(word) != [] by {
      assert [] + Encode(word) == Encode(word);
      assert |Encode(word)| >= |word| > 0;
    }
    assert [KeyMsg(KeyRunes(word)), KeyMsg(KeyEnter)][1..] == [KeyMsg(KeyEnter)];
  }

  /**
   * Typing one character, pressing backspace and then enter: an ASCII character is erased, so
   * the default is taken; any other character leaves its first bytes behind, which enter accepts.
   */
  lemma TypeEraseEnter(promptMsg: string, defaultValue: seq<byte>, c: char)
    ensures var e := EncodeRune(c);
      Run(Init(promptMsg, defaultValue), [KeyMsg(KeyRunes([c])), KeyMsg(KeyBackspace), KeyMsg(KeyEnter)]) ==
      (Init(promptMsg, defaultValue).(enteredString := if |e| == 1 then defaultValue else e[..|e| - 1]), true)
  {
    var e := EncodeRune(c);
    var m := Init(promptMsg, defaultValue);
    var m1 := Update(m, KeyMsg(KeyRunes([c]))).0;
    assert m1.enteredString == e by {
      assert Encode([c]) == e + Encode([]);
      assert [] + Encode([c]) == e;
    }
    var m2 := Update(m1, KeyMsg(KeyBackspace)).0;
    assert m2.enteredString == e[..|e| - 1];
    RunOfThree(m, KeyMsg(KeyRunes([c])), KeyMsg(KeyBackspace), KeyMsg(KeyEnter));
  }

  /** A run of three messages of which only the last quits. */
  lemma RunOfThree(m: Model, x: Msg, y: Msg, z: Msg)
    requires !Update(m, x).1 && !Update(Update(m, x).0, y).1 && Update(Update(Update(m, x).0, y).0, z).1
    ensures Run(m, [x, y, z]) == Update(Update(Update(m, x).0, y).0, z)
  {
    var m1 := Update(m, x).0;
    var m2 := Update(m1, y).0;
    assert Run(m2, [z]) == Update(m2, z);
    assert [y, z][1..] == [z];
    assert Run(m1, [y, z]) == Run(m2, [z]);
    assert [x, y, z][1..] == [y, z];
  }

  /** With the corrected backspace, typing a character and erasing it restores the entry, so enter gives the default. */
  lemma TypeEraseEnterGivesDefault(promptMsg: string, defaultValue: seq<byte>, c: char)
    ensures RunCorrected(Init(promptMsg, defaultValue), [KeyMsg(KeyRunes([c])), KeyMsg(KeyBackspace), KeyMsg(KeyEnter)]).0.enteredString == defaultValue
  {
    var msgs := [KeyMsg(KeyRunes([c])), KeyMsg(KeyBackspace), KeyMsg(KeyEnter)];
    var m := Init(promptMsg, defaultValue);
    var m1 := UpdateCorrected(m, msgs[0]).0;
    assert [] + Encode([c]) == Encode([] + [c]);
    BackspaceUndoesRune([], c);
    var m2 := UpdateCorrected(m1, msgs[1]).0;
    assert m2.enteredString == [];
    var m3 := UpdateCorrected(m2, msgs[2]).0;
    assert m3.enteredString == defaultValue;
    assert msgs[1..][1..] == [KeyMsg(KeyEnter)];
    assert RunCorrected(m2, msgs[1..][1..]) == (m3, true);
  }

  /** PromptString: the entered text, or None when the prompt was abandoned (the process exits). */
  function PromptString(final: Model): (r: Option<seq<byte>>)
    ensures r.None? <==> final.quit
    ensures r.Some? ==> r.value == final.enteredString
  {
    if final.quit then None else Some(final.enteredString)
  }

  /** View before word wrapping: the prompt, then the entry, or the default followed by "(type to change)". */
  function View(m: Model): (v: string)
    ensures m.enteredString == [] ==> v == m.promptMsg + ":\n" + AsText(m.defaultValue) + "(type to change)\n"
    ensures m.enteredString != [] ==> v == m.promptMsg + ":\n" + AsText(m.enteredString) + "\n"
  {
    var typeToChange := if m.enteredString != [] then " (type to change)" else "(type to change)";
    var value := if m.enteredString != [] then AsText(m.enteredString) else AsText(m.defaultValue) + typeToChange;
    m.promptMsg + ":\n" + value + "\n"
  }

  /** Bytes shown as text, one character per byte (the terminal's decoding is not modelled). */
  function AsText(b: seq<byte>): (t: string)
    ensures |t| == |b| && forall i :: 0 <= i < |b| ==> t[i] as int == b[i]
  {
    if b == [] then "" else [b[0] as char] + AsText(b[1..])
  }
}
