/**
 * The command line: `/` toggles command mode; while it is on, key presses edit
 * the command text (backspace, return to submit, escape to cancel, printable
 * keys to append). The text submitted with return is handed, unparsed, to
 * the command system.
 */
module CommandLine {
  import opened Options

  /** SDL2 key codes (`SDL_Keycode`) the world reacts to. */
  const KEY_BACKSPACE: int := 8
  const KEY_RETURN: int := 13
  const KEY_ESCAPE: int := 27
  const KEY_SPACE: int := 32
  const KEY_SLASH: int := 47
  const KEY_0: int := 48
  const KEY_9: int := 57
  const KEY_Z: int := 122

  datatype CmdState = CmdState(commandMode: bool, input: string)

  /** The state after a key press, and the text submitted to the command system, if any. */
  datatype CmdResult = CmdResult(state: CmdState, dispatched: Option<string>)

  /** Keys whose code is appended to the command text as a character. */
  predicate Typeable(sym: int) {
    (KEY_SPACE <= sym <= KEY_Z) || (KEY_0 <= sym <= KEY_9)
  }

  /** A character a typed key can produce. */
  predicate Printable(ch: char) {
    KEY_SPACE <= ch as int <= KEY_Z
  }

  /** `handleCommandInput(e)` for a key-down event with key code `sym`. */
  function HandleCommandInput(s: CmdState, sym: int): (r: CmdResult)
    ensures sym == KEY_RETURN ==> r == CmdResult(CmdState(false, ""), Some(s.input))
    ensures sym == KEY_ESCAPE ==> r == CmdResult(CmdState(false, ""), None)
    ensures sym == KEY_BACKSPACE ==> r.dispatched.None? && r.state.commandMode == s.commandMode
    ensures sym == KEY_BACKSPACE && s.input == "" ==> r.state == s
    ensures sym == KEY_BACKSPACE && s.input != "" ==> r.state.input + [s.input[|s.input| - 1]] == s.input
    ensures sym !in {KEY_RETURN, KEY_ESCAPE, KEY_BACKSPACE} ==>
      && r.dispatched.None? && r.state.commandMode == s.commandMode
      && (Typeable(sym) ==> |r.state.input| == |s.input| + 1 && r.state.input[..|s.input|] == s.input
                            && r.state.input[|s.input|] as int == sym)
      && (!Typeable(sym) ==> r.state.input == s.input)
  {
    if sym == KEY_RETURN then CmdResult(CmdState(false, ""), Some(s.input))
    else if sym == KEY_BACKSPACE then
      if s.input != "" then CmdResult(CmdState(s.commandMode, s.input[..|s.input| - 1]), None)
      else CmdResult(s, None)
    else if sym == KEY_ESCAPE then CmdResult(CmdState(false, ""), None)
    else if Typeable(sym) then CmdResult(CmdState(s.commandMode, s.input + [sym as char]), None)
    else CmdResult(s, None)
  }

  /**
   * The command-line part of a key-down event in `handleEvent`: the editor
   * runs first when command mode is on, then `/` toggles the mode and appends
   * a `/`.
   */
  function HandleKeyDown(s: CmdState, sym: int): (r: CmdResult)
    ensures !s.commandMode && sym != KEY_SLASH ==> r == CmdResult(s, None)
    ensures !s.commandMode && sym == KEY_SLASH ==> r == CmdResult(CmdState(true, s.input + "/"), None)
    ensures s.commandMode && sym == KEY_SLASH ==> r == CmdResult(CmdState(false, s.input + "//"), None)
    ensures s.commandMode && sym != KEY_SLASH ==> r == HandleCommandInput(s, sym)
  {
    var r := if s.commandMode then HandleCommandInput(s, sym) else CmdResult(s, None);
    if sym == KEY_SLASH then
      CmdResult(CmdState(!r.state.commandMode, r.state.input + "/"), r.dispatched)
    else r
  }

  /** Every code from `0` to `9` is already in the space-to-`z` range: the second test never adds a key. */
  lemma DigitsAreInPrintableRange(sym: int)
    ensures Typeable(sym) <==> KEY_SPACE <= sym <= KEY_Z
  {
  }

  /** The invariant of the command text: it holds only characters a typed key can produce. */
  predicate WellFormed(input: string) {
    forall i :: 0 <= i < |input| ==> Printable(input[i])
  }

  /** Every key press keeps the command text well formed. */
  lemma HandleKeyDownKeepsWellFormed(s: CmdState, sym: int)
    requires WellFormed(s.input)
    ensures WellFormed(HandleKeyDown(s, sym).state.input)
    ensures HandleKeyDown(s, sym).dispatched.Some? ==> WellFormed(HandleKeyDown(s, sym).dispatched.value)
  {
    var r := HandleKeyDown(s, sym);
    var t := r.state.input;
    if s.commandMode && sym != KEY_SLASH && sym != KEY_RETURN && sym != KEY_ESCAPE && t != "" && t != s.input {
      if sym == KEY_BACKSPACE {
        assert t == s.input[..|s.input| - 1];
        assert forall i :: 0 <= i < |t| ==> t[i] == s.input[i];
      } else {
        assert t == s.input + [sym as char];
        assert forall i :: 0 <= i < |s.input| ==> t[i] == s.input[i];
      }
    }
    if sym == KEY_SLASH {
      var tail := if s.commandMode then "//" else "/";
      assert t == s.input + tail;
      assert forall i :: 0 <= i < |s.input| ==> t[i] == s.input[i];
      assert t[|s.input|] == '/';
    }
  }

  /** A run of key presses, with every text submitted along the way. */
  function KeyDowns(s: CmdState, syms: seq<int>): (r: (CmdState, seq<string>))
    decreases |syms|
  {
    if |syms| == 0 then (s, [])
    else
      var first := HandleKeyDown(s, syms[0]);
      var rest := KeyDowns(first.state, syms[1..]);
      (rest.0, (if first.dispatched.Some? then [first.dispatched.value] else []) + rest.1)
  }

  /**
   * Whatever the user types, every text handed to the command system holds
   * only characters in the space-to-`z` range.
   */
  lemma {:induction false} DispatchedCommandsWellFormed(s: CmdState, syms: seq<int>)
    requires WellFormed(s.input)
    ensures WellFormed(KeyDowns(s, syms).0.input)
    ensures forall i :: 0 <= i < |KeyDowns(s, syms).1| ==> WellFormed(KeyDowns(s, syms).1[i])
    decreases |syms|
  {
    if |syms| > 0 {
      HandleKeyDownKeepsWellFormed(s, syms[0]);
      DispatchedCommandsWellFormed(HandleKeyDown(s, syms[0]).state, syms[1..]);
    }
  }

  /** Typing `/help` and return submits exactly `/help` and leaves command mode with an empty line. */
  lemma HelpScenario()
    ensures KeyDowns(CmdState(false, ""), [KEY_SLASH, 104, 101, 108, 112, KEY_RETURN])
         == (CmdState(false, ""), ["/help"])
  {
    var syms := [KEY_SLASH, 104, 101, 108, 112, KEY_RETURN];
    var s0 := CmdState(false, "");
    var s1 := CmdState(true, "/");
    var s5 := CmdState(true, "/help");
    assert HandleKeyDown(s0, KEY_SLASH).state == s1;
    assert HandleKeyDown(s5, KEY_RETURN) == CmdResult(s0, Some("/help"));
    assert KeyDowns(s0, []) == (s0, []);
    assert ["/help"] + [] == ["/help"];
    assert [] + ["/help"] == ["/help"];
    assert KeyDowns(s5, [KEY_RETURN]) == (s0, ["/help"]) by {
      assert [KEY_RETURN][1..] == [];
    }
    assert HandleKeyDown(CmdState(true, "/hel"), 112).state == s5 by {
      assert (112 as char) == 'p';
      assert "/hel" + ['p'] == "/help";
    }
    assert KeyDowns(CmdState(true, "/hel"), [112, KEY_RETURN]) == (s0, ["/help"]) by {
      assert [112, KEY_RETURN][1..] == [KEY_RETURN];
    }
    assert HandleKeyDown(CmdState(true, "/he"), 108).state == CmdState(true, "/hel") by {
      assert (108 as char) == 'l';
      assert "/he" + ['l'] == "/hel";
    }
    assert KeyDowns(CmdState(true, "/he"), [108, 112, KEY_RETURN]) == (s0, ["/help"]) by {
      assert [108, 112, KEY_RETURN][1..] == [112, KEY_RETURN];
    }
    assert HandleKeyDown(CmdState(true, "/h"), 101).state == CmdState(true, "/he") by {
      assert (101 as char) == 'e';
      assert "/h" + ['e'] == "/he";
    }
    assert KeyDowns(CmdState(true, "/h"), [101, 108, 112, KEY_RETURN]) == (s0, ["/help"]) by {
      assert [101, 108, 112, KEY_RETURN][1..] == [108, 112, KEY_RETURN];
    }
    assert HandleKeyDown(s1, 104).state == CmdState(true, "/h") by {
      assert (104 as char) == 'h';
      assert "/" + ['h'] == "/h";
    }
    assert KeyDowns(s1, [104, 101, 108, 112, KEY_RETURN]) == (s0, ["/help"]) by {
      assert [104, 101, 108, 112, KEY_RETURN][1..] == [101, 108, 112, KEY_RETURN];
    }
    assert syms[1..] == [104, 101, 108, 112, KEY_RETURN];
  }

  /**
   * Closing the command line with `/` does not clear it: the editor appends
   * one `/` and the toggle another, so the next session starts with `///`.
   */
  lemma SlashTwiceKeepsText()
    ensures KeyDowns(CmdState(false, ""), [KEY_SLASH, KEY_SLASH]) == (CmdState(false, "///"), [])
    ensures KeyDowns(CmdState(false, ""), [KEY_SLASH, KEY_SLASH, KEY_SLASH]) == (CmdState(true, "////"), [])
  {
    var s1 := CmdState(true, "/");
    var s2 := CmdState(false, "///");
    var s3 := CmdState(true, "////");
    assert HandleKeyDown(CmdState(false, ""), KEY_SLASH) == CmdResult(s1, None) by {
      assert "" + "/" == "/";
    }
    assert HandleKeyDown(s1, KEY_SLASH) == CmdResult(s2, None) by {
      assert "/" + "//" == "///";
    }
    assert HandleKeyDown(s2, KEY_SLASH) == CmdResult(s3, None) by {
      assert "///" + "/" == "////";
    }
    assert [KEY_SLASH, KEY_SLASH][1..] == [KEY_SLASH];
    assert [KEY_SLASH, KEY_SLASH, KEY_SLASH][1..] == [KEY_SLASH, KEY_SLASH];
    assert [KEY_SLASH][1..] == [];
    assert KeyDowns(s3, []) == (s3, []);
    assert KeyDowns(s2, []) == (s2, []);
    assert KeyDowns(s2, [KEY_SLASH]) == (s3, []) by {
      var none: seq<string> := [];
      assert none + none == none;
    }
    assert KeyDowns(s1, [KEY_SLASH]) == (s2, []) by {
      var none: seq<string> := [];
      assert none + none == none;
    }
  }
}
