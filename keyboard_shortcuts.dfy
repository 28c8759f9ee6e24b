/** The keydown handler of the keyboard-shortcut hook: which shortcuts a key event
    matches, and what the handler does about it. Callbacks are identified by their
    position in the shortcut list; the handler's effects are returned as a trace. */
module KeyboardShortcuts {
  import opened JsString

  /** A shortcut; an unset modifier flag is `false`. */
  datatype Shortcut = Shortcut(key: string, ctrl: bool, shift: bool, alt: bool)

  datatype KeyEvent = KeyEvent(key: string, ctrlKey: bool, metaKey: bool, shiftKey: bool, altKey: bool)

  datatype Effect = PreventDefault | Callback(index: nat)

  /** Keys compare without case; `ctrl` accepts Ctrl or Cmd and otherwise requires
      both released; Shift and Alt must be exactly as the shortcut says. */
  predicate Matches(s: Shortcut, e: KeyEvent)
    ensures Matches(s, e) <==>
      (ToLower(e.key) == ToLower(s.key) && (s.ctrl <==> e.ctrlKey || e.metaKey)
       && e.shiftKey == s.shift && e.altKey == s.alt)
  {
    var ctrlMatch := if s.ctrl then e.ctrlKey || e.metaKey else !e.ctrlKey && !e.metaKey;
    var shiftMatch := if s.shift then e.shiftKey else !e.shiftKey;
    var altMatch := if s.alt then e.altKey else !e.altKey;
    ToLower(e.key) == ToLower(s.key) && ctrlMatch && shiftMatch && altMatch
  }

  /** The trace the handler produces for the shortcuts before position `n`. */
  function Trace(shortcuts: seq<Shortcut>, e: KeyEvent, n: nat): (t: seq<Effect>)
    requires n <= |shortcuts|
  {
    if n == 0 then []
    else Trace(shortcuts, e, n - 1) + (if Matches(shortcuts[n - 1], e) then [PreventDefault, Callback(n - 1)] else [])
  }

  /** `handleKeyDown`: for every shortcut in order, a match prevents the default
      action and runs that shortcut's callback. */
  method HandleKeyDown(shortcuts: seq<Shortcut>, e: KeyEvent) returns (effects: seq<Effect>)
    ensures effects == Trace(shortcuts, e, |shortcuts|)
    ensures PreventDefault in effects <==> exists i :: 0 <= i < |shortcuts| && Matches(shortcuts[i], e)
    ensures Callbacks(effects) == MatchingIndices(shortcuts, e, |shortcuts|)
  {
    effects := [];
    for i := 0 to |shortcuts|
      invariant effects == Trace(shortcuts, e, i)
    {
      if Matches(shortcuts[i], e) {
        effects := effects + [PreventDefault, Callback(i)];
      }
    }
    PreventsIffMatch(shortcuts, e, |shortcuts|);
    EveryMatchFires(shortcuts, e, |shortcuts|);
  }

  /** The callbacks a trace runs, in order. */
  function Callbacks(t: seq<Effect>): seq<nat>
  {
    if t == [] then []
    else (if t[0].Callback? then [t[0].index] else []) + Callbacks(t[1..])
  }

  lemma {:induction false} CallbacksAppend(a: seq<Effect>, b: seq<Effect>)
    ensures Callbacks(a + b) == Callbacks(a) + Callbacks(b)
  {
    if a == [] {
      assert a + b == b;
    } else {
      CallbacksAppend(a[1..], b);
      assert (a + b)[1..] == a[1..] + b;
    }
  }

  /** Indices of the shortcuts before `n` that match, in increasing order. */
  function MatchingIndices(shortcuts: seq<Shortcut>, e: KeyEvent, n: nat): seq<nat>
    requires n <= |shortcuts|
  {
    if n == 0 then []
    else MatchingIndices(shortcuts, e, n - 1) + (if Matches(shortcuts[n - 1], e) then [n - 1] else [])
  }

  lemma {:induction false} MatchingIndicesSpec(shortcuts: seq<Shortcut>, e: KeyEvent, n: nat)
    requires n <= |shortcuts|
    ensures forall i :: i in MatchingIndices(shortcuts, e, n) <==> 0 <= i < n && Matches(shortcuts[i], e)
    ensures forall a, b :: 0 <= a < b < |MatchingIndices(shortcuts, e, n)| ==>
      MatchingIndices(shortcuts, e, n)[a] < MatchingIndices(shortcuts, e, n)[b]
    ensures forall a :: 0 <= a < |MatchingIndices(shortcuts, e, n)| ==> MatchingIndices(shortcuts, e, n)[a] < n
  {
    if n > 0 {
      MatchingIndicesSpec(shortcuts, e, n - 1);
    }
  }

  /** Every matching shortcut's callback runs, not only the first, in list order,
      and no other callback runs. */
  lemma {:induction false} EveryMatchFires(shortcuts: seq<Shortcut>, e: KeyEvent, n: nat)
    requires n <= |shortcuts|
    ensures Callbacks(Trace(shortcuts, e, n)) == MatchingIndices(shortcuts, e, n)
  {
    if n > 0 {
      EveryMatchFires(shortcuts, e, n - 1);
      var step := if Matches(shortcuts[n - 1], e) then [PreventDefault, Callback(n - 1)] else [];
      CallbacksAppend(Trace(shortcuts, e, n - 1), step);
      CallbacksOfMatch(n - 1);
    }
  }

  /** The effects of one match run that one callback. */
  lemma CallbacksOfMatch(i: nat)
    ensures Callbacks([PreventDefault, Callback(i)]) == [i]
  {
    var step := [PreventDefault, Callback(i)];
    assert step[1..] == [Callback(i)];
    assert step[1..][1..] == [];
    assert Callbacks(step[1..]) == [i] + Callbacks([]);
  }

  /** The default action is prevented exactly when some shortcut matches. */
  lemma {:induction false} PreventsIffMatch(shortcuts: seq<Shortcut>, e: KeyEvent, n: nat)
    requires n <= |shortcuts|
    ensures PreventDefault in Trace(shortcuts, e, n) <==> exists i :: 0 <= i < n && Matches(shortcuts[i], e)
  {
    if n > 0 {
      PreventsIffMatch(shortcuts, e, n - 1);
      var rest := Trace(shortcuts, e, n - 1);
      if Matches(shortcuts[n - 1], e) {
        assert Trace(shortcuts, e, n) == rest + [PreventDefault, Callback(n - 1)];
        assert Trace(shortcuts, e, n)[|rest|] == PreventDefault;
      } else {
        assert Trace(shortcuts, e, n) == rest;
        if exists i :: 0 <= i < n && Matches(shortcuts[i], e) {
          var i :| 0 <= i < n && Matches(shortcuts[i], e);
          assert i < n - 1;
        }
      }
    }
  }

  /** A Ctrl+S shortcut fires on Cmd+S, with the key reported as `S`, and not when
      Shift is held as well. */
  lemma SaveShortcutExample()
    ensures Matches(Shortcut("s", true, false, false), KeyEvent("S", false, true, false, false))
    ensures !Matches(Shortcut("s", true, false, false), KeyEvent("s", true, false, true, false))
  {
    assert ToLower("S") == "s";
    assert ToLower("s") == "s";
  }
}
