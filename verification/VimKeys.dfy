/** Which command each key of the Vim grammar executes. */
module VimKeys {
  import opened Decimal
  import opened VimNavigation
  import opened Wrappers

  predicate Unmodified(key: Key) { !key.ctrl && !key.meta && !key.option }

  /** The key types the text, or is named by it and types nothing. */
  predicate Says(key: Key, text: string) { key.sequence == text || (key.sequence == "" && key.name == text) }

  /** No prefix has been entered; there may be a count. */
  predicate Waiting(s: State) { s.prefix.NoPrefix? }

  /** The keys that repeat take the count entered before them, and no other key is one. */
  lemma {:induction false} StepKeys(s: State, key: Key)
    requires Waiting(s) && Unmodified(key)
    ensures Says(key, "j") ==> Executed(s, [key]) == [Command(StepDown, Some(Count(s)))]
    ensures Says(key, "k") ==> Executed(s, [key]) == [Command(StepUp, Some(Count(s)))]
    ensures Says(key, "[") ==> Executed(s, [key]) == [Command(PreviousHunk, Some(Count(s)))]
    ensures Says(key, "]") ==> Executed(s, [key]) == [Command(NextHunk, Some(Count(s)))]
  {
    OneKey(s, key);
  }

  lemma {:induction false} OneKey(s: State, key: Key)
    ensures Executed(s, [key]) == OnKey(s, key).executed
  {
    var move := OnKey(s, key);
    assert [key][1..] == [] && Executed(move.state, []) == [];
    assert move.executed + [] == move.executed;
  }

  /** Control with no other modifier scrolls by half pages. */
  lemma {:induction false} ControlKeys(s: State, key: Key)
    requires key.ctrl && !key.meta && !key.option && !key.shift
    ensures key.name == "d" || (key.name == "" && key.sequence == "d") ==>
              Executed(s, [key]) == [Command(HalfPageDown, Some(Count(s)))]
    ensures key.name == "u" || (key.name == "" && key.sequence == "u") ==>
              Executed(s, [key]) == [Command(HalfPageUp, Some(Count(s)))]
  {
    OneKey(s, key);
  }

  /** A capital G, however the terminal reports it, jumps to the bottom, whatever the count. */
  lemma {:induction false} BottomKey(s: State, key: Key)
    requires Waiting(s) && Unmodified(key) && (Says(key, "G") || (Says(key, "g") && key.name == "g" && key.shift))
    ensures Executed(s, [key]) == [Command(JumpToBottom, None)]
  {
    OneKey(s, key);
  }

  lemma {:induction false} TwoKeys(s: State, first: Key, second: Key)
    requires OnKey(s, first).executed == []
    ensures Executed(s, [first, second]) == OnKey(OnKey(s, first).state, second).executed
  {
    var keys := [first, second];
    assert keys[1..] == [second];
    OneKey(OnKey(s, first).state, second);
    assert [] + OnKey(OnKey(s, first).state, second).executed == OnKey(OnKey(s, first).state, second).executed;
  }

  /** Two plain g's jump to the top, whatever the count. */
  lemma {:induction false} TopKeys(s: State, first: Key, second: Key)
    requires Waiting(s) && Unmodified(first) && Unmodified(second)
    requires Says(first, "g") && !(first.name == "g" && first.shift)
    requires Says(second, "g") && !(second.name == "g" && second.shift)
    ensures Executed(s, [first, second]) == [Command(JumpToTop, None)]
  {
    TwoKeys(s, first, second);
  }

  /** After z, the keys that align the current line. */
  lemma {:induction false} AlignKeys(s: State, first: Key, second: Key)
    requires Waiting(s) && Unmodified(first) && Unmodified(second) && Says(first, "z") && !(first.name == "g" && first.shift)
    ensures Says(second, "t") ==> Executed(s, [first, second]) == [Command(AlignCurrentLineTop, None)]
    ensures Says(second, "z") ==> Executed(s, [first, second]) == [Command(AlignCurrentLineCenter, None)]
    ensures Says(second, "b") ==> Executed(s, [first, second]) == [Command(AlignCurrentLineBottom, None)]
  {
    TwoKeys(s, first, second);
  }

  /** A count repeats by its decimal value, and by 10,000 when that is more. */
  lemma {:induction false} CountRepeats(countKeys: seq<Key>, key: Key, keys: seq<Key>)
    requires keys == countKeys + [key] && countKeys != [] && CountLength(keys) == |countKeys|
    requires Unmodified(key) && Says(key, "j")
    ensures var n := Number(Texts(countKeys));
            Executed(INITIAL, keys) == [Command(StepDown, Some(if n < 10_000 then n else 10_000))]
  {
    var s := Counted(Texts(countKeys));
    CountAhead(keys, countKeys, [key], s);
    StepKeys(s, key);
  }
}
