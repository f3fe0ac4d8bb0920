/** The Vim-normal key grammar: a key-by-key automaton, and a reader of whole key streams. */
module VimNavigation {
  import opened Decimal
  import opened Wrappers

  /** A key event; an absent name or sequence is the empty string. */
  datatype Key = Key(name: string, sequence: string, ctrl: bool, meta: bool, option: bool, shift: bool)

  datatype Answer = Handled | Pass

  /** The identifiers of the host's `hunk.review` commands. */
  datatype CommandId =
    | StepDown | StepUp | PreviousHunk | NextHunk
    | AlignCurrentLineTop | AlignCurrentLineCenter | AlignCurrentLineBottom
    | HalfPageDown | HalfPageUp | JumpToTop | JumpToBottom

  /** One semantic command, with its repeat count when it takes one. */
  datatype Command = Command(id: CommandId, count: Option<nat>)

  const MAX_COUNT := 10_000

  function RelativeCommand(text: string): Option<CommandId> {
    if text == "j" then Some(StepDown)
    else if text == "k" then Some(StepUp)
    else if text == "[" then Some(PreviousHunk)
    else if text == "]" then Some(NextHunk)
    else None
  }

  function AlignmentCommand(text: string): Option<CommandId> {
    if text == "t" then Some(AlignCurrentLineTop)
    else if text == "z" then Some(AlignCurrentLineCenter)
    else if text == "b" then Some(AlignCurrentLineBottom)
    else None
  }

  function ControlCommand(text: string): Option<CommandId> {
    if text == "d" then Some(HalfPageDown)
    else if text == "u" then Some(HalfPageUp)
    else None
  }

  const JUMP_TO_TOP := Command(JumpToTop, None)
  const JUMP_TO_BOTTOM := Command(JumpToBottom, None)

  function TextOf(key: Key): string { if key.sequence != "" then key.sequence else key.name }

  function ControlTextOf(key: Key): string { if key.name != "" then key.name else key.sequence }

  predicate ShiftedG(key: Key) { TextOf(key) == "G" || (key.name == "g" && key.shift) }

  predicate IsDigit(text: string) { |text| == 1 && '0' <= text[0] <= '9' }

  // ---- The automaton ----

  function Saturated(n: nat): nat { if n < MAX_COUNT then n else MAX_COUNT }

  datatype Prefix = NoPrefix | PrefixG | PrefixZ

  datatype State = State(countText: string, prefix: Prefix)

  const INITIAL := State("", NoPrefix)

  function Count(s: State): nat { if s.countText != "" then Number(s.countText) else 1 }

  /** What one key does: the next state, the answer to the host, and the command executed, if any. */
  datatype Move = Move(state: State, answer: Answer, executed: seq<Command>)

  function Relative(s: State, id: CommandId): Move { Move(INITIAL, Handled, [Command(id, Some(Count(s)))]) }

  const DECLINED := Move(INITIAL, Pass, [])

  function OnKey(s: State, key: Key): Move {
    var text := TextOf(key);
    if key.ctrl then
      var id := if key.meta || key.option || key.shift then None else ControlCommand(ControlTextOf(key));
      if id.Some? then Relative(s, id.value) else DECLINED
    else if key.meta || key.option then DECLINED
    else if IsDigit(text) then
      if text == "0" && s.countText == "" then DECLINED
      else if s.prefix != NoPrefix then DECLINED
      else Move(s.(countText := Numeral(Saturated(Number(s.countText + text)))), Handled, [])
    else if s.prefix == PrefixG then
      if text == "g" && !ShiftedG(key) then Move(INITIAL, Handled, [JUMP_TO_TOP]) else DECLINED
    else if s.prefix == PrefixZ then
      var id := AlignmentCommand(text);
      if id.Some? then Move(INITIAL, Handled, [Command(id.value, None)]) else DECLINED
    else if text == ":" then DECLINED
    else if RelativeCommand(text).Some? then Relative(s, RelativeCommand(text).value)
    else if ShiftedG(key) then Move(INITIAL, Handled, [JUMP_TO_BOTTOM])
    else if text == "g" then Move(s.(prefix := PrefixG), Handled, [])
    else if text == "z" then Move(s.(prefix := PrefixZ), Handled, [])
    else DECLINED
  }

  /** Every command a stream of keys executes, key by key. */
  function Executed(s: State, keys: seq<Key>): seq<Command>
    decreases |keys|
  {
    if keys == [] then []
    else
      var move := OnKey(s, keys[0]);
      move.executed + Executed(move.state, keys[1..])
  }

  class VimNavigationState {
    var countText: string
    var prefix: Prefix

    ghost function View(): State
      reads this
    {
      State(countText, prefix)
    }

    constructor ()
      ensures View() == INITIAL
    {
      countText, prefix := "", NoPrefix;
    }

    method Reset()
      modifies this
      ensures View() == INITIAL
    {
      countText := "";
      prefix := NoPrefix;
    }

    method ExecuteRelative(id: CommandId) returns (answer: Answer, executed: seq<Command>)
      modifies this
      ensures Move(View(), answer, executed) == Relative(old(View()), id)
    {
      var magnitude := if countText != "" then Number(countText) else 1;
      Reset();
      return Handled, [Command(id, Some(magnitude))];
    }

    method HandleKey(key: Key) returns (answer: Answer, executed: seq<Command>)
      modifies this
      ensures Move(View(), answer, executed) == OnKey(old(View()), key)
    {
      var text := TextOf(key);
      if key.ctrl {
        var id := if !key.meta && !key.option && !key.shift then ControlCommand(ControlTextOf(key)) else None;
        if id.Some? {
          answer, executed := ExecuteRelative(id.value);
          return;
        }
        Reset();
        return Pass, [];
      }
      if key.meta || key.option {
        Reset();
        return Pass, [];
      }
      if IsDigit(text) {
        if (text == "0" && countText == "") || prefix != NoPrefix {
          Reset();
          return Pass, [];
        }
        countText := Numeral(Saturated(Number(countText + text)));
        return Handled, [];
      }
      if prefix == PrefixG {
        var matches := text == "g" && !ShiftedG(key);
        Reset();
        if !matches { return Pass, []; }
        return Handled, [JUMP_TO_TOP];
      }
      if prefix == PrefixZ {
        var id := AlignmentCommand(text);
        Reset();
        if id.None? { return Pass, []; }
        return Handled, [Command(id.value, None)];
      }
      if text == ":" {
        Reset();
        return Pass, [];
      }
      var relative := RelativeCommand(text);
      if relative.Some? {
        answer, executed := ExecuteRelative(relative.value);
        return;
      }
      if ShiftedG(key) {
        Reset();
        return Handled, [JUMP_TO_BOTTOM];
      }
      if text == "g" || text == "z" {
        prefix := if text == "g" then PrefixG else PrefixZ;
        return Handled, [];
      }
      Reset();
      return Pass, [];
    }
  }

  // ---- Reading a whole stream ----

  /** A key that types a digit, with no control, meta or option held. */
  predicate DigitKey(key: Key) { !key.ctrl && !key.meta && !key.option && IsDigit(TextOf(key)) }

  /** The keys at the front that are digits. */
  function DigitRun(keys: seq<Key>): (n: nat)
    ensures n <= |keys|
    ensures forall i | 0 <= i < n :: DigitKey(keys[i])
    ensures n < |keys| ==> !DigitKey(keys[n])
  {
    if keys == [] || !DigitKey(keys[0]) then 0 else 1 + DigitRun(keys[1..])
  }

  /** A count is a maximal run of digits that does not start with a zero. */
  function CountLength(keys: seq<Key>): (n: nat)
    ensures n <= |keys|
  {
    if keys != [] && DigitKey(keys[0]) && TextOf(keys[0]) != "0" then DigitRun(keys) else 0
  }

  function Texts(keys: seq<Key>): string {
    if keys == [] then "" else TextOf(keys[0]) + Texts(keys[1..])
  }

  /** The repeat a count stands for: its whole decimal value, capped once at the end. */
  function Repeat(countKeys: seq<Key>): nat {
    if countKeys == [] then 1 else Saturated(Number(Texts(countKeys)))
  }

  /** The command a control key names, if it carries no other modifier. */
  function ControlOf(key: Key): Option<CommandId> {
    if !key.ctrl || key.meta || key.option || key.shift then None else ControlCommand(ControlTextOf(key))
  }

  predicate PlainKey(key: Key) { !key.ctrl && !key.meta && !key.option }

  /** What follows a count: a control or relative command with the repeat, a jump, or a two-key sequence. */
  datatype Reading = Reading(used: nat, commands: seq<Command>)

  /** The second key of a `g` or `z` sequence; a control command there still takes the repeat. */
  function SecondKey(first: string, key: Key, repeat: nat): seq<Command> {
    if ControlOf(key).Some? then [Command(ControlOf(key).value, Some(repeat))]
    else if !PlainKey(key) then []
    else if first == "g" then if TextOf(key) == "g" && !ShiftedG(key) then [JUMP_TO_TOP] else []
    else if AlignmentCommand(TextOf(key)).Some? then [Command(AlignmentCommand(TextOf(key)).value, None)]
    else []
  }

  function Operator(keys: seq<Key>, repeat: nat): (r: Reading)
    requires keys != []
    ensures 1 <= r.used <= |keys|
  {
    var key, text := keys[0], TextOf(keys[0]);
    if ControlOf(key).Some? then Reading(1, [Command(ControlOf(key).value, Some(repeat))])
    else if !PlainKey(key) || DigitKey(key) then Reading(1, [])
    else if RelativeCommand(text).Some? then Reading(1, [Command(RelativeCommand(text).value, Some(repeat))])
    else if text != ":" && ShiftedG(key) then Reading(1, [JUMP_TO_BOTTOM])
    else if text != "g" && text != "z" then Reading(1, [])
    else if |keys| == 1 then Reading(1, [])
    else Reading(2, SecondKey(text, keys[1], repeat))
  }

  /** One count and its operator at the front of the stream. */
  function Front(keys: seq<Key>): (r: Reading)
    requires CountLength(keys) < |keys|
    ensures 1 <= r.used <= |keys|
  {
    var n := CountLength(keys);
    var operator := Operator(keys[n..], Repeat(keys[..n]));
    Reading(n + operator.used, operator.commands)
  }

  /** The commands of a key stream, read as counts and operators. */
  function Commands(keys: seq<Key>): seq<Command>
    decreases |keys|
  {
    if CountLength(keys) == |keys| then [] else Front(keys).commands + Commands(keys[Front(keys).used..])
  }

  // ---- The automaton agrees with the reader ----

  /** A pass and an executed command both leave the automaton in its initial state. */
  lemma {:induction false} PassAndExecutionReset(s: State, key: Key)
    ensures var move := OnKey(s, key);
            (move.answer.Pass? || move.executed != []) ==> move.state == INITIAL
  {
  }

  lemma {:induction false} SaturateStep(a: nat, d: nat)
    ensures Saturated(Saturated(a) * 10 + d) == Saturated(a * 10 + d)
  {
  }

  /** The state after a run of digits. */
  function Counted(text: string): State {
    State(if text == "" then "" else Numeral(Saturated(Number(text))), NoPrefix)
  }

  lemma {:induction false} CountedValue(text: string)
    ensures Number(Counted(text).countText) == Saturated(Number(text))
  {
    if text != "" { NumberOfNumeral(Saturated(Number(text))); }
  }

  /** One more digit of a count. */
  lemma {:induction false} DigitMoves(text: string, key: Key)
    requires DigitKey(key) && (text == "" ==> TextOf(key) != "0")
    ensures OnKey(Counted(text), key) == Move(Counted(text + TextOf(key)), Handled, [])
  {
    var c := TextOf(key)[0];
    assert TextOf(key) == [c];
    CountedValue(text);
    NumberPush(Counted(text).countText, c);
    NumberPush(text, c);
    SaturateStep(Number(text), DigitValue(c));
  }

  /** A run of digits executes nothing and saturates to its whole value. */
  lemma {:induction false} DigitsMove(text: string, digits: seq<Key>, rest: seq<Key>, end: string)
    requires forall i | 0 <= i < |digits| :: DigitKey(digits[i])
    requires digits != [] && text == "" ==> TextOf(digits[0]) != "0"
    requires end == text + Texts(digits)
    ensures Executed(Counted(text), digits + rest) == Executed(Counted(end), rest)
    decreases |digits|
  {
    if digits == [] {
      assert end == text && digits + rest == rest;
    } else {
      var next := text + TextOf(digits[0]);
      DigitsMove(next, digits[1..], rest, end);
      DigitFirst(text, digits, rest, next);
    }
  }

  lemma {:induction false} DigitFirst(text: string, digits: seq<Key>, rest: seq<Key>, next: string)
    requires digits != [] && DigitKey(digits[0]) && (text == "" ==> TextOf(digits[0]) != "0")
    requires next == text + TextOf(digits[0])
    ensures Executed(Counted(text), digits + rest) == Executed(Counted(next), digits[1..] + rest)
  {
    DigitMoves(text, digits[0]);
    assert (digits + rest)[1..] == digits[1..] + rest;
    QuietMove(Counted(text), digits + rest, Counted(next), digits[1..] + rest);
  }

  lemma {:induction false} QuietMove(s: State, keys: seq<Key>, s': State, rest: seq<Key>)
    requires keys != [] && OnKey(s, keys[0]) == Move(s', Handled, []) && rest == keys[1..]
    ensures Executed(s, keys) == Executed(s', rest)
  {
  }

  lemma {:induction false} CountIsRepeat(countKeys: seq<Key>)
    requires forall i | 0 <= i < |countKeys| :: DigitKey(countKeys[i])
    ensures Count(Counted(Texts(countKeys))) == Repeat(countKeys)
    ensures countKeys == [] <==> Counted(Texts(countKeys)).countText == ""
  {
    if countKeys != [] {
      assert Texts(countKeys) == TextOf(countKeys[0]) + Texts(countKeys[1..]);
      CountedValue(Texts(countKeys));
    }
  }

  /** The first key of an operator, in the state its count leaves. */
  lemma {:induction false} OperatorMoves(s: State, keys: seq<Key>)
    requires keys != [] && s.prefix == NoPrefix && (DigitKey(keys[0]) ==> s.countText == "" && TextOf(keys[0]) == "0")
    ensures var r := Operator(keys, Count(s));
            Executed(s, keys) == r.commands + Executed(INITIAL, keys[r.used..])
  {
    var key, text := keys[0], TextOf(keys[0]);
    var move := OnKey(s, key);
    if PlainKey(key) && move.answer.Handled? && move.executed == [] {
      assert text == "g" || text == "z";
      if |keys| == 1 {
        assert keys[1..] == [] && Executed(move.state, []) == [];
        assert move.executed + [] == [];
      } else {
        SecondMoves(s, keys);
      }
    } else {
      assert move.state == INITIAL && Operator(keys, Count(s)) == Reading(1, move.executed);
    }
  }

  lemma {:induction false} SecondMoves(s: State, keys: seq<Key>)
    requires |keys| >= 2 && s.prefix == NoPrefix && PlainKey(keys[0]) && !ShiftedG(keys[0])
    requires TextOf(keys[0]) == "g" || TextOf(keys[0]) == "z"
    ensures Executed(s, keys) == SecondKey(TextOf(keys[0]), keys[1], Count(s)) + Executed(INITIAL, keys[2..])
  {
    var first := OnKey(s, keys[0]);
    var second := OnKey(first.state, keys[1]);
    assert first == Move(s.(prefix := if TextOf(keys[0]) == "g" then PrefixG else PrefixZ), Handled, []);
    assert second.state == INITIAL && second.executed == SecondKey(TextOf(keys[0]), keys[1], Count(s));
    assert keys[1..][0] == keys[1] && keys[1..][1..] == keys[2..];
    QuietMove(s, keys, first.state, keys[1..]);
  }

  /** A count read from the initial state. */
  lemma {:induction false} CountMoves(countKeys: seq<Key>, rest: seq<Key>, text: string)
    requires forall i | 0 <= i < |countKeys| :: DigitKey(countKeys[i])
    requires countKeys != [] ==> TextOf(countKeys[0]) != "0"
    requires text == Texts(countKeys)
    ensures Executed(INITIAL, countKeys + rest) == Executed(Counted(text), rest)
  {
    assert "" + text == text && Counted("") == INITIAL;
    DigitsMove("", countKeys, rest, text);
  }

  /** The automaton over one count. */
  lemma {:induction false} CountAhead(keys: seq<Key>, countKeys: seq<Key>, rest: seq<Key>, s: State)
    requires keys == countKeys + rest && CountLength(keys) == |countKeys| && s == Counted(Texts(countKeys))
    ensures Executed(INITIAL, keys) == Executed(s, rest)
    ensures s.prefix == NoPrefix && Count(s) == Repeat(countKeys)
    ensures rest != [] && DigitKey(rest[0]) ==> s.countText == "" && TextOf(rest[0]) == "0"
  {
    assert rest != [] ==> keys[|countKeys|] == rest[0];
    forall i | 0 <= i < |countKeys| ensures DigitKey(countKeys[i]) { assert keys[i] == countKeys[i]; }
    CountMoves(countKeys, rest, Texts(countKeys));
    CountIsRepeat(countKeys);
  }

  /** The automaton over one count and its operator. */
  lemma {:induction false} OperatorAhead(keys: seq<Key>, countKeys: seq<Key>, rest: seq<Key>, r: Reading)
    requires keys == countKeys + rest && CountLength(keys) == |countKeys| && rest != []
    requires r == Operator(rest, Repeat(countKeys))
    ensures Executed(INITIAL, keys) == r.commands + Executed(INITIAL, rest[r.used..])
  {
    var s := Counted(Texts(countKeys));
    CountAhead(keys, countKeys, rest, s);
    OperatorMoves(s, rest);
  }

  lemma {:induction false} LoneCount(keys: seq<Key>)
    requires CountLength(keys) == |keys|
    ensures Executed(INITIAL, keys) == []
  {
    assert keys == keys + [];
    CountAhead(keys, keys, [], Counted(Texts(keys)));
  }

  /** The front of the stream, once its count is known. */
  lemma {:induction false} FrontIs(keys: seq<Key>, countKeys: seq<Key>, rest: seq<Key>, r: Reading)
    requires keys == countKeys + rest && CountLength(keys) == |countKeys| && rest != []
    requires r == Operator(rest, Repeat(countKeys))
    ensures Front(keys) == Reading(|countKeys| + r.used, r.commands)
  {
  }

  /** The automaton over the front of the stream. */
  lemma {:induction false} FrontMoves(keys: seq<Key>) returns (front: Reading)
    requires CountLength(keys) < |keys|
    ensures front == Front(keys)
    ensures Executed(INITIAL, keys) == front.commands + Executed(INITIAL, keys[front.used..])
  {
    var countKeys, rest := keys[..CountLength(keys)], keys[CountLength(keys)..];
    var r := Operator(rest, Repeat(countKeys));
    assert keys == countKeys + rest;
    FrontIs(keys, countKeys, rest, r);
    front := Reading(|countKeys| + r.used, r.commands);
    assert rest[r.used..] == keys[front.used..];
    OperatorAhead(keys, countKeys, rest, r);
  }

  /** Over any stream of keys, the automaton executes exactly the commands the whole-stream reading finds. */
  lemma {:induction false} AutomatonReadsGrammar(keys: seq<Key>)
    ensures Executed(INITIAL, keys) == Commands(keys)
    decreases |keys|
  {
    if CountLength(keys) == |keys| {
      LoneCount(keys);
    } else {
      var front := FrontMoves(keys);
      AutomatonReadsGrammar(keys[front.used..]);
    }
  }
}
