/** One-tape Turing machines as simulate.cpp runs them, and the gadget that shifts the second half
    of a two-track tape one cell to the right. */
module TapeShift {
  import opened Wrappers

  datatype Direction = Left | Right
  datatype Move = Move(state: int, write: char, dir: Direction)
  type Rules = map<(int, char), Move>
  datatype Config = Config(tape: seq<char>, ind: int, state: int)

  /** The run ends in the last state, off the left end, or where no rule applies. */
  predicate Stops(rules: Rules, last: int, c: Config) {
    c.state == last || c.ind < 0 || c.ind >= |c.tape| || (c.state, c.tape[c.ind]) !in rules
  }

  function Next(rules: Rules, last: int, c: Config): Config
    requires !Stops(rules, last, c)
  {
    var m := rules[(c.state, c.tape[c.ind])];
    var tape, ind := c.tape[c.ind := m.write], if m.dir == Left then c.ind - 1 else c.ind + 1;
    Config(if ind == |tape| then tape + "_" else tape, ind, m.state)
  }

  function After(rules: Rules, last: int, c: Config, steps: nat): Config
    decreases steps
  {
    if steps == 0 || Stops(rules, last, c) then c else After(rules, last, Next(rules, last, c), steps - 1)
  }

  ghost predicate Reaches(rules: Rules, last: int, c: Config, d: Config) {
    exists k: nat :: After(rules, last, c, k) == d
  }

  ghost predicate HaltsAt(rules: Rules, last: int, c: Config, d: Config) {
    Reaches(rules, last, c, d) && Stops(rules, last, d)
  }

  lemma {:induction false} AfterAfter(rules: Rules, last: int, c: Config, i: nat, k: nat)
    ensures After(rules, last, c, i + k) == After(rules, last, After(rules, last, c, i), k)
    decreases i
  {
    if i > 0 && !Stops(rules, last, c) {
      AfterAfter(rules, last, Next(rules, last, c), i - 1, k);
    }
  }

  lemma ReachesTwice(rules: Rules, last: int, c: Config, d: Config, e: Config)
    requires Reaches(rules, last, c, d) && Reaches(rules, last, d, e)
    ensures Reaches(rules, last, c, e)
  {
    var i: nat :| After(rules, last, c, i) == d;
    var k: nat :| After(rules, last, d, k) == e;
    AfterAfter(rules, last, c, i, k);
  }

  lemma OneStep(rules: Rules, last: int, c: Config)
    requires !Stops(rules, last, c)
    ensures Reaches(rules, last, c, Next(rules, last, c))
  {
    assert After(rules, last, c, 1) == After(rules, last, Next(rules, last, c), 0);
  }

  lemma NoStep(rules: Rules, last: int, c: Config)
    ensures Reaches(rules, last, c, c)
  {
    assert After(rules, last, c, 0) == c;
  }

  /** A machine halts in at most one configuration. */
  lemma HaltsOnce(rules: Rules, last: int, c: Config, d: Config, e: Config)
    requires HaltsAt(rules, last, c, d) && HaltsAt(rules, last, c, e)
    ensures d == e
  {
    var i: nat :| After(rules, last, c, i) == d;
    var k: nat :| After(rules, last, c, k) == e;
    AfterAfter(rules, last, c, i, k);
    AfterAfter(rules, last, c, k, i);
    assert i + k == k + i;
  }

  /** The states entered, in order. */
  function States(rules: Rules, last: int, c: Config, steps: nat): seq<int>
    decreases steps
  {
    if steps == 0 || Stops(rules, last, c) then []
    else [Next(rules, last, c).state] + States(rules, last, Next(rules, last, c), steps - 1)
  }

  /** They are the states after one round, two rounds, and so on, until the machine stops. */
  lemma {:induction false} StatesAre(rules: Rules, last: int, c: Config, steps: nat)
    ensures var s := States(rules, last, c, steps);
      && |s| <= steps && After(rules, last, c, |s|) == After(rules, last, c, steps)
      && (|s| < steps ==> Stops(rules, last, After(rules, last, c, steps)))
      && forall k: nat :: k < |s| ==>
        !Stops(rules, last, After(rules, last, c, k)) && s[k] == After(rules, last, c, k + 1).state
    decreases steps
  {
    hide Next, Stops;
    if steps > 0 && !Stops(rules, last, c) {
      var d := Next(rules, last, c);
      StatesAre(rules, last, d, steps - 1);
      var s, rest := States(rules, last, c, steps), States(rules, last, d, steps - 1);
      assert s == [d.state] + rest;
      assert After(rules, last, d, 0) == d;
      forall k: nat | k < |s|
        ensures !Stops(rules, last, After(rules, last, c, k)) && s[k] == After(rules, last, c, k + 1).state
      {
        if k > 0 {
          var i: nat := k - 1;
          assert s[k] == rest[i] == After(rules, last, d, i + 1).state;
          assert After(rules, last, c, k) == After(rules, last, d, i);
        }
      }
    }
  }

  lemma Unroll(rules: Rules, last: int, c: Config, steps: nat)
    ensures Stops(rules, last, c) ==> After(rules, last, c, steps) == c && States(rules, last, c, steps) == []
    ensures !Stops(rules, last, c) && steps > 0 ==>
      After(rules, last, c, steps) == After(rules, last, Next(rules, last, c), steps - 1) &&
      States(rules, last, c, steps) ==
        [Next(rules, last, c).state] + States(rules, last, Next(rules, last, c), steps - 1)
    ensures steps == 0 ==> After(rules, last, c, steps) == c && States(rules, last, c, steps) == []
  {
  }

  lemma NextIs(rules: Rules, last: int, c: Config)
    requires !Stops(rules, last, c)
    ensures var m := rules[(c.state, c.tape[c.ind])];
            var tape, ind := c.tape[c.ind := m.write], if m.dir == Left then c.ind - 1 else c.ind + 1;
            Next(rules, last, c) == Config(if ind == |tape| then tape + "_" else tape, ind, m.state)
  {
  }

  /** One turn of the loop and what is left to do. */
  lemma Turn(rules: Rules, last: int, c: Config, left: nat, output: seq<int>)
    requires !Stops(rules, last, c) && left > 0
    ensures After(rules, last, c, left) == After(rules, last, Next(rules, last, c), left - 1)
    ensures output + States(rules, last, c, left) ==
      (output + [Next(rules, last, c).state]) + States(rules, last, Next(rules, last, c), left - 1)
  {
    Unroll(rules, last, c, left);
  }

  /** The first rounds of simulate, as many as given or until it ends. The output is the list of
      states entered, and -1 if the machine gets stuck. */
  method Simulate(tape: seq<char>, rules: Rules, last: int, rounds: nat)
    returns (finalTape: seq<char>, output: seq<int>, ended: bool)
    requires tape != []
    ensures var d := After(rules, last, Config(tape, 0, 0), rounds);
            && finalTape == d.tape && (ended <==> Stops(rules, last, d))
            && output == States(rules, last, Config(tape, 0, 0), rounds) + if ended && d.state != last then [-1] else []
  {
    hide After, States, Next;
    finalTape, output := tape, [];
    var ind, currState, left := 0, 0, rounds;
    ghost var all := States(rules, last, Config(tape, 0, 0), rounds);
    while true
      invariant ind < |finalTape|
      invariant After(rules, last, Config(finalTape, ind, currState), left) ==
        After(rules, last, Config(tape, 0, 0), rounds)
      invariant output + States(rules, last, Config(finalTape, ind, currState), left) == all
      decreases left
    {
      Unroll(rules, last, Config(finalTape, ind, currState), left);
      if currState == last {
        return finalTape, output, true;
      }
      if ind < 0 || (currState, finalTape[ind]) !in rules {
        return finalTape, output + [-1], true;
      }
      if left == 0 {
        return finalTape, output, false;
      }
      Turn(rules, last, Config(finalTape, ind, currState), left, output);
      NextIs(rules, last, Config(finalTape, ind, currState));
      var currVal := rules[(currState, finalTape[ind])];
      output := output + [currVal.state];
      finalTape := finalTape[ind := currVal.write];
      ind := if currVal.dir == Left then ind - 1 else ind + 1;
      if ind == |finalTape| {
        finalTape := finalTape + "_";
      }
      currState := currVal.state;
      left := left - 1;
    }
  }

  // ---- Blanks on the right ----

  function Blanks(n: nat): string {
    seq(n, _ => '_')
  }

  /** The same head and state, and the same tape but for blanks on the right of d's. */
  ghost predicate Padded(c: Config, d: Config) {
    c.ind == d.ind && c.state == d.state && exists n: nat :: d.tape == c.tape + Blanks(n)
  }

  lemma PaddedStep(rules: Rules, last: int, c: Config, d: Config)
    requires Padded(c, d) && c.ind < |c.tape|
    ensures Stops(rules, last, c) <==> Stops(rules, last, d)
    ensures !Stops(rules, last, c) ==> var e := Next(rules, last, c);
      Padded(e, Next(rules, last, d)) && e.ind < |e.tape|
  {
    var n: nat :| d.tape == c.tape + Blanks(n);
    if !Stops(rules, last, c) {
      var e, f := Next(rules, last, c), Next(rules, last, d);
      if |e.tape| == |c.tape| || n == 0 {
        assert f.tape == e.tape + Blanks(n);
      } else {
        var k: nat := n - 1;
        assert "_" + Blanks(k) == Blanks(n);
        assert f.tape == e.tape + Blanks(k);
      }
    }
  }

  /** It does not matter how many blanks the tape is filled up with: the machine stops after the same
      rounds, has entered the same states, and ends with the same tape but for blanks on the right. */
  lemma {:induction false} PaddingHarmless(rules: Rules, last: int, c: Config, d: Config, steps: nat)
    requires Padded(c, d) && c.ind < |c.tape|
    ensures var e, f := After(rules, last, c, steps), After(rules, last, d, steps);
      Padded(e, f) && (Stops(rules, last, e) <==> Stops(rules, last, f))
    ensures States(rules, last, c, steps) == States(rules, last, d, steps)
    decreases steps
  {
    hide Padded, Next;
    PaddedStep(rules, last, c, d);
    if steps > 0 && !Stops(rules, last, c) {
      PaddedState(Next(rules, last, c), Next(rules, last, d));
      PaddingHarmless(rules, last, Next(rules, last, c), Next(rules, last, d), steps - 1);
    }
  }

  lemma PaddedState(c: Config, d: Config)
    requires Padded(c, d)
    ensures c.state == d.state
  {
  }

  // ---- The shifters ----

  predicate IsPlain(x: char) {
    x == '1' || x == '0' || x == '_'
  }

  predicate IsMark(x: char) {
    x == 'X' || x == 'Y' || x == 'Z'
  }

  /** The number, counted from the first state, of the state that carries a symbol. */
  function Carrier(x: char): int
    requires IsPlain(x) || IsMark(x) || x == '$'
  {
    match x
    case '1' => 1
    case '0' => 2
    case '_' => 3
    case '$' => 4
    case 'X' => 6
    case 'Y' => 7
    case _ => 8
  }

  /** A marked symbol may be followed by a plain symbol or `$` only. */
  predicate MayFollow(c: char, x: char) {
    IsPlain(x) || x == '$' || (IsMark(x) && !IsMark(c))
  }

  /** What createShifters adds for state s + q reading x. */
  function ShiftRule(s: int, finish: int, q: int, x: char): Option<Move> {
    if q == 0 then
      if IsPlain(x) || IsMark(x) || x == '$' then Some(Move(s + Carrier(x), '$', Right)) else None
    else if q == 4 then
      if x == '_' then Some(Move(s + 5, '$', Left)) else None
    else if q == 5 then
      if IsPlain(x) || IsMark(x) then Some(Move(s + 5, x, Left))
      else if x == '$' then Some(Move(s + 9, '$', Left)) else None
    else if q == 9 then
      if x == '_' then Some(Move(s + 10, 'Z', Right)) else None
    else if q == 10 then
      if IsPlain(x) || x == '$' then Some(Move(finish, x, Left)) else None
    else if Carries(q) then
      var c := match q case 1 => '1' case 2 => '0' case 3 => '_' case 6 => 'X' case 7 => 'Y' case _ => 'Z';
      if MayFollow(c, x) then Some(Move(s + Carrier(x), c, Right)) else None
    else None
  }

  /** The rules of the states s to s + 10 are those of createShifters. */
  ghost predicate HasShifters(rules: Rules, s: int, finish: int) {
    forall q, x :: s <= q <= s + 10 ==>
      if ShiftRule(s, finish, q - s, x).Some?
        then (q, x) in rules && rules[(q, x)] == ShiftRule(s, finish, q - s, x).value
      else (q, x) !in rules
  }

  /** The rules of one state that carries c: write it, and carry what was read. */
  method AddCarrier(rules: Rules, s: int, c: char) returns (r: Rules)
    requires IsPlain(c) || IsMark(c)
    ensures forall q, x :: (q, x) in r <==> (q, x) in rules || (q == s + Carrier(c) && MayFollow(c, x))
    ensures forall q, x :: (q, x) in r ==>
      r[(q, x)] == if q == s + Carrier(c) && MayFollow(c, x) then Move(s + Carrier(x), c, Right) else rules[(q, x)]
  {
    var q := s + Carrier(c);
    r := rules;
    r := r[(q, '1') := Move(s + 1, c, Right)];
    r := r[(q, '0') := Move(s + 2, c, Right)];
    r := r[(q, '_') := Move(s + 3, c, Right)];
    r := r[(q, '$') := Move(s + 4, c, Right)];
    if !IsMark(c) {
      r := r[(q, 'X') := Move(s + 6, c, Right)];
      r := r[(q, 'Y') := Move(s + 7, c, Right)];
      r := r[(q, 'Z') := Move(s + 8, c, Right)];
    }
  }

  /** The rules of all states that carry a symbol. */
  method AddCarriers(rules: Rules, s: int) returns (r: Rules)
    ensures forall q, x :: (q, x) in r <==> (q, x) in rules || (Carries(q - s) && ShiftRule(s, 0, q - s, x).Some?)
    ensures forall q, x :: (q, x) in r ==>
      r[(q, x)] == if Carries(q - s) && ShiftRule(s, 0, q - s, x).Some? then ShiftRule(s, 0, q - s, x).value
        else rules[(q, x)]
  {
    r := AddCarrier(rules, s, '1');
    r := AddCarrier(r, s, '0');
    r := AddCarrier(r, s, '_');
    r := AddCarrier(r, s, 'X');
    r := AddCarrier(r, s, 'Y');
    r := AddCarrier(r, s, 'Z');
  }

  predicate Carries(q: int) {
    1 <= q <= 3 || 6 <= q <= 8
  }

  /** The rules of the first state: mark the cell and carry what was read. */
  method AddFirst(rules: Rules, s: int) returns (r: Rules)
    ensures forall q, x :: (q, x) in r <==> (q, x) in rules || (q == s && (IsPlain(x) || IsMark(x) || x == '$'))
    ensures forall q, x :: (q, x) in r ==>
      r[(q, x)] == if q == s && (IsPlain(x) || IsMark(x) || x == '$') then Move(s + Carrier(x), '$', Right)
        else rules[(q, x)]
  {
    r := rules;
    r := r[(s, '1') := Move(s + 1, '$', Right)];
    r := r[(s, '0') := Move(s + 2, '$', Right)];
    r := r[(s, '_') := Move(s + 3, '$', Right)];
    r := r[(s, '$') := Move(s + 4, '$', Right)];
    r := r[(s, 'X') := Move(s + 6, '$', Right)];
    r := r[(s, 'Y') := Move(s + 7, '$', Right)];
    r := r[(s, 'Z') := Move(s + 8, '$', Right)];
  }

  /** The rules of the state that goes back over the word. */
  method AddBack(rules: Rules, s: int) returns (r: Rules)
    ensures forall q, x :: (q, x) in r <==> (q, x) in rules || (q == s + 5 && (IsPlain(x) || IsMark(x) || x == '$'))
    ensures forall q, x :: (q, x) in r ==>
      r[(q, x)] == if q == s + 5 && (IsPlain(x) || IsMark(x) || x == '$')
        then Move(if x == '$' then s + 9 else s + 5, x, Left)
                   else rules[(q, x)]
  {
    r := rules;
    r := r[(s + 5, '1') := Move(s + 5, '1', Left)];
    r := r[(s + 5, '0') := Move(s + 5, '0', Left)];
    r := r[(s + 5, '_') := Move(s + 5, '_', Left)];
    r := r[(s + 5, 'X') := Move(s + 5, 'X', Left)];
    r := r[(s + 5, 'Y') := Move(s + 5, 'Y', Left)];
    r := r[(s + 5, 'Z') := Move(s + 5, 'Z', Left)];
    r := r[(s + 5, '$') := Move(s + 9, '$', Left)];
  }

  /** The rules of the last state: step back onto the mark. */
  method AddLast(rules: Rules, s: int, finish: int) returns (r: Rules)
    ensures forall q, x :: (q, x) in r <==> (q, x) in rules || (q == s + 10 && (IsPlain(x) || x == '$'))
    ensures forall q, x :: (q, x) in r ==>
      r[(q, x)] == if q == s + 10 && (IsPlain(x) || x == '$') then Move(finish, x, Left) else rules[(q, x)]
  {
    r := rules;
    r := r[(s + 10, '1') := Move(finish, '1', Left)];
    r := r[(s + 10, '0') := Move(finish, '0', Left)];
    r := r[(s + 10, '_') := Move(finish, '_', Left)];
    r := r[(s + 10, '$') := Move(finish, '$', Left)];
  }

  /** The shifting rules are set, and all other rules are as before. */
  ghost predicate AddsShifters(rules: Rules, r: Rules, s: int, finish: int) {
    forall q, x ::
      if ShiftRule(s, finish, q - s, x).Some? then (q, x) in r && r[(q, x)] == ShiftRule(s, finish, q - s, x).value
      else ((q, x) in r <==> (q, x) in rules) && ((q, x) in r ==> r[(q, x)] == rules[(q, x)])
  }

  // ---- What the shifters do ----

  predicate IsWord(w: string) {
    forall k :: 0 <= k < |w| ==> w[k] in {'1', '0', '_', 'X', 'Y', 'Z'}
  }

  predicate NoAdjacentMarks(w: string) {
    forall k :: 0 <= k < |w| - 1 ==> !(w[k] in {'X', 'Y', 'Z'} && w[k + 1] in {'X', 'Y', 'Z'})
  }

  /** One step to the right over x, with more tape to come. */
  lemma StepRight(rules: Rules, s: int, finish: int, before: string, x: char, after: string, q: int)
    requires HasShifters(rules, s, finish) && !(s <= finish <= s + 10) && 0 <= q <= 10 && after != []
    requires var m := ShiftRule(s, finish, q, x); m.Some? && m.value.dir == Right
    ensures var m := ShiftRule(s, finish, q, x).value;
            Reaches(rules, finish, Config(before + [x] + after, |before|, s + q),
              Config(before + [m.write] + after, |before| + 1, m.state))
  {
    var c := Config(before + [x] + after, |before|, s + q);
    assert c.tape[c.ind] == x && (c.state, x) in rules && rules[(c.state, x)] == ShiftRule(s, finish, q, x).value;
    OneStep(rules, finish, c);
    assert Next(rules, finish, c).tape == before + [rules[(c.state, x)].write] + after;
  }

  lemma StepLeft(rules: Rules, s: int, finish: int, before: string, x: char, after: string, q: int)
    requires HasShifters(rules, s, finish) && !(s <= finish <= s + 10) && 0 <= q <= 10
    requires var m := ShiftRule(s, finish, q, x); m.Some? && m.value.dir == Left
    ensures var m := ShiftRule(s, finish, q, x).value;
            Reaches(rules, finish, Config(before + [x] + after, |before|, s + q),
              Config(before + [m.write] + after, |before| - 1, m.state))
  {
    var c := Config(before + [x] + after, |before|, s + q);
    assert c.tape[c.ind] == x && (c.state, x) in rules && rules[(c.state, x)] == ShiftRule(s, finish, q, x).value;
    OneStep(rules, finish, c);
    assert Next(rules, finish, c).tape == before + [rules[(c.state, x)].write] + after;
  }

  /** The tape with the head's cell taken out. */
  lemma Split(before: string, x: char, v: string, after: string)
    ensures before + [x] + (v + after) == before + ([x] + v) + after
    ensures before + [x] + (v + after) == (before + [x]) + v + after
  {
  }

  lemma WordTail(w: string)
    requires w != [] && IsWord(w)
    ensures w == [w[0]] + w[1..] && IsWord(w[1..])
  {
  }

  lemma MarksTail(c: char, v: string)
    requires v != []
    ensures NoAdjacentMarks([c] + v) <==> !(IsMark(c) && IsMark(v[0])) && NoAdjacentMarks(v)
  {
    var w := [c] + v;
    assert w[0] == c && w[1] == v[0];
    if NoAdjacentMarks(v) && !(IsMark(c) && IsMark(v[0])) {
      forall k | 0 <= k < |w| - 1 ensures !(IsMark(w[k]) && IsMark(w[k + 1])) {
        if k > 0 { assert w[k] == v[k - 1] && w[k + 1] == v[k - 1 + 1]; }
      }
    }
    if NoAdjacentMarks(w) {
      forall k | 0 <= k < |v| - 1 ensures !(IsMark(v[k]) && IsMark(v[k + 1])) {
        assert v[k] == w[k + 1] && v[k + 1] == w[k + 1 + 1];
      }
    }
  }

  lemma CarryRule(s: int, finish: int, c: char, x: char)
    requires IsPlain(c) || IsMark(c)
    ensures ShiftRule(s, finish, Carrier(c), x) ==
      if MayFollow(c, x) then Some(Move(s + Carrier(x), c, Right)) else None
  {
  }

  /** Carrying c, with v$_ ahead: everything moves one cell to the right. */
  lemma {:induction false} Carry(rules: Rules, s: int, finish: int, before: string, c: char, v: string, rest: string)
    requires HasShifters(rules, s, finish) && !(s <= finish <= s + 10)
    requires (IsPlain(c) || IsMark(c)) && IsWord(v) && NoAdjacentMarks([c] + v)
    ensures Reaches(rules, finish, Config(before + v + ("$_" + rest), |before|, s + Carrier(c)),
                                   Config(before + [c] + v + ("$" + rest), |before| + |v|, s + 5))
    decreases |v|
  {
    hide Reaches, HasShifters, ShiftRule, NoAdjacentMarks;
    var start, end :=
      Config(before + v + ("$_" + rest), |before|, s + Carrier(c)),
      Config(before + [c] + v + ("$" + rest), |before| + |v|, s + 5);
    if v == [] {
      CarryRule(s, finish, c, '$');
      StepRight(rules, s, finish, before, '$', "_" + rest, Carrier(c));
      assert start.tape == before + "$" + ("_" + rest);
      TurnRule(s, finish);
      StepLeft(rules, s, finish, before + [c], '_', rest, 4);
      assert before + [c] + ("_" + rest) == (before + [c]) + "_" + rest;
      assert end.tape == (before + [c]) + "$" + rest;
      ReachesTwice(rules, finish, start, Config(before + [c] + ("_" + rest), |before| + 1, s + 4), end);
    } else {
      var x := v[0];
      WordTail(v);
      MarksTail(c, v);
      CarryRule(s, finish, c, x);
      StepRight(rules, s, finish, before, x, v[1..] + ("$_" + rest), Carrier(c));
      Split(before, x, v[1..], "$_" + rest);
      Split(before, c, v[1..], "$_" + rest);
      Carry(rules, s, finish, before + [c], x, v[1..], rest);
      assert before + [c] + [x] + v[1..] + ("$" + rest) == end.tape;
      ReachesTwice(rules, finish, start, Config((before + [c]) + v[1..] + ("$_" + rest), |before| + 1, s + Carrier(x)),
        end);
    }
  }

  lemma TurnRule(s: int, finish: int)
    ensures ShiftRule(s, finish, 4, '_') == Some(Move(s + 5, '$', Left))
    ensures ShiftRule(s, finish, 5, '$') == Some(Move(s + 9, '$', Left))
    ensures ShiftRule(s, finish, 9, '_') == Some(Move(s + 10, 'Z', Right))
    ensures ShiftRule(s, finish, 10, '$') == Some(Move(finish, '$', Left))
    ensures forall x :: IsPlain(x) || IsMark(x) ==> ShiftRule(s, finish, 5, x) == Some(Move(s + 5, x, Left))
    ensures forall x :: IsPlain(x) || IsMark(x) || x == '$' ==>
      ShiftRule(s, finish, 0, x) == Some(Move(s + Carrier(x), '$', Right))
  {
  }

  /** No rule lets a carried mark replace another mark. */
  lemma StuckHere(rules: Rules, s: int, finish: int, before: string, c: char, v: string)
    requires HasShifters(rules, s, finish) && !(s <= finish <= s + 10)
    requires IsMark(c) && v != [] && IsMark(v[0])
    ensures var d := Config(before + v, |before|, s + Carrier(c)); HaltsAt(rules, finish, d, d) && d.state != finish
  {
    var d := Config(before + v, |before|, s + Carrier(c));
    assert d.tape[d.ind] == v[0];
    CarryRule(s, finish, c, v[0]);
    assert (d.state, v[0]) !in rules;
    NoStep(rules, finish, d);
  }

  /** Two adjacent marks stop the machine before its last state. */
  lemma {:induction false} CarryStuck(rules: Rules, s: int, finish: int, before: string, c: char, v: string,
                                      rest: string)
    returns (d: Config)
    requires HasShifters(rules, s, finish) && !(s <= finish <= s + 10)
    requires (IsPlain(c) || IsMark(c)) && IsWord(v) && v != [] && !NoAdjacentMarks([c] + v)
    ensures HaltsAt(rules, finish, Config(before + v + ("$_" + rest), |before|, s + Carrier(c)), d) && d.state != finish
    decreases |v|
  {
    hide Reaches, HasShifters, ShiftRule;
    var x := v[0];
    WordTail(v);
    MarksTail(c, v);
    if IsMark(c) && IsMark(x) {
      StuckHere(rules, s, finish, before, c, v + ("$_" + rest));
      assert before + (v + ("$_" + rest)) == before + v + ("$_" + rest);
      d := Config(before + v + ("$_" + rest), |before|, s + Carrier(c));
    } else {
      CarryRule(s, finish, c, x);
      StepRight(rules, s, finish, before, x, v[1..] + ("$_" + rest), Carrier(c));
      Split(before, x, v[1..], "$_" + rest);
      Split(before, c, v[1..], "$_" + rest);
      d := CarryStuck(rules, s, finish, before + [c], x, v[1..], rest);
      ReachesTwice(rules, finish, Config(before + v + ("$_" + rest), |before|, s + Carrier(c)),
                   Config((before + [c]) + v[1..] + ("$_" + rest), |before| + 1, s + Carrier(x)), d);
    }
  }

  /** Going back over the word to the first `$`, with the head on its last symbol. */
  lemma {:induction false} GoBack(rules: Rules, s: int, finish: int, before: string, w: string, after: string)
    requires HasShifters(rules, s, finish) && !(s <= finish <= s + 10) && IsWord(w)
    ensures Reaches(rules, finish, Config(before + "$" + w + after, |before| + |w|, s + 5),
      Config(before + "$" + w + after, |before| - 1, s + 9))
    decreases |w|
  {
    hide Reaches, HasShifters, ShiftRule;
    TurnRule(s, finish);
    var tape := before + "$" + w + after;
    if w == [] {
      StepLeft(rules, s, finish, before, '$', after, 5);
      assert before + "$" + after == tape;
    } else {
      var front, x := w[..|w| - 1], w[|w| - 1];
      StepLeft(rules, s, finish, before + "$" + front, x, after, 5);
      assert before + "$" + front + [x] + after == tape;
      assert before + "$" + front + ([x] + after) == tape;
      GoBack(rules, s, finish, before, front, [x] + after);
      ReachesTwice(rules, finish, Config(tape, |before| + |w|, s + 5), Config(tape, |before| + |front|, s + 5),
        Config(tape, |before| - 1, s + 9));
    }
  }

  /** From the blank left of the shifted word to the last state. */
  lemma Finish(rules: Rules, s: int, finish: int, left: string, after: string)
    requires HasShifters(rules, s, finish) && !(s <= finish <= s + 10)
    ensures Reaches(rules, finish, Config(left + "_" + ("$" + after), |left|, s + 9),
      Config(left + "Z" + ("$" + after), |left|, finish))
  {
    hide Reaches, HasShifters, ShiftRule;
    TurnRule(s, finish);
    StepRight(rules, s, finish, left, '_', "$" + after, 9);
    StepLeft(rules, s, finish, left + "Z", '$', after, 10);
    assert left + "Z" + "$" + after == left + "Z" + ("$" + after);
    ReachesTwice(rules, finish, Config(left + "_" + ("$" + after), |left|, s + 9),
      Config(left + "Z" + ("$" + after), |left| + 1, s + 10), Config(left + "Z" + ("$" + after), |left|, finish));
  }

  /** The first step, which puts down the `$`. */
  lemma FirstStep(rules: Rules, s: int, finish: int, before: string, w: string, rest: string)
    requires HasShifters(rules, s, finish) && !(s <= finish <= s + 10) && IsWord(w)
    ensures Reaches(rules, finish, Config(before + w + ("$_" + rest), |before|, s),
                    if w == [] then Config(before + "$" + ("_" + rest), |before| + 1, s + 4)
                    else Config(before + "$" + w[1..] + ("$_" + rest), |before| + 1, s + Carrier(w[0])))
  {
    hide Reaches, HasShifters, ShiftRule;
    TurnRule(s, finish);
    if w == [] {
      StepRight(rules, s, finish, before, '$', "_" + rest, 0);
      assert before + "$" + ("_" + rest) == before + w + ("$_" + rest);
    } else {
      WordTail(w);
      StepRight(rules, s, finish, before, w[0], w[1..] + ("$_" + rest), 0);
      Split(before, w[0], w[1..], "$_" + rest);
      Split(before, '$', w[1..], "$_" + rest);
    }
  }

  /** The way to the right, from the first cell of the word. */
  lemma ShiftRight(rules: Rules, s: int, finish: int, before: string, w: string, rest: string)
    requires HasShifters(rules, s, finish) && !(s <= finish <= s + 10)
    requires IsWord(w) && NoAdjacentMarks(w)
    ensures Reaches(rules, finish, Config(before + w + ("$_" + rest), |before|, s),
      Config(before + "$" + w + ("$" + rest), |before| + |w|, s + 5))
  {
    hide Reaches, HasShifters, ShiftRule, NoAdjacentMarks;
    FirstStep(rules, s, finish, before, w, rest);
    var start, end :=
      Config(before + w + ("$_" + rest), |before|, s), Config(before + "$" + w + ("$" + rest), |before| + |w|, s + 5);
    if w == [] {
      TurnRule(s, finish);
      StepLeft(rules, s, finish, before + "$", '_', rest, 4);
      assert before + "$" + "_" + rest == before + "$" + ("_" + rest);
      assert before + "$" + "$" + rest == end.tape;
      ReachesTwice(rules, finish, start, Config(before + "$" + ("_" + rest), |before| + 1, s + 4), end);
    } else {
      WordTail(w);
      Carry(rules, s, finish, before + "$", w[0], w[1..], rest);
      assert before + "$" + [w[0]] + w[1..] + ("$" + rest) == end.tape;
      ReachesTwice(rules, finish, start, Config(before + "$" + w[1..] + ("$_" + rest), |before| + 1, s + Carrier(w[0])),
        end);
    }
  }

  /** With a blank on the left of w$_, the machine halts in its last state with Z$w$ on the tape,
      the head on the Z and nothing else changed, if no two marks are adjacent in w; otherwise it
      gets stuck. */
  ghost predicate GadgetWorks(rules: Rules, s: int, finish: int, left: string, w: string, rest: string) {
    var start := Config(left + "_" + w + ("$_" + rest), |left| + 1, s);
    if NoAdjacentMarks(w) then HaltsAt(rules, finish, start, Config(left + "Z$" + w + ("$" + rest), |left|, finish))
    else exists d :: HaltsAt(rules, finish, start, d) && d.state != finish
  }

  lemma ShiftGadget(rules: Rules, s: int, finish: int, left: string, w: string, rest: string)
    requires HasShifters(rules, s, finish) && !(s <= finish <= s + 10) && IsWord(w)
    ensures GadgetWorks(rules, s, finish, left, w, rest)
  {
    hide Reaches, HasShifters, ShiftRule, NoAdjacentMarks;
    var before := left + "_";
    var start := Config(before + w + ("$_" + rest), |left| + 1, s);
    if NoAdjacentMarks(w) {
      var shifted := before + "$" + w + ("$" + rest);
      ShiftRight(rules, s, finish, before, w, rest);
      GoBack(rules, s, finish, before, w, "$" + rest);
      Finish(rules, s, finish, left, w + ("$" + rest));
      assert shifted == left + "_" + ("$" + (w + ("$" + rest)));
      var end := Config(left + "Z$" + w + ("$" + rest), |left|, finish);
      assert end.tape == left + "Z" + ("$" + (w + ("$" + rest)));
      ReachesTwice(rules, finish, start, Config(shifted, |before| + |w|, s + 5), Config(shifted, |left|, s + 9));
      ReachesTwice(rules, finish, start, Config(shifted, |left|, s + 9), end);
    } else {
      AdjacentIsLong(w);
      WordTail(w);
      FirstStep(rules, s, finish, before, w, rest);
      var d := CarryStuck(rules, s, finish, before + "$", w[0], w[1..], rest);
      ReachesTwice(rules, finish, start, Config(before + "$" + w[1..] + ("$_" + rest), |before| + 1, s + Carrier(w[0])),
        d);
    }
  }

  /** The shift succeeds exactly on words without adjacent marks. */
  lemma ShiftsIff(rules: Rules, s: int, finish: int, left: string, w: string, rest: string)
    requires HasShifters(rules, s, finish) && !(s <= finish <= s + 10) && IsWord(w)
    ensures (exists d ::
      HaltsAt(rules, finish, Config(left + "_" + w + ("$_" + rest), |left| + 1, s), d) && d.state == finish) <==>
      NoAdjacentMarks(w)
  {
    hide HaltsAt, HasShifters, NoAdjacentMarks;
    var start := Config(left + "_" + w + ("$_" + rest), |left| + 1, s);
    ShiftGadget(rules, s, finish, left, w, rest);
    if !NoAdjacentMarks(w) {
      var d :| HaltsAt(rules, finish, start, d) && d.state != finish;
      forall e | HaltsAt(rules, finish, start, e) ensures e == d {
        HaltsOnce(rules, finish, start, d, e);
      }
    }
  }

  lemma AdjacentIsLong(w: string)
    requires !NoAdjacentMarks(w)
    ensures |w| >= 2
  {
  }

  // ---- createShifters ----

  /** No rule is set yet for the states s to s + 10. */
  ghost predicate Fresh(rules: Rules, s: int) {
    forall q, x :: s <= q <= s + 10 ==> (q, x) !in rules
  }

  /** On fresh states the shifting rules are the only ones. */
  lemma OnlyShifters(rules: Rules, r: Rules, s: int, finish: int)
    requires AddsShifters(rules, r, s, finish) && Fresh(rules, s)
    ensures HasShifters(r, s, finish)
  {
  }

  /** On fresh states, what createShifters builds is the working gadget. */
  lemma BuiltGadget(rules: Rules, r: Rules, s: int, finish: int)
    requires AddsShifters(rules, r, s, finish) && Fresh(rules, s) && !(s <= finish <= s + 10)
    ensures forall left, w, rest :: IsWord(w) ==> GadgetWorks(r, s, finish, left, w, rest)
  {
    hide AddsShifters, Fresh, HasShifters, GadgetWorks, IsWord;
    OnlyShifters(rules, r, s, finish);
    forall left, w, rest | IsWord(w) ensures GadgetWorks(r, s, finish, left, w, rest) {
      ShiftGadget(r, s, finish, left, w, rest);
    }
  }

  /** createShifters, with -1 standing for the accepting state. */
  method CreateShifters(s: int, rules: Rules, finish: int, foundAccept: bool, maxInd: int)
    returns (r: Rules, newMax: int)
    ensures AddsShifters(rules, r, s, if foundAccept then -1 else finish)
    ensures var f := if foundAccept then -1 else finish;
            Fresh(rules, s) && !(s <= f <= s + 10) ==>
              forall left, w, rest :: IsWord(w) ==> GadgetWorks(r, s, f, left, w, rest)
    ensures newMax == if s + 10 > maxInd then s + 10 else maxInd
  {
    hide GadgetWorks, IsWord, Fresh;
    var finishind := if foundAccept then -1 else finish;
    r := AddFirst(rules, s);
    r := r[(s + 4, '_') := Move(s + 5, '$', Left)];
    r := AddCarriers(r, s);
    r := AddBack(r, s);
    r := r[(s + 9, '_') := Move(s + 10, 'Z', Right)];
    r := AddLast(r, s, finishind);
    newMax := if s + 10 > maxInd then s + 10 else maxInd;
    assert AddsShifters(rules, r, s, finishind);
    if Fresh(rules, s) && !(s <= finishind <= s + 10) {
      BuiltGadget(rules, r, s, finishind);
    }
  }
}
