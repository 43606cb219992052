/** From infix to postfix: addConcats inserts the missing `&`, postFix is an operator-precedence
    conversion with a stack, and together they undo printing. */
module PostFix {
  import opened Wrappers
  import opened Sequences
  import opened Automaton
  import opened Build

  predicate IsAlnum(c: char) {
    'a' <= c <= 'z' || 'A' <= c <= 'Z' || '0' <= c <= '9'
  }

  const LOWER := "abcdefghijklmnopqrstuvwxyz"
  const UPPER := "ABCDEFGHIJKLMNOPQRSTUVWXYZ"
  const DIGITS := "0123456789"

  /** The symbols an expression may hold. */
  predicate Symbol(c: char) {
    c in LOWER || c in UPPER || c in DIGITS
  }

  lemma AlphabetSizes()
    ensures |LOWER| == 26 && |UPPER| == 26 && |DIGITS| == 10
  {
  }

  lemma LowerAt(k: nat)
    requires k < 26
    ensures LOWER[k] as int == 'a' as int + k
  {
  }

  lemma UpperAt(k: nat)
    requires k < 26
    ensures UPPER[k] as int == 'A' as int + k
  {
  }

  lemma DigitAt(k: nat)
    requires k < 10
    ensures DIGITS[k] as int == '0' as int + k
  {
  }

  /** The three ranges the code tests for hold exactly the 62 letters and digits. */
  lemma SymbolIsAlnum(c: char)
    ensures Symbol(c) <==> IsAlnum(c)
  {
    hide LOWER, UPPER, DIGITS;
    AlphabetSizes();
    if c in LOWER { var k: nat :| k < |LOWER| && LOWER[k] == c; LowerAt(k); }
    if c in UPPER { var k: nat :| k < |UPPER| && UPPER[k] == c; UpperAt(k); }
    if c in DIGITS { var k: nat :| k < |DIGITS| && DIGITS[k] == c; DigitAt(k); }
    if 'a' <= c <= 'z' { LowerAt(c as int - 'a' as int); assert LOWER[c as int - 'a' as int] == c; }
    if 'A' <= c <= 'Z' { UpperAt(c as int - 'A' as int); assert UPPER[c as int - 'A' as int] == c; }
    if '0' <= c <= '9' { DigitAt(c as int - '0' as int); assert DIGITS[c as int - '0' as int] == c; }
  }

  /** addConcats puts an `&` between these two neighbours. */
  predicate NeedsAmp(a: char, b: char) {
    || (a == '*' && IsAlnum(b))
    || (IsAlnum(a) && IsAlnum(b))
    || (a == ')' && (b == '(' || IsAlnum(b)))
  }

  function AmpBetween(a: char, b: char): string {
    if NeedsAmp(a, b) then "&" else ""
  }

  function WithConcats(reg: string): string {
    if |reg| <= 1 then reg
    else [reg[0]] + AmpBetween(reg[0], reg[1]) + WithConcats(reg[1..])
  }

  lemma ConcatsStep(reg: string, i: nat)
    requires i < |reg| - 1
    ensures WithConcats(reg[i..]) == [reg[i]] + AmpBetween(reg[i], reg[i + 1]) + WithConcats(reg[i + 1..])
  {
    assert reg[i..][1..] == reg[i + 1..];
  }

  lemma Assoc(a: string, b: string, c: string)
    ensures (a + b) + c == a + (b + c)
  {
  }

  method AddConcats(reg: string) returns (ans: string)
    requires reg != ""
    ensures ans == WithConcats(reg)
  {
    hide WithConcats;
    ans := "";
    assert reg[0..] == reg && "" + WithConcats(reg) == WithConcats(reg);
    for i := 0 to |reg| - 1
      invariant ans + WithConcats(reg[i..]) == WithConcats(reg)
    {
      ConcatsStep(reg, i);
      ghost var step := [reg[i]] + AmpBetween(reg[i], reg[i + 1]);
      Assoc(ans, step, WithConcats(reg[i + 1..]));
      if reg[i] == '*' && IsAlnum(reg[i + 1]) {
        ans := ans + ("*" + "&");
        continue;
      }
      if IsAlnum(reg[i]) && IsAlnum(reg[i + 1]) {
        ans := ans + ([reg[i]] + "&");
        continue;
      }
      if reg[i] == ')' && (reg[i + 1] == '(' || IsAlnum(reg[i + 1])) {
        ans := ans + (")" + "&");
        continue;
      }
      assert step == [reg[i]];
      ans := ans + [reg[i]];
    }
    LastAlone(reg);
    ans := ans + [reg[|reg| - 1]];
  }

  lemma LastAlone(reg: string)
    requires reg != ""
    ensures WithConcats(reg[|reg| - 1..]) == [reg[|reg| - 1]]
  {
    assert reg[|reg| - 1..] == [reg[|reg| - 1]];
  }

  // ---- The conversion ----

  function Pre(c: char): int {
    match c
    case '|' => 2
    case '&' => 3
    case '*' => 4
    case '(' => 1
    case _ => 0
  }

  /** Popping for c stops at the stack symbol t. */
  predicate Stops(c: char, t: char) {
    if c == ')' then t == '(' else Pre(c) > Pre(t)
  }

  /** How many symbols are popped for c. */
  function PopCount(op: string, c: char): (n: nat)
    ensures n <= |op|
  {
    if op == "" || Stops(c, op[|op| - 1]) then 0 else 1 + PopCount(op[..|op| - 1], c)
  }

  /** The conversion of the remaining input; None when `)` finds no `(` to pop. */
  function Yard(reg: string, op: string, ans: string): Option<string>
    decreases |reg|
  {
    if reg == "" then Some(ans + Reverse(op))
    else
      var c := reg[0];
      if c == '(' then Yard(reg[1..], op + "(", ans)
      else if IsAlnum(c) then Yard(reg[1..], op, ans + [c])
      else
        var keep := |op| - PopCount(op, c);
        var left, out := op[..keep], ans + Reverse(op[keep..]);
        if c == ')' then
          if left == "" then None else Yard(reg[1..], left[..keep - 1], out)
        else Yard(reg[1..], left + [c], out)
  }

  function Converted(reg: string): Option<string> {
    Yard(WithConcats(reg), "", "")
  }

  /** Pops symbols for c onto the output, top first. */
  method PopFor(op: string, c: char, ans: string) returns (left: string, out: string)
    ensures var keep := |op| - PopCount(op, c); left == op[..keep] && out == ans + Reverse(op[keep..])
  {
    left, out := op, ans;
    while left != "" && !Stops(c, left[|left| - 1])
      invariant |left| <= |op| && left == op[..|left|]
      invariant |left| - PopCount(left, c) == |op| - PopCount(op, c)
      invariant out == ans + Reverse(op[|left|..])
      decreases |left|
    {
      var k := |left| - 1;
      ReverseFront(op[k], op[k + 1..]);
      assert op[k..] == [op[k]] + op[k + 1..];
      out := out + [left[k]];
      left := left[..k];
      assert op[..k + 1][..k] == op[..k];
    }
  }

  lemma {:induction false} ReverseFront(c: char, s: string)
    ensures Reverse([c] + s) == Reverse(s) + [c]
  {
    if s != "" {
      assert ([c] + s)[..|s|] == [c] + s[..|s| - 1];
      ReverseFront(c, s[..|s| - 1]);
    }
  }

  /** The loop of postFix over an input that already carries its `&`s. */
  method Convert(reg: string) returns (ans: string)
    requires Yard(reg, "", "").Some?
    ensures Yard(reg, "", "") == Some(ans)
  {
    ans := "";
    var op := "";
    var i := 0;
    assert reg[0..] == reg;
    while i < |reg|
      invariant 0 <= i <= |reg|
      invariant Yard(reg[i..], op, ans) == Yard(reg, "", "")
    {
      assert reg[i..][1..] == reg[i + 1..];
      var c := reg[i];
      if c == '(' {
        op := op + "(";
      } else if c == ')' {
        op, ans := PopFor(op, c, ans);
        op := op[..|op| - 1];
      } else if IsAlnum(c) {
        ans := ans + [c];
      } else {
        op, ans := PopFor(op, c, ans);
        op := op + [c];
      }
      i := i + 1;
    }
    assert reg[|reg|..] == "";
    while op != ""
      invariant Yard(reg, "", "") == Some(ans + Reverse(op))
      decreases |op|
    {
      assert ans + Reverse(op) == (ans + [op[|op| - 1]]) + Reverse(op[..|op| - 1]);
      ans := ans + [op[|op| - 1]];
      op := op[..|op| - 1];
    }
    assert ans + Reverse("") == ans;
  }

  method ToPostFix(reg: string) returns (ans: string)
    requires reg != "" && Converted(reg).Some?
    ensures Converted(reg) == Some(ans)
  {
    var full := AddConcats(reg);
    ans := Convert(full);
  }

  // ---- Infix forms ----

  /** How an expression is written: with parentheses, and with or without `&` at each
      concatenation. */
  datatype Syntax = Sym(c: char) | Paren(s: Syntax) | StarOf(s: Syntax) | Seq(l: Syntax, r: Syntax, amp: bool)
                  | Alt(l: Syntax, r: Syntax)

  function Tree(s: Syntax): Regex {
    match s
    case Sym(c) => Letter(c)
    case Paren(x) => Tree(x)
    case StarOf(x) => Regex.Star(Tree(x))
    case Seq(l, r, _) => Regex.Concat(Tree(l), Tree(r))
    case Alt(l, r) => Regex.Union(Tree(l), Tree(r))
  }

  function Text(s: Syntax): (t: string)
    ensures t != ""
  {
    match s
    case Sym(c) => [c]
    case Paren(x) => "(" + Text(x) + ")"
    case StarOf(x) => Text(x) + "*"
    case Seq(l, r, amp) => Text(l) + (if amp then "&" else "") + Text(r)
    case Alt(l, r) => Text(l) + "|" + Text(r)
  }

  /** The same with every `&` written. */
  function Full(s: Syntax): (t: string)
    ensures t != ""
  {
    match s
    case Sym(c) => [c]
    case Paren(x) => "(" + Full(x) + ")"
    case StarOf(x) => Full(x) + "*"
    case Seq(l, r, _) => Full(l) + "&" + Full(r)
    case Alt(l, r) => Full(l) + "|" + Full(r)
  }

  function Size(s: Syntax): nat {
    match s
    case Sym(_) => 1
    case Paren(x) => 1 + Size(x)
    case StarOf(x) => 1 + Size(x)
    case Seq(l, r, _) => 1 + Size(l) + Size(r)
    case Alt(l, r) => 1 + Size(l) + Size(r)
  }

  function Level(s: Syntax): int {
    match s
    case Alt(_, _) => 2
    case Seq(_, _, _) => 3
    case StarOf(_) => 4
    case _ => 5
  }

  /** Correctly parenthesised: operands bind tightly enough, binary operators group to the left,
      symbols are letters or digits. */
  predicate Proper(s: Syntax) {
    match s
    case Sym(c) => Symbol(c)
    case Paren(x) => Proper(x)
    case StarOf(x) => Proper(x) && Level(x) >= 4
    case Seq(l, r, _) => Proper(l) && Proper(r) && Level(l) >= 3 && Level(r) >= 4
    case Alt(l, r) => Proper(l) && Proper(r) && Level(r) >= 3
  }

  // ---- Converting a fully written form ----

  /** What is still on the stack, and what has been output, after reading s. */
  function Pending(s: Syntax): string {
    match s
    case Sym(_) => ""
    case Paren(_) => ""
    case StarOf(_) => "*"
    case Seq(_, r, _) => "&" + Pending(r)
    case Alt(_, r) => "|" + Pending(r)
  }

  function Emitted(s: Syntax): string {
    match s
    case Sym(c) => [c]
    case Paren(x) => Post(Tree(x))
    case StarOf(x) => Post(Tree(x))
    case Seq(l, r, _) => Post(Tree(l)) + Emitted(r)
    case Alt(l, r) => Post(Tree(l)) + Emitted(r)
  }

  lemma {:induction false} EmittedThenPending(s: Syntax)
    ensures Emitted(s) + Reverse(Pending(s)) == Post(Tree(s))
    decreases s
  {
    match s
    case Sym(_) =>
    case Paren(_) =>
    case StarOf(_) =>
    case Seq(_, r, _) =>
      EmittedThenPending(r);
      ReverseFront('&', Pending(r));
    case Alt(_, r) =>
      EmittedThenPending(r);
      ReverseFront('|', Pending(r));
  }

  lemma {:induction false} PendingBinds(s: Syntax)
    requires Proper(s)
    ensures forall k :: 0 <= k < |Pending(s)| ==> Pre(Pending(s)[k]) >= Level(s) && Pending(s)[k] != '('
    decreases s
  {
    match s
    case Sym(_) =>
    case Paren(_) =>
    case StarOf(_) =>
    case Seq(_, r, _) => PendingBinds(r);
    case Alt(_, r) => PendingBinds(r);
  }

  lemma {:induction false} PopsPending(op: string, pend: string, c: char)
    requires op == "" || Stops(c, op[|op| - 1])
    requires forall k :: 0 <= k < |pend| ==> !Stops(c, pend[k])
    ensures PopCount(op + pend, c) == |pend|
  {
    if pend == "" {
      assert op + pend == op;
    } else {
      var k := |pend| - 1;
      assert (op + pend)[..|op + pend| - 1] == op + pend[..k];
      PopsPending(op, pend[..k], c);
    }
  }

  lemma YardOpen(rest: string, op: string, ans: string)
    ensures Yard("(" + rest, op, ans) == Yard(rest, op + "(", ans)
  {
    assert ("(" + rest)[1..] == rest;
  }

  lemma YardSymbol(c: char, rest: string, op: string, ans: string)
    requires IsAlnum(c)
    ensures Yard([c] + rest, op, ans) == Yard(rest, op, ans + [c])
  {
    assert ([c] + rest)[1..] == rest;
  }

  lemma YardOperator(c: char, rest: string, op: string, pend: string, ans: string)
    requires c == '|' || c == '&' || c == '*'
    requires PopCount(op + pend, c) == |pend|
    ensures Yard([c] + rest, op + pend, ans) == Yard(rest, op + [c], ans + Reverse(pend))
  {
    hide PopCount, Reverse;
    assert ([c] + rest)[1..] == rest;
    assert (op + pend)[..|op|] == op && (op + pend)[|op|..] == pend;
  }

  lemma YardClose(rest: string, op: string, pend: string, ans: string)
    requires PopCount(op + "(" + pend, ')') == |pend|
    ensures Yard(")" + rest, op + "(" + pend, ans) == Yard(rest, op, ans + Reverse(pend))
  {
    hide PopCount, Reverse;
    var base := op + "(";
    assert (")" + rest)[1..] == rest;
    assert (base + pend)[..|base|] == base && (base + pend)[|base|..] == pend;
    assert base[..|base| - 1] == op;
  }

  /** Reading operator c after s, when c binds no tighter than s, outputs all that is pending. */
  lemma OperatorAfter(s: Syntax, c: char, rest: string, op: string, ans: string)
    requires Proper(s) && (c == '|' || c == '&' || c == '*') && Pre(c) <= Level(s)
    requires op == "" || Pre(op[|op| - 1]) < Pre(c)
    ensures Yard([c] + rest, op + Pending(s), ans + Emitted(s)) == Yard(rest, op + [c], ans + Post(Tree(s)))
  {
    hide Yard, PopCount, Reverse, Post, Pending, Emitted, Proper, Tree;
    PendingBinds(s);
    PopsPending(op, Pending(s), c);
    YardOperator(c, rest, op, Pending(s), ans + Emitted(s));
    EmittedThenPending(s);
    Assoc(ans, Emitted(s), Reverse(Pending(s)));
  }

  lemma CloseAfter(s: Syntax, rest: string, op: string, ans: string)
    requires Proper(s)
    ensures Yard(")" + rest, op + "(" + Pending(s), ans + Emitted(s)) == Yard(rest, op, ans + Post(Tree(s)))
  {
    hide Yard, PopCount, Reverse, Post, Pending, Emitted, Proper, Tree;
    PendingBinds(s);
    PopsPending(op + "(", Pending(s), ')');
    YardClose(rest, op, Pending(s), ans + Emitted(s));
    EmittedThenPending(s);
    Assoc(ans, Emitted(s), Reverse(Pending(s)));
  }

  /** Reading a fully written form leaves its pending operators on the stack. */
  lemma {:induction false} YardReads(s: Syntax, rest: string, op: string, ans: string)
    requires Proper(s)
    requires op == "" || Pre(op[|op| - 1]) < Level(s)
    ensures Yard(Full(s) + rest, op, ans) == Yard(rest, op + Pending(s), ans + Emitted(s))
    decreases Size(s)
  {
    hide Yard, PopCount, Reverse, Post;
    match s
    case Sym(c) =>
      SymbolIsAlnum(c);
      YardSymbol(c, rest, op, ans);
      assert op + "" == op;
    case Paren(x) =>
      assert Full(s) + rest == "(" + (Full(x) + (")" + rest));
      YardOpen(Full(x) + (")" + rest), op, ans);
      YardReads(x, ")" + rest, op + "(", ans);
      CloseAfter(x, rest, op, ans);
      assert op + "" == op;
    case StarOf(x) =>
      Assoc(Full(x), "*", rest);
      YardReads(x, "*" + rest, op, ans);
      OperatorAfter(x, '*', rest, op, ans);
    case Seq(l, r, _) =>
      YardReadsBinary(l, '&', r, rest, op, ans);
    case Alt(l, r) =>
      YardReadsBinary(l, '|', r, rest, op, ans);
  }

  lemma {:induction false} YardReadsBinary(l: Syntax, c: char, r: Syntax, rest: string, op: string, ans: string)
    requires Proper(l) && Proper(r) && (c == '|' || c == '&') && Pre(c) <= Level(l) && Pre(c) < Level(r)
    requires op == "" || Pre(op[|op| - 1]) < Pre(c)
    ensures Yard(Full(l) + [c] + Full(r) + rest, op, ans) ==
      Yard(rest, op + ([c] + Pending(r)), ans + (Post(Tree(l)) + Emitted(r)))
    decreases Size(l) + Size(r)
  {
    hide Yard, PopCount, Reverse, Post, Full, Pending, Emitted, Proper, Tree;
    var tail := Full(r) + rest;
    assert Full(l) + [c] + Full(r) + rest == Full(l) + ([c] + tail);
    YardReads(l, [c] + tail, op, ans);
    OperatorAfter(l, c, tail, op, ans);
    YardReads(r, rest, op + [c], ans + Post(Tree(l)));
    Assoc(op, [c], Pending(r));
    Assoc(ans, Post(Tree(l)), Emitted(r));
  }

  /** The conversion undoes printing with every `&` written. */
  lemma FullConverts(s: Syntax)
    requires Proper(s)
    ensures Yard(Full(s), "", "") == Some(Post(Tree(s)))
  {
    YardReads(s, "", "", "");
    assert Full(s) + "" == Full(s);
    assert "" + Pending(s) == Pending(s) && "" + Emitted(s) == Emitted(s);
    EmittedThenPending(s);
  }

  // ---- Restoring the missing `&`s ----

  /** A `(` right after a letter, a digit or `*`. */
  predicate Clash(a: char, b: char) {
    (Symbol(a) || a == '*') && b == '('
  }

  predicate NoClash(t: string) {
    forall i :: 0 <= i < |t| - 1 ==> !Clash(t[i], t[i + 1])
  }

  lemma NoClashJoin(u: string, v: string)
    requires u != "" && v != ""
    ensures NoClash(u + v) <==> NoClash(u) && NoClash(v) && !Clash(u[|u| - 1], v[0])
  {
    var t := u + v;
    if NoClash(t) {
      forall i | 0 <= i < |u| - 1 ensures !Clash(u[i], u[i + 1]) {
        assert u[i] == t[i] && u[i + 1] == t[i + 1];
      }
      forall i | 0 <= i < |v| - 1 ensures !Clash(v[i], v[i + 1]) {
        assert v[i] == t[|u| + i] && v[i + 1] == t[|u| + i + 1];
      }
      assert !Clash(t[|u| - 1], t[|u| - 1 + 1]);
    }
  }

  lemma ConcatsHead(reg: string)
    requires |reg| > 1
    ensures WithConcats(reg) == [reg[0]] + AmpBetween(reg[0], reg[1]) + WithConcats(reg[1..])
  {
  }

  lemma Assoc4(a: string, b: string, c: string, d: string)
    ensures a + (b + c + d) == a + b + c + d
  {
  }

  lemma {:induction false} ConcatsJoin(u: string, v: string)
    requires u != "" && v != ""
    ensures WithConcats(u + v) == WithConcats(u) + AmpBetween(u[|u| - 1], v[0]) + WithConcats(v)
    decreases |u|
  {
    hide WithConcats, AmpBetween;
    ConcatsHead(u + v);
    if |u| > 1 {
      ConcatsHead(u);
      ConcatsJoin(u[1..], v);
      assert (u + v)[1..] == u[1..] + v;
      Assoc4([u[0]] + AmpBetween(u[0], u[1]), WithConcats(u[1..]), AmpBetween(u[|u| - 1], v[0]), WithConcats(v));
    } else {
      assert (u + v)[1..] == v && u == [u[0]] == u[0..];
      LastAlone(u);
    }
  }

  /** Operators and parentheses attract no `&`. */
  lemma ConcatsAround(u: string, c: char, v: string)
    requires u != "" && v != "" && (c == '&' || c == '|')
    ensures WithConcats(u + [c] + v) == WithConcats(u) + [c] + WithConcats(v)
  {
    hide WithConcats;
    ConcatsJoin(u + [c], v);
    ConcatsJoin(u, [c]);
    LastAlone([c]);
    assert [c][0..] == [c];
    assert WithConcats(u) + "" == WithConcats(u) && WithConcats(u) + [c] + "" == WithConcats(u) + [c];
  }

  lemma ConcatsParen(u: string)
    requires u != ""
    ensures WithConcats("(" + u + ")") == "(" + WithConcats(u) + ")"
  {
    hide WithConcats;
    ConcatsJoin("(" + u, ")");
    ConcatsJoin("(", u);
    LastAlone("(");
    LastAlone(")");
    assert "("[0..] == "(" && ")"[0..] == ")";
    assert "(" + "" == "(" && "(" + WithConcats(u) + "" == "(" + WithConcats(u);
  }

  lemma ConcatsStar(u: string)
    requires u != ""
    ensures WithConcats(u + "*") == WithConcats(u) + "*"
  {
    hide WithConcats;
    ConcatsJoin(u, "*");
    LastAlone("*");
    assert "*"[0..] == "*" && WithConcats(u) + "" == WithConcats(u);
  }

  /** Between two operands addConcats writes an `&` unless they clash. */
  lemma Bridge(l: Syntax, r: Syntax)
    requires Proper(l) && Proper(r)
    ensures var a, b := Text(l)[|Text(l)| - 1], Text(r)[0]; AmpBetween(a, b) == if Clash(a, b) then "" else "&"
  {
    hide Proper, Text, Symbol;
    Ends(l);
    Ends(r);
    SymbolIsAlnum(Text(l)[|Text(l)| - 1]);
    SymbolIsAlnum(Text(r)[0]);
  }

  lemma ConcatsSeq(l: Syntax, r: Syntax)
    requires Proper(l) && Proper(r)
    ensures Text(Seq(l, r, false)) == Text(l) + Text(r)
    ensures WithConcats(Text(l) + Text(r)) ==
            WithConcats(Text(l)) + (if Clash(Text(l)[|Text(l)| - 1], Text(r)[0]) then "" else "&") +
              WithConcats(Text(r))
  {
    hide WithConcats, Proper, Clash, AmpBetween;
    Bridge(l, r);
    ConcatsJoin(Text(l), Text(r));
  }

  lemma NoClashAround(u: string, c: char, v: string)
    requires u != "" && v != "" && (c == '&' || c == '|')
    ensures NoClash(u + [c] + v) <==> NoClash(u) && NoClash(v)
  {
    hide Symbol;
    SymbolIsAlnum(c);
    NoClashJoin(u, [c]);
    NoClashJoin(u + [c], v);
  }

  lemma {:induction false} Ends(s: Syntax)
    requires Proper(s)
    ensures Symbol(Text(s)[0]) || Text(s)[0] == '('
    ensures var z := Text(s)[|Text(s)| - 1]; Symbol(z) || z == ')' || z == '*'
    decreases s
  {
    hide Symbol;
    match s
    case Sym(_) =>
    case Paren(_) =>
    case StarOf(x) => Ends(x);
    case Seq(l, r, _) => Ends(l); Ends(r);
    case Alt(l, r) => Ends(l); Ends(r);
  }

  /** The number of concatenations without `&` that addConcats does not see. */
  function Missed(s: Syntax): nat {
    match s
    case Sym(_) => 0
    case Paren(x) => Missed(x)
    case StarOf(x) => Missed(x)
    case Seq(l, r, amp) => Missed(l) + Missed(r) + if !amp && Clash(Text(l)[|Text(l)| - 1], Text(r)[0]) then 1 else 0
    case Alt(l, r) => Missed(l) + Missed(r)
  }

  lemma {:induction false} MissedIsClash(s: Syntax)
    requires Proper(s)
    ensures Missed(s) == 0 <==> NoClash(Text(s))
    decreases s
  {
    hide NoClash, Symbol;
    SymbolIsAlnum('(');
    match s
    case Sym(c) =>
      SingleNoClash(c);
    case Paren(x) =>
      MissedIsClash(x);
      SingleNoClash('(');
      SingleNoClash(')');
      NoClashJoin("(", Text(x));
      NoClashJoin("(" + Text(x), ")");
    case StarOf(x) =>
      MissedIsClash(x);
      SingleNoClash('*');
      NoClashJoin(Text(x), "*");
    case Seq(l, r, amp) =>
      MissedIsClash(l);
      MissedIsClash(r);
      if amp {
        NoClashAround(Text(l), '&', Text(r));
      } else {
        assert Text(s) == Text(l) + Text(r);
        NoClashJoin(Text(l), Text(r));
      }
    case Alt(l, r) =>
      MissedIsClash(l);
      MissedIsClash(r);
      NoClashAround(Text(l), '|', Text(r));
  }

  lemma SingleNoClash(c: char)
    ensures NoClash([c])
  {
  }

  /** With nothing missed, addConcats writes exactly the missing `&`s. */
  lemma {:induction false} ConcatsRestored(s: Syntax)
    requires Proper(s) && Missed(s) == 0
    ensures WithConcats(Text(s)) == Full(s)
    decreases s
  {
    hide WithConcats;
    match s
    case Sym(c) =>
      LastAlone([c]);
      assert [c][0..] == [c];
    case Paren(x) =>
      ConcatsRestored(x);
      ConcatsParen(Text(x));
    case StarOf(x) =>
      ConcatsRestored(x);
      ConcatsStar(Text(x));
    case Seq(l, r, amp) =>
      ConcatsRestored(l);
      ConcatsRestored(r);
      if amp {
        ConcatsAround(Text(l), '&', Text(r));
      } else {
        ConcatsSeq(l, r);
      }
    case Alt(l, r) =>
      ConcatsRestored(l);
      ConcatsRestored(r);
      ConcatsAround(Text(l), '|', Text(r));
  }

  // ---- When something is missed, the result has too few `&`s ----

  function Amps(s: string): nat {
    multiset(s)['&']
  }

  lemma AmpsJoin(u: string, v: string)
    ensures Amps(u + v) == Amps(u) + Amps(v)
  {
  }

  lemma AmpsAlone(c: char)
    ensures Amps([c]) == if c == '&' then 1 else 0
  {
  }

  lemma AmpsNone()
    ensures Amps("") == 0
  {
  }

  lemma {:induction false} AmpsReverse(s: string)
    ensures Amps(Reverse(s)) == Amps(s)
  {
    if s != "" {
      var k := |s| - 1;
      AmpsReverse(s[..k]);
      AmpsJoin([s[k]], Reverse(s[..k]));
      AmpsJoin(s[..k], [s[k]]);
      assert s == s[..k] + [s[k]];
    }
  }

  /** The conversion neither loses nor invents an `&`. */
  lemma {:induction false} YardKeepsAmps(reg: string, op: string, ans: string)
    requires Yard(reg, op, ans).Some?
    ensures Amps(Yard(reg, op, ans).value) == Amps(reg) + Amps(op) + Amps(ans)
    decreases |reg|
  {
    hide Amps, Reverse;
    AmpsNone();
    if reg == "" {
      AmpsReverse(op);
      AmpsJoin(ans, Reverse(op));
    } else {
      var c := reg[0];
      AmpsAlone(c);
      AmpsAlone('(');
      AmpsAlone(')');
      AmpsJoin([c], reg[1..]);
      assert reg == [c] + reg[1..];
      if c == '(' {
        AmpsJoin(op, "(");
        YardKeepsAmps(reg[1..], op + "(", ans);
      } else if IsAlnum(c) {
        AmpsJoin(ans, [c]);
        YardKeepsAmps(reg[1..], op, ans + [c]);
      } else {
        var keep := |op| - PopCount(op, c);
        var left, out := op[..keep], ans + Reverse(op[keep..]);
        AmpsMove(op, ans, keep);
        if c == ')' {
          assert left == left[..keep - 1] + [left[keep - 1]];
          AmpsJoin(left[..keep - 1], [left[keep - 1]]);
          StopsAtParen(op);
          YardKeepsAmps(reg[1..], left[..keep - 1], out);
        } else {
          AmpsJoin(left, [c]);
          YardKeepsAmps(reg[1..], left + [c], out);
        }
      }
    }
  }

  /** Moving the top of the operator stack to the answer keeps the count. */
  lemma AmpsMove(op: string, ans: string, keep: nat)
    requires keep <= |op|
    ensures Amps(op[..keep]) + Amps(ans + Reverse(op[keep..])) == Amps(op) + Amps(ans)
  {
    assert op == op[..keep] + op[keep..];
    AmpsJoin(op[..keep], op[keep..]);
    AmpsReverse(op[keep..]);
    AmpsJoin(ans, Reverse(op[keep..]));
  }

  lemma {:induction false} StopsAtParen(op: string)
    ensures var keep := |op| - PopCount(op, ')'); keep > 0 ==> op[keep - 1] == '('
  {
    if op != "" && !Stops(')', op[|op| - 1]) {
      StopsAtParen(op[..|op| - 1]);
    }
  }

  lemma AmpsJoin3(u: string, c: char, v: string)
    ensures Amps(u + [c] + v) == Amps(u) + Amps(v) + if c == '&' then 1 else 0
  {
    AmpsJoin(u + [c], v);
    AmpsJoin(u, [c]);
  }

  lemma AmpsPost(l: string, r: string, c: char)
    ensures Amps(l + r + [c]) == Amps(l) + Amps(r) + if c == '&' then 1 else 0
  {
    AmpsJoin(l + r, [c]);
    AmpsJoin(l, r);
  }

  /** addConcats falls short of the full form by the missed concatenations. */
  lemma {:induction false} AmpsWritten(s: Syntax)
    requires Proper(s)
    ensures Amps(WithConcats(Text(s))) + Missed(s) == Amps(Post(Tree(s)))
    decreases s
  {
    hide WithConcats, Amps;
    match s
    case Sym(c) =>
      LastAlone([c]);
      assert [c][0..] == [c];
    case Paren(x) =>
      AmpsWritten(x);
      ConcatsParen(Text(x));
      AmpsJoin3("", '(', WithConcats(Text(x)));
      assert "" + "(" == "(";
      AmpsJoin3("(" + WithConcats(Text(x)), ')', "");
      assert "(" + WithConcats(Text(x)) + ")" + "" == "(" + WithConcats(Text(x)) + ")";
      AmpsNone();
    case StarOf(x) =>
      AmpsWritten(x);
      ConcatsStar(Text(x));
      AmpsJoin3(WithConcats(Text(x)), '*', "");
      AmpsJoin3(Post(Tree(x)), '*', "");
      assert WithConcats(Text(x)) + "*" + "" == WithConcats(Text(x)) + "*" &&
        Post(Tree(x)) + "*" + "" == Post(Tree(x)) + "*";
      AmpsNone();
    case Seq(l, r, amp) =>
      AmpsWritten(l);
      AmpsWritten(r);
      AmpsPost(Post(Tree(l)), Post(Tree(r)), '&');
      if amp {
        ConcatsAround(Text(l), '&', Text(r));
        AmpsJoin3(WithConcats(Text(l)), '&', WithConcats(Text(r)));
      } else {
        AmpsImplicit(l, r);
      }
    case Alt(l, r) =>
      AmpsWritten(l);
      AmpsWritten(r);
      AmpsPost(Post(Tree(l)), Post(Tree(r)), '|');
      ConcatsAround(Text(l), '|', Text(r));
      AmpsJoin3(WithConcats(Text(l)), '|', WithConcats(Text(r)));
  }

  lemma AmpsImplicit(l: Syntax, r: Syntax)
    requires Proper(l) && Proper(r)
    ensures Amps(WithConcats(Text(Seq(l, r, false)))) ==
            Amps(WithConcats(Text(l))) + Amps(WithConcats(Text(r))) +
              if Clash(Text(l)[|Text(l)| - 1], Text(r)[0]) then 0 else 1
  {
    hide WithConcats, Text, Proper, Clash, Amps;
    var a, b := WithConcats(Text(l)), WithConcats(Text(r));
    ConcatsSeq(l, r);
    AmpsJoin3(a, '&', b);
    AmpsJoin(a, b);
    assert a + "" + b == a + b;
  }

  /** postFix turns a proper infix form into the postfix form of its tree exactly when no `(`
      follows a letter, a digit or `*`. */
  lemma PostFixUndoesPrinting(s: Syntax)
    requires Proper(s)
    ensures Converted(Text(s)) == Some(Post(Tree(s))) <==> NoClash(Text(s))
  {
    MissedIsClash(s);
    if Missed(s) == 0 {
      ConcatsRestored(s);
      FullConverts(s);
    } else {
      AmpsWritten(s);
      if Converted(Text(s)).Some? {
        YardKeepsAmps(WithConcats(Text(s)), "", "");
      }
    }
  }

  /** A concrete clash: `a(b)` is meant as a concatenation, but no `&` comes out. */
  lemma ClashExample()
    ensures var s := Seq(Sym('a'), Paren(Sym('b')), false);
            Proper(s) && Text(s) == "a(b)" && Post(Tree(s)) == "ab&" && Converted(Text(s)) != Some("ab&")
  {
    hide Symbol;
    SymbolIsAlnum('a');
    SymbolIsAlnum('b');
    var s := Seq(Sym('a'), Paren(Sym('b')), false);
    assert Text(s) == "a(b)" && Post(Tree(s)) == "ab&";
    assert Clash(Text(s)[0], Text(s)[0 + 1]);
    PostFixUndoesPrinting(s);
  }

  lemma {:induction false} ProperLettersPlain(s: Syntax)
    requires Proper(s)
    ensures PlainLetters(Tree(s))
    decreases s
  {
    hide Symbol;
    match s
    case Sym(c) => SymbolIsAlnum(c);
    case Paren(x) => ProperLettersPlain(x);
    case StarOf(x) => ProperLettersPlain(x);
    case Seq(l, r, _) => ProperLettersPlain(l); ProperLettersPlain(r);
    case Alt(l, r) => ProperLettersPlain(l); ProperLettersPlain(r);
  }

  // ---- Every expression has such a text ----

  predicate OverSymbols(r: Regex) {
    match r
    case Letter(c) => Symbol(c)
    case Star(x) => OverSymbols(x)
    case Concat(x, y) => OverSymbols(x) && OverSymbols(y)
    case Union(x, y) => OverSymbols(x) && OverSymbols(y)
  }

  /** Every operand in parentheses, and no `&` written. */
  function Printed(r: Regex): Syntax {
    match r
    case Letter(c) => Sym(c)
    case Star(x) => StarOf(Paren(Printed(x)))
    case Concat(x, y) => Seq(Paren(Printed(x)), Paren(Printed(y)), false)
    case Union(x, y) => Alt(Paren(Printed(x)), Paren(Printed(y)))
  }

  lemma {:induction false} PrintedIsGood(r: Regex)
    requires OverSymbols(r)
    ensures Proper(Printed(r)) && Tree(Printed(r)) == r && NoClash(Text(Printed(r)))
    decreases r
  {
    hide NoClash, Symbol;
    match r
    case Letter(c) => SingleNoClash(c);
    case Star(x) =>
      PrintedIsGood(x);
      NoClashInParens(Text(Printed(x)));
      SingleNoClash('*');
      NoClashJoin("(" + Text(Printed(x)) + ")", "*");
    case Concat(x, y) =>
      PrintedIsGood(x);
      PrintedIsGood(y);
      NoClashInParens(Text(Printed(x)));
      NoClashInParens(Text(Printed(y)));
      SymbolIsAlnum(')');
      assert Text(Printed(r)) == ("(" + Text(Printed(x)) + ")") + ("(" + Text(Printed(y)) + ")");
      NoClashJoin("(" + Text(Printed(x)) + ")", "(" + Text(Printed(y)) + ")");
    case Union(x, y) =>
      PrintedIsGood(x);
      PrintedIsGood(y);
      NoClashInParens(Text(Printed(x)));
      NoClashInParens(Text(Printed(y)));
      NoClashAround("(" + Text(Printed(x)) + ")", '|', "(" + Text(Printed(y)) + ")");
  }

  lemma NoClashInParens(t: string)
    requires t != "" && NoClash(t)
    ensures NoClash("(" + t + ")")
  {
    hide NoClash, Symbol;
    SymbolIsAlnum('(');
    SingleNoClash('(');
    SingleNoClash(')');
    NoClashJoin("(", t);
    NoClashJoin("(" + t, ")");
  }

  /** Every expression over letters and digits has a text, without any `&`, that postFix turns into
      its postfix form. */
  lemma EveryExpressionConverts(r: Regex)
    requires OverSymbols(r)
    ensures exists t :: t != "" && '&' !in t && Converted(t) == Some(Post(r))
  {
    hide NoClash, Symbol, OverSymbols, Converted;
    PrintedIsGood(r);
    PostFixUndoesPrinting(Printed(r));
    PrintedWithoutAmps(r);
    assert Text(Printed(r)) != "";
  }

  lemma {:induction false} PrintedWithoutAmps(r: Regex)
    requires OverSymbols(r)
    ensures '&' !in Text(Printed(r))
    decreases r
  {
    hide Symbol;
    SymbolIsAlnum('&');
    match r
    case Letter(_) =>
    case Star(x) => PrintedWithoutAmps(x);
    case Concat(x, y) => PrintedWithoutAmps(x); PrintedWithoutAmps(y);
    case Union(x, y) => PrintedWithoutAmps(x); PrintedWithoutAmps(y);
  }
}
