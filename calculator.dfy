/**
 * The calculator engine of js/calculator.js: a record
 * {value, input, pendingOp, waiting, base} changed one key press at a time.
 *
 * The pure functions below (Step and its parts) say what one key press does
 * to the record; the class Calculator holds the record in fields and its
 * methods make the same changes field by field, proved equal to Step.
 *
 * A parseInput that throws inside the click handler aborts the handler; on
 * every path where that can happen no field has been written yet, so the
 * key press leaves the record unchanged. The only exception is the digit
 * key, which catches the error after it has already updated `input`.
 */
module Calculator {
  import opened Wrappers
  import opened Numerals

  /** The operator keys + - * / AND OR XOR. */
  datatype Op = Add | Sub | Mul | Div | And | Or | Xor

  type KeyDigit = d: int | 0 <= d < 10

  /** The keys of the keypad: a digit, '.', an operator, '='. */
  datatype Key = DigitKey(d: KeyDigit) | DotKey | OpKey(op: Op) | EqualsKey

  /** The calculator record; pendingOp None is the source's null. */
  datatype State = State(value: int, input: string, pendingOp: Option<Op>, waiting: bool, base: string)

  /** The record the calculator starts with. */
  const Initial := State(0, "0", None, false, "HEX")

  /** The texts render writes: the hex main display, the binary sub-display and the base label. */
  datatype Display = Display(main: string, binary: string, baseLabel: string)

  function Render(s: State): Display
  {
    Display(HexText(s.value), BinaryText(s.value), s.base)
  }

  // ---------------------------------------------------------------------
  // One key press, as pure functions of the record
  // ---------------------------------------------------------------------

  /** The BigInt operator a pending operator stands for; division by zero leaves a. */
  function Apply(op: Op, a: int, b: int): int
  {
    match op
    case Add => a + b
    case Sub => a - b
    case Mul => a * b
    case Div => if b == 0 then a else TruncDiv(a, b)
    case And => Bitwise(AndBits, a, b)
    case Or => Bitwise(OrBits, a, b)
    case Xor => Bitwise(XorBits, a, b)
  }

  /** compute's switch, including its default branch taken when no operator is pending. */
  function Fold(pending: Option<Op>, a: int, b: int): int
  {
    match pending
    case None => b
    case Some(op) => Apply(op, a, b)
  }

  /** parseInput(state.input || '0'). */
  function Operand(input: string): Option<int>
  {
    ParseInput(if input == "" then "0" else input)
  }

  /** compute(): None when parsing the operand throws, before anything is written. */
  function Computed(s: State): Option<State>
  {
    match Operand(s.input)
    case None => None
    case Some(b) =>
      var res := Fold(s.pendingOp, s.value, b);
      Some(s.(value := res, input := DecimalText(res)))
  }

  /** applyOp(op) for an operator key: fold first when an operator is pending and digits followed it. */
  function OpApplied(s: State, op: Op): Option<State>
  {
    var folded := if s.pendingOp.Some? && !s.waiting then Computed(s) else Some(s);
    match folded
    case None => None
    case Some(t) => Some(t.(pendingOp := Some(op), waiting := true))
  }

  /** A digit key: start or extend the entry, then re-parse it into value (a failed parse keeps value). */
  function DigitStep(s: State, d: KeyDigit): State
  {
    var c := DigitChar(d);
    var input := if s.waiting then [c] else if s.input == "0" then [c] else s.input + [c];
    // waiting is cleared when set, and is already false otherwise
    var value := match ParseInput(input) case Some(v) => v case None => s.value;
    s.(input := input, waiting := false, value := value)
  }

  /** An operator key: commit the entry when nothing is pending, apply the operator, refresh input. */
  function OperatorStep(s: State, op: Op): State
  {
    var entered :=
      if s.pendingOp.Some? then Some(s)
      else match Operand(s.input) case None => None case Some(v) => Some(s.(value := v));
    match entered
    case None => s
    case Some(t) =>
      match OpApplied(t, op)
      case None => s
      case Some(u) => u.(input := DecimalText(u.value))
  }

  /** The '=' key: with an operator pending, compute and clear it; otherwise nothing. */
  function EqualsStep(s: State): State
  {
    if s.pendingOp.None? then s
    else
      match Computed(s)
      case None => s
      case Some(t) => t.(pendingOp := None, waiting := true)
  }

  /** The click handler on one key. */
  function Step(s: State, k: Key): State
  {
    match k
    case DigitKey(d) => DigitStep(s, d)
    case DotKey => s
    case OpKey(op) => OperatorStep(s, op)
    case EqualsKey => EqualsStep(s)
  }

  /** A sequence of key presses from s. */
  function Run(s: State, keys: seq<Key>): State
    decreases |keys|
  {
    if keys == [] then s else Run(Step(s, keys[0]), keys[1..])
  }

  // ---------------------------------------------------------------------
  // The record held in place, changed field by field
  // ---------------------------------------------------------------------

  class Calculator {
    var value: int
    var input: string
    var pendingOp: Option<Op>
    var waiting: bool
    var base: string

    function Snapshot(): State
      reads this
    {
      State(value, input, pendingOp, waiting, base)
    }

    constructor ()
      ensures Snapshot() == Initial
    {
      value, input, pendingOp, waiting, base := 0, "0", None, false, "HEX";
    }

    /** compute(); ok is false when parseInput threw, and then nothing has changed. */
    method Compute() returns (ok: bool)
      modifies this
      ensures ok == Computed(old(Snapshot())).Some?
      ensures Snapshot() == if ok then Computed(old(Snapshot())).value else old(Snapshot())
    {
      var a := value;
      var parsed := ParseInput(if input == "" then "0" else input);
      if parsed.None? {
        return false;
      }
      var res := Fold(pendingOp, a, parsed.value);
      value := res;
      input := DecimalText(res);
      ok := true;
    }

    /** applyOp(op); ok is false when the fold threw, and then nothing has changed. */
    method ApplyOp(op: Op) returns (ok: bool)
      modifies this
      ensures ok == OpApplied(old(Snapshot()), op).Some?
      ensures Snapshot() == if ok then OpApplied(old(Snapshot()), op).value else old(Snapshot())
    {
      if pendingOp.Some? && !waiting {
        ok := Compute();
        if !ok {
          return;
        }
      }
      pendingOp := Some(op);
      waiting := true;
      ok := true;
    }

    /** The click handler of the keypad. */
    method Click(key: Key)
      modifies this
      ensures Snapshot() == Step(old(Snapshot()), key)
    {
      match key
      case DigitKey(d) =>
        var c := DigitChar(d);
        if waiting {
          input := [c];
          waiting := false;
        } else {
          input := if input == "0" then [c] else input + [c];
        }
        var parsed := ParseInput(input);
        if parsed.Some? {
          value := parsed.value;
        }
      case DotKey =>
      case OpKey(op) =>
        if pendingOp.None? {
          var parsed := ParseInput(if input == "" then "0" else input);
          if parsed.None? {
            return;
          }
          value := parsed.value;
        }
        var ok := ApplyOp(op);
        if !ok {
          return;
        }
        input := DecimalText(value);
      case EqualsKey =>
        if pendingOp.Some? {
          var ok := Compute();
          if ok {
            pendingOp := None;
            waiting := true;
          }
        }
    }
  }

  // ---------------------------------------------------------------------
  // The entry text is always the decimal text of the value
  // ---------------------------------------------------------------------

  /** input is the canonical decimal text of value. */
  predicate Canonical(s: State)
  {
    s.input == DecimalText(s.value)
  }

  /** In a canonical record the operand parses, and to the value itself. */
  lemma CanonicalOperand(s: State)
    requires Canonical(s)
    ensures ParseInput(s.input) == Some(s.value)
    ensures Operand(s.input) == Some(s.value)
  {
    DecimalRoundTrip(s.value);
  }

  /** The decimal text "0" belongs to the value 0 only. */
  lemma DecimalTextZero(v: int)
    ensures DecimalText(v) == "0" <==> v == 0
  {
    if v < 0 {
      assert DecimalText(v)[0] == '-';
    } else if DecimalText(v) == "0" {
      assert Digits(v, 10)[0] == '0';
    }
  }

  /** The number a digit appended to the entry of v denotes. */
  function Extended(v: int, d: KeyDigit): int
  {
    if v > 0 then 10 * v + d else 10 * v - d
  }

  /** Appending a digit to the decimal text of a non-zero value gives the decimal text of the extended value. */
  lemma AppendDigit(v: int, d: KeyDigit)
    requires v != 0
    ensures DecimalText(v) + [DigitChar(d)] == DecimalText(Extended(v, d))
  {
    if v > 0 {
      DigitsAppend(v, d);
      assert DecimalText(v) == Digits(v, 10);
      assert DecimalText(Extended(v, d)) == Digits(10 * v + d, 10);
    } else {
      var m: nat := -v;
      var n: int := 10 * m + d;
      DigitsAppend(m, d);
      assert Extended(v, d) == -n;
      assert DecimalText(-n) == "-" + Digits(n, 10);
      SignedAppend(Digits(m, 10), DigitChar(d));
    }
  }

  /** A character appended to a negative text lands after its digits. */
  lemma SignedAppend(ds: string, c: char)
    ensures ("-" + ds) + [c] == "-" + (ds + [c])
  {
  }

  /** The digits of 10m + d are those of m followed by d. */
  lemma DigitsAppend(m: nat, d: KeyDigit)
    requires m > 0
    ensures Digits(10 * m + d, 10) == Digits(m, 10) + [DigitChar(d)]
  {
    var n := 10 * m + d;
    assert n / 10 == m && n % 10 == d;
  }

  /**
   * A digit key in a canonical record: the entry restarts at the digit when
   * waiting or when it is "0", and is extended by the digit otherwise; value
   * becomes the number entered, the pending operator is kept, waiting is
   * cleared, and the record stays canonical.
   */
  lemma DigitKeyEffect(s: State, d: KeyDigit)
    requires Canonical(s)
    ensures var t := Step(s, DigitKey(d));
      && t.input == (if s.waiting || s.input == "0" then [DigitChar(d)] else s.input + [DigitChar(d)])
      && t.value == (if s.waiting || s.value == 0 then d else if s.value > 0 then 10 * s.value + d else 10 * s.value - d)
      && Canonical(t)
      && !t.waiting && t.pendingOp == s.pendingOp && t.base == s.base
  {
    var c := DigitChar(d);
    var v := if s.waiting || s.value == 0 then d else Extended(s.value, d);
    var input := if s.waiting || s.input == "0" then [c] else s.input + [c];
    if s.waiting {
      assert input == [c] && v == d;
      SingleDigitText(d);
      assert input == DecimalText(v);
    } else if s.value == 0 {
      DecimalTextZero(s.value);
      assert input == [c] && v == d;
      SingleDigitText(d);
      assert input == DecimalText(v);
    } else {
      DecimalTextZero(s.value);
      assert input == s.input + [c];
      AppendDigit(s.value, d);
      assert input == DecimalText(v);
    }
    DecimalRoundTrip(v);
    assert ParseInput(input) == Some(v);
    var t := DigitStep(s, d);
    assert t.input == input && t.value == v;
    assert t == s.(input := input, waiting := false, value := v);
  }

  lemma SingleDigitText(d: KeyDigit)
    ensures DecimalText(d) == [DigitChar(d)]
  {
  }

  /**
   * An operator key while waiting (an operator was just applied) does not
   * fold: value is kept and only the pending operator is replaced (input is
   * rewritten to the decimal text of value).
   */
  lemma OperatorWhileWaiting(s: State, op: Op)
    requires s.waiting && s.pendingOp.Some?
    ensures Step(s, OpKey(op)) == s.(pendingOp := Some(op), input := DecimalText(s.value))
  {
  }

  /** An operator key with nothing pending commits the entry and installs the operator. */
  lemma OperatorStarts(s: State, op: Op)
    requires Canonical(s) && s.pendingOp.None?
    ensures Step(s, OpKey(op)) == s.(pendingOp := Some(op), waiting := true)
  {
    CanonicalOperand(s);
  }

  /**
   * An operator key after fresh digits with an operator pending folds once:
   * the pending operator is applied to value and the parsed entry, which in
   * a canonical record is value itself; then the new operator is pending,
   * waiting is set and input is the decimal text of the result.
   */
  lemma OperatorFolds(s: State, op: Op)
    requires Canonical(s) && s.pendingOp.Some? && !s.waiting
    ensures var r := Apply(s.pendingOp.value, s.value, s.value);
      Step(s, OpKey(op)) == State(r, DecimalText(r), Some(op), true, s.base)
  {
    CanonicalOperand(s);
  }

  /** '=' with nothing pending changes nothing. */
  lemma EqualsIdle(s: State)
    requires s.pendingOp.None?
    ensures Step(s, EqualsKey) == s
  {
  }

  /**
   * '=' with an operator pending computes (value folded with the parsed
   * entry, that is with itself in a canonical record), clears the operator
   * and sets waiting.
   */
  lemma EqualsFolds(s: State)
    requires Canonical(s) && s.pendingOp.Some?
    ensures var r := Apply(s.pendingOp.value, s.value, s.value);
      Step(s, EqualsKey) == State(r, DecimalText(r), None, true, s.base)
  {
    CanonicalOperand(s);
  }

  /** '.' is ignored. */
  lemma DotIgnored(s: State)
    ensures Step(s, DotKey) == s
  {
  }

  /** Every key press keeps the record canonical. */
  lemma StepKeepsCanonical(s: State, k: Key)
    requires Canonical(s)
    ensures Canonical(Step(s, k))
  {
    match k
    case DigitKey(d) => DigitKeyEffect(s, d);
    case DotKey =>
    case OpKey(op) =>
      if s.pendingOp.None? {
        OperatorStarts(s, op);
      } else if s.waiting {
        OperatorWhileWaiting(s, op);
      } else {
        OperatorFolds(s, op);
      }
    case EqualsKey =>
      if s.pendingOp.Some? {
        EqualsFolds(s);
      }
  }

  /**
   * From the initial record, after any key sequence, input is the decimal
   * text of value; so parseInput never throws on key input.
   */
  lemma {:induction false} RunKeepsCanonical(s: State, keys: seq<Key>)
    requires Canonical(s)
    ensures Canonical(Run(s, keys))
    ensures ParseInput(Run(s, keys).input) == Some(Run(s, keys).value)
    decreases |keys|
  {
    if keys == [] {
      CanonicalOperand(s);
    } else {
      StepKeepsCanonical(s, keys[0]);
      RunKeepsCanonical(Step(s, keys[0]), keys[1..]);
    }
  }

  lemma InitialCanonical()
    ensures Canonical(Initial)
  {
    assert DecimalText(0) == "0";
  }

  // ---------------------------------------------------------------------
  // What the operators compute
  // ---------------------------------------------------------------------

  /** Division by zero leaves the left operand; otherwise the quotient is truncated toward zero. */
  lemma DivisionPolicy(a: int, b: int)
    ensures b == 0 ==> Apply(Div, a, b) == a
    ensures b != 0 ==> var r := a - b * Apply(Div, a, b);
      Abs(r) < Abs(b) && (r == 0 || (r < 0) == (a < 0))
  {
    if b != 0 {
      TruncDivIsTruncation(a, b);
    }
  }

  /** AND, OR and XOR act bit by bit on two's-complement representations. */
  lemma BitwiseKeys(a: int, b: int, k: nat)
    ensures BitAt(Apply(And, a, b), k) == (BitAt(a, k) && BitAt(b, k))
    ensures BitAt(Apply(Or, a, b), k) == (BitAt(a, k) || BitAt(b, k))
    ensures BitAt(Apply(Xor, a, b), k) == (BitAt(a, k) != BitAt(b, k))
  {
    BitwiseBits(AndBits, a, b, k);
    BitwiseBits(OrBits, a, b, k);
    BitwiseBits(XorBits, a, b, k);
  }

  /**
   * What a fold computes in a canonical record, where the operand is value
   * itself: v+v, v-v, v*v, v/v (0 for 0), v AND v, v OR v, v XOR v.
   */
  lemma SelfFold(op: Op, v: int)
    ensures Apply(op, v, v) == match op
      case Add => 2 * v
      case Sub => 0
      case Mul => v * v
      case Div => if v == 0 then 0 else 1
      case And => v
      case Or => v
      case Xor => 0
  {
    match op
    case Div =>
      if v != 0 {
        assert Abs(v) / Abs(v) == 1;
      }
    case And =>
      forall k: nat ensures BitAt(v, k) == Combine(AndBits, BitAt(v, k), BitAt(v, k)) {}
      BitwiseIsUnique(AndBits, v, v, v);
    case Or =>
      forall k: nat ensures BitAt(v, k) == Combine(OrBits, BitAt(v, k), BitAt(v, k)) {}
      BitwiseIsUnique(OrBits, v, v, v);
    case Xor =>
      forall k: nat ensures BitAt(0, k) == Combine(XorBits, BitAt(v, k), BitAt(v, k)) {
        SignBits(0, k);
      }
      BitwiseIsUnique(XorBits, v, v, 0);
    case _ =>
  }

  // ---------------------------------------------------------------------
  // Key sequences
  // ---------------------------------------------------------------------

  /**
   * 5 + 3 = ends with value 6 and main display "0x6": the digit 3 replaces
   * the left operand 5, and '=' folds 3 with itself.
   */
  lemma FivePlusThree()
    ensures var s := Run(Initial, [DigitKey(5), OpKey(Add), DigitKey(3), EqualsKey]);
      s.value == 6 && Render(s).main == "0x6"
  {
    InitialCanonical();
    var keys := [DigitKey(5), OpKey(Add), DigitKey(3), EqualsKey];
    var s1 := Step(Initial, keys[0]);
    DigitKeyEffect(Initial, 5);
    var s2 := Step(s1, keys[1]);
    OperatorStarts(s1, Add);
    var s3 := Step(s2, keys[2]);
    DigitKeyEffect(s2, 3);
    var s4 := Step(s3, keys[3]);
    EqualsFolds(s3);
    assert keys[1..][1..][1..][1..] == [];
    assert Run(Initial, keys) == s4;
    assert HexText(6) == "0x6" by {
      assert Digits(6, 16) == [DigitChar(6)];
    }
  }

  /** 5 + + 3 = also ends with 6: the second '+' does not fold. */
  lemma FivePlusPlusThree()
    ensures Run(Initial, [DigitKey(5), OpKey(Add), OpKey(Add), DigitKey(3), EqualsKey]).value == 6
  {
    InitialCanonical();
    var keys := [DigitKey(5), OpKey(Add), OpKey(Add), DigitKey(3), EqualsKey];
    var s1 := Step(Initial, keys[0]);
    DigitKeyEffect(Initial, 5);
    var s2 := Step(s1, keys[1]);
    OperatorStarts(s1, Add);
    var s3 := Step(s2, keys[2]);
    OperatorWhileWaiting(s2, Add);
    var s4 := Step(s3, keys[3]);
    DigitKeyEffect(s3, 3);
    var s5 := Step(s4, keys[4]);
    EqualsFolds(s4);
    assert keys[1..][1..][1..][1..][1..] == [];
    assert Run(Initial, keys) == s5;
  }

  /** 9 AND 5 = ends with 5 and main display "0x5": 5 AND 5 is 5. */
  lemma NineAndFive()
    ensures var s := Run(Initial, [DigitKey(9), OpKey(And), DigitKey(5), EqualsKey]);
      s.value == 5 && Render(s).main == "0x5"
  {
    InitialCanonical();
    var keys := [DigitKey(9), OpKey(And), DigitKey(5), EqualsKey];
    var s1 := Step(Initial, keys[0]);
    DigitKeyEffect(Initial, 9);
    var s2 := Step(s1, keys[1]);
    OperatorStarts(s1, And);
    var s3 := Step(s2, keys[2]);
    DigitKeyEffect(s2, 5);
    var s4 := Step(s3, keys[3]);
    EqualsFolds(s3);
    SelfFold(And, 5);
    assert keys[1..][1..][1..][1..] == [];
    assert Run(Initial, keys) == s4;
    assert HexText(5) == "0x5" by {
      assert Digits(5, 16) == [DigitChar(5)];
    }
  }
}
