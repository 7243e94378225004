/**
 * The listing the compiler prints once the chunk is compiled
 * (`printInstruction` and `printConstants`, src/index.js:411-459 and
 * 474-476): one line per instruction, built from template literals in which
 * every operand is turned into text, then an empty line, then one line per
 * constant.  Only the text is modelled; writing it to the console is not.
 */
module Disassembly {
  import opened Wrappers
  import opened Values
  import opened Bytecode
  import opened CompileState

  /**
   * ToString of an operand inside a template literal: a number prints in
   * decimal, a label prints the position it resolves to, `undefined` prints
   * as such, a result record as `[object Object]` and an argument array as
   * its elements joined with commas.
   */
  function OperandText(o: Operand, labels: seq<LabelCell>): string
    decreases o, 1
  {
    match o
    case Reg(r) => NatText(r)
    case Const(k) => NatText(k)
    case Label(id) => if id < |labels| then IntText(Fetch(labels[id])) else "undefined"
    case Undef => "undefined"
    case Junk(_) => "[object Object]"
    case Args(items) => JoinItems(items, ",", labels)
  }

  /** `Array.prototype.join`: an undefined element contributes the empty string. */
  function JoinItems(items: seq<Operand>, sep: string, labels: seq<LabelCell>): string
    decreases items, 0
  {
    if |items| == 0 then ""
    else
      var first := if items[0].Undef? then "" else OperandText(items[0], labels);
      if |items| == 1 then first else first + sep + JoinItems(items[1..], sep, labels)
  }

  /** The text of the destructured `A`, `B` or `C`: `undefined` past the end of `data`. */
  function Slot(data: seq<Operand>, i: nat, labels: seq<LabelCell>): string {
    if i < |data| then OperandText(data[i], labels) else "undefined"
  }

  /** JavaScript truthiness of `data[i]`: a positive number or any object. */
  predicate SlotTruthy(data: seq<Operand>, i: nat) {
    i < |data| &&
      match data[i]
      case Reg(r) => r != 0
      case Const(k) => k != 0
      case Undef => false
      case _ => true
  }

  /** What `printInstruction` does with one instruction. */
  datatype Printed = Line(text: string) | Silent | Crash

  /**
   * The part of each `printInstruction` format after the mnemonic and its
   * space; None for the CALL whose second operand is not an array, on which
   * `join` throws.
   */
  function OperandPart(ins: Instr, labels: seq<LabelCell>): Option<string> {
    var a := Slot(ins.data, 0, labels);
    var b := Slot(ins.data, 1, labels);
    var c := Slot(ins.data, 2, labels);
    match ins.op
    case LOAD => Some("k" + a + " r" + b)
    case GETVAR => Some("k" + a + " r" + b)
    case SETVAR => Some("r" + a + " k" + b)
    case JUMP => Some("PC" + a)
    case JUMPIFNOT => Some("r" + a + " PC" + b)
    case JUMPIF => Some("r" + a + " PC" + b)
    case NEWTABLE => Some("r" + a)
    case SETTABLEK => Some("r" + a + " k" + b + " r" + c)
    case SETTABLE => Some("r" + a + " r" + b + " r" + c)
    case PUSHTABLE => Some("r" + a + " r" + b)
    case GETTABLEK => Some("k" + a + " r" + b)
    case GETTABLE => Some("r" + a + " k" + b + " r" + c)
    case CALL =>
      if 1 < |ins.data| && ins.data[1].Args? then
        Some("r" + a + " r[r" + JoinItems(ins.data[1].items, " r", labels) + "] r" + c)
      else None
    case NEWSCOPE => Some("r" + a + " " + (if SlotTruthy(ins.data, 1) then "r" + b else ""))
    case SCOPESET => Some("r" + a + " k" + b + " r" + c)
    case SCOPEGET => Some("r" + a + " k" + b + " r" + c)
    case _ => Some("r" + a + " r" + b + " r" + c)
  }

  /**
   * `printInstruction`: every format is the opcode's mnemonic, a space and
   * the operands (the seven binary operators share one format); SETNIL has
   * no format and prints nothing.
   */
  function PrintInstruction(ins: Instr, labels: seq<LabelCell>): Printed {
    if ins.op == SETNIL then Silent
    else
      match OperandPart(ins, labels)
      case None => Crash
      case Some(t) => Line(Mnemonic(ins.op) + " " + t)
  }

  /** `printConstants`, one entry. */
  function ConstantLine(i: nat, v: Value): string {
    "k" + NatText(i) + ": " + ValueText(v)
  }

  /** The lines of `ir[i..]`, or None when one of them throws. */
  function InstructionLines(ir: seq<Instr>, i: nat, labels: seq<LabelCell>): Option<seq<string>>
    requires i <= |ir|
    decreases |ir| - i
  {
    if i == |ir| then Some([])
    else
      match PrintInstruction(ir[i], labels)
      case Crash => None
      case Silent => InstructionLines(ir, i + 1, labels)
      case Line(t) =>
        match InstructionLines(ir, i + 1, labels)
        case None => None
        case Some(rest) => Some([t] + rest)
  }

  /** The constant lines of `pool[i..]`. */
  function ConstantLines(pool: seq<Value>, i: nat): seq<string>
    requires i <= |pool|
    decreases |pool| - i
  {
    if i == |pool| then [] else [ConstantLine(i, pool[i])] + ConstantLines(pool, i + 1)
  }

  /** The whole listing: the instructions, an empty line, the constants. */
  function Listing(st: State): Option<seq<string>> {
    match InstructionLines(st.ir, 0, st.labels)
    case None => None
    case Some(lines) => Some(lines + [""] + ConstantLines(st.constants, 0))
  }

  /** The number of instructions of `ir[i..]` that print a line. */
  function Printing(ir: seq<Instr>, i: nat): nat
    requires i <= |ir|
    decreases |ir| - i
  {
    if i == |ir| then 0 else (if ir[i].op == SETNIL then 0 else 1) + Printing(ir, i + 1)
  }

  /** Every CALL in `ir[i..]` has an argument array. */
  predicate CallsHaveArgs(ir: seq<Instr>) {
    forall i :: 0 <= i < |ir| && ir[i].op == CALL ==> 1 < |ir[i].data| && ir[i].data[1].Args?
  }

  /** SETNIL alone prints nothing, and only a CALL without an argument array throws. */
  lemma PrintedCases(ins: Instr, labels: seq<LabelCell>)
    ensures var p := PrintInstruction(ins, labels);
      && (p == Silent <==> ins.op == SETNIL)
      && (p == Crash <==> ins.op == CALL && !(1 < |ins.data| && ins.data[1].Args?))
  {
  }

  /**
   * A jump prints the position its label resolves to once compilation is
   * over, which is the index of an instruction of the program.
   */
  lemma JumpPrintsResolvedPosition(st: State, id: nat)
    requires Inv(st) && id < |st.labels|
    ensures PrintInstruction(Instr(JUMP, [Label(id)]), st.labels) == Line("JUMP PC" + NatText(Resolve(st, id) as nat))
    ensures 0 <= Resolve(st, id) < |st.ir|
  {
    ResolveInRange(st, id);
  }

  /**
   * Without a throwing CALL the listing has one line per instruction other
   * than SETNIL, an empty line, and the line `k<i>: <value>` for each
   * constant, in pool order.
   */
  lemma {:induction false} ListingShape(st: State)
    ensures Listing(st).Some? <==> CallsHaveArgs(st.ir)
    ensures Listing(st).Some? ==>
      var lines := Listing(st).value;
      var n := Printing(st.ir, 0);
      && |lines| == n + 1 + |st.constants| && lines[n] == ""
      && forall i :: 0 <= i < |st.constants| ==> lines[n + 1 + i] == ConstantLine(i, st.constants[i])
  {
    InstructionLinesShape(st.ir, 0, st.labels);
    ConstantLinesShape(st.constants, 0);
    if Listing(st).Some? {
      var lines := Listing(st).value;
      var n := Printing(st.ir, 0);
      forall i | 0 <= i < |st.constants| ensures lines[n + 1 + i] == ConstantLine(i, st.constants[i]) {
        assert lines[n + 1 + i] == ConstantLines(st.constants, 0)[i];
      }
    }
  }

  lemma {:induction false} InstructionLinesShape(ir: seq<Instr>, i: nat, labels: seq<LabelCell>)
    requires i <= |ir|
    ensures var r := InstructionLines(ir, i, labels);
      && (r.Some? <==> forall j :: i <= j < |ir| && ir[j].op == CALL ==> 1 < |ir[j].data| && ir[j].data[1].Args?)
      && (r.Some? ==> |r.value| == Printing(ir, i))
    decreases |ir| - i
  {
    if i < |ir| {
      InstructionLinesShape(ir, i + 1, labels);
      PrintedCases(ir[i], labels);
    }
  }

  lemma {:induction false} ConstantLinesShape(pool: seq<Value>, i: nat)
    requires i <= |pool|
    ensures var r := ConstantLines(pool, i);
      && |r| == |pool| - i
      && forall j :: i <= j < |pool| ==> r[j - i] == ConstantLine(j, pool[j])
    decreases |pool| - i
  {
    if i < |pool| {
      ConstantLinesShape(pool, i + 1);
    }
  }

  /**
   * An undefined argument prints as nothing between the separators: the
   * arguments of `f(x, 1)` where `x` compiled to no register list as
   * `r[r r5]`.
   */
  lemma UndefinedArgumentPrintsEmpty(arg: nat, labels: seq<LabelCell>)
    ensures JoinItems([Undef, Reg(arg)], " r", labels) == " r" + NatText(arg)
  {
    assert JoinItems([Reg(arg)], " r", labels) == NatText(arg);
  }
}
