/**
 * The instruction set (src/index.js:33-58), instruction operands, the result
 * records the lowering functions return, and compiler labels
 * (src/index.js:311-333).
 */
module Bytecode {
  import opened Wrappers

  datatype Opcode =
    | LOAD | GETVAR | SETVAR | CALL | JUMPIFNOT | JUMPIF | JUMP
    | ADD | SUB | DIV | MUL | POW | MOD | EQ
    | SETNIL | NEWTABLE | SETTABLEK | SETTABLE | PUSHTABLE | GETTABLEK
    | NEWSCOPE | SCOPEGET | SCOPESET | GETTABLE

  /** The numeric code of each opcode, the `code` field of an emitted instruction. */
  function Code(op: Opcode): nat {
    match op
    case LOAD => 1 case GETVAR => 2 case SETVAR => 3 case CALL => 4
    case JUMPIFNOT => 5 case JUMPIF => 6 case JUMP => 7
    case ADD => 8 case SUB => 9 case DIV => 10 case MUL => 11 case POW => 12 case MOD => 13 case EQ => 14
    case SETNIL => 15 case NEWTABLE => 16 case SETTABLEK => 17 case SETTABLE => 18
    case PUSHTABLE => 19 case GETTABLEK => 20 case NEWSCOPE => 21 case SCOPEGET => 22
    case SCOPESET => 23 case GETTABLE => 24
  }

  /** The opcode with a given numeric code, if any. */
  function OpcodeOf(code: nat): Option<Opcode> {
    if code == 1 then Some(LOAD) else if code == 2 then Some(GETVAR)
    else if code == 3 then Some(SETVAR) else if code == 4 then Some(CALL)
    else if code == 5 then Some(JUMPIFNOT) else if code == 6 then Some(JUMPIF)
    else if code == 7 then Some(JUMP) else if code == 8 then Some(ADD)
    else if code == 9 then Some(SUB) else if code == 10 then Some(DIV)
    else if code == 11 then Some(MUL) else if code == 12 then Some(POW)
    else if code == 13 then Some(MOD) else if code == 14 then Some(EQ)
    else if code == 15 then Some(SETNIL) else if code == 16 then Some(NEWTABLE)
    else if code == 17 then Some(SETTABLEK) else if code == 18 then Some(SETTABLE)
    else if code == 19 then Some(PUSHTABLE) else if code == 20 then Some(GETTABLEK)
    else if code == 21 then Some(NEWSCOPE) else if code == 22 then Some(SCOPEGET)
    else if code == 23 then Some(SCOPESET) else if code == 24 then Some(GETTABLE)
    else None
  }

  /** The opcodes are numbered 1 to 24 without gaps or repeats. */
  lemma CodeRoundTrip(op: Opcode)
    ensures 1 <= Code(op) <= 24
    ensures OpcodeOf(Code(op)) == Some(op)
  {
  }

  lemma CodeInjective(a: Opcode, b: Opcode)
    requires Code(a) == Code(b)
    ensures a == b
  {
    CodeRoundTrip(a);
    CodeRoundTrip(b);
  }

  lemma OpcodeOfRoundTrip(code: nat)
    requires 1 <= code <= 24
    ensures OpcodeOf(code).Some? && Code(OpcodeOf(code).value) == code
  {
  }

  /** The mnemonic of each opcode, as the disassembly prints it. */
  function Mnemonic(op: Opcode): string {
    match op
    case LOAD => "LOAD" case GETVAR => "GETVAR" case SETVAR => "SETVAR" case CALL => "CALL"
    case JUMPIFNOT => "JUMPIFNOT" case JUMPIF => "JUMPIF" case JUMP => "JUMP"
    case ADD => "ADD" case SUB => "SUB" case DIV => "DIV" case MUL => "MUL" case POW => "POW"
    case MOD => "MOD" case EQ => "EQ" case SETNIL => "SETNIL" case NEWTABLE => "NEWTABLE"
    case SETTABLEK => "SETTABLEK" case SETTABLE => "SETTABLE" case PUSHTABLE => "PUSHTABLE"
    case GETTABLEK => "GETTABLEK" case NEWSCOPE => "NEWSCOPE" case SCOPEGET => "SCOPEGET"
    case SCOPESET => "SCOPESET" case GETTABLE => "GETTABLE"
  }

  /** The `type` tag of a lowering result; NoType for records that have none. */
  datatype ResultKind = NoType | Variable | TableConstructor | BinaryExpr | CallResult | LiteralValue

  /**
   * The object a lowering function returns: `{ type, register, constant }`,
   * plus `sharedRegister` for member-expression chains.  Absent fields are None.
   */
  datatype Res = Res(kind: ResultKind, register: Option<nat>, constant: Option<nat>, shared: Option<nat>)

  /**
   * An element of an instruction's `data` array.  Reg and Const are the
   * numbers stored there, Label a reference to a label (resolved only when the
   * program is printed), Args the argument-register array of CALL, Undef the
   * value undefined, and Junk a whole lowering result where the source pushes
   * the result object instead of its register.
   */
  datatype Operand = Reg(r: nat) | Const(k: nat) | Label(id: nat) | Args(items: seq<Operand>) | Undef | Junk(res: Res)

  datatype Instr = Instr(op: Opcode, data: seq<Operand>)

  /** `value.register` stored into an operand. */
  function RegOf(o: Option<nat>): Operand {
    if o.Some? then Reg(o.value) else Undef
  }

  /** `value.constant` stored into an operand. */
  function ConstOf(o: Option<nat>): Operand {
    if o.Some? then Const(o.value) else Undef
  }

  /** A `compilerLabel` object: the position it is bound to and the offset added when it is read. */
  datatype LabelCell = LabelCell(pos: int, increment: int)

  /**
   * `new compilerLabel(increment)` while the buffer holds `irLength` instructions;
   * without an increment the label resolves to the last instruction emitted.
   */
  function NewCell(irLength: nat, increment: Option<int>): (c: LabelCell)
    ensures increment.None? ==> Fetch(c) == irLength - 1
  {
    LabelCell(irLength - 1, increment.GetOr(0))
  }

  /**
   * `label.update(increment)` while the buffer holds `irLength` instructions; a
   * missing or zero increment is falsy, so the old offset is kept on the new position.
   */
  function UpdateCell(c: LabelCell, irLength: nat, increment: Option<int>): (d: LabelCell)
    ensures (increment.None? || increment.value == 0) ==> Fetch(d) == irLength - 1 + c.increment
  {
    LabelCell(irLength - 1, if increment.Some? && increment.value != 0 then increment.value else c.increment)
  }

  /** `label.fetch()`, which is also what `toString` and `toJSON` return. */
  function Fetch(c: LabelCell): int {
    c.pos + c.increment
  }
}
