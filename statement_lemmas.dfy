/**
 * What the statement rules emit: `local` declarations, assignments to
 * names and assignments to member-expression targets.
 */
module StatementLemmas {
  import opened Wrappers
  import opened Values
  import opened Scopes
  import opened Bytecode
  import opened CompileState
  import opened Ast
  import opened Lowering
  import opened LoweringInvariant

  /** The outermost frame of the chain that starts at `s`. */
  function RootOf(st: State, s: ScopeRef): nat
    requires WellFormed(st.scopes) && s.id < |st.scopes|
  {
    var c := Chain(st.scopes, s.id);
    c[|c| - 1]
  }

  /**
   * One `local name = init` pair once `init` is compiled into `init`, ending
   * in `st1`: the name's constant, `scope.set(name, init.register)`, then
   * `SCOPESET [scopeReg, k, init.register]`.  The `set` throws exactly when
   * the root of the chain already binds the name truthily.  A name not yet
   * visible is stored in the statement's own scope, so a later lookup there
   * finds the initialiser's register; a name this scope already binds
   * truthily keeps its old value here.
   */
  ghost predicate LocalEnd(node: Node, i: nat, s: ScopeRef, st: State, init: Res, st1: State)
    requires node.LocalStatement? && i < |node.names| && i < |node.init|
    requires WellFormed(st1.scopes) && s.id < |st1.scopes|
  {
    var o := LocalStep(node, i, s, st);
    var name := node.names[i];
    var (k, st2) := Intern(st1, Str(name));
    && (o == Fail(RootSet) <==> Truthy(Own(st1.scopes, RootOf(st1, s), name)))
    && (o.Fail? ==> o.error == RootSet)
    && (o.Ok? ==>
          && o.st.ir == st1.ir + [Instr(SCOPESET, [Reg(s.register), Const(k), RegOf(init.register)])]
          && o.st.constants == st2.constants && k < |o.st.constants| && LooseEq(o.st.constants[k], Str(name))
          && o.st.registers == st1.registers && o.st.labels == st1.labels)
    && (o.Ok? && init.register.Some? && !Truthy(Lookup(st1, s, name)) ==>
          Lookup(o.st, s, name) == RegisterId(init.register.value))
    && (o.Ok? && Truthy(Own(st1.scopes, s.id, name)) ==>
          Lookup(o.st, s, name) == Own(st1.scopes, s.id, name))
  }

  lemma {:induction false} LocalStepShape(node: Node, i: nat, s: ScopeRef, st: State)
    requires node.LocalStatement? && i < |node.names| && i < |node.init| && Inv(st) && ScopeRefOk(s, st)
    ensures var iv := CompileNode(node.init[i], Some(Ctx(LocalStatementKind, Some(s), None)), st);
      var o := LocalStep(node, i, s, st);
      && (iv.Fail? ==> o == Fail(iv.error))
      && (iv.Ok? && iv.value.None? ==> o == Fail(ReadOfUndefined))
      && (iv.Ok? && iv.value.Some? ==>
            && st.ir <= iv.st.ir && WellFormed(iv.st.scopes) && s.id < |iv.st.scopes|
            && LocalEnd(node, i, s, st, iv.value.value, iv.st))
  {
    var c := Some(Ctx(LocalStatementKind, Some(s), None));
    NodeOk(node.init[i], c, st);
    var iv := CompileNode(node.init[i], c, st);
    if iv.Ok? && iv.value.Some? {
      LocalEndShape(node, i, s, st, iv.value.value, iv.st);
    }
  }

  /** `LocalStep` once its initialiser is known to compile to `init`, ending in `st1`. */
  lemma LocalStepAfterInit(node: Node, i: nat, s: ScopeRef, st: State, init: Res, st1: State)
    requires node.LocalStatement? && i < |node.names| && i < |node.init|
    requires CompileNode(node.init[i], Some(Ctx(LocalStatementKind, Some(s), None)), st) == Ok(Some(init), st1)
    ensures var (k, st2) := Intern(st1, Str(node.names[i]));
      var r := Store(st2, s, node.names[i], BindingOf(init.register));
      LocalStep(node, i, s, st) ==
        if r.None? then Fail(RootSet)
        else Ok((), Emit(r.value, SCOPESET, [Reg(s.register), Const(k), RegOf(init.register)]))
  {
  }

  lemma LocalEndShape(node: Node, i: nat, s: ScopeRef, st: State, init: Res, st1: State)
    requires node.LocalStatement? && i < |node.names| && i < |node.init|
    requires CompileNode(node.init[i], Some(Ctx(LocalStatementKind, Some(s), None)), st) == Ok(Some(init), st1)
    requires Inv(st1) && ScopeRefOk(s, st1) && ResValid(init, st1)
    ensures LocalEnd(node, i, s, st, init, st1)
  {
    var name := node.names[i];
    LocalStepAfterInit(node, i, s, st, init, st1);
    InternFindsFirst(st1, Str(name));
    InternOk(st1, Str(name));
    var (k, st2) := Intern(st1, Str(name));
    var b := BindingOf(init.register);
    var t := st1.scopes;
    SetFailsIffRootBinds(t, s.id, name, b);
    StoreOk(st2, s, name, b);
    var r := Store(st2, s, name, b);
    if r.Some? {
      var st4 := Emit(r.value, SCOPESET, [Reg(s.register), Const(k), RegOf(init.register)]);
      if init.register.Some? && !Truthy(Lookup(st1, s, name)) {
        assert r.value.scopes == Write(t, s.id, name, b);
        assert Truthy(Own(r.value.scopes, s.id, name));
      }
      if Truthy(Own(t, s.id, name)) {
        StaleReadAfterRedefinition(t, s.id, name, b);
      }
    }
  }

  /** Names after the last initialiser emit nothing and leave the state as it was. */
  lemma {:induction false} LocalTailEmitsNothing(node: Node, i: nat, s: ScopeRef, st: State)
    requires node.LocalStatement? && |node.init| <= i <= |node.names|
    ensures LocalFrom(node, i, s, st) == Ok((), st)
    decreases |node.names| - i
  {
    if i < |node.names| {
      LocalTailEmitsNothing(node, i + 1, s, st);
    }
  }

  /** Targets after the last initialiser are skipped the same way. */
  lemma {:induction false} AssignTailEmitsNothing(node: Node, i: nat, s: ScopeRef, st: State)
    requires node.AssignmentStatement? && |node.init| <= i <= |node.variables|
    ensures AssignFrom(node, i, s, st) == Ok((), st)
    decreases |node.variables| - i
  {
    if i < |node.variables| {
      AssignTailEmitsNothing(node, i + 1, s, st);
    }
  }

  /**
   * One `target = value` pair with a plain-name target once `value` is
   * compiled into `init`, ending in `st1`.  An identifier initialiser the
   * scope binds truthily reaches the `SCOPESET` branch, whose reference to
   * the not yet declared `variable` throws; otherwise the target yields only
   * its constant and the pair is one `SETVAR [init.register, k]`.
   */
  ghost predicate AssignNameEnd(node: Node, i: nat, s: ScopeRef, st: State, init: Option<Res>, st1: State)
    requires node.AssignmentStatement? && i < |node.variables| && i < |node.init|
    requires node.variables[i].Identifier?
  {
    var o := AssignStep(node, i, s, st);
    var value := node.init[i];
    var name := node.variables[i].name;
    var (k, st2) := Intern(st1, Str(name));
    && (o == Fail(TemporalDeadZone) <==> value.Identifier? && Truthy(Lookup(st1, s, value.name)))
    && (o.Fail? && o.error != TemporalDeadZone ==> o.error == ReadOfUndefined && init.None?)
    && (o.Ok? <==> init.Some? && !(value.Identifier? && Truthy(Lookup(st1, s, value.name))))
    && (o.Ok? ==>
          && o.st.ir == st1.ir + [Instr(SETVAR, [RegOf(init.value.register), Const(k)])]
          && o.st.constants == st2.constants && LooseEq(o.st.constants[k], Str(name))
          && o.st.registers == st1.registers && o.st.labels == st1.labels && o.st.scopes == st1.scopes)
  }

  lemma AssignNameEndShape(node: Node, i: nat, s: ScopeRef, st: State, init: Option<Res>, st1: State)
    requires node.AssignmentStatement? && i < |node.variables| && i < |node.init|
    requires node.variables[i].Identifier?
    requires CompileNode(node.init[i], Some(Ctx(AssignmentStatementKind, Some(s), None)), st) == Ok(init, st1)
    ensures AssignNameEnd(node, i, s, st, init, st1)
  {
    InternFindsFirst(st1, Str(node.variables[i].name));
  }

  /**
   * A plain-name target: failures of the initialiser propagate, and an
   * identifier initialiser, compiled under the assignment, yields no
   * register, so `x = y` stores an undefined register.
   */
  lemma {:induction false} AssignNameShape(node: Node, i: nat, s: ScopeRef, st: State)
    requires node.AssignmentStatement? && i < |node.variables| && i < |node.init|
    requires node.variables[i].Identifier? && Inv(st) && ScopeRefOk(s, st)
    ensures var iv := CompileNode(node.init[i], Some(Ctx(AssignmentStatementKind, Some(s), None)), st);
      && (iv.Fail? ==> AssignStep(node, i, s, st) == Fail(iv.error))
      && (iv.Ok? ==> AssignNameEnd(node, i, s, st, iv.value, iv.st))
      && (iv.Ok? && node.init[i].Identifier? ==> iv.value.Some? && iv.value.value.register.None?)
  {
    var c := Ctx(AssignmentStatementKind, Some(s), None);
    var iv := CompileNode(node.init[i], Some(c), st);
    if iv.Ok? {
      AssignNameEndShape(node, i, s, st, iv.value, iv.st);
    }
  }

  /**
   * What `getTableFromMemberExpression` returns for `member` under the
   * parent `c`, starting from `st` and ending in `st1`.  The key constant
   * names the member's identifier.  The first register allocated is `t`;
   * the base is compiled from there, then the identifier, which emits
   * nothing under a key-only parent such as an assignment.
   *  - A plain base `x.f`: no instruction of its own; the table is the
   *    base's register and the shared register is the base's shared one,
   *    or its own register for a variable.
   *  - A chained base `(...).f.g`: the base chain ends as MemberEnd says,
   *    then exactly one `GETTABLE [shared, kf, t]` reads the base's key
   *    (the name `f`) from the base's shared register into `t`, which is
   *    both the table and the new shared register.
   */
  ghost predicate MemberEnd(member: Node, c: Ctx, st: State, r: Res, st1: State)
    requires member.MemberExpression?
    decreases member, 1
  {
    var t := st.registers + 1;
    && KeyNamed(member, r, st1)
    && (!member.base.MemberExpression? ==>
          var b := CompileNode(member.base, Some(Synthetic), st.(registers := t));
          && b.Ok? && b.value.Some?
          && r.register == b.value.value.register && r.shared == SharedRegister(b.value.value)
          && (KeyOnly(c.kind) ==> st1.ir == b.st.ir))
    && (member.base.MemberExpression? ==>
          var g := GetTable(member.base, c, st.(registers := t));
          && g.Ok? && MemberEnd(member.base, c, st.(registers := t), g.value, g.st)
          && LinkEnd(member, c, t, g.value, g.st, r, st1))
  }

  /** The key constant of a member expression's result names its identifier. */
  ghost predicate KeyNamed(member: Node, r: Res, st1: State)
    requires member.MemberExpression?
  {
    && r.constant.Some? && r.constant.value < |st1.constants|
    && LooseEq(st1.constants[r.constant.value], Str(member.identifier))
  }

  /**
   * The chained case of MemberEnd once the base chain has produced `b` in
   * `st2`: the table register `t` is the result and the shared register,
   * and the identifier is followed by one GETTABLE.
   */
  ghost predicate LinkEnd(member: Node, c: Ctx, t: nat, b: Res, st2: State, r: Res, st1: State)
    requires member.MemberExpression? && member.base.MemberExpression?
  {
    && r.register == Some(t) && r.shared == Some(t)
    && KeyNamed(member.base, b, st1)
    && (var iden := CompileIdentifier(member.identifier, Some(c), st2);
        && iden.Ok? && (KeyOnly(c.kind) ==> iden.st.ir == st2.ir)
        && st1.ir == iden.st.ir + [Instr(GETTABLE, [RegOf(SharedRegister(b)), ConstOf(b.constant), Reg(t)])])
  }

  lemma {:induction false} GetTableShape(member: Node, c: Ctx, st: State)
    requires member.MemberExpression? && Inv(st) && CtxOk(c, st)
    ensures var o := GetTable(member, c, st);
      o.Ok? ==> MemberEnd(member, c, st, o.value, o.st)
    decreases member
  {
    AllocOk(st);
    var (table, st1) := Alloc(st);
    TableBaseOk(member, c, st1);
    var bo := TableBase(member, c, st1);
    if bo.Ok? && bo.value.Some? {
      if member.base.MemberExpression? {
        GetTableShape(member.base, c, st1);
        var go := GetTable(member.base, c, st1);
        assert bo == Lift(go);
      }
      MemberKeyShape(member, c, st, table, bo.value.value, bo.st);
    }
  }

  /** The end of one link, given the base's value `b` in `st2`. */
  lemma MemberKeyShape(member: Node, c: Ctx, st: State, table: nat, b: Res, st2: State)
    requires member.MemberExpression? && table == st.registers + 1
    requires Inv(st2) && CtxOk(c, st2)
    requires !member.base.MemberExpression? ==>
      CompileNode(member.base, Some(Synthetic), st.(registers := table)) == Ok(Some(b), st2)
    requires member.base.MemberExpression? ==>
      && GetTable(member.base, c, st.(registers := table)) == Ok(b, st2)
      && MemberEnd(member.base, c, st.(registers := table), b, st2)
    ensures var o := MemberKey(member.base.MemberExpression?, member.identifier, c, table, Some(b), st2);
      o.Ok? ==> MemberEnd(member, c, st, o.value, o.st)
  {
    var name := member.identifier;
    KeyOfLink(name, c, st2);
    var io := CompileIdentifier(name, Some(c), st2);
    if io.Ok? {
      if member.base.MemberExpression? {
        ChainedLinkEnd(member, c, st, b, st2, io.value, io.st);
        assert MemberEnd(member, c, st, LinkTable(true, table, b, io.value, io.st).0, LinkTable(true, table, b, io.value, io.st).1);
      } else {
        assert MemberEnd(member, c, st, LinkTable(false, table, b, io.value, io.st).0, io.st);
      }
    }
  }

  /** The identifier of a link: its constant names it, the pool only grows, and a key-only parent emits nothing. */
  lemma KeyOfLink(name: string, c: Ctx, st: State)
    requires Inv(st) && CtxOk(c, st)
    ensures var io := CompileIdentifier(name, Some(c), st);
      && io.Ok? && Extends(st, io.st) && io.value.constant.Some? && io.value.constant.value < |io.st.constants|
      && LooseEq(io.st.constants[io.value.constant.value], Str(name))
      && (KeyOnly(c.kind) ==> io.st.ir == st.ir)
  {
    InternFindsFirst(st, Str(name));
    IdentifierOk(name, Some(c), st);
  }

  /** A chained link once the base chain and the identifier are compiled: one GETTABLE into the table. */
  lemma ChainedLinkEnd(member: Node, c: Ctx, st: State, b: Res, st2: State, iden: Res, st3: State)
    requires member.MemberExpression? && member.base.MemberExpression?
    requires KeyNamed(member.base, b, st2)
    requires CompileIdentifier(member.identifier, Some(c), st2) == Ok(iden, st3)
    requires st2.constants <= st3.constants && (KeyOnly(c.kind) ==> st3.ir == st2.ir)
    requires KeyNamed(member, iden, st3)
    ensures var (r, st4) := LinkTable(true, st.registers + 1, b, iden, st3);
      KeyNamed(member, r, st4) && LinkEnd(member, c, st.registers + 1, b, st2, r, st4)
  {
  }

  /**
   * The table of `a.b` under an assignment: the base name is read with
   * GETVAR into the second register allocated (its parent has no scope, so
   * a local `a` is read as a global too), and that register is both the
   * table and the shared register; the first register allocated is never
   * used.
   */
  lemma SimpleMemberTable(a: string, b: string, s: ScopeRef, st: State)
    ensures var o := GetTable(MemberExpression(Identifier(a), b), Ctx(AssignmentStatementKind, Some(s), None), st);
      var r := st.registers;
      var (ka, sa) := Intern(st, Str(a));
      var (kb, sb) := Intern(sa, Str(b));
      && o.Ok? && o.value == Res(NoType, Some(r + 2), Some(kb), Some(r + 2))
      && o.st.ir == st.ir + [Instr(GETVAR, [Const(ka), Reg(r + 2)])]
      && o.st.constants == sb.constants && o.st.registers == r + 2 && o.st.labels == st.labels && o.st.scopes == st.scopes
  {
    var m := MemberExpression(Identifier(a), b);
    var c := Ctx(AssignmentStatementKind, Some(s), None);
    var r := st.registers;
    var (ka, sa) := Intern(st, Str(a));
    var st3 := Emit(sa.(registers := r + 2), GETVAR, [Const(ka), Reg(r + 2)]);
    SimpleBase(a, b, c, st);
    InternOnConstants(st, st.(registers := r + 1), Str(a));
    InternOnConstants(sa, st3, Str(b));
    var base := Res(Variable, Some(r + 2), Some(ka), None);
    SimpleKey(b, c, r + 1, base, st3);
    GetTableUnchained(m, c, st);
  }

  /** An unchained target: the base, then the key. */
  lemma GetTableUnchained(member: Node, c: Ctx, st: State)
    requires member.MemberExpression? && !member.base.MemberExpression?
    ensures var st1 := st.(registers := st.registers + 1);
      GetTable(member, c, st) ==
        match TableBase(member, c, st1)
        case Fail(e) => Fail(e)
        case Ok(b, st2) => MemberKey(false, member.identifier, c, st.registers + 1, b, st2)
  {
  }

  /** Interning looks only at the constant pool. */
  lemma InternOnConstants(st: State, st': State, v: Value)
    requires st.constants == st'.constants
    ensures Intern(st', v).0 == Intern(st, v).0 && Intern(st', v).1 == st'.(constants := Intern(st, v).1.constants)
  {
    InternFindsFirst(st, v);
    InternFindsFirst(st', v);
  }

  /** The base name of `a.b`, compiled with the synthetic parent, is read with GETVAR. */
  lemma SimpleBase(a: string, b: string, c: Ctx, st: State)
    ensures var r := st.registers;
      var (ka, sa) := Intern(st, Str(a));
      TableBase(MemberExpression(Identifier(a), b), c, st.(registers := r + 1))
        == Ok(Some(Res(Variable, Some(r + 2), Some(ka), None)), Emit(sa.(registers := r + 2), GETVAR, [Const(ka), Reg(r + 2)]))
  {
    InternOnConstants(st, st.(registers := st.registers + 1), Str(a));
  }

  /** The key of a link under an assignment is interned and nothing is emitted. */
  lemma SimpleKey(b: string, c: Ctx, table: nat, base: Res, st: State)
    requires KeyOnly(c.kind)
    ensures var o := MemberKey(false, b, c, table, Some(base), st);
      var (kb, sb) := Intern(st, Str(b));
      && o.Ok? && o.value == Res(NoType, base.register, Some(kb), SharedRegister(base))
      && o.st.ir == st.ir && o.st.constants == sb.constants && o.st.registers == st.registers
      && o.st.labels == st.labels && o.st.scopes == st.scopes
  {
    InternFindsFirst(st, Str(b));
  }

  /** `a.b = v`: the GETVAR of the table, then `SETTABLEK [table, b, v]`. */
  lemma {:induction false} AssignSimpleMember(a: string, b: string, s: ScopeRef, v: Res, st: State)
    ensures var o := AssignMember(MemberExpression(Identifier(a), b), Ctx(AssignmentStatementKind, Some(s), None), Some(v), st);
      var r := st.registers;
      var (ka, sa) := Intern(st, Str(a));
      var (kb, sb) := Intern(sa, Str(b));
      && o.Ok?
      && o.st.ir == st.ir + [Instr(GETVAR, [Const(ka), Reg(r + 2)]), Instr(SETTABLEK, [Reg(r + 2), Const(kb), RegOf(v.register)])]
      && o.st.constants == sb.constants && o.st.registers == r + 2 && o.st.labels == st.labels && o.st.scopes == st.scopes
      && LooseEq(sb.constants[ka], Str(a)) && LooseEq(sb.constants[kb], Str(b))
  {
    SimpleMemberTable(a, b, s, st);
    InternFindsFirst(st, Str(a));
    InternFindsFirst(Intern(st, Str(a)).1, Str(b));
  }

  /** A chained target: the base chain, then the key. */
  lemma GetTableChained(member: Node, c: Ctx, st: State)
    requires member.MemberExpression? && member.base.MemberExpression?
    ensures var st1 := st.(registers := st.registers + 1);
      GetTable(member, c, st) ==
        match GetTable(member.base, c, st1)
        case Fail(e) => Fail(e)
        case Ok(b, st2) => MemberKey(true, member.identifier, c, st.registers + 1, Some(b), st2)
  {
  }

  /**
   * `x.f.g = v` for any chain `x.f`: the code of the chain, then
   * `GETTABLE [shared, kf, t]` into the first register allocated and
   * `SETTABLEK [t, kg, v]`; an exception in the chain is the statement's.
   */
  lemma {:induction false} AssignChainedMember(target: Node, s: ScopeRef, v: Res, st: State)
    requires target.MemberExpression? && target.base.MemberExpression?
    ensures var c := Ctx(AssignmentStatementKind, Some(s), None);
      var t := st.registers + 1;
      var g := GetTable(target.base, c, st.(registers := t));
      var o := AssignMember(target, c, Some(v), st);
      && (g.Fail? ==> o == Fail(g.error))
      && (g.Ok? ==>
            var (k, sk) := Intern(g.st, Str(target.identifier));
            && o.Ok? && o.st.constants == sk.constants && LooseEq(sk.constants[k], Str(target.identifier))
            && o.st.ir == g.st.ir + [Instr(GETTABLE, [RegOf(SharedRegister(g.value)), ConstOf(g.value.constant), Reg(t)]),
                                     Instr(SETTABLEK, [Reg(t), Const(k), RegOf(v.register)])])
  {
    var c := Ctx(AssignmentStatementKind, Some(s), None);
    GetTableChained(target, c, st);
    var g := GetTable(target.base, c, st.(registers := st.registers + 1));
    if g.Ok? {
      InternFindsFirst(g.st, Str(target.identifier));
    }
  }

  /**
   * `a.b.c = v` under an assignment, as src/index.js:100-125 and 377-381
   * run it: GETVAR of `a` into the third register allocated, GETTABLE of
   * `b` from it into the first, and `SETTABLEK [first, c, v]`; the second
   * register is never used.
   */
  lemma AssignTwoLinkMember(a: string, b: string, cn: string, target: Node, s: ScopeRef, c: Ctx, v: Res, st: State)
    requires target == MemberExpression(MemberExpression(Identifier(a), b), cn)
    requires c == Ctx(AssignmentStatementKind, Some(s), None)
    ensures var o := AssignMember(target, c, Some(v), st);
      var r := st.registers;
      var sa := Intern(st, Str(a)).1;
      var sb := Intern(sa, Str(b)).1;
      var ka, kb, kc := Intern(st, Str(a)).0, Intern(sa, Str(b)).0, Intern(sb, Str(cn)).0;
      && o.Ok?
      && o.st.ir == st.ir + [Instr(GETVAR, [Const(ka), Reg(r + 3)]),
                             Instr(GETTABLE, [Reg(r + 3), Const(kb), Reg(r + 1)]),
                             Instr(SETTABLEK, [Reg(r + 1), Const(kc), RegOf(v.register)])]
      && o.st.constants == Intern(sb, Str(cn)).1.constants
  {
    var r := st.registers;
    var sa := Intern(st, Str(a)).1;
    var sb := Intern(sa, Str(b)).1;
    TwoLinkBase(a, b, s, c, st);
    AssignChainedMember(target, s, v, st);
    var g := GetTable(target.base, c, st.(registers := r + 1));
    InternOnConstants(sb, g.st, Str(cn));
  }

  /** The chain `a.b` inside `a.b.c`, compiled after the outer table register was taken. */
  lemma TwoLinkBase(a: string, b: string, s: ScopeRef, c: Ctx, st: State)
    requires c == Ctx(AssignmentStatementKind, Some(s), None)
    ensures var r := st.registers;
      var g := GetTable(MemberExpression(Identifier(a), b), c, st.(registers := r + 1));
      var sa := Intern(st, Str(a)).1;
      var kb := Intern(sa, Str(b)).0;
      && g.Ok? && g.value == Res(NoType, Some(r + 3), Some(kb), Some(r + 3))
      && SharedRegister(g.value) == Some(r + 3)
      && g.st.ir == st.ir + [Instr(GETVAR, [Const(Intern(st, Str(a)).0), Reg(r + 3)])]
      && g.st.constants == Intern(sa, Str(b)).1.constants
  {
    var r := st.registers;
    var st1 := st.(registers := r + 1);
    InternOnConstants(st, st1, Str(a));
    InternOnConstants(Intern(st, Str(a)).1, Intern(st1, Str(a)).1, Str(b));
    SimpleMemberTable(a, b, s, st1);
  }
}
