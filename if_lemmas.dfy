/**
 * The shape of `compileIfStatement` (src/index.js:253-299) for any list of
 * clauses: pass 1 and its closing `JUMP [end]`, where pass 2 rebinds each
 * clause label, the `JUMP [end]` closing each IfClause body, and the end
 * label bound to the last instruction.
 */
module IfLemmas {
  import opened Wrappers
  import opened Bytecode
  import opened CompileState
  import opened Ast
  import opened Lowering
  import opened LoweringInvariant

  /** The number of clauses of `cs[i..]` that pass 1 gives a label: all but the ElseifClauses. */
  function Labelled(cs: seq<Clause>, i: nat): nat
    decreases |cs| - i
  {
    if i >= |cs| then 0 else (if cs[i].ElseifClause? then 0 else 1) + Labelled(cs, i + 1)
  }

  /** The labels of a list strictly increase, so no two are the same label. */
  predicate Increasing(ids: seq<nat>) {
    forall a, b :: 0 <= a < b < |ids| ==> ids[a] < ids[b]
  }

  /**
   * Pass 1 appends one new label per IfClause or ElseClause, each above all
   * labels that existed before it.
   */
  lemma {:induction false} TestsLabels(node: Node, i: nat, c: Ctx, ids: seq<nat>, st: State)
    requires node.IfStatement? && i <= |node.clauses| && Inv(st) && CtxOk(c, st)
    requires LabelsOk(ids, st) && Increasing(ids)
    ensures var o := TestsFrom(node, i, c, ids, st);
      o.Ok? ==> Increasing(o.value) && |o.value| == |ids| + Labelled(node.clauses, i)
    decreases |node.clauses| - i
  {
    if i < |node.clauses| {
      TestOk(node, i, c, st);
      var so := TestStep(node, i, c, st);
      if so.Ok? {
        var next := if so.value.Some? then ids + [so.value.value] else ids;
        assert LabelsOk(next, so.st);
        TestsLabels(node, i + 1, c, next, so.st);
      }
    }
  }

  /**
   * The exact pass-1 code of clause `cl`, run from `st` to `st1`, and the
   * label `l` it creates (src/index.js:258-276):
   * - an IfClause: a new label, its condition's code, then
   *   `JUMPIF [condition register, label]`;
   * - an ElseClause: a new label, then `JUMP [label]`;
   * - an ElseifClause: no label and nothing else.
   */
  ghost predicate TestEnd(cl: Clause, c: Ctx, st: State, l: Option<nat>, st1: State) {
    match cl
    case IfClause(condition, _) =>
      var cv := CompileNode(condition, Some(c), NewLabel(st).1);
      && l == Some(|st.labels|) && cv.Ok? && cv.value.Some? && st.ir <= cv.st.ir
      && st1.ir == cv.st.ir + [Instr(JUMPIF, [RegOf(cv.value.value.register), Label(|st.labels|)])]
    case ElseClause(_) =>
      && l == Some(|st.labels|) && |st1.labels| == |st.labels| + 1
      && st1.ir == st.ir + [Instr(JUMP, [Label(|st.labels|)])]
    case ElseifClause(_, _) => l == None && st1 == st
  }

  /** Pass 1 on one clause emits exactly what `TestEnd` says; only an IfClause can fail. */
  lemma TestStepShape(node: Node, i: nat, c: Ctx, st: State)
    requires node.IfStatement? && i < |node.clauses| && Inv(st) && CtxOk(c, st)
    ensures var o := TestStep(node, i, c, st);
      && (!node.clauses[i].IfClause? ==> o.Ok?)
      && (o.Ok? ==> TestEnd(node.clauses[i], c, st, o.value, o.st))
  {
    if node.clauses[i].IfClause? {
      NewLabelOk(st);
      NodeOk(node.clauses[i].condition, Some(c), NewLabel(st).1);
    }
  }

  /** Pass 1 over clauses i up to (not including) k. */
  function TestsUpTo(node: Node, i: nat, k: nat, c: Ctx, ids: seq<nat>, st: State): Outcome<seq<nat>>
    requires node.IfStatement? && i <= k <= |node.clauses|
    decreases k - i
  {
    if i == k then Ok(ids, st)
    else
      match TestStep(node, i, c, st)
      case Fail(e) => Fail(e)
      case Ok(l, st1) => TestsUpTo(node, i + 1, k, c, if l.Some? then ids + [l.value] else ids, st1)
  }

  /** Pass 1 is the clauses before k followed by the clauses from k on. */
  lemma {:induction false} TestsSplit(node: Node, i: nat, k: nat, c: Ctx, ids: seq<nat>, st: State)
    requires node.IfStatement? && i <= k <= |node.clauses|
    ensures var p := TestsUpTo(node, i, k, c, ids, st);
      TestsFrom(node, i, c, ids, st) == if p.Fail? then Fail(p.error) else TestsFrom(node, k, c, p.value, p.st)
    decreases k - i
  {
    if i < k {
      var so := TestStep(node, i, c, st);
      if so.Ok? {
        TestsSplit(node, i + 1, k, c, if so.value.Some? then ids + [so.value.value] else ids, so.st);
      }
    }
  }

  /** Pass 1 over the clauses before k + 1 is pass 1 over those before k, then clause k. */
  lemma {:induction false} TestsUpToNext(node: Node, i: nat, k: nat, c: Ctx, ids: seq<nat>, st: State)
    requires node.IfStatement? && i <= k < |node.clauses|
    ensures var p := TestsUpTo(node, i, k, c, ids, st);
      TestsUpTo(node, i, k + 1, c, ids, st) ==
        if p.Fail? then Fail(p.error)
        else
          var so := TestStep(node, k, c, p.st);
          if so.Fail? then Fail(so.error)
          else Ok(if so.value.Some? then p.value + [so.value.value] else p.value, so.st)
    decreases k - i
  {
    if i < k {
      var so := TestStep(node, i, c, st);
      if so.Ok? {
        TestsUpToNext(node, i + 1, k, c, if so.value.Some? then ids + [so.value.value] else ids, so.st);
      }
    }
  }

  /** Pass 1 over the clauses before k keeps the invariant and only extends the state. */
  lemma {:induction false} TestsUpToOk(node: Node, i: nat, k: nat, c: Ctx, ids: seq<nat>, st: State)
    requires node.IfStatement? && i <= k <= |node.clauses| && Inv(st) && CtxOk(c, st) && LabelsOk(ids, st)
    ensures var p := TestsUpTo(node, i, k, c, ids, st);
      p.Ok? ==> Inv(p.st) && Extends(st, p.st) && CtxOk(c, p.st) && LabelsOk(p.value, p.st)
    decreases k - i
  {
    if i < k {
      TestOk(node, i, c, st);
      var so := TestStep(node, i, c, st);
      if so.Ok? {
        var next := if so.value.Some? then ids + [so.value.value] else ids;
        assert LabelsOk(next, so.st);
        TestsUpToOk(node, i + 1, k, c, next, so.st);
      }
    }
  }

  /**
   * Where clause j stands in pass 1, started in `st` and ending in `t2` with
   * the label list `ids`: after the clauses before it, it emits exactly what
   * `TestEnd` says, its code is a prefix of `t2`'s, and the label it
   * creates is the next entry of `ids`.
   */
  ghost predicate TestLands(node: Node, j: nat, c: Ctx, st: State, ids: seq<nat>, t2: State)
    requires node.IfStatement? && j < |node.clauses|
  {
    var p := TestsUpTo(node, 0, j, c, [], st);
    && p.Ok?
    && var so := TestStep(node, j, c, p.st);
    && so.Ok? && TestEnd(node.clauses[j], c, p.st, so.value, so.st) && so.st.ir <= t2.ir
    && (so.value.Some? ==> |p.value| < |ids| && ids[|p.value|] == so.value.value)
  }

  /** Every clause lands in pass 1's code as `TestLands` says. */
  lemma TestsLand(node: Node, j: nat, c: Ctx, st: State)
    requires node.IfStatement? && j < |node.clauses| && Inv(st) && CtxOk(c, st)
    ensures var t := TestsFrom(node, 0, c, [], st);
      t.Ok? ==> TestLands(node, j, c, st, t.value, t.st)
  {
    TestsSplit(node, 0, j + 1, c, [], st);
    TestsUpToNext(node, 0, j, c, [], st);
    TestsUpToOk(node, 0, j + 1, c, [], st);
    TestsUpToOk(node, 0, j, c, [], st);
    var p := TestsUpTo(node, 0, j, c, [], st);
    var q := TestsUpTo(node, 0, j + 1, c, [], st);
    var t := TestsFrom(node, 0, c, [], st);
    if t.Ok? {
      TestStepShape(node, j, c, p.st);
      TestsOk(node, j + 1, c, q.value, q.st);
      assert t.value[..|q.value|] == q.value;
      var so := TestStep(node, j, c, p.st);
      if so.value.Some? {
        assert q.value[|p.value|] == so.value.value;
      }
    }
  }

  /** Pass 2 over clauses i up to (not including) k. */
  function BodiesUpTo(node: Node, i: nat, k: nat, c: Ctx, ids: seq<nat>, end: nat, st: State): Outcome<()>
    requires node.IfStatement? && i <= k <= |node.clauses|
    decreases k - i
  {
    if i == k then Ok((), st)
    else
      match BodyStep(node, i, c, ids, end, st)
      case Fail(e) => Fail(e)
      case Ok(_, st1) => BodiesUpTo(node, i + 1, k, c, ids, end, st1)
  }

  /** Pass 2 is the clauses before k followed by the clauses from k on. */
  lemma {:induction false} BodiesSplit(node: Node, i: nat, k: nat, c: Ctx, ids: seq<nat>, end: nat, st: State)
    requires node.IfStatement? && i <= k <= |node.clauses|
    ensures var p := BodiesUpTo(node, i, k, c, ids, end, st);
      BodiesFrom(node, i, c, ids, end, st) == if p.Fail? then Fail(p.error) else BodiesFrom(node, k, c, ids, end, p.st)
    decreases k - i
  {
    if i < k {
      var so := BodyStep(node, i, c, ids, end, st);
      if so.Ok? {
        BodiesSplit(node, i + 1, k, c, ids, end, so.st);
      }
    }
  }

  /** Running the clauses before k + 1 is running those before k, then clause k. */
  lemma {:induction false} BodiesUpToNext(node: Node, i: nat, k: nat, c: Ctx, ids: seq<nat>, end: nat, st: State)
    requires node.IfStatement? && i <= k < |node.clauses|
    ensures var p := BodiesUpTo(node, i, k, c, ids, end, st);
      BodiesUpTo(node, i, k + 1, c, ids, end, st) == if p.Fail? then Fail(p.error) else BodyStep(node, k, c, ids, end, p.st)
    decreases k - i
  {
    if i < k {
      var so := BodyStep(node, i, c, ids, end, st);
      if so.Ok? {
        BodiesUpToNext(node, i + 1, k, c, ids, end, so.st);
      }
    }
  }

  /** The clauses before k keep the invariant and only extend the state. */
  lemma {:induction false} BodiesUpToOk(node: Node, i: nat, k: nat, c: Ctx, ids: seq<nat>, end: nat, st: State)
    requires node.IfStatement? && i <= k <= |node.clauses| && Inv(st) && CtxOk(c, st) && LabelsOk(ids, st) && end < |st.labels|
    ensures var p := BodiesUpTo(node, i, k, c, ids, end, st);
      p.Ok? ==> Inv(p.st) && Extends(st, p.st) && CtxOk(c, p.st) && LabelsOk(ids, p.st) && end < |p.st.labels|
    decreases k - i
  {
    if i < k {
      BodyOk(node, i, c, ids, end, st);
      var so := BodyStep(node, i, c, ids, end, st);
      if so.Ok? {
        BodiesUpToOk(node, i + 1, k, c, ids, end, so.st);
      }
    }
  }

  /**
   * Pass 2 on one clause: an ElseifClause does nothing; any other clause
   * first rebinds the label at its own position in the list, if there is
   * one, to the last instruction before its body; an IfClause ends with
   * `JUMP [end]`.
   */
  lemma {:induction false} BodyStepShape(node: Node, i: nat, c: Ctx, ids: seq<nat>, end: nat, st: State)
    requires node.IfStatement? && i < |node.clauses| && Inv(st) && CtxOk(c, st) && LabelsOk(ids, st) && end < |st.labels|
    ensures var o := BodyStep(node, i, c, ids, end, st);
      && (node.clauses[i].ElseifClause? ==> o == Ok((), st))
      && (o.Ok? ==> st.ir <= o.st.ir && |st.labels| <= |o.st.labels|)
      && (o.Ok? && !node.clauses[i].ElseifClause? && i < |ids| ==> o.st.labels[ids[i]] == LabelCell(|st.ir| - 1, 0))
      && (o.Ok? && node.clauses[i].IfClause? ==> |st.ir| < |o.st.ir| && o.st.ir[|o.st.ir| - 1] == Instr(JUMP, [Label(end)]))
  {
    if !node.clauses[i].ElseifClause? {
      if i < |ids| {
        UpdateLabelOk(st, ids[i]);
      }
      var st1 := if i < |ids| then UpdateLabel(st, ids[i]) else st;
      NodesOk(node.clauses[i].body, 0, Some(c), st1);
    }
  }

  /**
   * Where clause j stands in the final code `fin` of pass 2 started in
   * `st3`: the code before it is a prefix of `fin`; its label, when pass 2
   * rebinds one for it, is bound to the last instruction before its body;
   * and an IfClause's code ends with `JUMP [end]`.
   */
  ghost predicate ClauseLands(node: Node, j: nat, c: Ctx, ids: seq<nat>, end: nat, st3: State, fin: State)
    requires node.IfStatement? && j < |node.clauses|
  {
    var p := BodiesUpTo(node, 0, j, c, ids, end, st3);
    && p.Ok? && p.st.ir <= fin.ir
    && (!node.clauses[j].ElseifClause? && j < |ids| ==>
          ids[j] < |fin.labels| && fin.labels[ids[j]] == LabelCell(|p.st.ir| - 1, 0))
    && (node.clauses[j].IfClause? ==>
          var q := BodiesUpTo(node, 0, j + 1, c, ids, end, st3);
          && q.Ok? && |p.st.ir| < |q.st.ir| && q.st.ir <= fin.ir
          && fin.ir[|q.st.ir| - 1] == Instr(JUMP, [Label(end)]))
  }

  /** Every clause lands in the code pass 2 produces, as ClauseLands says. */
  lemma {:induction false} BodiesLand(node: Node, j: nat, c: Ctx, ids: seq<nat>, end: nat, st3: State)
    requires node.IfStatement? && j < |node.clauses| && Inv(st3) && CtxOk(c, st3) && LabelsOk(ids, st3) && end < |st3.labels|
    requires Increasing(ids)
    ensures var o := BodiesFrom(node, 0, c, ids, end, st3);
      o.Ok? ==> ClauseLands(node, j, c, ids, end, st3, o.st)
  {
    BodiesSplit(node, 0, j, c, ids, end, st3);
    BodiesUpToOk(node, 0, j, c, ids, end, st3);
    BodiesUpToNext(node, 0, j, c, ids, end, st3);
    var p := BodiesUpTo(node, 0, j, c, ids, end, st3);
    var o := BodiesFrom(node, 0, c, ids, end, st3);
    if o.Ok? {
      BodyStepShape(node, j, c, ids, end, p.st);
      BodyOk(node, j, c, ids, end, p.st);
      var so := BodyStep(node, j, c, ids, end, p.st);
      assert o == BodiesFrom(node, j + 1, c, ids, end, so.st);
      BodiesOk(node, j + 1, c, ids, end, so.st);
      if !node.clauses[j].ElseifClause? && j < |ids| {
        assert !Rebinds(node, j + 1, ids, ids[j]);
      }
      if node.clauses[j].IfClause? {
        assert so.st.ir[|so.st.ir| - 1] == o.st.ir[|so.st.ir| - 1];
      }
    }
  }

  /**
   * The whole statement, from pass 1 started in `st1` with end label `end`,
   * through pass 1's final state `t2` and label list `ids`, to the final
   * code `fin`: every clause's pass-1 code is as `TestLands` says; pass 1
   * and its `JUMP [end]` are a prefix of `fin`; every rebound label ends
   * where `ClauseLands` puts it (the end label's final rebinding moves none
   * of them); and the end label is bound to the last instruction.
   */
  ghost predicate IfEnd(node: Node, c: Ctx, end: nat, st1: State, ids: seq<nat>, t2: State, fin: State)
    requires node.IfStatement?
  {
    var st3 := Emit(t2, JUMP, [Label(end)]);
    && (forall j :: 0 <= j < |node.clauses| ==> TestLands(node, j, c, st1, ids, t2))
    && st3.ir <= fin.ir
    && end < |fin.labels| && fin.labels[end] == LabelCell(|fin.ir| - 1, 0)
    && |ids| == Labelled(node.clauses, 0) && Increasing(ids)
    && (forall j :: 0 <= j < |ids| ==> end < ids[j])
    && forall j :: 0 <= j < |node.clauses| ==> ClauseLands(node, j, c, ids, end, st3, fin)
  }

  /**
   * `compileIfStatement` for any clause list: pass 1 emits each clause's
   * label and test as `TestLands` says, yields one label per IfClause and
   * ElseClause and is followed by `JUMP [end]`; every clause then lands as
   * `ClauseLands` says; and the end label is bound to the last instruction
   * of the whole statement.
   */
  lemma {:induction false} IfShape(node: Node, ifScope: ScopeRef, parent: Option<Ctx>, st: State)
    requires node.IfStatement? && Inv(st) && ScopeRefOk(ifScope, st) && ParentOk(parent, st)
    ensures var o := CompileIf(node, ifScope, parent, st);
      var end := |st.labels|;
      var c := IfCtx(ifScope, parent);
      var t := TestsFrom(node, 0, c, [], NewLabel(st).1);
      o.Ok? ==> t.Ok? && IfEnd(node, c, end, NewLabel(st).1, t.value, t.st, o.st)
  {
    NewLabelOk(st);
    var (end, st1) := NewLabel(st);
    var c := IfCtx(ifScope, parent);
    TestsOk(node, 0, c, [], st1);
    TestsLabels(node, 0, c, [], st1);
    var t := TestsFrom(node, 0, c, [], st1);
    if t.Ok? {
      forall j | 0 <= j < |node.clauses| ensures TestLands(node, j, c, st1, t.value, t.st) {
        TestsLand(node, j, c, st1);
      }
      Emit1Ok(t.st, JUMP, Label(end));
      var st3 := Emit(t.st, JUMP, [Label(end)]);
      BodiesOk(node, 0, c, t.value, end, st3);
      var b := BodiesFrom(node, 0, c, t.value, end, st3);
      if b.Ok? {
        var fin := UpdateLabel(b.st, end);
        assert CompileIf(node, ifScope, parent, st) == Ok((), fin);
        forall j | 0 <= j < |node.clauses| ensures ClauseLands(node, j, c, t.value, end, st3, fin) {
          BodiesLand(node, j, c, t.value, end, st3);
          LandsAfterEnd(node, j, c, t.value, end, st3, b.st);
        }
      }
    }
  }

  /** Rebinding the end label moves no clause label, so each clause still lands where it did. */
  lemma LandsAfterEnd(node: Node, j: nat, c: Ctx, ids: seq<nat>, end: nat, st3: State, b: State)
    requires node.IfStatement? && j < |node.clauses| && end < |b.labels|
    requires forall i :: 0 <= i < |ids| ==> end < ids[i]
    requires ClauseLands(node, j, c, ids, end, st3, b)
    ensures ClauseLands(node, j, c, ids, end, st3, UpdateLabel(b, end))
  {
  }

  /**
   * Pass 1 over `if cond then b1 else b2 end`: the if label, the
   * condition's code and `JUMPIF [condition, if label]`, then the else
   * label and `JUMP [else label]`.
   */
  lemma IfElseTests(cond: Node, b1: seq<Node>, b2: seq<Node>, c: Ctx, st: State)
    ensures var node := IfStatement([IfClause(cond, b1), ElseClause(b2)]);
      var (l1, st1) := NewLabel(st);
      var cv := CompileNode(cond, Some(c), st1);
      && (cv.Fail? ==> TestsFrom(node, 0, c, [], st) == Fail(cv.error))
      && (cv.Ok? && cv.value.None? ==> TestsFrom(node, 0, c, [], st) == Fail(ReadOfUndefined))
      && (cv.Ok? && cv.value.Some? ==>
            var st2 := Emit(cv.st, JUMPIF, [RegOf(cv.value.value.register), Label(l1)]);
            var (l2, st3) := NewLabel(st2);
            TestsFrom(node, 0, c, [], st) == Ok([l1, l2], Emit(st3, JUMP, [Label(l2)])))
  {
    var node := IfStatement([IfClause(cond, b1), ElseClause(b2)]);
    var (l1, st1) := NewLabel(st);
    var cv := CompileNode(cond, Some(c), st1);
    if cv.Ok? && cv.value.Some? {
      var st2 := Emit(cv.st, JUMPIF, [RegOf(cv.value.value.register), Label(l1)]);
      var (l2, st3) := NewLabel(st2);
      var st4 := Emit(st3, JUMP, [Label(l2)]);
      assert TestsFrom(node, 2, c, [l1, l2], st4) == Ok([l1, l2], st4);
      assert [l1] + [l2] == [l1, l2];
      assert TestsFrom(node, 1, c, [l1], st2) == Ok([l1, l2], st4);
      assert [] + [l1] == [l1];
    }
  }

  /**
   * Pass 1 of `if cond then b1 else b2 end` from `st` to `t2` with labels
   * `ids`: the condition's code, `JUMPIF [condition, ids[0]]` and
   * `JUMP [ids[1]]`, where ids[0] is the first label created.
   */
  ghost predicate IfElsePassOne(cond: Node, c: Ctx, st: State, ids: seq<nat>, t2: State) {
    var cv := CompileNode(cond, Some(c), NewLabel(st).1);
    && cv.Ok? && cv.value.Some? && |ids| == 2 && ids[0] == |st.labels|
    && t2.ir == cv.st.ir + [Instr(JUMPIF, [RegOf(cv.value.value.register), Label(ids[0])]), Instr(JUMP, [Label(ids[1])])]
  }

  lemma IfElsePassOneShape(cond: Node, b1: seq<Node>, b2: seq<Node>, c: Ctx, st: State)
    ensures var t := TestsFrom(IfStatement([IfClause(cond, b1), ElseClause(b2)]), 0, c, [], st);
      t.Ok? ==> IfElsePassOne(cond, c, st, t.value, t.st)
  {
    IfElseTests(cond, b1, b2, c, st);
  }

  /**
   * `if cond then b1 else b2 end`: pass 1 is the condition's code,
   * `JUMPIF [condition, if label]` and `JUMP [else label]`; the if label resolves to pass 1's
   * `JUMP [end]`, so the first body follows it directly; the else label
   * resolves to the `JUMP [end]` that closes the first body, so the else
   * body follows that; the end label resolves to the last instruction.
   */
  lemma IfElseLanding(cond: Node, b1: seq<Node>, b2: seq<Node>, ifScope: ScopeRef, parent: Option<Ctx>, st: State)
    requires Inv(st) && ScopeRefOk(ifScope, st) && ParentOk(parent, st)
    ensures var node := IfStatement([IfClause(cond, b1), ElseClause(b2)]);
      var o := CompileIf(node, ifScope, parent, st);
      var end := |st.labels|;
      var t := TestsFrom(node, 0, IfCtx(ifScope, parent), [], NewLabel(st).1);
      o.Ok? ==>
      && t.Ok? && |t.value| == 2 && t.value[0] < |o.st.labels| && t.value[1] < |o.st.labels| && end < |o.st.labels|
      && IfElsePassOne(cond, IfCtx(ifScope, parent), NewLabel(st).1, t.value, t.st)
      && Resolve(o.st, t.value[0]) == |t.st.ir| < |o.st.ir|
      && o.st.ir[Resolve(o.st, t.value[0])] == Instr(JUMP, [Label(end)])
      && |t.st.ir| < Resolve(o.st, t.value[1]) < |o.st.ir|
      && o.st.ir[Resolve(o.st, t.value[1])] == Instr(JUMP, [Label(end)])
      && Resolve(o.st, end) == |o.st.ir| - 1
  {
    var node := IfStatement([IfClause(cond, b1), ElseClause(b2)]);
    var c := IfCtx(ifScope, parent);
    var end := |st.labels|;
    IfShape(node, ifScope, parent, st);
    IfElsePassOneShape(cond, b1, b2, c, NewLabel(st).1);
    var o := CompileIf(node, ifScope, parent, st);
    if o.Ok? {
      var t := TestsFrom(node, 0, c, [], NewLabel(st).1);
      var st3 := Emit(t.st, JUMP, [Label(end)]);
      assert Labelled(node.clauses, 2) == 0;
      assert Labelled(node.clauses, 0) == 2;
      assert ClauseLands(node, 0, c, t.value, end, st3, o.st);
      assert ClauseLands(node, 1, c, t.value, end, st3, o.st);
      assert o.st.ir[|t.st.ir|] == st3.ir[|t.st.ir|];
    }
  }
}
