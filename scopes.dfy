/**
 * The `Scope` class (src/index.js:11-31, repeated verbatim in src/scope.js:1-21):
 * a map from names to values plus an optional link `top` to the enclosing
 * scope.  Every Scope object ever created is a frame of a scope table, and a
 * scope is referred to by its index in that table; `top` is the index of an
 * older frame.
 *
 * `get` returns the scope's own entry when that entry is truthy and otherwise
 * asks `top`; `set` first looks the key up along the whole chain and, if the
 * lookup is truthy, hands the write to `top` (which fails at the root, where
 * `top` is undefined), else stores it in the scope's own map.
 */
module Scopes {
  import opened Wrappers

  /** A value stored in a scope map: a register number (src/index.js), a string (src/scope.js) or undefined. */
  datatype Binding = Undefined | RegisterId(r: nat) | Text(s: string)

  /** JavaScript truthiness of a stored value: undefined, 0 and "" are falsy. */
  predicate Truthy(b: Binding) {
    match b
    case Undefined => false
    case RegisterId(r) => r != 0
    case Text(s) => s != ""
  }

  datatype Frame = Frame(bindings: map<string, Binding>, top: Option<nat>)

  type ScopeTable = seq<Frame>

  /** Every `top` link points to an older frame, so chains end at a root. */
  predicate WellFormed(t: ScopeTable) {
    forall i :: 0 <= i < |t| && t[i].top.Some? ==> t[i].top.value < i
  }

  /** `this.map.get(key)`: the frame's own entry, undefined when absent. */
  function Own(t: ScopeTable, id: nat, key: string): Binding
    requires id < |t|
  {
    if key in t[id].bindings then t[id].bindings[key] else Undefined
  }

  /** `Scope.get`. */
  function Get(t: ScopeTable, id: nat, key: string): Binding
    requires WellFormed(t) && id < |t|
    decreases id
  {
    var value := Own(t, id, key);
    if !Truthy(value) && t[id].top.Some? then Get(t, t[id].top.value, key) else value
  }

  /** `this.map.set(key, value)` on frame `id`, leaving every other frame as it was. */
  function Write(t: ScopeTable, id: nat, key: string, value: Binding): (r: ScopeTable)
    requires id < |t|
    ensures |r| == |t| && r[id].top == t[id].top && Own(r, id, key) == value
    ensures forall i :: 0 <= i < |t| && i != id ==> r[i] == t[i]
  {
    t[id := Frame(t[id].bindings[key := value], t[id].top)]
  }

  /** `Scope.set`; None is the TypeError of calling `set` on the undefined `top` of the root. */
  function Set(t: ScopeTable, id: nat, key: string, value: Binding): (r: Option<ScopeTable>)
    requires WellFormed(t) && id < |t|
    ensures r.Some? ==> |r.value| == |t| && forall i :: 0 <= i < |t| ==> r.value[i].top == t[i].top
    ensures r.Some? ==> forall i :: id < i < |t| ==> r.value[i] == t[i]
    ensures r.Some? && Truthy(Get(t, id, key)) ==> r.value[id] == t[id]
    decreases id
  {
    if Truthy(Get(t, id, key)) then
      if t[id].top.None? then None else Set(t, t[id].top.value, key, value)
    else
      Some(Write(t, id, key, value))
  }

  /** `new Scope(top)`: a fresh frame with an empty map, appended to the table. */
  function NewFrame(t: ScopeTable, top: Option<nat>): (r: (nat, ScopeTable))
    requires WellFormed(t) && (top.Some? ==> top.value < |t|)
    ensures r.0 == |t| && r.1 == t + [Frame(map[], top)] && WellFormed(r.1)
  {
    (|t|, t + [Frame(map[], top)])
  }

  /** The frames visited by a lookup that starts at `id`: `id`, its `top`, and so on up to the root. */
  function Chain(t: ScopeTable, id: nat): (c: seq<nat>)
    requires WellFormed(t) && id < |t|
    ensures |c| >= 1 && c[0] == id
    ensures forall j :: 0 <= j < |c| ==> c[j] < |t|
    ensures forall j :: 0 <= j < |c| - 1 ==> t[c[j]].top == Some(c[j + 1])
    ensures t[c[|c| - 1]].top.None?
    decreases id
  {
    match t[id].top
    case None => [id]
    case Some(p) => [id] + Chain(t, p)
  }

  /** No frame among `c[lo..hi]` holds a truthy entry for `key`. */
  ghost predicate NoBinder(t: ScopeTable, c: seq<nat>, key: string, lo: int, hi: int)
    requires forall j :: 0 <= j < |c| ==> c[j] < |t|
  {
    forall j :: lo <= j < hi && 0 <= j < |c| ==> !Truthy(Own(t, c[j], key))
  }

  /** A lookup is truthy exactly when some frame on the chain holds a truthy entry. */
  lemma {:induction false} TruthyGetIffBinder(t: ScopeTable, id: nat, key: string)
    requires WellFormed(t) && id < |t|
    ensures Truthy(Get(t, id, key)) <==> !NoBinder(t, Chain(t, id), key, 0, |Chain(t, id)|)
    decreases id
  {
    var c := Chain(t, id);
    if !Truthy(Own(t, id, key)) && t[id].top.Some? {
      var p := t[id].top.value;
      TruthyGetIffBinder(t, p, key);
      var c' := Chain(t, p);
      assert c == [id] + c';
      if !NoBinder(t, c, key, 0, |c|) {
        var j :| 0 <= j < |c| && Truthy(Own(t, c[j], key));
        assert j != 0 && c'[j - 1] == c[j];
      }
      if !NoBinder(t, c', key, 0, |c'|) {
        var j :| 0 <= j < |c'| && Truthy(Own(t, c'[j], key));
        assert c[j + 1] == c'[j];
      }
    }
  }

  /**
   * `get` returns the entry of the nearest frame on the chain whose entry is
   * truthy; when there is none it returns the root's own entry (undefined, or
   * a falsy stored value).
   */
  lemma {:induction false} GetIsNearestBinding(t: ScopeTable, id: nat, key: string, j: nat)
    requires WellFormed(t) && id < |t|
    requires j < |Chain(t, id)| && NoBinder(t, Chain(t, id), key, 0, j)
    requires Truthy(Own(t, Chain(t, id)[j], key)) || j == |Chain(t, id)| - 1
    ensures Get(t, id, key) == Own(t, Chain(t, id)[j], key)
    decreases id
  {
    var c := Chain(t, id);
    if j > 0 {
      assert !Truthy(Own(t, c[0], key));
      var p := t[id].top.value;
      var c' := Chain(t, p);
      assert c == [id] + c';
      assert c'[j - 1] == c[j];
      forall i | 0 <= i < j - 1 ensures !Truthy(Own(t, c'[i], key)) {
        assert c'[i] == c[i + 1];
      }
      GetIsNearestBinding(t, p, key, j - 1);
    }
  }

  /** `set` fails exactly when the root of the chain holds a truthy entry for the key. */
  lemma {:induction false} SetFailsIffRootBinds(t: ScopeTable, id: nat, key: string, value: Binding)
    requires WellFormed(t) && id < |t|
    ensures Set(t, id, key, value).None? <==> Truthy(Own(t, Chain(t, id)[|Chain(t, id)| - 1], key))
    decreases id
  {
    var c := Chain(t, id);
    TruthyGetIffBinder(t, id, key);
    if Truthy(Get(t, id, key)) && t[id].top.Some? {
      var p := t[id].top.value;
      SetFailsIffRootBinds(t, p, key, value);
      assert c == [id] + Chain(t, p);
    }
  }

  /**
   * Where a successful `set` lands: with `m` the outermost frame of the chain
   * holding a truthy entry for the key (-1 when none does), the value is
   * written into frame `c[m + 1]`, the frame just above that outermost binder,
   * and no other frame changes.  A first definition therefore lands in the
   * scope itself, while a redefinition never updates the frame that binds the
   * name.
   */
  lemma {:induction false} SetWritesAboveOutermostBinder(t: ScopeTable, id: nat, key: string, value: Binding, m: int)
    requires WellFormed(t) && id < |t|
    requires -1 <= m < |Chain(t, id)| - 1
    requires m >= 0 ==> Truthy(Own(t, Chain(t, id)[m], key))
    requires NoBinder(t, Chain(t, id), key, m + 1, |Chain(t, id)|)
    ensures Set(t, id, key, value) == Some(Write(t, Chain(t, id)[m + 1], key, value))
    decreases id
  {
    var c := Chain(t, id);
    TruthyGetIffBinder(t, id, key);
    if m >= 0 {
      assert Truthy(Get(t, id, key));
      var p := t[id].top.value;
      var c' := Chain(t, p);
      assert c == [id] + c';
      forall j | m <= j < |c'| ensures !Truthy(Own(t, c'[j], key)) {
        assert c'[j] == c[j + 1];
      }
      if m >= 1 {
        assert c'[m - 1] == c[m];
      }
      SetWritesAboveOutermostBinder(t, p, key, value, m - 1);
    }
  }

  /**
   * After `set` of a key that this scope already binds truthily, a `get` here
   * still returns the old value: the write went to an enclosing frame.
   */
  lemma StaleReadAfterRedefinition(t: ScopeTable, id: nat, key: string, value: Binding)
    requires WellFormed(t) && id < |t|
    requires Truthy(Own(t, id, key)) && Set(t, id, key, value).Some?
    ensures WellFormed(Set(t, id, key, value).value)
    ensures Get(Set(t, id, key, value).value, id, key) == Own(t, id, key)
  {
    var r := Set(t, id, key, value).value;
    assert r[id] == t[id];
    assert Own(r, id, key) == Own(t, id, key);
  }

  /**
   * `Scope.set` run in place: walk up from `id` while the lookup there is
   * truthy, fail at a root that still binds the key, else write the key into
   * the frame reached.
   */
  method SetScope(t: ScopeTable, id: nat, key: string, value: Binding) returns (r: Option<ScopeTable>)
    requires WellFormed(t) && id < |t|
    ensures r == Set(t, id, key, value)
  {
    var cur: nat := id;
    while Truthy(Get(t, cur, key))
      invariant cur < |t| && Set(t, cur, key, value) == Set(t, id, key, value)
      decreases cur
    {
      if t[cur].top.None? {
        return None;
      }
      cur := t[cur].top.value;
    }
    return Some(Write(t, cur, key, value));
  }
}
