/**
 * src/scope.js: the same `Scope` class over strings, a module-level current
 * scope `testScope` that `createScope` replaces by a new child of it, and
 * the short script at the end of the file.  The Scope objects are the frames
 * of a scope table (module Scopes); `testScope` is an index into it.
 */
module ScopeDemo {
  import opened Wrappers
  import opened Scopes

  /** A table grown by one frame answers every lookup in an older frame as before. */
  lemma {:induction false} GetUnaffectedByNewFrame(t: ScopeTable, f: Frame, id: nat, key: string)
    requires WellFormed(t) && WellFormed(t + [f]) && id < |t|
    ensures Get(t + [f], id, key) == Get(t, id, key)
    decreases id
  {
    var u := t + [f];
    assert u[id] == t[id];
    if !Truthy(Own(t, id, key)) && t[id].top.Some? {
      GetUnaffectedByNewFrame(t, f, t[id].top.value, key);
    }
  }

  /** A new empty scope answers every lookup as its parent does. */
  lemma NewScopeInherits(t: ScopeTable, parent: nat, key: string)
    requires WellFormed(t) && parent < |t|
    ensures WellFormed(t + [Frame(map[], Some(parent))])
    ensures Get(t + [Frame(map[], Some(parent))], |t|, key) == Get(t, parent, key)
  {
    var u := t + [Frame(map[], Some(parent))];
    assert Own(u, |t|, key) == Undefined;
    GetUnaffectedByNewFrame(t, Frame(map[], Some(parent)), parent, key);
  }

  class ScopeModule {
    /** Every Scope object created so far. */
    var frames: ScopeTable
    /** `testScope`, the current scope. */
    var testScope: nat

    predicate Valid()
      reads this
    {
      WellFormed(frames) && testScope < |frames|
    }

    /** `let testScope = new Scope()`: one root scope, which is current. */
    constructor()
      ensures Valid() && frames == [Frame(map[], None)] && testScope == 0
    {
      frames := [Frame(map[], None)];
      testScope := 0;
    }

    /**
     * `scope.set(key, value)` on the scope `id`; false is the TypeError at
     * the root, which happens before anything is written.
     */
    method SetKey(id: nat, key: string, value: string) returns (ok: bool)
      requires Valid() && id < |frames|
      modifies this
      ensures Valid() && testScope == old(testScope)
      ensures ok == Set(old(frames), id, key, Text(value)).Some?
      ensures ok ==> frames == Set(old(frames), id, key, Text(value)).value
      ensures !ok ==> frames == old(frames)
    {
      var r := SetScope(frames, id, key, Text(value));
      if r.Some? {
        frames := r.value;
        return true;
      }
      return false;
    }

    /** `createScope`: a new scope whose `top` is the current one becomes current. */
    method CreateScope() returns (id: nat)
      requires Valid()
      modifies this
      ensures Valid()
      ensures id == |old(frames)| && testScope == id
      ensures frames == old(frames) + [Frame(map[], Some(old(testScope)))]
    {
      frames := frames + [Frame(map[], Some(testScope))];
      id := |frames| - 1;
      testScope := id;
    }
  }

  /**
   * The script at the end of src/scope.js: `firstScope.set("test", "test 1")`,
   * then a second scope, then `secondScope.set("test1", "test 2")`.  The
   * logged `secondScope.get("test1")` is "test 2", and "test" is found
   * through the parent: "test 1".
   */
  method RunDemo() returns (logged: Binding, inherited: Binding)
    ensures logged == Text("test 2") && inherited == Text("test 1")
  {
    var m := new ScopeModule();
    var firstScope := m.testScope;
    var ok1 := m.SetKey(firstScope, "test", "test 1");
    var root := Frame(map["test" := Text("test 1")], None);
    assert ok1 && m.frames == [root];
    var secondScope := m.CreateScope();
    NewScopeInherits([root], 0, "test1");
    assert Get(m.frames, secondScope, "test1") == Undefined;
    var ok2 := m.SetKey(secondScope, "test1", "test 2");
    assert ok2 && m.frames == [root, Frame(map["test1" := Text("test 2")], Some(0))];
    assert Own(m.frames, secondScope, "test1") == Text("test 2");
    assert Own(m.frames, secondScope, "test") == Undefined;
    assert Get(m.frames, 0, "test") == Text("test 1");
    logged := Get(m.frames, secondScope, "test1");
    inherited := Get(m.frames, secondScope, "test");
  }
}
