/**
 Who owns a Lean closure registered as an SQL function in ffi/sqlite3_shim.c: its
 callers, SQLite's table of functions, and the calls in progress. Closures are freed
 when their reference count comes down to zero.
 */
module Closures {
  import opened Common

  /** A scalar function of a database. */
  datatype Key = Key(name: string, nArg: int)

  /** SQLite tells functions apart by arity and by name, without regard to ASCII case. */
  predicate Same(k: Key, l: Key) {
    k.nArg == l.nArg && ToLower(k.name) == ToLower(l.name)
  }

  datatype Registration = Registration(key: Key, closure: nat)

  function Registered(table: seq<Registration>): seq<nat> {
    seq(|table|, i requires 0 <= i < |table| => table[i].closure)
  }

  /** Where `key` is in the table, or `|table|`. */
  function Lookup(table: seq<Registration>, key: Key): (i: nat)
    ensures i <= |table| && (i < |table| ==> Same(table[i].key, key))
    ensures forall j | 0 <= j < i :: !Same(table[j].key, key)
  {
    if table == [] then 0
    else if Same(table[0].key, key) then 0
    else 1 + Lookup(table[1..], key)
  }

  function RemoveAt(table: seq<Registration>, i: nat): seq<Registration>
    requires i < |table|
  {
    table[..i] + table[i + 1..]
  }

  lemma RegisteredRemove(table: seq<Registration>, i: nat)
    requires i < |table|
    ensures multiset(Registered(RemoveAt(table, i))) == multiset(Registered(table)) - multiset{table[i].closure}
    ensures table[i].closure in multiset(Registered(table))
  {
    var cs := Registered(table);
    assert cs == cs[..i] + [cs[i]] + cs[i + 1..];
    assert Registered(RemoveAt(table, i)) == cs[..i] + cs[i + 1..];
  }

  predicate Distinct(table: seq<Registration>) {
    forall i, j | 0 <= i < j < |table| :: !Same(table[i].key, table[j].key)
  }

  /** The table without the function at `key`. */
  function Without(table: seq<Registration>, key: Key): (r: seq<Registration>)
    ensures Distinct(table) ==> Distinct(r) && forall i | 0 <= i < |r| :: !Same(r[i].key, key)
  {
    var i := Lookup(table, key);
    if i < |table| then RemoveAt(table, i) else table
  }

  /** The closure that a call of this function applies. */
  function ClosureAt(table: seq<Registration>, key: Key): Option<nat> {
    var i := Lookup(table, key);
    if i < |table| then Some(table[i].closure) else None
  }

  /** The functions of another arity, or of a name that differs in more than case, are
      the same in `now` as in `before`, and calls of them find the same closures. */
  ghost predicate OthersStay(before: seq<Registration>, now: seq<Registration>, key: Key) {
    && (forall r: Registration | r.key.nArg != key.nArg || ToLower(r.key.name) != ToLower(key.name) ::
          r in now <==> r in before)
    && (forall k: Key | k.nArg != key.nArg || ToLower(k.name) != ToLower(key.name) ::
          ClosureAt(now, k) == ClosureAt(before, k))
  }

  lemma FoundAt(table: seq<Registration>, key: Key, i: nat)
    requires Distinct(table) && i < |table| && Same(table[i].key, key)
    ensures Lookup(table, key) == i && ClosureAt(table, key) == Some(table[i].closure)
  {
    var j := Lookup(table, key);
    assert j < i ==> Same(table[j].key, table[i].key);
  }

  lemma NotFound(table: seq<Registration>, key: Key)
    requires forall i | 0 <= i < |table| :: !Same(table[i].key, key)
    ensures ClosureAt(table, key) == None
  {
  }

  lemma RemoveKeeps(table: seq<Registration>, i: nat, k: Key)
    requires Distinct(table) && i < |table| && !Same(table[i].key, k)
    ensures ClosureAt(RemoveAt(table, i), k) == ClosureAt(table, k)
  {
    var r, j := RemoveAt(table, i), Lookup(table, k);
    if j < |table| {
      FoundAt(r, k, if j < i then j else j - 1);
    } else {
      assert forall n | 0 <= n < |r| :: r[n] == table[if n < i then n else n + 1];
      NotFound(r, k);
    }
  }

  lemma RemoveLeaves(table: seq<Registration>, i: nat, r: Registration)
    requires i < |table| && r != table[i]
    ensures r in RemoveAt(table, i) <==> r in table
  {
    assert table == table[..i] + [table[i]] + table[i + 1..];
  }

  /** Taking a function out touches no other. */
  lemma WithoutKeeps(table: seq<Registration>, key: Key)
    requires Distinct(table)
    ensures OthersStay(table, Without(table, key), key) && ClosureAt(Without(table, key), key) == None
    ensures forall r | r in Without(table, key) :: r in table && !Same(r.key, key)
  {
    var i := Lookup(table, key);
    NotFound(Without(table, key), key);
    if i < |table| {
      forall r: Registration | !Same(r.key, key) ensures r in Without(table, key) <==> r in table {
        RemoveLeaves(table, i, r);
      }
      forall k: Key | !Same(k, key) ensures ClosureAt(Without(table, key), k) == ClosureAt(table, k) {
        RemoveKeeps(table, i, k);
      }
    }
  }

  /** A new registration is found, and hides no other. */
  lemma AppendKeeps(table: seq<Registration>, r: Registration)
    requires Distinct(table + [r])
    ensures OthersStay(table, table + [r], r.key) && ClosureAt(table + [r], r.key) == Some(r.closure)
  {
    var more := table + [r];
    FoundAt(more, r.key, |table|);
    forall k: Key | !Same(k, r.key) ensures ClosureAt(more, k) == ClosureAt(table, k) {
      var i := Lookup(table, k);
      if i < |table| {
        assert Distinct(table) by {
          assert forall j | 0 <= j < |table| :: more[j] == table[j];
        }
        FoundAt(more, k, i);
      } else {
        NotFound(more, k);
      }
    }
  }

  lemma RegisteredAppend(table: seq<Registration>, r: Registration)
    ensures multiset(Registered(table + [r])) == multiset(Registered(table)) + multiset{r.closure}
  {
    assert Registered(table + [r]) == Registered(table) + [r.closure];
  }

  lemma DistinctAppend(table: seq<Registration>, r: Registration)
    requires Distinct(table) && forall i | 0 <= i < |table| :: !Same(table[i].key, r.key)
    ensures Distinct(table + [r])
  {
  }

  /** A registration takes the place of that of the same function, and of no other. */
  lemma Replaces(table: seq<Registration>, key: Key, f: nat)
    requires Distinct(table)
    ensures var now := Without(table, key) + [Registration(key, f)];
            && Distinct(now) && OthersStay(table, now, key) && ClosureAt(now, key) == Some(f)
            && forall r | r in now && r.key.nArg == key.nArg && ToLower(r.key.name) == ToLower(key.name) ::
                 r == Registration(key, f)
  {
    var rest := Without(table, key);
    WithoutKeeps(table, key);
    DistinctAppend(rest, Registration(key, f));
    AppendKeeps(rest, Registration(key, f));
    OthersStayOn(table, rest, rest + [Registration(key, f)], key);
  }

  lemma OthersStayOn(a: seq<Registration>, b: seq<Registration>, c: seq<Registration>, key: Key)
    requires OthersStay(a, b, key) && OthersStay(b, c, key)
    ensures OthersStay(a, c, key)
  {
  }

  /** One of several owners gives up its reference. */
  lemma GiveUp(own: multiset<nat>, others: multiset<nat>, f: nat)
    requires f in own
    ensures f in own + others && own + others - multiset{f} == own - multiset{f} + others
  {
  }

  class Connection {
    var refs: multiset<nat>          // the reference counts: `refs[f]` is that of closure `f`
    var table: seq<Registration>     // SQLite's functions, each with its pApp
    var calls: seq<nat>              // the closures being applied, the latest last
    ghost var outside: multiset<nat> // the references Lean code holds

    /** Every reference has an owner, and no key is registered twice. */
    ghost predicate Valid()
      reads this
    {
      refs == outside + multiset(Registered(table)) + multiset(calls) && Distinct(table)
    }

    constructor ()
      ensures Valid() && outside == multiset{} && table == [] && calls == []
    {
      refs, table, calls, outside := multiset{}, [], [], multiset{};
      new;
      assert Registered(table) == [];
    }

    // ── Reference counts ──

    method Inc(f: nat)
      requires f in refs
      modifies this`refs
      ensures refs == old(refs) + multiset{f}
    {
      refs := refs + multiset{f};
    }

    /** The count comes down by one; at zero the closure is freed. */
    method Dec(f: nat)
      requires f in refs
      modifies this`refs
      ensures refs == old(refs) - multiset{f}
    {
      refs := refs - multiset{f};
    }

    /** Lean code makes a closure, or one more reference to one it holds. */
    method Hold(f: nat)
      requires Valid() && (f in outside || f !in refs)
      modifies this`refs, this`outside
      ensures Valid() && outside == old(outside) + multiset{f} && table == old(table)
    {
      refs := refs + multiset{f};
      outside := outside + multiset{f};
    }

    method Drop(f: nat)
      requires Valid() && f in outside
      modifies this`refs, this`outside
      ensures Valid() && outside == old(outside) - multiset{f}
    {
      GiveUp(outside, multiset(Registered(table)) + multiset(calls), f);
      outside := outside - multiset{f};
      Dec(f);
    }

    // ── SQLite's side ──

    /** The xDestroy trampoline. */
    method XDestroy(f: nat)
      requires f in refs
      modifies this`refs
      ensures refs == old(refs) - multiset{f}
    {
      Dec(f);
    }

    /** Unregister the function at `key`, if any, destroying its closure reference;
        `others` are the references the table does not hold. */
    method Unregister(key: Key, ghost others: multiset<nat>)
      requires refs == others + multiset(Registered(table)) && Distinct(table)
      modifies this`refs, this`table
      ensures refs == others + multiset(Registered(table)) && Distinct(table)
      ensures table == Without(old(table), key)
    {
      var i := Lookup(table, key);
      if i < |table| {
        var f := table[i].closure;
        RegisteredRemove(table, i);
        table := RemoveAt(table, i);
        XDestroy(f);
      }
    }

    /** `sqlite3_create_function_v2`, when it accepts: one reference to `f` is the table's. */
    method Register(key: Key, f: nat, ghost others: multiset<nat>)
      requires refs == others + multiset{f} + multiset(Registered(table)) && Distinct(table)
      modifies this`refs, this`table
      ensures refs == others + multiset(Registered(table)) && Distinct(table)
      ensures table == Without(old(table), key) + [Registration(key, f)]
    {
      Unregister(key, others + multiset{f});
      RegisteredAppend(table, Registration(key, f));
      DistinctAppend(table, Registration(key, f));
      table := table + [Registration(key, f)];
    }

    // ── The shim ──

    /** `linen_sqlite3_create_function`, when SQLite accepts: the caller's reference is
        consumed, and the table holds one of its own. */
    method CreateFunction(key: Key, f: nat)
      requires Valid() && f in outside
      modifies this`refs, this`table, this`outside
      ensures Valid() && outside == old(outside) - multiset{f}
      ensures table == Without(old(table), key) + [Registration(key, f)]
      ensures OthersStay(old(table), table, key) && ClosureAt(table, key) == Some(f)
      ensures forall r | r in table && r.key.nArg == key.nArg && ToLower(r.key.name) == ToLower(key.name) ::
                r == Registration(key, f)
    {
      Replaces(table, key, f);
      Inc(f);
      Register(key, f, outside + multiset(calls));
      GiveUp(outside, multiset(Registered(table)) + multiset(calls), f);
      Dec(f);
      outside := outside - multiset{f};
    }

    /** `linen_sqlite3_delete_function`. */
    method DeleteFunction(key: Key)
      requires Valid()
      modifies this`refs, this`table
      ensures Valid() && table == Without(old(table), key)
      ensures OthersStay(old(table), table, key) && ClosureAt(table, key) == None
      ensures forall r | r in table :: r.key.nArg != key.nArg || ToLower(r.key.name) != ToLower(key.name)
    {
      WithoutKeeps(table, key);
      Unregister(key, outside + multiset(calls));
    }

    /** The xFunc trampoline up to the application of the closure. What is applied is
        alive, and stays alive until it returns. */
    method BeginCall(key: Key) returns (f: nat)
      requires Valid() && Lookup(table, key) < |table|
      modifies this`refs, this`calls
      ensures Valid() && f == table[Lookup(table, key)].closure
      ensures calls == old(calls) + [f] && f in refs
    {
      f := table[Lookup(table, key)].closure;
      assert f in Registered(table) by {
        assert Registered(table)[Lookup(table, key)] == f;
      }
      Inc(f);
      calls := calls + [f];
    }

    /** The application returns, having consumed the reference taken for it. */
    method EndCall()
      requires Valid() && calls != []
      modifies this`refs, this`calls
      ensures Valid() && calls == old(calls)[..|old(calls)| - 1]
    {
      var f := calls[|calls| - 1];
      assert calls == calls[..|calls| - 1] + [f];
      GiveUp(multiset(calls), outside + multiset(Registered(table)), f);
      calls := calls[..|calls| - 1];
      Dec(f);
    }

    /** The connection is gone: SQLite destroys every registration. */
    method Close()
      requires Valid()
      modifies this`refs, this`table
      ensures Valid() && table == []
      ensures refs == outside + multiset(calls)
    {
      while table != []
        invariant Valid()
        decreases |table|
      {
        var f := table[0].closure;
        RegisteredRemove(table, 0);
        table := RemoveAt(table, 0);
        XDestroy(f);
      }
      assert Registered(table) == [];
    }
  }

  /** A closure being applied is never freed under it, whatever the callback does to the
      registrations and to the references Lean code holds. */
  lemma AppliedIsAlive(c: Connection, i: nat)
    requires c.Valid() && i < |c.calls|
    ensures c.calls[i] in c.refs
    ensures c.refs[c.calls[i]] >= multiset(c.calls)[c.calls[i]]
  {
    assert c.calls[i] in multiset(c.calls);
  }

  /** Once nobody holds, has registered or is applying a closure, it has been freed. */
  lemma UnownedIsFreed(c: Connection, f: nat)
    requires c.Valid() && f !in c.outside && f !in c.calls
    requires forall i | 0 <= i < |c.table| :: c.table[i].closure != f
    ensures f !in c.refs
  {
    assert f !in Registered(c.table);
  }
}
