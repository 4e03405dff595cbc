/**
 * `JsonHandlerRegistry`: the handlers of a JSON model, kept per full path — a handler key, a
 * separator and the text of a path. The table does not exist until the first registration,
 * every list it holds is non-empty and holds no handler twice, and it is dropped again when
 * its last list empties.
 *
 * A registration is a value here; `removeHandler` on it unregisters the same key, path and
 * handler. The handlers' `toString` is the function `describe` the registry is made with.
 */
module JsonHandlerRegistries {
  import opened Wrappers
  import opened RealtimeDocuments

  /** The table of handler lists by full path; None before the first registration. */
  type Table<H> = Option<map<string, seq<H>>>

  /** The list registered at a full path, empty when there is none. */
  function ListAt<H>(t: Table<H>, fullPath: string): seq<H>
  {
    if t.Some? && fullPath in t.value then t.value[fullPath] else []
  }

  /** A table that exists is not empty, and it holds only non-empty lists without repeats. */
  ghost predicate Tidy<H>(t: Table<H>)
  {
    t.Some? ==> t.value != map[] && forall p | p in t.value :: t.value[p] != [] && Distinct(t.value[p])
  }

  /** `fullPath`: the key, the separator `/`, and the path's text, which is empty for no path. */
  function FullPath(key: string, path: Option<string>): (r: string)
    ensures |r| == |key| + 1 + (if path.None? then 0 else |path.value|)
    ensures r[..|key|] == key && r[|key|] == '/'
  {
    key + "/" + (if path.None? then "" else path.value)
  }

  /** Keys without the separator never share a full path: the key and the path's text can be read back. */
  lemma FullPathInjective(key1: string, path1: Option<string>, key2: string, path2: Option<string>)
    requires '/' !in key1 && '/' !in key2
    requires FullPath(key1, path1) == FullPath(key2, path2)
    ensures key1 == key2
    ensures (if path1.None? then "" else path1.value) == (if path2.None? then "" else path2.value)
  {
    var f := FullPath(key1, path1);
    assert forall i | 0 <= i < |key1| :: f[i] == key1[i] != '/';
    assert forall i | 0 <= i < |key2| :: f[i] == key2[i] != '/';
    assert |key1| == |key2|;
    assert key1 == f[..|key1|] == key2;
    assert f[|key1| + 1..] == (if path1.None? then "" else path1.value);
    assert f[|key2| + 1..] == (if path2.None? then "" else path2.value);
  }

  /** The table after `handler` is appended at `fullPath`, creating the table and the list as needed. */
  function Registered<H>(t: Table<H>, fullPath: string, handler: H): (r: Table<H>)
    ensures r.Some?
    ensures ListAt(r, fullPath) == ListAt(t, fullPath) + [handler]
    ensures forall p | p != fullPath :: ListAt(r, p) == ListAt(t, p)
  {
    var m := if t.None? then map[] else t.value;
    Some(m[fullPath := ListAt(t, fullPath) + [handler]])
  }

  /** Registering a handler not yet at its full path keeps the table tidy. */
  lemma RegisteredTidy<H>(t: Table<H>, fullPath: string, handler: H)
    requires Tidy(t) && handler !in ListAt(t, fullPath)
    ensures Tidy(Registered(t, fullPath, handler))
  {
    var l := ListAt(t, fullPath);
    assert Distinct(l + [handler]) by {
      assert Distinct(l) by {
        if l != [] {
          assert fullPath in t.value;
        }
      }
      forall i, j | 0 <= i < j < |l + [handler]|
        ensures (l + [handler])[i] != (l + [handler])[j]
      {
        if j == |l| {
          assert (l + [handler])[i] == l[i];
        } else {
          assert (l + [handler])[i] == l[i] && (l + [handler])[j] == l[j];
        }
      }
    }
  }

  /**
   * The table after `handler` is taken out of the list at `fullPath`: an emptied list is
   * dropped, and an emptied table becomes no table.
   */
  function Unregistered<H(==)>(t: Table<H>, fullPath: string, handler: H): (r: Table<H>)
    ensures ListAt(r, fullPath) == RemoveFirst(ListAt(t, fullPath), handler)
    ensures forall p | p != fullPath :: ListAt(r, p) == ListAt(t, p)
    ensures t.None? ==> r.None?
  {
    if t.None? || fullPath !in t.value then t
    else
      var rest := RemoveFirst(t.value[fullPath], handler);
      if rest != [] then Some(t.value[fullPath := rest])
      else
        var m := t.value - {fullPath};
        if m == map[] then
          assert forall p | p in t.value && p != fullPath :: p in m;
          None
        else Some(m)
  }

  /** Unregistering keeps the table tidy. */
  lemma UnregisteredTidy<H>(t: Table<H>, fullPath: string, handler: H)
    requires Tidy(t)
    ensures Tidy(Unregistered(t, fullPath, handler))
  {
    if t.Some? && fullPath in t.value {
      var rest := RemoveFirst(t.value[fullPath], handler);
      RemoveFirstDistinct(t.value[fullPath], handler);
      if rest != [] {
        assert Unregistered(t, fullPath, handler) == Some(t.value[fullPath := rest]);
      } else {
        var m := t.value - {fullPath};
        assert Unregistered(t, fullPath, handler) == if m == map[] then None else Some(m);
        assert forall p | p in m :: m[p] == t.value[p];
      }
    }
  }

  /** Taking out the last element of a list, when it occurs nowhere before, gives back the front. */
  lemma {:induction false} RemoveFirstLast<T>(s: seq<T>, x: T)
    requires x !in s
    ensures RemoveFirst(s + [x], x) == s
  {
    if s != [] {
      assert (s + [x])[1..] == s[1..] + [x];
      RemoveFirstLast(s[1..], x);
      assert s == [s[0]] + s[1..];
    }
  }

  /** Unregistering a handler just registered at a full path it was not at restores the table. */
  lemma UnregisterUndoesRegister<H>(t: Table<H>, fullPath: string, handler: H)
    requires Tidy(t) && handler !in ListAt(t, fullPath)
    ensures Unregistered(Registered(t, fullPath, handler), fullPath, handler) == t
  {
    RestoredWhenNonEmpty(t, fullPath, handler);
  }

  /** The round trip needs only that a table is never empty and a list registered there is never empty. */
  lemma RestoredWhenNonEmpty<H>(t: Table<H>, fullPath: string, handler: H)
    requires t.Some? ==> t.value != map[] && (fullPath in t.value ==> t.value[fullPath] != [])
    requires handler !in ListAt(t, fullPath)
    ensures Unregistered(Registered(t, fullPath, handler), fullPath, handler) == t
  {
    var l := ListAt(t, fullPath);
    RemoveFirstLast(l, handler);
    var m := if t.None? then map[] else t.value;
    assert Registered(t, fullPath, handler) == Some(m[fullPath := l + [handler]]);
    if l == [] {
      RestoredNewList(t, m, fullPath, handler);
    } else {
      RestoredLongerList(m, fullPath, l, handler);
    }
  }

  /** A list created by the registration is dropped again, and the table with it when it was created too. */
  lemma RestoredNewList<H>(t: Table<H>, m: map<string, seq<H>>, fullPath: string, handler: H)
    requires m == (if t.None? then map[] else t.value) && fullPath !in m
    requires t.Some? ==> m != map[]
    ensures Unregistered(Some(m[fullPath := [] + [handler]]), fullPath, handler) == t
  {
    var m2 := m[fullPath := [] + [handler]];
    RemoveFirstLast([], handler);
    assert m2 - {fullPath} == m;
  }

  /** A list that existed before the registration gets back its old contents. */
  lemma RestoredLongerList<H>(m: map<string, seq<H>>, fullPath: string, l: seq<H>, handler: H)
    requires fullPath in m && m[fullPath] == l && l != [] && handler !in l
    ensures Unregistered(Some(m[fullPath := l + [handler]]), fullPath, handler) == Some(m)
  {
    RemoveFirstLast(l, handler);
    assert m[fullPath := l + [handler]][fullPath := l] == m;
  }

  /** What `registerHandler` hands back: `removeHandler` on it unregisters the same key, path and handler. */
  datatype Registration<H> = Registration(key: string, path: Option<string>, handler: H)

  class JsonHandlerRegistry<H(==)> {
    var handlers: Table<H>
    /** The handlers' `toString`. */
    const describe: H -> string

    ghost predicate Valid()
      reads this
    {
      Tidy(handlers)
    }

    /** A registry with no table yet. */
    constructor (describe: H -> string)
      ensures Valid() && handlers == None && this.describe == describe
    {
      handlers := None;
      this.describe := describe;
    }

    /** `createExtension`: a new, empty registry for handlers of the same kind. */
    method CreateExtension() returns (r: JsonHandlerRegistry<H>)
      ensures fresh(r) && r.Valid() && r.handlers == None && r.describe == describe
    {
      r := new JsonHandlerRegistry(describe);
    }

    /** `getHandlers`: the list registered at the key and path, or none when there is no table or no list. */
    function GetHandlers(key: string, path: Option<string>): (r: Option<seq<H>>)
      requires Valid()
      reads this
      ensures r.Some? <==> handlers.Some? && FullPath(key, path) in handlers.value
      ensures r.Some? ==> r.value == ListAt(handlers, FullPath(key, path)) && r.value != []
      ensures r.None? ==> ListAt(handlers, FullPath(key, path)) == []
    {
      var fullPath := FullPath(key, path);
      if handlers.None? || fullPath !in handlers.value then None else Some(handlers.value[fullPath])
    }

    /**
     * `registerHandler`: the handler is appended to the list at the key and path, which is
     * created with the table as needed. Joining an existing list asserts that the handler is
     * not in it and prints as its last handler does.
     */
    method RegisterHandler(key: string, path: Option<string>, handler: H) returns (r: Result<Registration<H>>)
      requires Valid()
      modifies this
      ensures Valid()
      ensures var l := ListAt(old(handlers), FullPath(key, path));
        r.Err? <==> l != [] && (handler in l || describe(handler) != describe(l[|l| - 1]))
      ensures r.Err? ==> r.error == AssertionFailed && handlers == old(handlers)
      ensures r.Ok? ==>
        r.value == Registration(key, path, handler)
        && handlers == Registered(old(handlers), FullPath(key, path), handler)
    {
      var fullPath := FullPath(key, path);
      var table := if handlers.None? then map[] else handlers.value;
      var list := if fullPath in table then table[fullPath] else [];
      if fullPath in table {
        if handler in list {
          return Err(AssertionFailed);
        }
        if describe(handler) != describe(list[|list| - 1]) {
          return Err(AssertionFailed);
        }
      }
      RegisteredTidy(handlers, fullPath, handler);
      handlers := Some(table[fullPath := list + [handler]]);
      return Ok(Registration(key, path, handler));
    }

    /**
     * `unregisterHandler`: the handler is taken out of the list at the key and path; an
     * emptied list is dropped, and an emptied table with it. Nothing registered there
     * changes nothing.
     */
    method UnregisterHandler(key: string, path: Option<string>, handler: H)
      requires Valid()
      modifies this
      ensures Valid()
      ensures handlers == Unregistered(old(handlers), FullPath(key, path), handler)
    {
      var fullPath := FullPath(key, path);
      UnregisteredTidy(handlers, fullPath, handler);
      if handlers.None? || fullPath !in handlers.value {
        return;
      }
      var rest := RemoveFirst(handlers.value[fullPath], handler);
      if rest != [] {
        handlers := Some(handlers.value[fullPath := rest]);
      } else {
        var table := handlers.value - {fullPath};
        handlers := if table == map[] then None else Some(table);
      }
    }

    /** `removeHandler` of a registration: its handler unregistered at its key and path. */
    method RemoveHandler(registration: Registration<H>)
      requires Valid()
      modifies this
      ensures Valid()
      ensures handlers == Unregistered(old(handlers), FullPath(registration.key, registration.path), registration.handler)
    {
      UnregisterHandler(registration.key, registration.path, registration.handler);
    }
  }
}
