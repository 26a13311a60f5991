/** The module-level registry through which triggers outside a provider
    reach a sidebar's controls: a JavaScript `Map` from sidebar id to the
    controls the provider last published. A `Map` remembers the order in
    which its keys were first inserted; that order is what the "not found"
    error lists. */
module SidebarRegistry {
  import opened Common

  datatype SidebarState = Expanded | Collapsed

  /** `open ? 'expanded' : 'collapsed'`. */
  function StateOf(open: bool): (s: SidebarState)
    ensures s == Expanded <==> open
  {
    if open then Expanded else Collapsed
  }

  /** What a provider publishes: its open flag and the derived state. The
      `toggleSidebar` callback is the provider's own toggle, found by id. */
  datatype Controls = Controls(open: bool, state: SidebarState)

  /** The error `getSidebarControls` throws: the id asked for and the ids
      present, in insertion order. */
  datatype NotFound = NotFound(id: string, available: seq<string>)

  const NotFoundPrefix: string := "Sidebar with id \""
  const NotFoundMiddle: string := "\" not found in registry. Available: "

  function Message(e: NotFound): (m: string)
    ensures NotFoundPrefix + e.id + NotFoundMiddle <= m
    ensures m[|NotFoundPrefix + e.id + NotFoundMiddle|..] == Join(e.available, ", ")
  {
    var head := NotFoundPrefix + e.id + NotFoundMiddle;
    var m := head + Join(e.available, ", ");
    assert m[..|head|] == head;
    m
  }

  /** The registry's contents as a value: keys in insertion order, and the
      map itself. */
  datatype Contents = Contents(order: seq<string>, entries: map<string, Controls>)

  ghost predicate Valid(r: Contents)
  {
    NoDuplicates(r.order) && forall k :: k in r.entries <==> k in r.order
  }

  const Empty: Contents := Contents([], map[])

  lemma EmptyValid()
    ensures Valid(Empty)
  {
  }

  /** `sidebarRegistry.set(id, controls)`: a present key keeps its place. */
  function Registered(r: Contents, id: string, c: Controls): (r': Contents)
    ensures id in r'.entries && r'.entries[id] == c
    ensures r'.entries.Keys == r.entries.Keys + {id}
    ensures forall k :: k in r.entries && k != id ==> k in r'.entries && r'.entries[k] == r.entries[k]
  {
    Contents(if id in r.entries then r.order else r.order + [id], r.entries[id := c])
  }

  /** `sidebarRegistry.delete(id)`. */
  function Deleted(r: Contents, id: string): (r': Contents)
    ensures id !in r'.entries
    ensures r'.entries.Keys == r.entries.Keys - {id}
    ensures forall k :: k in r'.entries ==> r'.entries[k] == r.entries[k]
  {
    Contents(Without(r.order, id), map k | k in r.entries && k != id :: r.entries[k])
  }

  /** `isSidebarAvailable(id)`. */
  predicate Has(r: Contents, id: string)
  {
    id in r.entries
  }

  /** `getSidebarControls(id)`: the controls, or the error listing the ids
      present. */
  function Lookup(r: Contents, id: string): (res: Result<Controls, NotFound>)
    ensures res.Ok? <==> Has(r, id)
  {
    if id in r.entries then Ok(r.entries[id]) else Err(NotFound(id, r.order))
  }

  /** The refresh effect: re-register only an id that is already present. */
  function Refreshed(r: Contents, id: string, c: Controls): (r': Contents)
  {
    if Has(r, id) then Registered(r, id, c) else r
  }

  lemma {:induction false} WithoutNoDuplicates(s: seq<string>, v: string)
    requires NoDuplicates(s)
    ensures NoDuplicates(Without(s, v))
    decreases |s|
  {
    if |s| > 0 {
      WithoutNoDuplicates(s[1..], v);
      var rest := Without(s[1..], v);
      if s[0] != v {
        assert s[0] !in s[1..];
        assert s[0] !in rest;
        assert Without(s, v) == [s[0]] + rest;
      } else {
        assert Without(s, v) == rest;
      }
    }
  }

  /** Registering and deleting keep the key order duplicate-free and in
      step with the map. */
  lemma RegisteredValid(r: Contents, id: string, c: Controls)
    requires Valid(r)
    ensures Valid(Registered(r, id, c))
  {
  }

  lemma DeletedValid(r: Contents, id: string)
    requires Valid(r)
    ensures Valid(Deleted(r, id))
  {
    WithoutNoDuplicates(r.order, id);
  }

  /** After `registerSidebar(id, c)`, `getSidebarControls(id)` returns `c`. */
  lemma RegisterThenLookup(r: Contents, id: string, c: Controls)
    ensures Lookup(Registered(r, id, c), id) == Ok(c)
  {
  }

  /** A re-register overwrites the entry: only the last controls count, and
      the id keeps its original place in the order. */
  lemma ReregisterOverwrites(r: Contents, id: string, c1: Controls, c2: Controls)
    ensures Registered(Registered(r, id, c1), id, c2) == Registered(r, id, c2)
    ensures Registered(Registered(r, id, c1), id, c2).order == Registered(r, id, c1).order
  {
    var once := Registered(r, id, c1);
    assert once.entries[id := c2] == r.entries[id := c2];
  }

  /** After `delete(id)` the lookup fails with an error that lists exactly
      the ids still present, in their insertion order. */
  lemma DeleteThenLookup(r: Contents, id: string)
    requires Valid(r)
    ensures Lookup(Deleted(r, id), id) == Err(NotFound(id, Without(r.order, id)))
    ensures forall k :: k in Lookup(Deleted(r, id), id).error.available <==> k in r.entries && k != id
    ensures NoDuplicates(Lookup(Deleted(r, id), id).error.available)
  {
    WithoutNoDuplicates(r.order, id);
  }

  /** Deleting one id leaves every other entry as it was. */
  lemma DeleteKeepsOthers(r: Contents, id: string, other: string)
    requires other != id
    ensures Has(Deleted(r, id), other) <==> Has(r, other)
    ensures Has(r, other) ==> Lookup(Deleted(r, id), other) == Lookup(r, other)
  {
  }

  /** Registering one id leaves every other present entry as it was. */
  lemma RegisterKeepsOthers(r: Contents, id: string, c: Controls, other: string)
    requires other != id
    ensures Has(Registered(r, id, c), other) <==> Has(r, other)
    ensures Has(r, other) ==> Lookup(Registered(r, id, c), other) == Lookup(r, other)
  {
  }

  /** The refresh effect never brings back a deleted entry, and on a present
      one it is a plain re-register. */
  lemma RefreshNeverResurrects(r: Contents, id: string, c: Controls)
    ensures !Has(r, id) ==> Refreshed(r, id, c) == r && Lookup(Refreshed(r, id, c), id).Err?
    ensures Has(r, id) ==> Refreshed(r, id, c) == Registered(r, id, c)
    ensures Refreshed(Deleted(r, id), id, c) == Deleted(r, id)
  {
  }

  /** The registry object. Its one instance stands for the module-level
      `sidebarRegistry`. */
  class Registry {
    var order: seq<string>
    var entries: map<string, Controls>

    function Current(): Contents
      reads this
    {
      Contents(order, entries)
    }

    ghost predicate Invariant()
      reads this
    {
      Valid(Current())
    }

    constructor ()
      ensures Current() == Empty
      ensures Invariant()
    {
      order := [];
      entries := map[];
    }

    /** `registerSidebar(id, controls)`. */
    method Register(id: string, c: Controls)
      requires Invariant()
      modifies this
      ensures Current() == Registered(old(Current()), id, c)
      ensures Invariant()
    {
      RegisteredValid(Current(), id, c);
      if id !in entries {
        order := order + [id];
      }
      entries := entries[id := c];
    }

    /** `sidebarRegistry.delete(id)`, run when a provider unmounts. */
    method Delete(id: string)
      requires Invariant()
      modifies this
      ensures Current() == Deleted(old(Current()), id)
      ensures Invariant()
    {
      DeletedValid(Current(), id);
      order := Without(order, id);
      entries := map k | k in entries && k != id :: entries[k];
    }

    /** `getSidebarControls(id)`; the thrown error is the `Err` result. */
    method Get(id: string) returns (res: Result<Controls, NotFound>)
      ensures res.Ok? <==> id in entries
      ensures res.Ok? ==> res.value == entries[id]
      ensures res.Err? ==> res.error == NotFound(id, order)
    {
      if id in entries {
        res := Ok(entries[id]);
      } else {
        res := Err(NotFound(id, order));
      }
    }

    /** `isSidebarAvailable(id)`. */
    method IsAvailable(id: string) returns (b: bool)
      ensures b <==> id in entries
    {
      b := id in entries;
    }

    /** The refresh effect: `if (sidebarRegistry.has(id)) registerSidebar(id, controls)`. */
    method Refresh(id: string, c: Controls)
      requires Invariant()
      modifies this
      ensures Current() == Refreshed(old(Current()), id, c)
      ensures Invariant()
    {
      if id in entries {
        Register(id, c);
      }
    }
  }
}
