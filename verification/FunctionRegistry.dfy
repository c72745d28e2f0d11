/**
The registry of functions. A function object is only created when it is first asked for, and
creating it also creates the functions it depends on, whose dependencies may lead back to it.
*/
module FunctionRegistries {
  import opened Types

  datatype Options = Options(lazyFunctions: bool, prioritiseIR: bool)

  /** A function object: for each of its declarations, the names of the functions that one calls. */
  datatype Group = Group(name: string, decls: seq<seq<string>>)

  type Constructor = Options -> Option<Group>

  datatype Registered = Registered(creator: Constructor, internal: bool, group: Option<Group>)

  type Entries = map<string, Registered>

  predicate Created(entries: Entries, id: string) {
    id in entries && entries[id].group.Some?
  }

  function Uncreated(entries: Entries): set<string> {
    set id | id in entries && entries[id].group.None?
  }

  /** The function object that asking for an identifier leaves in the registry. */
  function Made(entries: Entries, op: Options, id: string): Option<Group> {
    if id !in entries then None
    else if entries[id].group.Some? then entries[id].group
    else entries[id].creator(op)
  }

  predicate DependsOn(g: Group, id: string) {
    exists d | 0 <= d < |g.decls| :: id in g.decls[d]
  }

  /** A chain of functions that can be made, each of which one before it depends on. */
  predicate Chain(entries: Entries, op: Options, path: seq<string>) {
    |path| > 0 &&
    (forall i | 0 <= i < |path| :: Made(entries, op, path[i]).Some?) &&
    (forall i | 0 <= i < |path| - 1 :: DependsOn(Made(entries, op, path[i]).value, path[i + 1]))
  }

  /** A chain that leads from one function to another through functions not created so far. */
  predicate Leads(entries: Entries, op: Options, from: string, path: seq<string>, to: string) {
    Chain(entries, op, path) && path[0] == from && path[|path| - 1] == to &&
    forall i | 0 < i < |path| :: !Created(entries, path[i])
  }

  ghost predicate Needs(entries: Entries, op: Options, from: string, to: string) {
    exists path :: Leads(entries, op, from, path, to)
  }

  /** As Needs, whether or not the functions on the way were created before. */
  ghost predicate Reaches(entries: Entries, op: Options, from: string, to: string) {
    exists path :: Chain(entries, op, path) && path[0] == from && path[|path| - 1] == to
  }

  /** Every dependency that can be made has been made. */
  ghost predicate Complete(entries: Entries, op: Options, id: string)
    requires Created(entries, id)
  {
    forall dep | DependsOn(entries[id].group.value, dep) && Made(entries, op, dep).Some? :: Created(entries, dep)
  }

  /** A registry whose created functions are all complete. */
  ghost predicate Closed(entries: Entries, op: Options) {
    forall id | Created(entries, id) :: Complete(entries, op, id)
  }

  /** The registered functions stay the same; objects are only added, each by its own creator. */
  ghost predicate Grows(before: Entries, after: Entries, op: Options) {
    before.Keys == after.Keys &&
    forall id | id in before ::
      before[id].creator == after[id].creator && before[id].internal == after[id].internal &&
      (before[id].group.Some? ==> after[id].group == before[id].group) &&
      (before[id].group.None? && after[id].group.Some? ==> after[id].group == before[id].creator(op))
  }

  /** All that is added is needed by `id`, and `id` and everything added is complete. */
  ghost predicate Populates(before: Entries, after: Entries, op: Options, id: string) {
    Grows(before, after, op) &&
    (Made(before, op, id).Some? ==> Created(after, id) && Complete(after, op, id)) &&
    forall x | Created(after, x) && !Created(before, x) ::
      Needs(before, op, id, x) && Complete(after, op, x)
  }

  lemma MadeIsKept(before: Entries, after: Entries, op: Options)
    requires Grows(before, after, op)
    ensures forall id :: Made(after, op, id) == Made(before, op, id)
  {}

  /** A chain found later can be prefixed with a function that depends on its first one. */
  lemma NeedsThrough(before: Entries, now: Entries, op: Options, id: string, dep: string, x: string)
    requires Grows(before, now, op)
    requires Made(before, op, id).Some? && DependsOn(Made(before, op, id).value, dep)
    requires !Created(before, dep) && Needs(now, op, dep, x)
    ensures Needs(before, op, id, x)
  {
    MadeIsKept(before, now, op);
    var path :| Leads(now, op, dep, path, x);
    var longer := [id] + path;
    forall i | 0 < i < |longer| ensures longer[i] == path[i - 1] && !Created(before, longer[i]) {
      if i > 1 { assert !Created(now, path[i - 1]); }
    }
    forall i | 0 <= i < |longer| - 1
      ensures DependsOn(Made(before, op, longer[i]).value, longer[i + 1])
    {
      if i > 0 { assert longer[i + 1] == path[i]; }
    }
    assert Leads(before, op, id, longer, x);
  }

  lemma CompleteStays(now: Entries, later: Entries, op: Options, id: string)
    requires Grows(now, later, op) && Created(now, id) && Complete(now, op, id)
    ensures Created(later, id) && Complete(later, op, id)
  {
    MadeIsKept(now, later, op);
  }

  /** Asking for a function creates those it needs and was still missing, and no others. */
  lemma {:induction false} ExactlyNeeded(before: Entries, after: Entries, op: Options, id: string, x: string)
    requires Populates(before, after, op, id)
    ensures Created(after, x) <==> Created(before, x) || Needs(before, op, id, x)
  {
    if Needs(before, op, id, x) {
      var path :| Leads(before, op, id, path, x);
      AlongChain(before, after, op, id, path, |path| - 1);
    }
  }

  lemma {:induction false} AlongChain(
    before: Entries, after: Entries, op: Options, id: string, path: seq<string>, n: nat)
    requires Populates(before, after, op, id)
    requires Chain(before, op, path) && path[0] == id && n < |path|
    requires forall i | 0 < i < |path| :: !Created(before, path[i])
    ensures Created(after, path[n]) && Complete(after, op, path[n])
  {
    MadeIsKept(before, after, op);
    if n > 0 {
      AlongChain(before, after, op, id, path, n - 1);
      assert DependsOn(Made(before, op, path[n - 1]).value, path[n]);
    }
  }

  /**
  In a closed registry the outcome does not depend on what had been created before: it stays closed
  and holds the old functions and all those that the requested one reaches, cyclic or not.
  */
  lemma {:induction false} ClosedStaysClosed(before: Entries, after: Entries, op: Options, id: string)
    requires Closed(before, op) && Populates(before, after, op, id)
    ensures Closed(after, op)
    ensures forall x :: Created(after, x) <==> Created(before, x) || Reaches(before, op, id, x)
  {
    forall x | Created(after, x) ensures Complete(after, op, x) {
      if Created(before, x) { CompleteStays(before, after, op, x); }
    }
    forall x ensures Created(after, x) <==> Created(before, x) || Reaches(before, op, id, x) {
      ExactlyNeeded(before, after, op, id, x);
      if Needs(before, op, id, x) {
        var path :| Leads(before, op, id, path, x);
        assert Chain(before, op, path);
      }
      if Reaches(before, op, id, x) {
        var path :| Chain(before, op, path) && path[0] == id && path[|path| - 1] == x;
        ReachedIsCreated(before, after, op, path, |path| - 1);
      }
    }
  }

  lemma {:induction false} ReachedIsCreated(
    before: Entries, after: Entries, op: Options, path: seq<string>, n: nat)
    requires Grows(before, after, op) && Closed(after, op)
    requires Chain(before, op, path) && Created(after, path[0]) && n < |path|
    ensures Created(after, path[n])
  {
    MadeIsKept(before, after, op);
    if n > 0 {
      ReachedIsCreated(before, after, op, path, n - 1);
      assert DependsOn(Made(before, op, path[n - 1]).value, path[n]);
    }
  }

  lemma FewerUncreated(now: Entries, later: Entries, op: Options)
    requires Grows(now, later, op)
    ensures |Uncreated(later)| <= |Uncreated(now)|
    ensures (exists x :: Created(later, x) && x in now && !Created(now, x)) ==> |Uncreated(later)| < |Uncreated(now)|
  {
    assert Uncreated(later) <= Uncreated(now);
    if x :| Created(later, x) && x in now && !Created(now, x) {
      SubsetCardinality(Uncreated(later), Uncreated(now) - {x});
    } else {
      SubsetCardinality(Uncreated(later), Uncreated(now));
    }
  }

  lemma {:induction false} SubsetCardinality<T>(small: set<T>, large: set<T>)
    requires small <= large
    ensures |small| <= |large|
  {
    if x :| x in small {
      SubsetCardinality(small - {x}, large - {x});
    }
  }

  /** Half way: `id` is created, and everything else that was added is needed and complete. */
  ghost predicate Underway(before: Entries, now: Entries, op: Options, id: string) {
    Grows(before, now, op) && Created(now, id) &&
    forall x | Created(now, x) && !Created(before, x) && x != id ::
      Needs(before, op, id, x) && Complete(now, op, x)
  }

  /** Creating one more dependency of `id`. */
  lemma OneMore(before: Entries, now: Entries, later: Entries, op: Options, id: string, dep: string)
    requires Underway(before, now, op, id) && Populates(now, later, op, dep)
    requires !Created(now, dep) && DependsOn(now[id].group.value, dep)
    ensures Underway(before, later, op, id)
    ensures Grows(now, later, op) && (Made(later, op, dep).Some? ==> Created(later, dep))
  {
    MadeIsKept(before, now, op);
    MadeIsKept(now, later, op);
    forall x | Created(later, x) && !Created(before, x) && x != id
      ensures Needs(before, op, id, x) && Complete(later, op, x)
    {
      if Created(now, x) {
        CompleteStays(now, later, op, x);
      } else {
        NeedsThrough(before, now, op, id, dep, x);
      }
    }
  }

  lemma Finished(before: Entries, now: Entries, op: Options, id: string)
    requires Underway(before, now, op, id)
    requires forall d, dep | 0 <= d < |now[id].group.value.decls| && dep in now[id].group.value.decls[d] &&
               Made(now, op, dep).Some? :: Created(now, dep)
    ensures Populates(before, now, op, id)
  {
    if !Created(before, id) {
      assert Leads(before, op, id, [id], id);
    }
  }

  class FunctionRegistry {
    var entries: Entries

    constructor ()
      ensures entries == map[]
    {
      entries := map[];
    }

    /** Registers a function; a second registration of the same identifier is an error. */
    method Insert(id: string, creator: Constructor, internal: bool) returns (inserted: bool)
      modifies this
      ensures inserted == (id !in old(entries))
      ensures entries == if inserted then old(entries)[id := Registered(creator, internal, None)] else old(entries)
    {
      inserted := id !in entries;
      if inserted {
        entries := entries[id := Registered(creator, internal, None)];
      }
    }

    method InsertAndCreate(id: string, creator: Constructor, op: Options, internal: bool)
      returns (inserted: bool)
      modifies this
      ensures inserted == (id !in old(entries))
      ensures entries ==
        if inserted then old(entries)[id := Registered(creator, internal, creator(op))] else old(entries)
    {
      inserted := Insert(id, creator, internal);
      if inserted {
        entries := entries[id := entries[id].(group := creator(op))];
      }
    }

    /** The function object of an identifier, if it was created and may be seen. */
    function Get(id: string, allowInternalAccess: bool): (g: Option<Group>)
      reads this
      ensures g.Some? <==> Created(entries, id) && (allowInternalAccess || !entries[id].internal)
      ensures g.Some? ==> g == entries[id].group
    {
      if id !in entries then None
      else if !allowInternalAccess && entries[id].internal then None
      else entries[id].group
    }

    /** The function object of an identifier, created with all it depends on if it has to be. */
    method GetOrInsert(id: string, op: Options, allowInternalAccess: bool) returns (g: Option<Group>)
      modifies this
      ensures g == if id in old(entries) && (allowInternalAccess || !old(entries)[id].internal)
                   then Made(old(entries), op, id) else None
      ensures id !in old(entries) || (!allowInternalAccess && old(entries)[id].internal) ==> entries == old(entries)
      ensures id in old(entries) && (allowInternalAccess || !old(entries)[id].internal) && !op.lazyFunctions ==>
        entries == old(entries)[id := old(entries)[id].(group := Made(old(entries), op, id))]
      ensures id in old(entries) && (allowInternalAccess || !old(entries)[id].internal) && op.lazyFunctions ==>
        Populates(old(entries), entries, op, id)
      decreases |Uncreated(entries)|, if Created(entries, id) then 1 else 0
    {
      if id !in entries { return None; }
      if !allowInternalAccess && entries[id].internal { return None; }
      ghost var before := entries;
      if entries[id].group.None? {
        entries := entries[id := entries[id].(group := entries[id].creator(op))];
      }
      g := entries[id].group;
      assert Grows(before, entries, op);
      FewerUncreated(before, entries, op);
      if op.lazyFunctions && g.Some? {
        CreateDependencies(before, id, g.value, op);
      }
    }

    /** The loop over the declarations of a created function that creates their dependencies. */
    method CreateDependencies(ghost before: Entries, id: string, g: Group, op: Options)
      requires op.lazyFunctions
      requires id in entries && entries[id].group == Some(g) && Underway(before, entries, op, id)
      modifies this
      ensures Populates(before, entries, op, id)
      decreases |Uncreated(entries)|, 1, 0
    {
      hide Underway, Complete, Populates, Needs;
      ghost var start := entries;
      var d := 0;
      while d < |g.decls|
        invariant d <= |g.decls|
        invariant id in entries && entries[id].group == Some(g) && Underway(before, entries, op, id)
        invariant Grows(start, entries, op)
        invariant forall e, dep | 0 <= e < d && dep in g.decls[e] && Made(entries, op, dep).Some? ::
                    Created(entries, dep)
      {
        var k := 0;
        while k < |g.decls[d]|
          invariant k <= |g.decls[d]|
          invariant id in entries && entries[id].group == Some(g) && Underway(before, entries, op, id)
          invariant Grows(start, entries, op)
          invariant forall e, dep | 0 <= e < d && dep in g.decls[e] && Made(entries, op, dep).Some? ::
                      Created(entries, dep)
          invariant forall j | 0 <= j < k && Made(entries, op, g.decls[d][j]).Some? ::
                      Created(entries, g.decls[d][j])
        {
          var dep := g.decls[d][k];
          ghost var now := entries;
          if Get(dep, true).None? {
            FewerUncreated(start, now, op);
            var made := GetOrInsert(dep, op, true);
            if dep in now {
              OneMore(before, now, entries, op, id, dep);
            }
            MadeIsKept(now, entries, op);
          }
          k := k + 1;
        }
        d := d + 1;
      }
      Finished(before, entries, op, id);
    }
  }
}
