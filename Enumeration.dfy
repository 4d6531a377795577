/**
 * `GetNamedRegistrations` and `GetNotEmptyRegistrations`: collect the registrations for a type from the
 * root down to a container, each container adding the entries of its own store, and, for a closed generic
 * type, also the entries stored under its generic type definition.
 */
module Enumeration {
  import opened Wrappers
  import opened Types
  import opened Containers

  /** The name filter: `NamedOnly` drops null and empty names, `NotEmpty` drops only the empty name. */
  datatype Filter = NamedOnly | NotEmpty

  predicate Keeps(f: Filter, n: Name) {
    match f
    case NamedOnly => n.Some? && n.value != ""
    case NotEmpty => n != Some("")
  }

  /** The registrations of one name map that pass the filter. */
  function Kept(m: map<Name, Reg>, f: Filter): set<Reg> {
    set r | r in m.Values && Keeps(f, r.regName)
  }

  /** The set an enumeration returns for `c`: the parent's set, then what `c`'s own store adds. */
  ghost function Enumerated(c: Container, t: Type, f: Filter): set<Reg>
    requires c.Wf()
    reads c, c.above
    decreases c.depth
  {
    var inherited := if c.parent == null then {} else Enumerated(c.parent, t, f);
    var g := GenericOrSelf(t);
    if c.registrations.None? then inherited
    else inherited + Kept(c.LocalEntries(Some(t)), f) + (if g != t then Kept(c.LocalEntries(Some(g)), f) else {})
  }

  /** One `foreach` over `registrations.Values`, adding each entry that passes the filter. */
  method AddKept(s0: set<Reg>, m: map<Name, Reg>, f: Filter) returns (s: set<Reg>)
    ensures s == s0 + Kept(m, f)
  {
    s := s0;
    var rest := m.Values;
    while rest != {}
      invariant rest <= m.Values
      invariant s == s0 + (set r | r in m.Values - rest && Keeps(f, r.regName))
      decreases rest
    {
      var r :| r in rest;
      if Keeps(f, r.regName) {
        s := s + {r};
      }
      rest := rest - {r};
    }
  }

  /** The shared body of both enumerations: recurse to the parent first, then add the local entries. */
  method Registrations(c: Container, t: Type, f: Filter) returns (s: set<Reg>)
    requires c.Wf()
    ensures s == Enumerated(c, t, f)
    decreases c.depth
  {
    if c.parent != null {
      s := Registrations(c.parent, t, f);
    } else {
      s := {};
    }
    if c.registrations.None? {
      return;
    }
    s := AddKept(s, c.LocalEntries(Some(t)), f);
    var generic := GenericOrSelf(t);
    if generic != t {
      s := AddKept(s, c.LocalEntries(Some(generic)), f);
    }
  }

  /** `GetNamedRegistrations`. */
  method GetNamedRegistrations(c: Container, t: Type) returns (s: set<Reg>)
    requires c.Wf()
    ensures s == Enumerated(c, t, NamedOnly)
  {
    s := Registrations(c, t, NamedOnly);
  }

  /** `GetNotEmptyRegistrations`. */
  method GetNotEmptyRegistrations(c: Container, t: Type) returns (s: set<Reg>)
    requires c.Wf()
    ensures s == Enumerated(c, t, NotEmpty)
  {
    s := Registrations(c, t, NotEmpty);
  }

  /** A registration stored in `a` for the type, or, for a closed generic, for its generic definition. */
  ghost predicate StoredFor(a: Container, t: Type, r: Reg) reads a {
    && a.registrations.Some?
    && (r in a.LocalEntries(Some(t)).Values || (GenericOrSelf(t) != t && r in a.LocalEntries(Some(GenericOrSelf(t))).Values))
  }

  /**
   * The enumeration holds exactly the registrations that some container from `c` up to the root stores
   * for the type (or its generic definition) and whose name passes the filter.
   */
  lemma {:induction false} EnumeratedMembers(c: Container, t: Type, f: Filter, r: Reg)
    requires c.Wf()
    ensures r in Enumerated(c, t, f) <==> Keeps(f, r.regName) && exists a :: a in c.Scope() && StoredFor(a, t, r)
    decreases c.depth
  {
    var inherited := if c.parent == null then {} else Enumerated(c.parent, t, f);
    var above := Keeps(f, r.regName) && exists a :: a in c.above && StoredFor(a, t, r);
    if c.parent != null {
      EnumeratedMembers(c.parent, t, f, r);
      assert c.above == c.parent.Scope();
    }
    assert r in inherited <==> above;
    assert r in Enumerated(c, t, f) <==> r in inherited || (Keeps(f, r.regName) && StoredFor(c, t, r));
    if Keeps(f, r.regName) && exists a :: a in c.Scope() && StoredFor(a, t, r) {
      var a :| a in c.Scope() && StoredFor(a, t, r);
      assert a == c || a in c.above;
    }
  }

  /** The two enumerations differ only in the default (null-named) registrations. */
  lemma {:induction false} NamedIsNotEmptyWithoutDefault(c: Container, t: Type)
    requires c.Wf()
    ensures Enumerated(c, t, NamedOnly) == set r | r in Enumerated(c, t, NotEmpty) && r.regName.Some?
    decreases c.depth
  {
    if c.parent != null {
      NamedIsNotEmptyWithoutDefault(c.parent, t);
    }
    if c.registrations.Some? {
      KeptNamed(c.LocalEntries(Some(t)));
      KeptNamed(c.LocalEntries(Some(GenericOrSelf(t))));
    }
  }

  lemma KeptNamed(m: map<Name, Reg>)
    ensures Kept(m, NamedOnly) == set r | r in Kept(m, NotEmpty) && r.regName.Some?
  {
  }
}
