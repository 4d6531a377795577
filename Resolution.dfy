/**
 * `Resolve`: normalise the name, create the root resolution context, install the `Resolve` closure that
 * creates one nested context per dependency, run the root registration's resolve method, and wrap any
 * failure in one `ResolutionFailedException`.
 *
 * What a registration's resolve method does is not part of this model; a `Script` stands for it: the
 * dependencies it resolves through `context.Resolve`, in order, and then how it ends: returning a value,
 * which may be `null`, or throwing. A dependency's `body` is what the resolve method of the registration
 * found for it does, and `caught` says whether the resolve method that requests it catches an exception
 * from it (an optional dependency, say) and goes on with its next dependency.
 */
module Resolution {
  import opened Wrappers
  import opened Types
  import opened Containers
  import BuildUp

  /** How a resolve method ends: it returns an object or `null` (`None`), or it throws. */
  datatype Ending = Returns(value: Option<BuildUp.Obj>) | Throws

  datatype Script = Script(deps: seq<Dependency>, result: Ending)
  datatype Dependency = Dependency(depType: Type, depName: Name, body: Script, caught: bool)

  /** How the script ends: its own ending when every dependency resolves, otherwise it throws. */
  function Outcome(s: Script): Ending
    decreases s, |s.deps| + 1
  {
    if DepsResolveFrom(s, 0) then s.result else Throws
  }

  /**
   * No exception escapes the dependencies of `s` from index `i` on: each resolves, `null` included, or
   * its exception is caught.
   */
  predicate DepsResolveFrom(s: Script, i: nat)
    decreases s, |s.deps| - i
  {
    i >= |s.deps| || ((Outcome(s.deps[i].body).Returns? || s.deps[i].caught) && DepsResolveFrom(s, i + 1))
  }

  /**
   * The dependencies for which a nested context is created, in creation order: each dependency, then
   * those of its own resolution, stopping after the first dependency whose exception is not caught.
   */
  function Requests(s: Script): seq<Dependency>
    decreases s, |s.deps| + 1
  {
    RequestsFrom(s, 0)
  }

  function RequestsFrom(s: Script, i: nat): seq<Dependency>
    decreases s, |s.deps| - i
  {
    if i >= |s.deps| then []
    else
      var d := s.deps[i];
      [d] + Requests(d.body) + (if Outcome(d.body).Returns? || d.caught then RequestsFrom(s, i + 1) else [])
  }

  /**
   * The registration each request obtains through the container's `GetRegistration(dependencyType,
   * dependencyName)` delegate.
   */
  function RegsFor(c: Container, ds: seq<Dependency>): (regs: seq<Reg>)
    requires c.Valid()
    reads c, c.above
    ensures |regs| == |ds|
    ensures ds != [] ==> regs[0] == c.DelegatedLookup(Some(ds[0].depType), ds[0].depName)
  {
    if ds == [] then [] else [c.DelegatedLookup(Some(ds[0].depType), ds[0].depName)] + RegsFor(c, ds[1..])
  }

  /** While the container's copied delegates are current, every request gets the scope-fallback registration. */
  lemma {:induction false} RegsForWhenCurrent(c: Container, ds: seq<Dependency>)
    requires c.Valid() && c.DelegatesCurrent()
    ensures forall i :: 0 <= i < |ds| ==> RegsFor(c, ds)[i] == c.Lookup(Some(ds[i].depType), ds[i].depName)
  {
    if ds != [] {
      DelegatedLookupWhenCurrent(c, Some(ds[0].depType), ds[0].depName);
      RegsForWhenCurrent(c, ds[1..]);
      assert forall i :: 1 <= i < |ds| ==> ds[i] == ds[1..][i - 1];
    }
  }

  /**
   * One resolution context: the context its `Parent` factory yields (an index into the session's
   * contexts), its lifetime container's owner, its registration and its `Resolve` closure.
   */
  datatype Frame = Frame(parent: Option<nat>, lifetime: Container, registration: Reg, resolve: nat)

  function FrameRegs(frames: seq<Frame>): (regs: seq<Reg>)
    ensures |regs| == |frames|
    ensures frames != [] ==> regs[0] == frames[0].registration
  {
    if frames == [] then [] else [frames[0].registration] + FrameRegs(frames[1..])
  }

  lemma {:induction false} FrameRegsAppend(a: seq<Frame>, b: seq<Frame>)
    ensures FrameRegs(a + b) == FrameRegs(a) + FrameRegs(b)
  {
    if a == [] {
      assert a + b == b;
    } else {
      assert (a + b)[1..] == a[1..] + b;
      FrameRegsAppend(a[1..], b);
    }
  }

  lemma {:induction false} RegsForAppend(c: Container, a: seq<Dependency>, b: seq<Dependency>)
    requires c.Valid()
    ensures RegsFor(c, a + b) == RegsFor(c, a) + RegsFor(c, b)
  {
    if a == [] {
      assert a + b == b;
    } else {
      assert (a + b)[1..] == a[1..] + b;
      RegsForAppend(c, a[1..], b);
    }
  }

  /** `after` is `before` followed by new contexts that carry the registrations `regs`, in order. */
  predicate Appended(before: seq<Frame>, after: seq<Frame>, regs: seq<Reg>) {
    |before| <= |after| && after[..|before|] == before && FrameRegs(after[|before|..]) == regs
  }

  /** Contexts appended in two steps carry the registrations of both steps, in order. */
  lemma ExtendsBy(before: seq<Frame>, mid: seq<Frame>, after: seq<Frame>, first: seq<Reg>, rest: seq<Reg>)
    requires Appended(before, mid, first) && Appended(mid, after, rest)
    ensures Appended(before, after, first + rest)
  {
    assert after[..|before|] == mid[..|before|];
    assert after[|before|..] == mid[|before|..] + after[|mid|..];
    FrameRegsAppend(mid[|before|..], after[|mid|..]);
  }

  /**
   * The shape of a session's contexts: the root context has no parent, every nested context's parent is
   * the one created just before it, and all share one lifetime container and one closure.
   */
  predicate Linked(frames: seq<Frame>, lifetime: Container, closure: nat) {
    && |frames| > 0
    && frames[0].parent.None?
    && (forall i :: 0 < i < |frames| ==> frames[i].parent == Some(i - 1))
    && (forall i :: 0 <= i < |frames| ==> frames[i].lifetime == lifetime && frames[i].resolve == closure)
  }

  /**
   * The state of one `Resolve` call: the contexts created so far (the root first), and the context the
   * captured `getParentContextMethod` currently yields.
   */
  class Session {
    const container: Container
    /** Identity of the `Resolve` closure this call installs. */
    const closure: nat
    var frames: seq<Frame>
    var current: nat

    /**
     * The contexts are linked as `Linked` says, and the current context is the last one created: the
     * closure moves `getParentContextMethod` to each new context and never moves it back.
     */
    ghost predicate Valid()
      reads this, container, container.above
    {
      && container.Valid()
      && Linked(frames, container, closure)
      && current == |frames| - 1
    }

    /** The root context set up by `Resolve`. */
    constructor (container: Container, closure: nat, rootRegistration: Reg)
      requires container.Valid()
      ensures Valid() && this.container == container && this.closure == closure
      ensures frames == [Frame(None, container, rootRegistration, closure)]
    {
      this.container := container;
      this.closure := closure;
      frames := [Frame(None, container, rootRegistration, closure)];
      current := 0;
    }

    /** The resolve method of the current context's registration, behaving as `s`. */
    method Run(s: Script) returns (r: Ending)
      requires Valid()
      modifies this
      ensures Valid() && r == Outcome(s)
      ensures Appended(old(frames), frames, RegsFor(container, Requests(s)))
      decreases s, |s.deps| + 1
    {
      r := RunFrom(s, 0);
    }

    /**
     * Resolve the dependencies of `s` from index `i` on, in order; the first whose exception is not
     * caught ends the run.
     */
    method RunFrom(s: Script, i: nat) returns (r: Ending)
      requires Valid()
      modifies this
      ensures Valid()
      ensures r == if DepsResolveFrom(s, i) then s.result else Throws
      ensures Appended(old(frames), frames, RegsFor(container, RequestsFrom(s, i)))
      decreases s, |s.deps| - i
    {
      if i >= |s.deps| {
        assert frames[|frames|..] == [];
        return s.result;
      }
      var d := s.deps[i];
      ghost var before := frames;
      var v := ResolveDependency(d);
      ghost var mid := frames;
      if v.Throws? && !d.caught {
        assert RequestsFrom(s, i) == [d] + Requests(d.body);
        return Throws;
      }
      r := RunFrom(s, i + 1);
      ExtendsBy(before, mid, frames, RegsFor(container, [d] + Requests(d.body)), RegsFor(container, RequestsFrom(s, i + 1)));
      RegsForAppend(container, [d] + Requests(d.body), RequestsFrom(s, i + 1));
    }

    /**
     * The `Resolve` closure: create the nested context, then run its registration's resolve method.
     * An exception is rethrown unchanged.
     */
    method ResolveDependency(d: Dependency) returns (r: Ending)
      requires Valid()
      modifies this
      ensures Valid() && r == Outcome(d.body)
      ensures Appended(old(frames), frames, RegsFor(container, [d] + Requests(d.body)))
      decreases d
    {
      ghost var before := frames;
      var context := PushContext(d);
      ghost var mid := frames;
      assert Appended(before, mid, RegsFor(container, [d])) by {
        assert mid[..|before|] == before;
        assert mid[|before|..] == [context];
      }
      r := Run(d.body);
      ExtendsBy(before, mid, frames, RegsFor(container, [d]), RegsFor(container, Requests(d.body)));
      RegsForAppend(container, [d], Requests(d.body));
    }

    /**
     * Create the nested context for `d`: its parent is the current context, whose lifetime container and
     * closure it inherits; its registration is what the `GetRegistration(dependencyType, dependencyName)`
     * delegate yields, the scope-fallback registration while the delegates are current; and
     * `getParentContextMethod` moves to it.
     */
    method PushContext(d: Dependency) returns (context: Frame)
      requires Valid()
      modifies this`frames, this`current
      ensures Valid()
      ensures context.registration == container.DelegatedLookup(Some(d.depType), d.depName)
      ensures container.DelegatesCurrent() ==> context.registration == container.Lookup(Some(d.depType), d.depName)
      ensures frames == old(frames) + [context]
    {
      if container.DelegatesCurrent() {
        DelegatedLookupWhenCurrent(container, Some(d.depType), d.depName);
      }
      var parent := frames[current];
      context := Frame(Some(current), parent.lifetime, container.DelegatedLookup(Some(d.depType), d.depName), parent.resolve);
      frames := frames + [context];
      current := |frames| - 1;
    }
  }

  /**
   * `Resolve(type, nameToBuild)`: the root context gets the registration for the normalised name; the
   * value the root's resolve method returns, `null` included, is the result; any exception, here or in a
   * nested resolution, surfaces as one `ResolutionFailed` for the requested type and the normalised name.
   * `closure` is the identity of the closure this call installs.
   */
  method Resolve(c: Container, t: Type, nameToBuild: Name, script: Script, closure: nat)
    returns (r: Result<Option<BuildUp.Obj>, Error>, session: Session)
    requires c.Valid()
    ensures fresh(session) && session.Valid() && session.container == c
    ensures r == match Outcome(script)
                 case Returns(v) => Success(v)
                 case Throws => Failure(ResolutionFailed(Some(t), NormalizeName(nameToBuild)))
    ensures session.frames[0].registration == c.DelegatedLookup(Some(t), NormalizeName(nameToBuild))
    ensures c.DelegatesCurrent() ==> session.frames[0].registration == c.Lookup(Some(t), NormalizeName(nameToBuild))
    ensures FrameRegs(session.frames[1..]) == RegsFor(c, Requests(script))
  {
    var name := NormalizeName(nameToBuild);
    if c.DelegatesCurrent() {
      DelegatedLookupWhenCurrent(c, Some(t), name);
    }
    session := new Session(c, closure, c.DelegatedLookup(Some(t), name));
    var v := session.Run(script);
    if v.Throws? {
      return Failure(ResolutionFailed(Some(t), name)), session;
    }
    return Success(v.value), session;
  }
}
