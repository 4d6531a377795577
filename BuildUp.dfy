/**
 * The staged build-up walk run for one registration (`ThrowingBuildUp` / `NotThrowingBuildUp`).
 * Strategies are abstract stages: what a stage's `PreBuildUp` and `PostBuildUp` do to the build
 * context is given as data, and every call a stage receives is logged on the context.
 */
module BuildUp {
  import opened Wrappers
  import opened Types

  /** An object produced during a build, by identity. */
  type Obj = nat

  /**
   * What a stage's `PreBuildUp` does: nothing; set `Existing` (possibly to `null`); set `BuildComplete`,
   * and `Existing` too when `update` holds; or throw.
   */
  datatype PreEffect = Proceed | Produce(value: Option<Obj>) | Finish(update: bool, value: Option<Obj>) | PreThrow

  /** What a stage's `PostBuildUp` does: nothing, replace `Existing` (possibly with `null`), or throw. */
  datatype PostEffect = Keep | Decorate(value: Option<Obj>) | PostThrow

  datatype Stage = Stage(pre: PreEffect, post: PostEffect)

  /** A call received by the stage at `index` of the chain. */
  datatype Call = Pre(index: nat) | Post(index: nat)

  /** `context.OriginalBuildKey`. */
  datatype BuildKey = BuildKey(keyType: Key, keyName: Name)

  /** The value returned by a build, or the exception that leaves it. */
  datatype BuildResult = Built(value: Option<Obj>) | Failed(error: Error)

  /** A pre step after which the forward loop does not go on: it completes the build or throws. */
  predicate Halts(e: PreEffect) {
    e.Finish? || e.PreThrow?
  }

  function ApplyPre(e: PreEffect, x: Option<Obj>): Option<Obj> {
    match e
    case Produce(v) => v
    case Finish(update, v) => if update then v else x
    case _ => x
  }

  function ApplyPost(e: PostEffect, x: Option<Obj>): Option<Obj> {
    match e
    case Decorate(v) => v
    case _ => x
  }

  /** The index where the forward loop stops: the first stage from `i` whose pre step halts, else `|chain|`. */
  function StopAt(chain: seq<Stage>, i: nat): (k: nat)
    requires i <= |chain|
    ensures i <= k <= |chain|
    ensures forall j :: i <= j < k ==> !Halts(chain[j].pre)
    ensures k < |chain| ==> Halts(chain[k].pre)
    decreases |chain| - i
  {
    if i == |chain| then |chain|
    else if Halts(chain[i].pre) then i
    else StopAt(chain, i + 1)
  }

  /** The highest index below `v` whose post step throws, or -1. */
  function LastPostThrow(chain: seq<Stage>, v: nat): (t: int)
    requires v <= |chain|
    ensures -1 <= t < v
    ensures t >= 0 ==> chain[t].post.PostThrow?
    ensures forall j :: t < j < v ==> !chain[j].post.PostThrow?
  {
    if v == 0 then -1
    else if chain[v - 1].post.PostThrow? then v - 1
    else LastPostThrow(chain, v - 1)
  }

  /** `Existing` after the pre steps of `chain[..m]`, in index order. */
  function PreFold(chain: seq<Stage>, m: nat, x: Option<Obj>): Option<Obj>
    requires m <= |chain|
  {
    if m == 0 then x else ApplyPre(chain[m - 1].pre, PreFold(chain, m - 1, x))
  }

  /** `Existing` after the post steps of indices `hi - 1` down to `lo`. */
  function PostFold(chain: seq<Stage>, hi: nat, lo: nat, x: Option<Obj>): Option<Obj>
    requires lo <= hi <= |chain|
    decreases hi - lo
  {
    if lo == hi then x else ApplyPost(chain[lo].post, PostFold(chain, hi, lo + 1, x))
  }

  /** The pre calls `Pre(0), ..., Pre(m - 1)`. */
  function Ups(m: nat): (s: seq<Call>)
    ensures |s| == m
  {
    seq(m, j requires 0 <= j < m => Pre(j))
  }

  /** The post calls `Post(hi - 1), ..., Post(lo)`. */
  function Downs(hi: nat, lo: nat): (s: seq<Call>)
    requires lo <= hi
    ensures |s| == hi - lo
  {
    seq(hi - lo, j requires 0 <= j < hi - lo => Post(hi - 1 - j))
  }

  /** The observable outcome of a walk: calls made, final `BuildComplete` and `Existing`, and whether it threw. */
  datatype WalkEnd = WalkEnd(calls: seq<Call>, complete: bool, existing: Option<Obj>, threw: bool)

  /**
   * The two-pass walk in closed form. With `k = StopAt(chain, 0)`, the forward pass calls the pre step of
   * `chain[0..k]` (of `chain[0..k)` when no stage halts); the backward pass then calls the post step of
   * `chain[k-1]` down to `chain[0]`, so a stage that completes the build gets no post call.
   */
  function Walk(chain: seq<Stage>, complete0: bool, x0: Option<Obj>): WalkEnd {
    if complete0 then WalkEnd([], true, x0, false)
    else
      var k := StopAt(chain, 0);
      var m := if k < |chain| then k + 1 else k;
      if k < |chain| && chain[k].pre.PreThrow? then
        WalkEnd(Ups(m), false, PreFold(chain, m, x0), true)
      else
        var x1 := PreFold(chain, m, x0);
        var t := LastPostThrow(chain, k);
        if t >= 0 then WalkEnd(Ups(m) + Downs(k, t), k < |chain|, PostFold(chain, k, t + 1, x1), true)
        else WalkEnd(Ups(m) + Downs(k, 0), k < |chain|, PostFold(chain, k, 0, x1), false)
  }

  /** The build context of one build: its flag, its current object, the recovery hook and the call log. */
  class BuilderContext {
    const originalBuildKey: BuildKey
    /** The `BuildChain` of the registration being built. */
    const chain: seq<Stage>
    var buildComplete: bool
    var existing: Option<Obj>
    /** Whether `RequiresRecovery` is set. */
    var hasRecovery: bool
    /** How many times `RequiresRecovery.Recover()` has been called. */
    var recoveries: nat
    /** Every `PreBuildUp` / `PostBuildUp` call the stages received, in order. */
    var calls: seq<Call>

    constructor (key: BuildKey, chain: seq<Stage>, hasRecovery: bool)
      ensures originalBuildKey == key && this.chain == chain && this.hasRecovery == hasRecovery
      ensures !buildComplete && existing.None? && recoveries == 0 && calls == []
    {
      originalBuildKey := key;
      this.chain := chain;
      buildComplete := false;
      existing := None;
      this.hasRecovery := hasRecovery;
      recoveries := 0;
      calls := [];
    }

    /** `chain[i].PreBuildUp(context)`; the result says whether it threw. */
    method PreBuildUp(i: nat) returns (threw: bool)
      requires i < |chain|
      modifies this`buildComplete, this`existing, this`calls
      ensures calls == old(calls) + [Pre(i)]
      ensures existing == ApplyPre(chain[i].pre, old(existing))
      ensures buildComplete == (old(buildComplete) || chain[i].pre.Finish?)
      ensures threw == chain[i].pre.PreThrow?
    {
      calls := calls + [Pre(i)];
      match chain[i].pre
      case Proceed => threw := false;
      case Produce(v) => existing := v; threw := false;
      case Finish(update, v) =>
        if update {
          existing := v;
        }
        buildComplete := true;
        threw := false;
      case PreThrow => threw := true;
    }

    /** `chain[i].PostBuildUp(context)`; the result says whether it threw. */
    method PostBuildUp(i: nat) returns (threw: bool)
      requires i < |chain|
      modifies this`existing, this`calls
      ensures calls == old(calls) + [Post(i)]
      ensures existing == ApplyPost(chain[i].post, old(existing))
      ensures threw == chain[i].post.PostThrow?
    {
      calls := calls + [Post(i)];
      match chain[i].post
      case Keep => threw := false;
      case Decorate(v) => existing := v; threw := false;
      case PostThrow => threw := true;
    }
  }

  /**
   * The forward loop of the build-up: starting from index -1, while the build is not complete, advance the
   * index and, if it is still inside the chain, call that stage's pre step. It returns the index it stopped
   * at (which is `|chain|` when the chain ran out) and whether a pre step threw.
   */
  method ForwardPass(ctx: BuilderContext) returns (i: int, threw: bool)
    modifies ctx`buildComplete, ctx`existing, ctx`calls
    ensures var k := StopAt(ctx.chain, 0); var m := if k < |ctx.chain| then k + 1 else k;
      if old(ctx.buildComplete) then
        && i == -1 && !threw && ctx.buildComplete
        && ctx.calls == old(ctx.calls) && ctx.existing == old(ctx.existing)
      else
        && i == k
        && threw == (k < |ctx.chain| && ctx.chain[k].pre.PreThrow?)
        && ctx.buildComplete == (k < |ctx.chain| && ctx.chain[k].pre.Finish?)
        && ctx.calls == old(ctx.calls) + Ups(m)
        && ctx.existing == PreFold(ctx.chain, m, old(ctx.existing))
  {
    ghost var complete0, x0, c0 := ctx.buildComplete, ctx.existing, ctx.calls;
    ghost var n := |ctx.chain|;
    ghost var k := StopAt(ctx.chain, 0);
    i := -1;
    threw := false;
    while true
      invariant -1 <= i < n
      invariant !threw
      invariant complete0 ==> i == -1
      invariant !complete0 ==> i <= k
      invariant i >= 0 ==> !ctx.chain[i].pre.PreThrow?
      invariant ctx.buildComplete == (if i < 0 then complete0 else ctx.chain[i].pre.Finish?)
      invariant ctx.calls == c0 + Ups(i + 1)
      invariant ctx.existing == PreFold(ctx.chain, i + 1, x0)
      decreases n - i
    {
      if ctx.buildComplete {
        return;
      }
      i := i + 1;
      if i >= |ctx.chain| {
        return;
      }
      threw := ctx.PreBuildUp(i);
      if threw {
        return;
      }
    }
  }

  /**
   * The backward loop of the build-up: from the index the forward loop stopped at, step the index down and,
   * while it is not negative, call that stage's post step. It returns whether a post step threw.
   */
  method BackwardPass(ctx: BuilderContext, start: int) returns (threw: bool)
    requires -1 <= start <= |ctx.chain|
    modifies ctx`existing, ctx`calls
    ensures var hi := if start < 0 then 0 else start; var t := LastPostThrow(ctx.chain, hi);
      && threw == (t >= 0)
      && ctx.calls == old(ctx.calls) + Downs(hi, if t >= 0 then t else 0)
      && ctx.existing == PostFold(ctx.chain, hi, if t >= 0 then t + 1 else 0, old(ctx.existing))
  {
    ghost var hi := if start < 0 then 0 else start;
    ghost var x1, c1 := ctx.existing, ctx.calls;
    var i := start;
    while true
      invariant start < 0 ==> i == start
      invariant start >= 0 ==> 0 <= i <= hi
      invariant ctx.calls == c1 + Downs(hi, if i < 0 then 0 else i)
      invariant ctx.existing == PostFold(ctx.chain, hi, if i < 0 then 0 else i, x1)
      invariant forall j :: 0 <= i <= j < hi ==> !ctx.chain[j].post.PostThrow?
      decreases i + 1
    {
      i := i - 1;
      if i < 0 {
        return false;
      }
      threw := ctx.PostBuildUp(i);
      assert Downs(hi, i) == Downs(hi, i + 1) + [Post(i)];
      if threw {
        return;
      }
    }
  }

  /** The `try` block shared by both build-ups: the forward pass, then (if it did not throw) the backward pass. */
  method RunStages(ctx: BuilderContext) returns (threw: bool)
    modifies ctx`buildComplete, ctx`existing, ctx`calls
    ensures var w := Walk(ctx.chain, old(ctx.buildComplete), old(ctx.existing));
      && ctx.calls == old(ctx.calls) + w.calls
      && ctx.buildComplete == w.complete
      && ctx.existing == w.existing
      && threw == w.threw
  {
    var i;
    i, threw := ForwardPass(ctx);
    if threw {
      return;
    }
    threw := BackwardPass(ctx, i);
  }

  /**
   * `ThrowingBuildUp`: the walk; when a stage throws, call the recovery hook (if any) once and raise a
   * resolution failure for the original build key; otherwise return `context.Existing`.
   */
  method ThrowingBuildUp(ctx: BuilderContext) returns (r: BuildResult)
    modifies ctx`buildComplete, ctx`existing, ctx`calls, ctx`recoveries
    ensures var w := Walk(ctx.chain, old(ctx.buildComplete), old(ctx.existing));
      && ctx.calls == old(ctx.calls) + w.calls
      && ctx.buildComplete == w.complete
      && ctx.existing == w.existing
      && r == (if w.threw then Failed(ResolutionFailed(ctx.originalBuildKey.keyType, ctx.originalBuildKey.keyName))
               else Built(w.existing))
      && ctx.recoveries == old(ctx.recoveries) + (if w.threw && ctx.hasRecovery then 1 else 0)
    ensures old(ctx.buildComplete) ==> ctx.calls == old(ctx.calls) && r == Built(old(ctx.existing))
  {
    var threw := RunStages(ctx);
    if threw {
      if ctx.hasRecovery {
        ctx.recoveries := ctx.recoveries + 1;
      }
      return Failed(ResolutionFailed(ctx.originalBuildKey.keyType, ctx.originalBuildKey.keyName));
    }
    return Built(ctx.existing);
  }

  /** `NotThrowingBuildUp`: the same walk, but any exception yields `null` and no recovery runs. */
  method NotThrowingBuildUp(ctx: BuilderContext) returns (r: Option<Obj>)
    modifies ctx`buildComplete, ctx`existing, ctx`calls
    ensures var w := Walk(ctx.chain, old(ctx.buildComplete), old(ctx.existing));
      && ctx.calls == old(ctx.calls) + w.calls
      && ctx.buildComplete == w.complete
      && ctx.existing == w.existing
      && r == (if w.threw then None else w.existing)
  {
    var threw := RunStages(ctx);
    if threw {
      return None;
    }
    return ctx.existing;
  }

  /** How many times call `c` appears in `s`. */
  function Occurrences(s: seq<Call>, c: Call): nat {
    if s == [] then 0 else (if s[0] == c then 1 else 0) + Occurrences(s[1..], c)
  }

  lemma {:induction false} OccurrencesAppend(a: seq<Call>, b: seq<Call>, c: Call)
    ensures Occurrences(a + b, c) == Occurrences(a, c) + Occurrences(b, c)
  {
    if a == [] {
      assert a + b == b;
    } else {
      assert (a + b)[1..] == a[1..] + b;
      OccurrencesAppend(a[1..], b, c);
    }
  }

  lemma {:induction false} OccurrencesUps(m: nat, c: Call)
    ensures Occurrences(Ups(m), c) == if c.Pre? && c.index < m then 1 else 0
  {
    if m > 0 {
      assert Ups(m) == Ups(m - 1) + [Pre(m - 1)];
      OccurrencesAppend(Ups(m - 1), [Pre(m - 1)], c);
      OccurrencesUps(m - 1, c);
      assert Occurrences([Pre(m - 1)], c) == if c == Pre(m - 1) then 1 else 0 by {
        assert [Pre(m - 1)][1..] == [];
      }
    }
  }

  lemma {:induction false} OccurrencesDowns(hi: nat, lo: nat, c: Call)
    requires lo <= hi
    ensures Occurrences(Downs(hi, lo), c) == if c.Post? && lo <= c.index < hi then 1 else 0
    decreases hi - lo
  {
    if lo < hi {
      assert Downs(hi, lo) == Downs(hi, lo + 1) + [Post(lo)];
      OccurrencesAppend(Downs(hi, lo + 1), [Post(lo)], c);
      OccurrencesDowns(hi, lo + 1, c);
      assert Occurrences([Post(lo)], c) == if c == Post(lo) then 1 else 0 by {
        assert [Post(lo)][1..] == [];
      }
    }
  }

  /**
   * Every call of a walk is to a stage of the chain; all pre calls come first, in increasing index order,
   * and the post calls follow in strictly decreasing index order.
   */
  lemma WalkOrder(chain: seq<Stage>, complete0: bool, x0: Option<Obj>)
    ensures var w := Walk(chain, complete0, x0);
      && (forall a :: 0 <= a < |w.calls| ==> w.calls[a].index < |chain|)
      && (forall a, b :: 0 <= a < b < |w.calls| && w.calls[b].Pre? ==> w.calls[a].Pre? && w.calls[a].index < w.calls[b].index)
      && (forall a, b :: 0 <= a < b < |w.calls| && w.calls[a].Post? ==> w.calls[b].Post? && w.calls[a].index > w.calls[b].index)
  {
    if !complete0 {
      var w := Walk(chain, complete0, x0);
      var k := StopAt(chain, 0);
      var m := if k < |chain| then k + 1 else k;
      assert forall a :: 0 <= a < m ==> w.calls[a] == Pre(a);
      assert forall a :: m <= a < |w.calls| ==> w.calls[a] == Post(k - 1 - (a - m));
    }
  }

  /**
   * Pre/post symmetry of a walk that did not throw: stage `j` gets a pre call iff `j <= k` (where `k` is
   * the stop index), and a post call iff it got a pre call and did not itself complete the build; no
   * stage is called twice in either pass.
   */
  lemma WalkSymmetry(chain: seq<Stage>, x0: Option<Obj>, j: nat)
    requires j < |chain|
    requires !Walk(chain, false, x0).threw
    ensures var w := Walk(chain, false, x0); var k := StopAt(chain, 0);
      && Occurrences(w.calls, Pre(j)) == (if j <= k then 1 else 0)
      && Occurrences(w.calls, Post(j)) == (if j < k then 1 else 0)
      && Occurrences(w.calls, Post(j)) == (if Occurrences(w.calls, Pre(j)) == 1 && !chain[j].pre.Finish? then 1 else 0)
  {
    var k := StopAt(chain, 0);
    var m := if k < |chain| then k + 1 else k;
    OccurrencesAppend(Ups(m), Downs(k, 0), Pre(j));
    OccurrencesAppend(Ups(m), Downs(k, 0), Post(j));
    OccurrencesUps(m, Pre(j));
    OccurrencesUps(m, Post(j));
    OccurrencesDowns(k, 0, Pre(j));
    OccurrencesDowns(k, 0, Post(j));
  }

  /** The recovery fixture's scenario: a single throwing stage, a recovery hook set, one `Recover()` call. */
  method RecoveryIsExecutedOnException(key: BuildKey) returns (r: BuildResult, recoveries: nat)
    ensures r == Failed(ResolutionFailed(key.keyType, key.keyName))
    ensures recoveries == 1
  {
    var ctx := new BuilderContext(key, [Stage(PreThrow, Keep)], true);
    r := ThrowingBuildUp(ctx);
    recoveries := ctx.recoveries;
  }
}
