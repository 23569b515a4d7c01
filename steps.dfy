/** The loop shape the deploy code uses over a list of found paths: one
    step per path, in order, and the first step that fails returns its
    error, with the results of the earlier steps already kept. */
module PathSteps {
  import opened Base

  /** The paths processed, their results in the same order, and the error
      that stopped the loop, if any. */
  datatype Run<X> = Run(done: seq<string>, out: seq<X>, err: Option<string>)

  function Then<X>(ps: seq<string>, xs: seq<X>, r: Run<X>): Run<X> {
    Run(ps + r.done, xs + r.out, r.err)
  }

  /** The step may be taken on every path. */
  ghost predicate Defined<X>(step: string --> Result<X>, ps: seq<string>) {
    forall i :: 0 <= i < |ps| ==> step.requires(ps[i])
  }

  /** The loop from position `from` on. */
  function Loop<X>(step: string --> Result<X>, ps: seq<string>, from: nat): Run<X>
    requires Defined(step, ps) && from <= |ps|
    decreases |ps| - from
  {
    if from == |ps| then Run([], [], None)
    else
      assert step.requires(ps[from]);
      match step(ps[from])
      case Err(e) => Run([], [], Some(e))
      case Ok(x) => Then([ps[from]], [x], Loop(step, ps, from + 1))
  }

  /** The loop over all the paths. */
  function Steps<X>(step: string --> Result<X>, ps: seq<string>): Run<X>
    requires Defined(step, ps)
  {
    Loop(step, ps, 0)
  }

  /** The loop after `i` steps, when step `i` succeeds with `x`. */
  lemma LoopAdvance<X>(step: string --> Result<X>, ps: seq<string>, i: nat, xs: seq<X>, x: X)
    requires Defined(step, ps) && i < |ps|
    requires step.requires(ps[i]) && step(ps[i]) == Ok(x)
    requires Steps(step, ps) == Then(ps[..i], xs, Loop(step, ps, i))
    ensures Steps(step, ps) == Then(ps[..i + 1], xs + [x], Loop(step, ps, i + 1))
  {
    assert ps[..i + 1] == ps[..i] + [ps[i]];
    var r := Loop(step, ps, i + 1);
    assert ps[..i] + ([ps[i]] + r.done) == ps[..i + 1] + r.done;
    assert xs + ([x] + r.out) == (xs + [x]) + r.out;
  }

  /** The first `i + 1` paths are the first `i` and path `i`. */
  lemma PrefixNext(ps: seq<string>, i: nat)
    requires i < |ps|
    ensures ps[..i + 1] == ps[..i] + [ps[i]]
  {
  }

  /** The loop after `i` steps, when step `i` fails with `e`. */
  lemma LoopHalt<X>(step: string --> Result<X>, ps: seq<string>, i: nat, xs: seq<X>, e: string)
    requires Defined(step, ps) && i < |ps|
    requires step.requires(ps[i]) && step(ps[i]) == Err(e)
    requires Steps(step, ps) == Then(ps[..i], xs, Loop(step, ps, i))
    ensures Steps(step, ps) == Run(ps[..i], xs, Some(e))
  {
    assert ps[..i] + [] == ps[..i] && xs + [] == xs;
  }

  /** The loop after all its steps. */
  lemma LoopEnd<X>(step: string --> Result<X>, ps: seq<string>, xs: seq<X>)
    requires Defined(step, ps)
    requires Steps(step, ps) == Then(ps[..|ps|], xs, Loop(step, ps, |ps|))
    ensures Steps(step, ps) == Run(ps, xs, None)
  {
    assert ps[..|ps|] == ps && ps + [] == ps && xs + [] == xs;
  }

  /** The loop before its first step. */
  lemma LoopStart<X>(step: string --> Result<X>, ps: seq<string>)
    requires Defined(step, ps)
    ensures Steps(step, ps) == Then(ps[..0], [], Loop(step, ps, 0))
  {
    var r := Loop(step, ps, 0);
    var none: seq<X> := [];
    assert ps[..0] + r.done == r.done && none + r.out == r.out;
  }

  /** The loop processes a prefix of the paths, all of them exactly when no
      step failed; each processed path has the result its step gave, and an
      error is the one the first unprocessed path's step gave. */
  lemma {:induction false} LoopSpec<X>(step: string --> Result<X>, ps: seq<string>, from: nat)
    requires Defined(step, ps) && from <= |ps|
    ensures var r := Loop(step, ps, from);
      |r.out| == |r.done| <= |ps| - from && r.done == ps[from..from + |r.done|] &&
      (r.err.None? <==> |r.done| == |ps| - from)
    ensures var r := Loop(step, ps, from);
      forall i :: 0 <= i < |r.done| ==> step.requires(r.done[i]) && step(r.done[i]) == Ok(r.out[i])
    ensures var r := Loop(step, ps, from);
      r.err.Some? ==>
        from + |r.done| < |ps| && step.requires(ps[from + |r.done|]) && step(ps[from + |r.done|]) == Err(r.err.value)
    decreases |ps| - from
  {
    if from < |ps| {
      assert step.requires(ps[from]);
      if step(ps[from]).Ok? {
        LoopSpec(step, ps, from + 1);
        var t := Loop(step, ps, from + 1);
        var r := Loop(step, ps, from);
        assert r == Then([ps[from]], [step(ps[from]).value], t);
        assert ps[from..from + |r.done|] == [ps[from]] + ps[from + 1..from + 1 + |t.done|];
        assert forall i :: 0 < i < |r.done| ==> r.done[i] == t.done[i - 1] && r.out[i] == t.out[i - 1];
      }
    }
  }

  /** The same, for the loop over all the paths. */
  lemma StepsSpec<X>(step: string --> Result<X>, ps: seq<string>)
    requires Defined(step, ps)
    ensures var r := Steps(step, ps);
      |r.out| == |r.done| <= |ps| && r.done == ps[..|r.done|] && (r.err.None? <==> r.done == ps)
    ensures var r := Steps(step, ps);
      forall i :: 0 <= i < |r.done| ==> step.requires(r.done[i]) && step(r.done[i]) == Ok(r.out[i])
    ensures var r := Steps(step, ps);
      r.err.Some? ==> |r.done| < |ps| && step.requires(ps[|r.done|]) && step(ps[|r.done|]) == Err(r.err.value)
  {
    LoopSpec(step, ps, 0);
    var r := Steps(step, ps);
    assert ps[0..0 + |r.done|] == ps[..|r.done|];
    if r.err.None? {
      assert ps[..|ps|] == ps;
    }
  }
}
