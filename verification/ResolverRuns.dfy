/** Runs of the resolver: the number of iterations allowed does not matter once the loop has stopped. */
module ResolverRuns {
  import opened Paths
  import opened Resolver

  lemma OneStep(w: World, c: Place, follow: bool, n: nat)
    requires IsPlace(w, c) && !AtEnd(c)
    ensures Resolve(w, c, follow, n) ==
            if n == 0 then Running else ResolveNext(w, Step(w, c, follow), follow, n - 1)
  {
  }

  lemma OneEnd(w: World, c: Place, follow: bool, n: nat)
    requires IsPlace(w, c) && AtEnd(c)
    ensures Resolve(w, c, follow, n) == Found(c.st)
  {
  }

  lemma {:induction false} ResolveMore(w: World, c: Place, follow: bool, n: nat, m: nat)
    requires IsPlace(w, c) && n <= m && Resolve(w, c, follow, n) != Running
    ensures Resolve(w, c, follow, m) == Resolve(w, c, follow, n)
    decreases n
  {
    if AtEnd(c) {
    } else {
      var next := Step(w, c, follow);
      if next.Go? {
        ResolveMore(w, next.to, follow, n - 1, m - 1);
      }
    }
  }

  lemma ResolveFromMore(w: World, k: nat, start: nat, path: Path, follow: bool, n: nat, m: nat)
    requires k in w.images && StartsOutsideLinks(w.images[k], start)
    requires n <= m && ResolveFrom(w, k, start, path, follow, n) != Running
    ensures ResolveFrom(w, k, start, path, follow, m) == ResolveFrom(w, k, start, path, follow, n)
  {
    var next := Enter(w, k, start, path);
    if next.Go? {
      ResolveMore(w, next.to, follow, n, m);
    }
  }

  /** What the loop ends with, if it ends; `Running` if it goes on for ever. */
  ghost function Meaning(w: World, k: nat, start: nat, path: Path, follow: bool): Outcome
    requires k in w.images && StartsOutsideLinks(w.images[k], start)
  {
    if exists n: nat :: ResolveFrom(w, k, start, path, follow, n) != Running
    then (var n: nat :| ResolveFrom(w, k, start, path, follow, n) != Running; ResolveFrom(w, k, start, path, follow, n))
    else Running
  }

  lemma MeaningIs(w: World, k: nat, start: nat, path: Path, follow: bool, n: nat)
    requires k in w.images && StartsOutsideLinks(w.images[k], start)
    requires ResolveFrom(w, k, start, path, follow, n) != Running
    ensures Meaning(w, k, start, path, follow) == ResolveFrom(w, k, start, path, follow, n)
  {
    var m: nat :| ResolveFrom(w, k, start, path, follow, m) != Running &&
                  Meaning(w, k, start, path, follow) == ResolveFrom(w, k, start, path, follow, m);
    if n <= m {
      ResolveFromMore(w, k, start, path, follow, n, m);
    } else {
      ResolveFromMore(w, k, start, path, follow, m, n);
    }
  }

  lemma MeaningReached(w: World, k: nat, start: nat, path: Path, follow: bool) returns (n: nat)
    requires k in w.images && StartsOutsideLinks(w.images[k], start)
    requires Meaning(w, k, start, path, follow) != Running
    ensures ResolveFrom(w, k, start, path, follow, n) == Meaning(w, k, start, path, follow)
  {
    n :| ResolveFrom(w, k, start, path, follow, n) != Running;
    MeaningIs(w, k, start, path, follow, n);
  }

  lemma FromPlace(w: World, k: nat, start: nat, p: Path, c: Place, follow: bool, n: nat)
    requires k in w.images && StartsOutsideLinks(w.images[k], start) && Enter(w, k, start, p) == Go(c)
    ensures IsPlace(w, c) && ResolveFrom(w, k, start, p, follow, n) == Resolve(w, c, follow, n)
  {
  }

  lemma NoMeaning(w: World, k: nat, start: nat, p: Path, follow: bool)
    requires k in w.images && StartsOutsideLinks(w.images[k], start)
    requires forall n: nat :: ResolveFrom(w, k, start, p, follow, n) == Running
    ensures Meaning(w, k, start, p, follow) == Running
  {
  }
}
