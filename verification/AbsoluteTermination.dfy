/** When lookups that follow absolute links inside the memfs end. */
module AbsoluteTermination {
  import opened AbsoluteLinks
  import opened Composition
  import opened Dwarfs
  import opened Lookup
  import opened OpenAt
  import opened Paths
  import opened PathText
  import opened Resolver
  import opened ResolverRuns
  import opened SingleNames
  import opened Termination
  import opened TrailingSeparator
  import opened Wrappers

  /** The components of an absolute target, too, all rank below the name that leads to it. */
  ghost predicate AbsoluteRanked(rank: Rank, K: nat, name: string, target: string) {
    var t := Parse(target);
    t.rooted ==> |t.body| <= K && forall i | 0 <= i < |t.body| && t.body[i] != Empty :: rank(Text(t.body[i])) < rank(name)
  }

  ghost predicate AbsoluteChildRanked(rank: Rank, K: nat, img: Image, dir: nat, name: string) {
    var child := img.Lookup(img.root + dir, name);
    child.Some? && img.IsLink(child.value) ==> AbsoluteRanked(rank, K, name, img.nodes[child.value].target)
  }

  /** Names can be ranked so that all links and host mounts, absolute ones included, lead from higher ranks to
      lower ones. */
  ghost predicate IsFullyRanked(w: World, rank: Rank, K: nat) {
    && IsRanked(w, rank, K)
    && (forall k, dir, name | k in w.images :: AbsoluteChildRanked(rank, K, w.images[k], dir, name))
    && (forall m | m in w.mounts && w.mounts[m].Host? :: AbsoluteRanked(rank, K, m.1, w.mounts[m].text))
  }

  lemma SpliceStopWeight(rank: Rank, K: nat, name: string, k: nat, dir: nat, target: string, tail: seq<Elem>, st: Stat, lnk: string)
    requires rank(".") == 0 && AbsoluteRanked(rank, K, name, target)
    requires IsPlainTarget(target) && IsSoundTarget(target) && IsPlain(tail) && IsSpelled(tail)
    requires Splice(k, dir, target, tail, st) == Stop(LinkAbsolute(lnk, st))
    ensures Weight(rank, K, Parse(lnk).body) < Pow(K + 1, rank(name)) + Weight(rank, K, tail)
  {
    hide Parse, Render, Normal, Weight, Pow;
    RewrittenPlain(target, tail);
    RewrittenRoot(target, tail);
    ParseShape(target);
    var t := Parse(target);
    var p := AppendAll(t, tail);
    WeightBelow(rank, K, t.body, rank(name));
    WeightAppendAll(rank, K, t, tail);
    RootStays(t, tail);
    PathWeightIs(rank, K, t);
    PathWeightIs(rank, K, p);
    WeightNormal(rank, K, p);
  }

  /** The text that a step reports weighs less than what was left of the path. */
  lemma StopWeight(w: World, c: Place, lnk: string, st: Stat, rank: Rank, K: nat)
    requires IsFullyRanked(w, rank, K) && HasSoundLinks(w) && IsPlace(w, c) && !AtEnd(c)
    requires IsPlain(c.rest) && IsSpelled(c.rest) && Step(w, c, true) == Stop(LinkAbsolute(lnk, st))
    ensures Weight(rank, K, Parse(lnk).body) < Weight(rank, K, c.rest)
  {
    hide Splice, IsSoundTarget, IsPlainTarget, AbsoluteRanked, TargetRanked, Parse, Pow, IsPlain, IsSpelled;
    var key, tail := Key(w, c), c.rest[1..];
    TailSpelled(c.rest);
    DeeperHead(c, [Empty]);
    if key in w.mounts {
      SpliceStopWeight(rank, K, key.1, c.k, c.dir, w.mounts[key].text, tail, c.st, lnk);
    } else {
      var child := w.images[c.k].Lookup(key.0, key.1).value;
      assert AbsoluteChildRanked(rank, K, w.images[c.k], c.dir, key.1);
      SpliceStopWeight(rank, K, key.1, c.k, c.dir, w.images[c.k].nodes[child].target, tail,
                       w.images[c.k].GetAttr(child), lnk);
    }
  }

  lemma {:induction false} AbsoluteWeight(w: World, c: Place, lnk: string, st: Stat, rank: Rank, K: nat, n: nat)
    requires IsFullyRanked(w, rank, K) && HasSoundLinks(w) && IsPlace(w, c) && IsPlain(c.rest) && IsSpelled(c.rest)
    requires Resolve(w, c, true, n) == LinkAbsolute(lnk, st)
    ensures Weight(rank, K, Parse(lnk).body) < Weight(rank, K, c.rest)
    decreases n
  {
    hide Step, Resolve, IsPlain, IsSpelled, Weight, Parse;
    if AtEnd(c) {
      OneEnd(w, c, true, n);
    } else {
      OneStep(w, c, true, n);
      var next := Step(w, c, true);
      if next.Go? {
        StepSpelled(w, c, true);
        StepSeparated(w, c, true);
        StepWeight(w, c, true, rank, K);
        AbsoluteWeight(w, next.to, lnk, st, rank, K, n - 1);
      } else {
        StopWeight(w, c, lnk, st, rank, K);
      }
    }
  }

  /** The lookup from the root that an absolute link leads to weighs less than the lookup that meets the link. */
  lemma HopWeight(w: World, k: nat, start: nat, p: Path, lnk: string, st: Stat, rank: Rank, K: nat)
    requires IsFullyRanked(w, rank, K) && HasSoundLinks(w) && k in w.images && StartsOutsideLinks(w.images[k], start)
    requires IsPlainPath(p) && Meaning(w, k, start, p, true) == LinkAbsolute(lnk, st)
    requires IsTebakoPath(lnk) && |lnk| <= PATH_LENGTH
    ensures |MemfsPath(lnk)| >= MOUNT_POINT_LENGTH && IsPlainPath(RootPath(lnk))
    ensures Weight(rank, K, RootPath(lnk).body) < Weight(rank, K, p.body)
  {
    hide Resolve, IsFullyRanked, HasSoundLinks, HasPlainLinks, Meaning, RootPath, MemfsPath, Parse, IsTebakoPath, IsLinkText,
         LinkBelow;
    BelowAbsolute(w, k, start, p, EMPTY_PATH, true, lnk, st);
    RootPathIs(lnk);
    var n := MeaningReached(w, k, start, p, true);
    var c := Enter(w, k, start, p).to;
    assert Components(p) == p.body;
    FromPlace(w, k, start, p, c, true, n);
    AbsoluteWeight(w, c, lnk, st, rank, K, n);
    InsideWeight(Parse(lnk), rank, K);
  }

  lemma InsideWeight(p: Path, rank: Rank, K: nat)
    requires IsBelowMount(p)
    ensures Weight(rank, K, Inside(p).body) <= Weight(rank, K, p.body)
  {
  }

  /** In a fully ranked world every lookup ends, through any number of relative and absolute links. */
  lemma {:induction false} AbsoluteLookupEnds(w: World, k: nat, start: nat, p: Path, follow: bool, rank: Rank, K: nat)
    requires IsFullyRanked(w, rank, K) && HasSoundLinks(w) && k in w.images && StartsOutsideLinks(w.images[k], start)
    requires IsPlainPath(p) && FollowsShort(w, k, start, p)
    ensures exists r :: EndsWith(w, k, start, p, follow, r)
    decreases Weight(rank, K, p.body)
  {
    hide Weight, HasSoundLinks, HasPlainLinks, Meaning, EndsWith, MemfsPath, RootPath, IsTebakoPath, IsPlainPath;
    LookupEnds(w, k, start, p, follow, rank, K);
    match Meaning(w, k, start, p, follow) {
      case Found(st) =>
        EndsIs(w, k, start, p, follow, Ok(st));
      case NoEntry =>
        EndsIs(w, k, start, p, follow, Missing);
      case LinkAbsolute(lnk, st) =>
        EndsSomehow(w, k, start, p, follow);
        if IsTebakoPath(lnk) && follow {
          assert Follows(w, k, start, p, 0, lnk);
          HopWeight(w, k, start, p, lnk, st, rank, K);
          var r0 := Missing;
          if HasRoot(w, lnk) {
            FollowsShortNext(w, k, start, p, lnk, st);
            AbsoluteLookupEnds(w, 0, w.images[0].root, RootPath(lnk), true, rank, K);
            r0 :| EndsWith(w, 0, w.images[0].root, RootPath(lnk), true, r0);
          }
          assert RootEnds(w, lnk, r0);
          EndsIs(w, k, start, p, follow, ReportedToStat(r0));
        }
    }
  }

  // ---------- Without a ranking ----------

  /** The root directory holds a link to itself, by its absolute path. */
  predicate HasAbsoluteSelfLink(w: World, name: string) {
    && IsShortName(name)
    && w.images == map[0 := Image(0, map[0 := Dir(map[name := 1], []), 1 := Link(Render(AbsoluteTo(name)))])]
    && w.mounts == map[]
  }

  lemma SelfLinkParts(w: World, name: string)
    requires HasAbsoluteSelfLink(w, name)
    ensures w.images.Keys == {0} && w.images[0].root == 0 && w.images[0].nodes.Keys == {0, 1} && w.mounts == map[]
    ensures w.images[0].Lookup(0, name) == Some(1) && w.images[0].nodes[1] == Link(Render(AbsoluteTo(name)))
    ensures w.images[0].Find(0) == Some(0) && !w.images[0].IsLink(0)
  {
    hide Render;
  }

  lemma SelfLinkMeans(w: World, name: string)
    requires HasAbsoluteSelfLink(w, name)
    ensures 0 in w.images && w.images[0].root == 0 && 1 in w.images[0].nodes && StartsOutsideLinks(w.images[0], 0)
    ensures var lnk := Render(AbsoluteTo(name));
            && Meaning(w, 0, 0, One(name), true) == LinkAbsolute(lnk, w.images[0].GetAttr(1))
            && IsTebakoPath(lnk) && HasRoot(w, lnk) && RootPath(lnk) == One(name)
  {
    SelfLinkParts(w, name);
    AbsoluteReads(name);
    AbsoluteSound(name);
    TextsBelow(name, name);
    hide HasAbsoluteSelfLink, Render, Parse, Rewritten, MemfsPath, RootPath, IsTebakoPath;
    StepToLink(w, name, Render(AbsoluteTo(name)));
    WalkOne(w, 0, name, Stop(LinkAbsolute(Render(AbsoluteTo(name)), w.images[0].GetAttr(1))));
  }

  /** A lookup that comes back to its own path through an absolute link never ends. */
  lemma {:induction false} BackToItself(w: World, p: Path, lnk: string, st: Stat, n: nat)
    requires 0 in w.images && HasRoot(w, lnk) && RootPath(lnk) == p && IsTebakoPath(lnk)
    requires Meaning(w, 0, w.images[0].root, p, true) == LinkAbsolute(lnk, st)
    ensures FindAbs(w, 0, w.images[0].root, p, true, n) == Looping
    decreases n
  {
    hide FindAbs, Meaning, RootPath, MemfsPath, IsTebakoPath;
    if FindAbs(w, 0, w.images[0].root, p, true, n) != Looping {
      Hop(w, 0, w.images[0].root, p, lnk, st, n);
      BackToItself(w, p, lnk, st, n - 1);
    }
  }

  /** So it is with a link to itself by its absolute path. */
  lemma AbsoluteSelfLinkNeverEnds(w: World, name: string, r: Result)
    requires HasAbsoluteSelfLink(w, name)
    ensures 0 in w.images && StartsOutsideLinks(w.images[0], 0) && !EndsWith(w, 0, 0, One(name), true, r)
  {
    SelfLinkMeans(w, name);
    hide HasAbsoluteSelfLink, FindAbs, Meaning, HasRoot, RootPath, Render, IsTebakoPath, One, AbsoluteTo;
    forall n: nat
      ensures FindAbs(w, 0, 0, One(name), true, n) == Looping
    {
      BackToItself(w, One(name), Render(AbsoluteTo(name)), w.images[0].GetAttr(1), n);
    }
  }
}
