/** Lookups through any number of absolute links inside the memfs: what they end with, and where later calls
    on the result are routed. */
module AbsoluteLinks {
  import opened Dwarfs
  import opened Lookup
  import opened Paths
  import opened PathText
  import opened Resolver
  import opened ResolverRuns
  import opened Routing

  /** The `n`-th absolute text that a lookup follows inside the memfs is `lnk`. */
  ghost predicate Follows(w: World, k: nat, start: nat, path: Path, n: nat, lnk: string)
    requires k in w.images && StartsOutsideLinks(w.images[k], start)
    decreases n
  {
    match Meaning(w, k, start, path, true)
    case LinkAbsolute(first, _) =>
      IsTebakoPath(first) &&
      if n == 0 then lnk == first
      else HasRoot(w, first) && Follows(w, 0, w.images[0].root, RootPath(first), n - 1, lnk)
    case _ => false
  }

  /** The absolute texts that a lookup follows inside the memfs fit the path buffer. */
  ghost predicate FollowsShort(w: World, k: nat, start: nat, p: Path)
    requires k in w.images && StartsOutsideLinks(w.images[k], start)
  {
    forall n: nat, lnk | Follows(w, k, start, p, n, lnk) :: |lnk| <= PATH_LENGTH
  }

  lemma FollowsShortNext(w: World, k: nat, start: nat, p: Path, lnk: string, st: Stat)
    requires k in w.images && StartsOutsideLinks(w.images[k], start) && FollowsShort(w, k, start, p)
    requires Meaning(w, k, start, p, true) == LinkAbsolute(lnk, st) && IsTebakoPath(lnk) && HasRoot(w, lnk)
    ensures FollowsShort(w, 0, w.images[0].root, RootPath(lnk))
  {
    hide Meaning, IsTebakoPath, MemfsPath, RootPath;
    forall n: nat, next | Follows(w, 0, w.images[0].root, RootPath(lnk), n, next)
      ensures |next| <= PATH_LENGTH
    {
      assert Follows(w, k, start, p, n + 1, next);
    }
  }

  // ---------- Routing ----------

  lemma {:induction false} AnswerReaches(w: World, k: nat, start: nat, path: Path, follow: bool, n: nat, s: Stat)
    requires IsMounted(w) && k in w.images && StartsOutsideLinks(w.images[k], start)
    requires FindAbs(w, k, start, path, follow, n) == Ok(s)
    ensures Reaches(w, s)
    decreases n
  {
    hide ResolveFrom, MemfsStat, Reaches, IsMounted, IsTebakoPath, MemfsPath, Parse, BelowMountPoint;
    RoutingSound(w, k, start, path, follow, n);
    var out := ResolveFrom(w, k, start, path, follow, n);
    assert FindAbs(w, k, start, path, follow, n) == Finish(w, out, follow, n);
    if out.LinkAbsolute? && IsTebakoPath(out.lnk) && follow {
      MemfsStatIs(w, out.lnk, n - 1);
      AnswerReaches(w, 0, w.images[0].root, Parse(BelowMountPoint(MemfsPath(out.lnk))), true, n - 1, s);
    }
  }

  /** Through any number of absolute links, an answer from the memfs leads later calls back to the inode that
      it describes. */
  lemma AnswersReach(w: World, k: nat, start: nat, path: Path, follow: bool, s: Stat)
    requires IsMounted(w) && k in w.images && StartsOutsideLinks(w.images[k], start)
    requires EndsWith(w, k, start, path, follow, Ok(s))
    ensures Reaches(w, s)
  {
    hide FindAbs, IsMounted, Reaches;
    var n: nat :| FindAbs(w, k, start, path, follow, n) == Ok(s);
    AnswerReaches(w, k, start, path, follow, n, s);
  }

  // ---------- Answers that are the host's ----------

  /** The lookup follows an absolute text inside the memfs, and the lookup from the root that this starts is
      handed to the host with `lnk`. */
  ghost predicate AsksHost(w: World, k: nat, start: nat, path: Path, n: nat, via: string, lnk: string)
    requires k in w.images && StartsOutsideLinks(w.images[k], start)
  {
    && Follows(w, k, start, path, n, via) && HasRoot(w, via)
    && EndsWith(w, 0, w.images[0].root, RootPath(via), true, Outside(lnk))
  }

  /** A lookup answers with what the host says of `lnk` if and only if links are followed and one of the
      absolute texts followed inside the memfs starts a lookup from the root that is handed to the host with
      that text; by `Escape.OutsideIff` it comes to a host mount or link that leads there. */
  lemma HostStatIff(w: World, k: nat, start: nat, path: Path, follow: bool, lnk: string)
    requires k in w.images && StartsOutsideLinks(w.images[k], start)
    ensures EndsWith(w, k, start, path, follow, HostStat(lnk)) <==>
            follow && exists n, via :: AsksHost(w, k, start, path, n, via, lnk)
  {
    hide FindAbs, AsksHost, Meaning;
    if EndsWith(w, k, start, path, follow, HostStat(lnk)) {
      EndsIs(w, k, start, path, follow, HostStat(lnk));
      var n: nat :| FindAbs(w, k, start, path, follow, n) == HostStat(lnk);
      var m, via := HostAsked(w, k, start, path, n, lnk);
    }
    if follow {
      forall n, via | AsksHost(w, k, start, path, n, via, lnk)
        ensures EndsWith(w, k, start, path, follow, HostStat(lnk))
      {
        AsksAndEnds(w, k, start, path, n, via, lnk);
      }
    }
  }

  lemma {:induction false} HostAsked(w: World, k: nat, start: nat, path: Path, n: nat, lnk: string)
    returns (m: nat, via: string)
    requires k in w.images && StartsOutsideLinks(w.images[k], start)
    requires FindAbs(w, k, start, path, true, n) == HostStat(lnk)
    ensures AsksHost(w, k, start, path, m, via, lnk)
    decreases n
  {
    hide FindAbs, Meaning, RootEnds, RootPath, MemfsPath, IsTebakoPath;
    EndsIs(w, k, start, path, true, HostStat(lnk));
    var out := Meaning(w, k, start, path, true);
    Hop(w, k, start, path, out.lnk, out.st, n);
    var root, p := w.images[0].root, RootPath(out.lnk);
    var r := FindAbs(w, 0, root, p, true, n - 1);
    if r.Outside? {
      m, via := 0, out.lnk;
    } else {
      m, via := HostAsked(w, 0, root, p, n - 1, lnk);
      m := m + 1;
    }
  }

  lemma {:induction false} AsksAndEnds(w: World, k: nat, start: nat, path: Path, n: nat, via: string, lnk: string)
    requires k in w.images && StartsOutsideLinks(w.images[k], start)
    requires AsksHost(w, k, start, path, n, via, lnk)
    ensures EndsWith(w, k, start, path, true, HostStat(lnk))
    decreases n
  {
    hide FindAbs, Meaning, RootPath, MemfsPath, IsTebakoPath, EndsWith;
    var first := Meaning(w, k, start, path, true).lnk;
    var r := if n == 0 then Outside(lnk) else HostStat(lnk);
    if n > 0 {
      AsksAndEnds(w, 0, w.images[0].root, RootPath(first), n - 1, via, lnk);
    }
    assert RootEnds(w, first, r);
    EndsIs(w, k, start, path, true, HostStat(lnk));
  }
}
