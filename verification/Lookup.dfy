/** Lookups that follow absolute links: `find_inode_abs`, `find_inode_root` and `tebako_stat`. */
module Lookup {
  import opened Composition
  import opened Dwarfs
  import opened PathText
  import opened Paths
  import opened Resolver
  import opened ResolverRuns
  import opened Routing
  import opened TrailingSeparator

  /** `Outside(lnk)` is DWARFS_S_LINK_OUTSIDE with its link text; `HostStat(lnk)` is the success of a
      `stat` call on the host made while following a link inside the memfs; `Looping` is a lookup that
      has not ended within the given number of steps. */
  datatype Result = Ok(st: Stat) | Missing | Outside(lnk: string) | HostStat(lnk: string) | Looping

  /** `tebako_path_assign`: texts are cut to the size of the path buffer. */
  function Assigned(text: string): string {
    if |text| <= PATH_LENGTH then text else text[..PATH_LENGTH]
  }

  /** `to_tebako_path` for an absolute path inside the memfs. */
  function MemfsPath(text: string): string {
    Assigned(Render(Normal(Parse(text))))
  }

  /** What `find_inode_root` looks up: the text behind the mount point and the character that follows it. */
  function BelowMountPoint(text: string): string
    requires |text| >= MOUNT_POINT_LENGTH
  {
    if |text| == MOUNT_POINT_LENGTH then "" else text[MOUNT_POINT_LENGTH + 1..]
  }

  /** `find_inode_abs` */
  function FindAbs(w: World, k: nat, start: nat, path: Path, follow: bool, steps: nat): Result
    requires k in w.images && StartsOutsideLinks(w.images[k], start)
    decreases steps, 1
  {
    Finish(w, ResolveFrom(w, k, start, path, follow, steps), follow, steps)
  }

  /** What is made of the resolver's outcome: absolute links inside the memfs are followed from its root. */
  function Finish(w: World, out: Outcome, follow: bool, steps: nat): Result
    decreases steps, 0
  {
    match out
    case Found(st) => Ok(st)
    case NoEntry => Missing
    case Running => Looping
    case LinkAbsolute(lnk, st) =>
      if !IsTebakoPath(lnk) then Outside(lnk)
      else if !follow then Ok(st)
      else if steps == 0 then Looping
      else MemfsStat(w, lnk, steps - 1)
  }

  /** `find_inode_root` on the root image */
  function FindRoot(w: World, text: string, follow: bool, steps: nat): Result
    decreases steps, 2
  {
    if 0 !in w.images || |text| < MOUNT_POINT_LENGTH then Missing
    else FindAbs(w, 0, w.images[0].root, Parse(BelowMountPoint(text)), follow, steps)
  }

  /** `tebako_stat` on an absolute path inside the memfs */
  function MemfsStat(w: World, text: string, steps: nat): Result
    decreases steps, 3
  {
    ReportedToStat(FindRoot(w, MemfsPath(text), true, steps))
  }

  /** `tebako_stat` looks at a place on the host itself. */
  function ReportedToStat(r: Result): Result {
    if r.Outside? then HostStat(r.lnk) else r
  }

  method FindInodeAbs(w: World, k: nat, start: nat, path: Path, follow: bool, limit: nat) returns (r: Result)
    requires k in w.images && StartsOutsideLinks(w.images[k], start)
    ensures r == FindAbs(w, k, start, path, follow, limit)
    decreases limit, 0
  {
    hide ResolveFrom, MemfsStat, IsTebakoPath;
    var out := FindInode(w, k, start, path, follow, limit);
    match out {
      case LinkAbsolute(lnk, st) =>
        if IsTebakoPath(lnk) {
          if follow {
            if limit == 0 {
              return Looping;
            }
            r := TebakoStat(w, lnk, limit - 1);
          } else {
            r := Ok(st);
          }
        } else {
          r := Outside(lnk);
        }
      case Found(st) => r := Ok(st);
      case NoEntry => r := Missing;
      case Running => r := Looping;
    }
  }

  /** `find_inode_root`: behind the mount point and a separator, a text is looked up from the root image. */
  method FindInodeRoot(w: World, text: string, follow: bool, limit: nat) returns (r: Result)
    ensures r == FindRoot(w, text, follow, limit)
    ensures |text| < MOUNT_POINT_LENGTH || 0 !in w.images ==> r == Missing
    ensures forall p: Path | IsRelative(p) && text == MOUNT_POINT + "/" + Render(p) && 0 in w.images ::
              r == FindAbs(w, 0, w.images[0].root, p, follow, limit)
    decreases limit, 1
  {
    forall p: Path | IsRelative(p) && text == MOUNT_POINT + "/" + Render(p) && 0 in w.images
      ensures FindRoot(w, text, follow, limit) == FindAbs(w, 0, w.images[0].root, p, follow, limit)
    {
      FindRootBelow(w, p, follow, limit);
    }
    hide Render, Parse, FindAbs;
    if 0 !in w.images || |text| < MOUNT_POINT_LENGTH {
      return Missing;
    }
    r := FindInodeAbs(w, 0, w.images[0].root, Parse(BelowMountPoint(text)), follow, limit);
  }

  /** `tebako_stat`: for any spelling of a path in the memfs, what is there or what the host says, but never
      a link that leads outside. */
  method TebakoStat(w: World, text: string, limit: nat) returns (r: Result)
    ensures r == MemfsStat(w, text, limit) && !r.Outside?
    ensures var p := Normal(Parse(text));
            IsBelowMount(p) && |Render(p)| <= PATH_LENGTH && 0 in w.images ==>
              r == ReportedToStat(FindAbs(w, 0, w.images[0].root, Inside(p), true, limit))
    ensures var t := Render(Normal(Parse(text)));
            var cut := if |t| <= 4096 then t else t[..4096];
            if 0 !in w.images || |cut| < 17 then r == Missing
            else
              var below := if |cut| == 17 then "" else cut[18..];
              r == ReportedToStat(FindAbs(w, 0, w.images[0].root, Parse(below), true, limit))
    decreases limit, 2
  {
    MemfsStatInside(w, text, limit);
    MemfsStatIs(w, text, limit);
    hide Render, Parse, FindAbs, Normal, Inside;
    assert MemfsPath(text) == Assigned(Render(Normal(Parse(text))));
    hide Render, Parse, FindAbs, Normal, Inside, MemfsPath, BelowMountPoint;
    var memfsPath := MemfsPath(text);
    r := FindInodeRoot(w, memfsPath, true, limit);
    if r.Outside? {
      r := HostStat(r.lnk);
    }
  }

  // ---------- Texts below the mount point ----------

  /** A path that parsing a relative text can produce. */
  predicate IsRelative(p: Path) {
    WellFormed(p) && !p.rooted && IsSpelled(p.body)
  }

  /** An absolute path whose first name is that of the mount point. */
  predicate IsBelowMount(p: Path) {
    WellFormed(p) && p.rooted && IsSpelled(p.body) && p.body != [] && p.body[0] == Name(MOUNT_NAME)
  }

  /** What is behind the mount point. */
  function Inside(p: Path): (r: Path)
    requires IsBelowMount(p)
    ensures IsRelative(r)
  {
    if p.body[1..] == [Empty] then EMPTY_PATH else Path(false, p.body[1..])
  }

  lemma FindRootBelow(w: World, p: Path, follow: bool, steps: nat)
    requires IsRelative(p) && 0 in w.images
    ensures FindRoot(w, MOUNT_POINT + "/" + Render(p), follow, steps) ==
            FindAbs(w, 0, w.images[0].root, p, follow, steps)
  {
    var text := MOUNT_POINT + "/" + Render(p);
    assert text[MOUNT_POINT_LENGTH + 1..] == Render(p);
    RoundTrip(p);
    assert |text| == MOUNT_POINT_LENGTH ==> false;
  }

  /** The text of a path below the mount point leads to what is behind it. */
  lemma InsideText(p: Path)
    requires IsBelowMount(p)
    ensures IsTebakoPath(Render(p)) && Parse(BelowMountPoint(Render(p))) == Inside(p)
  {
    hide Parse, BelowMountPoint, WellFormed, IsSpelled;
    var b := p.body[1..];
    assert p.body == [Name(MOUNT_NAME)] + b;
    assert MOUNT_POINT == "/" + MOUNT_NAME;
    InsideParts(p);
    if b == [] {
      assert Render(p) == MOUNT_POINT;
      MountPointItself();
    } else {
      assert Render(p) == MOUNT_POINT + ("/" + RenderBody(b));
      if b == [Empty] {
        BelowMountText(MOUNT_POINT + "/", "");
        MountPointItself();
      } else {
        assert "" + RenderBody(b) == RenderBody(b);
        BelowMountText(Render(p), RenderBody(b));
        RoundTrip(Path(false, b));
      }
    }
  }

  lemma InsideParts(p: Path)
    requires IsBelowMount(p)
    ensures var b := p.body[1..];
            b != [] && b != [Empty] ==> WellFormed(Path(false, b)) && IsSpelled(b)
  {
  }

  lemma MountPointItself()
    ensures BelowMountPoint(MOUNT_POINT) == "" && Parse("") == EMPTY_PATH
  {
  }

  lemma BelowMountText(text: string, rest: string)
    requires text == MOUNT_POINT + ("/" + rest)
    ensures BelowMountPoint(text) == rest && IsTebakoPath(text)
  {
  }

  lemma MemfsStatInside(w: World, text: string, steps: nat)
    ensures var p := Normal(Parse(text));
            IsBelowMount(p) && |Render(p)| <= PATH_LENGTH && 0 in w.images ==>
              MemfsStat(w, text, steps) == ReportedToStat(FindAbs(w, 0, w.images[0].root, Inside(p), true, steps))
  {
    hide Render, Parse, FindAbs, Normal, Inside, BelowMountPoint;
    var p := Normal(Parse(text));
    MemfsStatIs(w, text, steps);
    if IsBelowMount(p) {
      InsideText(p);
    }
  }

  // ---------- More steps do not change a result ----------

  lemma MemfsStatIs(w: World, text: string, steps: nat)
    ensures var t := MemfsPath(text);
            MemfsStat(w, text, steps) ==
            if 0 !in w.images || |t| < MOUNT_POINT_LENGTH then Missing
            else ReportedToStat(FindAbs(w, 0, w.images[0].root, Parse(BelowMountPoint(t)), true, steps))
  {
    hide MemfsPath, FindAbs, BelowMountPoint, Parse;
  }

  lemma {:induction false} FinishMore(w: World, out: Outcome, follow: bool, n: nat, m: nat)
    requires n <= m && Finish(w, out, follow, n) != Looping
    ensures Finish(w, out, follow, m) == Finish(w, out, follow, n)
    decreases n, 0
  {
    hide MemfsPath, FindAbs, MemfsStat, IsTebakoPath, Parse, BelowMountPoint;
    if out.LinkAbsolute? && IsTebakoPath(out.lnk) && follow {
      MemfsStatIs(w, out.lnk, n - 1);
      MemfsStatIs(w, out.lnk, m - 1);
      var text := MemfsPath(out.lnk);
      if 0 in w.images && |text| >= MOUNT_POINT_LENGTH {
        FindAbsMore(w, 0, w.images[0].root, Parse(BelowMountPoint(text)), true, n - 1, m - 1);
      }
    }
  }

  lemma {:induction false} FindAbsMore(w: World, k: nat, start: nat, path: Path, follow: bool, n: nat, m: nat)
    requires k in w.images && StartsOutsideLinks(w.images[k], start)
    requires n <= m && FindAbs(w, k, start, path, follow, n) != Looping
    ensures FindAbs(w, k, start, path, follow, m) == FindAbs(w, k, start, path, follow, n)
    decreases n, 1
  {
    hide ResolveFrom, MemfsStat;
    ResolveFromMore(w, k, start, path, follow, n, m);
    FinishMore(w, ResolveFrom(w, k, start, path, follow, n), follow, n, m);
  }

  /** A lookup ends with `r`, and does so with any larger number of steps. */
  ghost predicate EndsWith(w: World, k: nat, start: nat, path: Path, follow: bool, r: Result)
    requires k in w.images && StartsOutsideLinks(w.images[k], start)
  {
    r != Looping && exists n: nat :: FindAbs(w, k, start, path, follow, n) == r
  }

  /** A lookup has one result at most. */
  lemma EndsOnce(w: World, k: nat, start: nat, path: Path, follow: bool, r: Result, r': Result)
    requires k in w.images && StartsOutsideLinks(w.images[k], start)
    requires EndsWith(w, k, start, path, follow, r) && EndsWith(w, k, start, path, follow, r')
    ensures r == r'
  {
    hide FindAbs;
    var n: nat :| FindAbs(w, k, start, path, follow, n) == r;
    var m: nat :| FindAbs(w, k, start, path, follow, m) == r';
    if n <= m {
      FindAbsMore(w, k, start, path, follow, n, m);
    } else {
      FindAbsMore(w, k, start, path, follow, m, n);
    }
  }

  /** Walks that mean the same end with the same result. */
  lemma SameMeaningSameEnd(w: World, k: nat, start: nat, p: Path, k': nat, start': nat, q: Path, follow: bool, r: Result)
    requires k in w.images && StartsOutsideLinks(w.images[k], start)
    requires k' in w.images && StartsOutsideLinks(w.images[k'], start')
    requires Meaning(w, k, start, p, follow) == Meaning(w, k', start', q, follow)
    requires EndsWith(w, k, start, p, follow, r)
    ensures EndsWith(w, k', start', q, follow, r)
  {
    hide ResolveFrom, Meaning, MemfsStat;
    var n: nat :| FindAbs(w, k, start, p, follow, n) == r;
    var out := ResolveFrom(w, k, start, p, follow, n);
    assert FindAbs(w, k, start, p, follow, n) == Finish(w, out, follow, n);
    MeaningIs(w, k, start, p, follow, n);
    var m := MeaningReached(w, k', start', q, follow);
    if n <= m {
      FinishMore(w, out, follow, n, m);
      assert FindAbs(w, k', start', q, follow, m) == r;
    } else {
      ResolveFromMore(w, k', start', q, follow, m, n);
      assert FindAbs(w, k', start', q, follow, n) == r;
    }
  }

  // ---------- Results, without counting steps ----------

  /** `tebako_stat` on `text` finds a root image to look in. */
  predicate HasRoot(w: World, text: string) {
    0 in w.images && |MemfsPath(text)| >= MOUNT_POINT_LENGTH
  }

  /** What `tebako_stat` on `text` looks up in it. */
  function RootPath(text: string): Path
    requires |MemfsPath(text)| >= MOUNT_POINT_LENGTH
  {
    Parse(BelowMountPoint(MemfsPath(text)))
  }

  /** That lookup ends with `r`. */
  ghost predicate RootEnds(w: World, text: string, r: Result) {
    if HasRoot(w, text) then EndsWith(w, 0, w.images[0].root, RootPath(text), true, r) else r == Missing
  }

  /** A followed link inside the memfs takes one step more than the lookup from the root that it leads to. */
  lemma Hop(w: World, k: nat, start: nat, path: Path, lnk: string, st: Stat, n: nat)
    requires k in w.images && StartsOutsideLinks(w.images[k], start)
    requires Meaning(w, k, start, path, true) == LinkAbsolute(lnk, st) && IsTebakoPath(lnk)
    requires FindAbs(w, k, start, path, true, n) != Looping
    ensures n > 0
    ensures FindAbs(w, k, start, path, true, n) ==
            if HasRoot(w, lnk) then ReportedToStat(FindAbs(w, 0, w.images[0].root, RootPath(lnk), true, n - 1)) else Missing
  {
    hide ResolveFrom, Meaning, MemfsStat, MemfsPath, IsTebakoPath, BelowMountPoint, Parse;
    MeaningIs(w, k, start, path, true, n) by {
      assert FindAbs(w, k, start, path, true, n) == Finish(w, ResolveFrom(w, k, start, path, true, n), true, n);
    }
    if n > 0 {
      MemfsStatIs(w, lnk, n - 1);
    }
  }

  /** What a lookup ends with, in terms of what the walk means and of the lookup that a followed link leads to. */
  lemma EndsIs(w: World, k: nat, start: nat, path: Path, follow: bool, r: Result)
    requires k in w.images && StartsOutsideLinks(w.images[k], start)
    ensures EndsWith(w, k, start, path, follow, r) <==>
            match Meaning(w, k, start, path, follow)
            case Found(st) => r == Ok(st)
            case NoEntry => r == Missing
            case Running => false
            case LinkAbsolute(lnk, st) =>
              if !IsTebakoPath(lnk) then r == Outside(lnk)
              else if !follow then r == Ok(st)
              else exists r0 :: RootEnds(w, lnk, r0) && r == ReportedToStat(r0)
  {
    hide ResolveFrom, Meaning, MemfsStat, RootEnds, IsTebakoPath;
    if EndsWith(w, k, start, path, follow, r) {
      var n: nat :| FindAbs(w, k, start, path, follow, n) == r;
      assert FindAbs(w, k, start, path, follow, n) == Finish(w, ResolveFrom(w, k, start, path, follow, n), follow, n);
      MeaningIs(w, k, start, path, follow, n);
      var out := Meaning(w, k, start, path, follow);
      if out.LinkAbsolute? && IsTebakoPath(out.lnk) && follow {
        EndsThere(w, k, start, path, out.lnk, out.st, n);
      }
    }
    if Meaning(w, k, start, path, follow) != Running {
      EndsSomehow(w, k, start, path, follow);
      var out := Meaning(w, k, start, path, follow);
      if out.LinkAbsolute? && IsTebakoPath(out.lnk) && follow {
        forall r0 | RootEnds(w, out.lnk, r0) && r == ReportedToStat(r0)
          ensures EndsWith(w, k, start, path, follow, r)
        {
          EndsAsRoot(w, k, start, path, out.lnk, out.st, r0);
        }
      }
    }
  }

  lemma EndsThere(w: World, k: nat, start: nat, path: Path, lnk: string, st: Stat, n: nat)
    requires k in w.images && StartsOutsideLinks(w.images[k], start)
    requires Meaning(w, k, start, path, true) == LinkAbsolute(lnk, st) && IsTebakoPath(lnk)
    requires FindAbs(w, k, start, path, true, n) != Looping
    ensures exists r0 :: RootEnds(w, lnk, r0) && FindAbs(w, k, start, path, true, n) == ReportedToStat(r0)
  {
    hide Meaning, FindAbs, IsTebakoPath, MemfsPath, Parse, BelowMountPoint;
    Hop(w, k, start, path, lnk, st, n);
    if HasRoot(w, lnk) {
      var r0 := FindAbs(w, 0, w.images[0].root, RootPath(lnk), true, n - 1);
      assert RootEnds(w, lnk, r0);
    } else {
      assert RootEnds(w, lnk, Missing);
    }
  }

  lemma EndsAsRoot(w: World, k: nat, start: nat, path: Path, lnk: string, st: Stat, r0: Result)
    requires k in w.images && StartsOutsideLinks(w.images[k], start)
    requires Meaning(w, k, start, path, true) == LinkAbsolute(lnk, st) && IsTebakoPath(lnk)
    requires RootEnds(w, lnk, r0)
    ensures EndsWith(w, k, start, path, true, ReportedToStat(r0))
  {
    hide Meaning, ResolveFrom, IsTebakoPath, MemfsPath, MemfsStat, Parse, BelowMountPoint;
    var n := MeaningReached(w, k, start, path, true);
    var m: nat := 0;
    if HasRoot(w, lnk) {
      m :| FindAbs(w, 0, w.images[0].root, RootPath(lnk), true, m) == r0;
    }
    var big := n + m + 1;
    ResolveFromMore(w, k, start, path, true, n, big);
    MemfsStatIs(w, lnk, big - 1);
    if HasRoot(w, lnk) {
      FindAbsMore(w, 0, w.images[0].root, RootPath(lnk), true, m, big - 1);
    }
    assert FindAbs(w, k, start, path, true, big) == Finish(w, LinkAbsolute(lnk, st), true, big);
    assert FindAbs(w, k, start, path, true, big) == ReportedToStat(r0);
  }

  lemma EndsSomehow(w: World, k: nat, start: nat, path: Path, follow: bool)
    requires k in w.images && StartsOutsideLinks(w.images[k], start)
    requires Meaning(w, k, start, path, follow) != Running
    ensures match Meaning(w, k, start, path, follow)
            case Found(st) => EndsWith(w, k, start, path, follow, Ok(st))
            case NoEntry => EndsWith(w, k, start, path, follow, Missing)
            case Running => true
            case LinkAbsolute(lnk, st) =>
              && (!IsTebakoPath(lnk) ==> EndsWith(w, k, start, path, follow, Outside(lnk)))
              && (IsTebakoPath(lnk) && !follow ==> EndsWith(w, k, start, path, follow, Ok(st)))
  {
    hide Meaning, ResolveFrom, IsTebakoPath, MemfsStat;
    var n := MeaningReached(w, k, start, path, follow);
    assert FindAbs(w, k, start, path, follow, n) == Finish(w, Meaning(w, k, start, path, follow), follow, n);
  }

  /** Where the walk to p meets no absolute link, what openat() finds for q relative to a descriptor of the
      directory p is what open() finds for p/q, for every relative path q and whatever that is: an inode,
      nothing, or a place on the host; absolute links behind p are followed alike. */
  lemma OpenAtAgrees(w: World, k: nat, start: nat, p: Path, q: Path, fp: bool, follow: bool, s: Stat, r: Result)
    requires IsMounted(w) && HasPlainLinks(w) && LeadsTo(w, k, start, p, fp, s)
    requires WellFormed(q) && !q.rooted && NoDots(q.body)
    ensures Reaches(w, s) && StartsOutsideLinks(w.images[Owner(w, s.ino)], s.ino)
    ensures EndsWith(w, Owner(w, s.ino), s.ino, q, follow, r) <==> EndsWith(w, k, start, Slash(p, q), follow, r)
  {
    hide Owner, EndsWith, Meaning, HasPlainLinks, NoDots;
    ResolveBelow(w, k, start, p, q, fp, follow, s);
    if EndsWith(w, Owner(w, s.ino), s.ino, q, follow, r) {
      SameMeaningSameEnd(w, Owner(w, s.ino), s.ino, q, k, start, Slash(p, q), follow, r);
    } else if EndsWith(w, k, start, Slash(p, q), follow, r) {
      SameMeaningSameEnd(w, k, start, Slash(p, q), Owner(w, s.ino), s.ino, q, follow, r);
    }
  }
}
