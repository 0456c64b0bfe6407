/** Worlds in which openat() and open() differ: `l` is a link to the directory `d` by its absolute path, and
    `m` in that directory is mounted from somewhere on the host. */
module Disagreement {
  import opened AbsoluteLinks
  import opened Bits
  import opened Composition
  import opened Dwarfs
  import opened Inodes
  import opened Lookup
  import opened OpenAt
  import opened Paths
  import opened PathText
  import opened Resolver
  import opened ResolverRuns
  import opened Routing
  import opened SingleNames
  import opened Wrappers

  /** A place on the host. */
  predicate IsHostPath(h: Path) {
    && h.rooted && WellFormed(h) && IsSpelled(h.body) && NoDots(h.body)
    && h.body != [] && !(MOUNT_NAME <= Text(h.body[0]))
  }

  function ImageWith(l: string, d: string): Image {
    Image(0, map[0 := Dir(map[l := 1, d := 2], []), 1 := Link(Render(AbsoluteTo(d))), 2 := Dir(map[], [])])
  }

  predicate IsSuchWorld(w: World, l: string, d: string, m: string, h: Path) {
    && IsShortName(l) && IsShortName(d) && IsShortName(m) && l != d && IsHostPath(h)
    && w.layout == COMPILED && w.images == map[0 := ImageWith(l, d)] && w.mounts == map[(2, m) := Host(Render(h))]
  }

  /** There are such worlds. */
  lemma SuchWorld() returns (w: World)
    ensures IsSuchWorld(w, "l", "d", "m", Path(true, [Name("h")]))
  {
    w := WorldData(COMPILED, map[0 := ImageWith("l", "d")], map[(2, "m") := Host(Render(Path(true, [Name("h")])))]);
  }

  lemma Parts(w: World, l: string, d: string, m: string, h: Path)
    requires IsSuchWorld(w, l, d, m, h)
    ensures w.layout == COMPILED && w.images.Keys == {0} && w.images[0].root == 0 && w.images[0].nodes.Keys == {0, 1, 2}
    ensures var img := w.images[0];
            && img.nodes[1] == Link(Render(AbsoluteTo(d))) && !img.IsLink(0) && !img.IsLink(2)
            && img.Lookup(0, l) == Some(1) && img.Lookup(0, d) == Some(2) && img.GetAttr(2) == Stat(2, Directory, 0)
            && forall n | n in img.nodes :: img.Find(n) == Some(n) && img.GetAttr(n).ino == n
    ensures w.mounts.Keys == {(2, m)} && w.mounts[(2, m)] == Host(Render(h))
  {
    hide Render;
  }

  lemma HostReads(h: Path)
    requires IsHostPath(h)
    ensures Rewritten(Render(h), []) == h && Parse(Render(h)) == h
    ensures !IsTebakoPath(Render(h)) && IsSoundTarget(Render(h)) && IsPlainTarget(Render(h))
  {
    hide Parse, Render, IsTebakoPath, IsSoundTarget, IsPlainTarget, Rewritten;
    PathReads(h);
    SoundText(h);
  }

  /** The walks to l, to d, and from d to m. */
  lemma Walks(w: World, l: string, d: string, m: string, h: Path)
    requires IsSuchWorld(w, l, d, m, h)
    ensures 0 in w.images && 2 in w.images[0].nodes && 1 in w.images[0].nodes && StartsOutsideLinks(w.images[0], 0)
    ensures Meaning(w, 0, 0, One(l), true) == LinkAbsolute(Render(AbsoluteTo(d)), w.images[0].GetAttr(1))
    ensures Meaning(w, 0, 0, One(d), true) == Found(w.images[0].GetAttr(2))
    ensures StartsOutsideLinks(w.images[0], 2)
    ensures Meaning(w, 0, 2, One(m), true) == LinkAbsolute(Render(h), w.images[0].GetAttr(2))
  {
    Parts(w, l, d, m, h);
    AbsoluteReads(d);
    HostReads(h);
    hide IsSuchWorld, Parse, Render, Rewritten, Normal, IsPlainPath;
    var img := w.images[0];
    StepToLink(w, l, Render(AbsoluteTo(d)));
    WalkOne(w, 0, l, Stop(LinkAbsolute(Render(AbsoluteTo(d)), img.GetAttr(1))));
    StepToDirectory(w, d);
    WalkOne(w, 0, d, Go(Place(0, 2, [], img.GetAttr(2))));
    StepToMount(w, m, Render(h));
    WalkOne(w, 2, m, Stop(LinkAbsolute(Render(h), img.GetAttr(2))));
  }

  // ---------- The premises of the general law hold ----------

  lemma FirstImage(n: nat)
    requires n <= 2
    ensures IndexFits(COMPILED, 0) && RootInode(COMPILED, 0) == 0 && LocalFits(COMPILED, n)
  {
    hide RootInode;
    BelowPower(31);
    CompiledLayoutFits(0);
    RootIs(COMPILED, 0);
    assert Low(0, 1) == 0 by {
      assert Low(0, 0) == 0;
    }
    ShlOne(31);
  }

  lemma Mounted(w: World)
    requires w.layout == COMPILED && w.images.Keys == {0} && w.images[0].root == 0 && w.images[0].nodes.Keys == {0, 1, 2}
    ensures IsMounted(w) && Reaches(w, w.images[0].GetAttr(2)) && Owner(w, 2) == 0
  {
    hide RootInode, FsIndex, IndexFits, LocalFits;
    forall n | n in w.images[0].nodes
      ensures IndexFits(COMPILED, 0) && RootInode(COMPILED, 0) == 0 && LocalFits(COMPILED, n)
    {
      FirstImage(n);
    }
    assert 0 in w.images[0].nodes;
    GetAttrReaches(w, 0, 2);
  }

  lemma OneLinkOneMount(w: World, l: string, d: string, m: string, h: Path)
    requires IsSuchWorld(w, l, d, m, h)
    ensures forall k, n | k in w.images && n in w.images[k].nodes && w.images[k].IsLink(n) ::
              w.images[k].nodes[n] == Link(Render(AbsoluteTo(d)))
    ensures forall x | x in w.mounts :: w.mounts[x] == Host(Render(h))
  {
    Parts(w, l, d, m, h);
    hide IsSuchWorld, Render, AbsoluteTo;
    forall k, n | k in w.images && n in w.images[k].nodes && w.images[k].IsLink(n)
      ensures w.images[k].nodes[n] == Link(Render(AbsoluteTo(d)))
    {
      assert k == 0 && n == 1;
    }
    forall x | x in w.mounts
      ensures w.mounts[x] == Host(Render(h))
    {
      assert x == (2, m);
    }
  }

  lemma AllSound(w: World, target: string, host: string)
    requires forall k, n | k in w.images && n in w.images[k].nodes && w.images[k].IsLink(n) ::
               w.images[k].nodes[n] == Link(target)
    requires forall x | x in w.mounts :: w.mounts[x] == Host(host)
    requires IsPlainTarget(target) && IsSoundTarget(target) && IsPlainTarget(host) && IsSoundTarget(host)
    ensures HasSoundLinks(w)
  {
    hide IsSoundTarget, IsPlainTarget;
  }

  lemma Sound(w: World, l: string, d: string, m: string, h: Path)
    requires IsSuchWorld(w, l, d, m, h)
    ensures HasSoundLinks(w) && IsPlainPath(One(l)) && IsPlainPath(One(m))
  {
    OneLinkOneMount(w, l, d, m, h);
    AbsoluteSound(d);
    HostReads(h);
    AbsoluteReads(l);
    AbsoluteReads(m);
    hide *;
    AllSound(w, Render(AbsoluteTo(d)), Render(h));
  }

  lemma Fit(w: World, l: string, d: string, m: string, h: Path)
    requires IsSuchWorld(w, l, d, m, h)
    ensures 0 in w.images && StartsOutsideLinks(w.images[0], 0) && TextsFit(w, 0, 0, One(l), One(m))
  {
    Parts(w, l, d, m, h);
    Walks(w, l, d, m, h);
    TextsBelow(d, m);
    hide IsSuchWorld, Meaning, Parse, Render, MemfsPath, RootPath, LinkBelow, IsTebakoPath, AbsoluteTo, One;
    forall n: nat, lnk | Follows(w, 0, 0, One(l), n, lnk)
      ensures |lnk| <= PATH_LENGTH && |LinkBelow(lnk, One(m))| <= PATH_LENGTH
    {
      if n > 0 {
        assert Follows(w, 0, w.images[0].root, RootPath(Render(AbsoluteTo(d))), n - 1, lnk);
      }
    }
  }

  // ---------- The disagreement ----------

  /** open("l") leads to the directory d. openat() for m in d leads outside, and is left to the caller; open("l/m")
      looks at the host itself, and without following links gives the attributes of l. The lookups keep to all
      that `OpenAt.OpenAtIs` asks for. */
  lemma OpenDiffers(w: World, l: string, d: string, m: string, h: Path)
    requires IsSuchWorld(w, l, d, m, h)
    ensures 0 in w.images && StartsOutsideLinks(w.images[0], 0) && StartsOutsideLinks(w.images[0], 2) && Owner(w, 2) == 0
    ensures EndsWith(w, 0, 0, One(l), true, Ok(Stat(2, Directory, 0)))
    ensures EndsWith(w, 0, 2, One(m), true, Outside(Render(h)))
    ensures EndsWith(w, 0, 0, Slash(One(l), One(m)), true, HostStat(Render(h)))
    ensures !EndsWith(w, 0, 0, Slash(One(l), One(m)), true, Outside(Render(h)))
    ensures 1 in w.images[0].nodes && EndsWith(w, 0, 0, Slash(One(l), One(m)), false, Ok(w.images[0].GetAttr(1)))
  {
    Parts(w, l, d, m, h);
    Walks(w, l, d, m, h);
    TextsBelow(d, m);
    Fit(w, l, d, m, h);
    Sound(w, l, d, m, h);
    AbsoluteSound(d);
    HostReads(h);
    Mounted(w);
    hide IsSuchWorld, FindAbs, Meaning, TextsFit, HasSoundLinks, IsMounted, IsPlainPath, RootPath, MemfsPath, Parse, Render,
         Owner, IsTebakoPath, IsLinkText, IsSoundTarget, LinkBelow, AbsoluteTo, One, Slash;
    var s := w.images[0].GetAttr(2);
    var p, q := One(l), One(m);
    EndsIs(w, 0, 0, One(d), true, Ok(s));
    assert RootEnds(w, Render(AbsoluteTo(d)), Ok(s));
    EndsIs(w, 0, 0, p, true, Ok(s));
    EndsIs(w, 0, 2, q, true, Outside(Render(h)));
    OpenAtIs(w, 0, 0, p, q, true, s, HostStat(Render(h)));
    assert RepliesWith(w, 0, 0, p, q, true, s, HostStat(Render(h)));
    OpenAtIs(w, 0, 0, p, q, false, s, Ok(w.images[0].GetAttr(1)));
    OutsideNotHost(w, 0, 0, Slash(p, q), Render(h));
  }

  lemma OutsideNotHost(w: World, k: nat, start: nat, path: Path, lnk: string)
    requires k in w.images && StartsOutsideLinks(w.images[k], start) && EndsWith(w, k, start, path, true, HostStat(lnk))
    ensures !EndsWith(w, k, start, path, true, Outside(lnk))
  {
    hide EndsWith;
    if EndsWith(w, k, start, path, true, Outside(lnk)) {
      EndsOnce(w, k, start, path, true, HostStat(lnk), Outside(lnk));
    }
  }

  /** What the host then says is not routed back: a file of the host with inode number 2 is taken for d. */
  lemma HostNumberMisleads(w: World, l: string, d: string, m: string, h: Path, st: Stat)
    requires IsSuchWorld(w, l, d, m, h) && st.ino == 2 && st.kind == Regular
    ensures !Reaches(w, st) && Owner(w, st.ino) in w.images
    ensures w.images[Owner(w, st.ino)].Find(st.ino) == Some(2)
  {
    Parts(w, l, d, m, h);
    Mounted(w);
    hide IsSuchWorld, Owner, Render;
  }
}
