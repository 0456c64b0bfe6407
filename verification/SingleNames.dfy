/** Paths of a single name, relative and by their absolute text, and the walks that looking them up takes. */
module SingleNames {
  import opened Composition
  import opened Dwarfs
  import opened Lookup
  import opened OpenAt
  import opened Paths
  import opened PathText
  import opened Resolver
  import opened ResolverRuns
  import opened Wrappers

  const NAME_LENGTH: nat := 255

  predicate IsShortName(s: string) {
    IsFileName(s) && |s| <= NAME_LENGTH
  }

  function One(name: string): Path {
    Path(false, [Name(name)])
  }

  /** A name below the mount point, as an absolute path. */
  function AbsoluteTo(name: string): Path {
    Path(true, [Name(MOUNT_NAME), Name(name)])
  }

  lemma PathReads(p: Path)
    requires WellFormed(p) && IsSpelled(p.body) && NoDots(p.body) && p.body != []
    ensures Parse(Render(p)) == p && Normal(p) == p && Rewritten(Render(p), []) == p
  {
    RoundTrip(p);
    PlainNormal(p);
    hide Parse, Render, Normal;
  }

  lemma AbsoluteReads(d: string)
    requires IsShortName(d)
    ensures Rewritten(Render(AbsoluteTo(d)), []) == AbsoluteTo(d) && Parse(Render(AbsoluteTo(d))) == AbsoluteTo(d)
    ensures Normal(AbsoluteTo(d)) == AbsoluteTo(d) && IsPlainPath(One(d))
  {
    MountNameIsName();
    hide Parse, Render, Normal, Rewritten;
    PathReads(AbsoluteTo(d));
  }

  lemma MountNameIsName()
    ensures IsFileName(MOUNT_NAME) && |MOUNT_NAME| <= NAME_LENGTH
  {
  }

  lemma StepToLink(w: World, l: string, target: string)
    requires 0 in w.images && w.images[0].root == 0 && 0 in w.images[0].nodes && (0, l) !in w.mounts
    requires w.images[0].Lookup(0, l) == Some(1) && w.images[0].nodes[1] == Link(target)
    requires Rewritten(target, []).rooted && Render(Rewritten(target, [])) == target
    ensures Step(w, Place(0, 0, [Name(l)], w.images[0].GetAttr(0)), true) ==
            Stop(LinkAbsolute(target, w.images[0].GetAttr(1)))
  {
    hide Rewritten, Render;
    assert [Name(l)][1..] == [];
  }

  lemma StepToDirectory(w: World, d: string)
    requires 0 in w.images && w.images[0].root == 0 && 0 in w.images[0].nodes && (0, d) !in w.mounts
    requires w.images[0].Lookup(0, d) == Some(2) && !w.images[0].IsLink(2)
    ensures Step(w, Place(0, 0, [Name(d)], w.images[0].GetAttr(0)), true) == Go(Place(0, 2, [], w.images[0].GetAttr(2)))
  {
    hide Rewritten, Render;
  }

  lemma StepToMount(w: World, m: string, target: string)
    requires 0 in w.images && w.images[0].root == 0 && 2 in w.images[0].nodes
    requires (2, m) in w.mounts && w.mounts[(2, m)] == Host(target)
    requires Rewritten(target, []).rooted && Render(Rewritten(target, [])) == target
    ensures Step(w, Place(0, 2, [Name(m)], w.images[0].GetAttr(2)), true) ==
            Stop(LinkAbsolute(target, w.images[0].GetAttr(2)))
  {
    hide Rewritten, Render;
    assert [Name(m)][1..] == [];
  }

  lemma WalkOne(w: World, start: nat, name: string, next: Next)
    requires 0 in w.images && start in w.images[0].nodes && w.images[0].Find(start) == Some(start)
    requires !w.images[0].IsLink(start)
    requires Step(w, Place(0, start, [Name(name)], w.images[0].GetAttr(start)), true) == next
    requires next.Go? ==> next.to.rest == []
    ensures StartsOutsideLinks(w.images[0], start)
    ensures Meaning(w, 0, start, One(name), true) == if next.Go? then Found(next.to.st) else next.out
  {
    hide Step, Meaning;
    var c, p := Place(0, start, [Name(name)], w.images[0].GetAttr(start)), One(name);
    assert Components(p) == p.body;
    FromPlace(w, 0, start, p, c, true, 1);
    OneStep(w, c, true, 1);
    if next.Go? {
      OneEnd(w, next.to, true, 0);
    }
    MeaningIs(w, 0, start, p, true, 1);
  }

  lemma SoundText(p: Path)
    requires p.rooted && WellFormed(p) && IsSpelled(p.body) && NoDots(p.body) && IsSoundRoot(p)
    ensures IsLinkText(Render(p)) && IsSoundTarget(Render(p)) && IsPlainTarget(Render(p))
    ensures IsTebakoPath(Render(p)) <==> p.body[0] == Name(MOUNT_NAME)
  {
    PathReads(p);
    hide Parse, Render, Normal, IsTebakoPath, Rewritten, WellFormed, IsSpelled, NoDots, IsSoundRoot;
    TebakoRoot(p);
  }

  lemma AbsoluteSound(d: string)
    requires IsShortName(d)
    ensures IsLinkText(Render(AbsoluteTo(d))) && IsTebakoPath(Render(AbsoluteTo(d)))
    ensures IsSoundTarget(Render(AbsoluteTo(d))) && IsPlainTarget(Render(AbsoluteTo(d)))
  {
    MountNameIsName();
    hide Render, IsTebakoPath, IsLinkText, IsSoundTarget, IsPlainTarget, IsFileName;
    SoundText(AbsoluteTo(d));
  }

  lemma ShortTexts(d: string, m: string)
    requires IsShortName(d) && IsShortName(m)
    ensures |Render(AbsoluteTo(d))| <= PATH_LENGTH && |Render(Slash(AbsoluteTo(d), One(m)))| <= PATH_LENGTH
  {
    hide Render, IsFileName;
    MountNameIsName();
    SlashIs(AbsoluteTo(d), One(m));
    assert Strip(AbsoluteTo(d).body) == AbsoluteTo(d).body;
    ShortPath(AbsoluteTo(d));
    ShortPath(Path(true, AbsoluteTo(d).body + One(m).body));
  }

  lemma TextsBelow(d: string, m: string)
    requires IsShortName(d) && IsShortName(m)
    ensures |Render(AbsoluteTo(d))| <= PATH_LENGTH && |LinkBelow(Render(AbsoluteTo(d)), One(m))| <= PATH_LENGTH
    ensures |MemfsPath(Render(AbsoluteTo(d)))| >= MOUNT_POINT_LENGTH && RootPath(Render(AbsoluteTo(d))) == One(d)
  {
    AbsoluteReads(d);
    AbsoluteSound(d);
    ShortTexts(d, m);
    hide Parse, Render, Normal, MemfsPath, RootPath, IsFileName, Slash, IsLinkText, IsTebakoPath, IsPlainPath;
    RootPathIs(Render(AbsoluteTo(d)));
    assert AbsoluteTo(d).body[1..] == [Name(d)];
  }

  lemma ShortPath(p: Path)
    requires p.rooted && 0 < |p.body| <= 3 && forall i | 0 <= i < |p.body| :: |Text(p.body[i])| <= NAME_LENGTH
    ensures |Render(p)| <= PATH_LENGTH
  {
    var b := p.body;
    assert |RenderBody(b)| <= NAME_LENGTH + 1 + |RenderBody(b[1..])|;
    if |b| > 1 {
      assert |RenderBody(b[1..])| <= NAME_LENGTH + 1 + |RenderBody(b[1..][1..])|;
    }
  }
}
