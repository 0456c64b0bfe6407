/** Why the composition law asks for paths without dots: a `..` behind a link takes back the last component of the
    link's target, not the last component of where the link leads. */
module Dots {
  import opened Composition
  import opened Dwarfs
  import opened Paths
  import opened PathText
  import opened Resolver
  import opened ResolverRuns
  import opened SingleNames
  import opened Wrappers

  const UP: Path := Path(false, [DotDot])

  /** The root holds the links l -> b and b -> c/d, and the directory c, which holds the directory d. */
  function ImageWith(l: string, b: string, c: string, d: string): Image {
    Image(0, map[
      0 := Dir(map[l := 1, b := 2, c := 3, "." := 0], []),
      1 := Link(Render(One(b))),
      2 := Link(Render(Path(false, [Name(c), Name(d)]))),
      3 := Dir(map[d := 4], []),
      4 := Dir(map[".." := 3], [])])
  }

  predicate IsSuchWorld(w: World, l: string, b: string, c: string, d: string) {
    && IsFileName(l) && IsFileName(b) && IsFileName(c) && IsFileName(d) && l != b && l != c && b != c
    && w.images == map[0 := ImageWith(l, b, c, d)] && w.mounts == map[]
  }

  /** There are such worlds. */
  lemma SuchWorld() returns (w: World)
    ensures IsSuchWorld(w, "l", "b", "c", "d")
  {
    hide Render;
    w := WorldData(Inodes.COMPILED, map[0 := ImageWith("l", "b", "c", "d")], map[]);
  }

  lemma Parts(w: World, l: string, b: string, c: string, d: string)
    requires IsSuchWorld(w, l, b, c, d)
    ensures w.images.Keys == {0} && w.mounts == map[]
    ensures var img := w.images[0];
            && img.root == 0 && img.nodes.Keys == {0, 1, 2, 3, 4}
            && img.nodes[1] == Link(Render(One(b))) && img.nodes[2] == Link(Render(Path(false, [Name(c), Name(d)])))
            && !img.IsLink(0) && !img.IsLink(3) && !img.IsLink(4)
            && img.Lookup(0, l) == Some(1) && img.Lookup(0, b) == Some(2) && img.Lookup(0, c) == Some(3)
            && img.Lookup(0, ".") == Some(0) && img.Lookup(3, d) == Some(4) && img.Lookup(4, "..") == Some(3)
            && forall n | n in img.nodes :: img.Find(n) == Some(n) && img.GetAttr(n).ino == n
    ensures w.images[0].GetAttr(4).kind == Directory
  {
    hide Render;
  }

  /** A step past a child that is no link. */
  lemma StepChild(w: World, c: Place, child: nat)
    requires IsPlace(w, c) && !AtEnd(c) && w.mounts == map[]
    requires w.images[c.k].Lookup(Key(w, c).0, Key(w, c).1) == Some(child) && !w.images[c.k].IsLink(child)
    ensures Step(w, c, true) == Go(Place(c.k, child, c.rest[1..], w.images[c.k].GetAttr(child)))
  {
  }

  /** A step into a link with a relative target. */
  lemma StepLink(w: World, c: Place, child: nat, rest: seq<Elem>)
    requires IsPlace(w, c) && !AtEnd(c) && w.mounts == map[]
    requires w.images[c.k].Lookup(Key(w, c).0, Key(w, c).1) == Some(child) && w.images[c.k].IsLink(child)
    requires Rewritten(w.images[c.k].nodes[child].target, c.rest[1..]) == Path(false, rest)
    ensures Step(w, c, true) == Go(Place(c.k, c.dir, rest, w.images[c.k].GetAttr(child)))
  {
    hide Rewritten;
  }

  lemma TargetsRead(b: string, c: string, d: string)
    requires IsFileName(b) && IsFileName(c) && IsFileName(d)
    ensures Rewritten(Render(One(b)), []) == One(b)
    ensures Rewritten(Render(Path(false, [Name(c), Name(d)])), []) == Path(false, [Name(c), Name(d)])
    ensures Rewritten(Render(One(b)), [DotDot]) == Path(false, [Dot])
    ensures IsPlainTarget(Render(One(b))) && IsPlainTarget(Render(Path(false, [Name(c), Name(d)])))
  {
    hide Parse, Render, IsFileName;
    PathReads(One(b)) by {
      assert IsFileName(b);
    }
    PathReads(Path(false, [Name(c), Name(d)]));
    AppendAllIs(One(b), [DotDot]);
    assert Strip(One(b).body) + [DotDot] == [Name(b), DotDot];
    UpToDot(b);
  }

  lemma UpToDot(b: string)
    ensures Normal(Path(false, [Name(b), DotDot])) == Path(false, [Dot])
  {
    SquashLast([], [], Name(b), false);
    SquashLast([], [Name(b)], DotDot, false);
    assert [] + [Name(b)] == [Name(b)] && [Name(b)] + [DotDot] == [Name(b), DotDot];
    assert Front([Name(b)]) == [];
  }

  lemma Run(w: World, c: Place, n: nat, out: Outcome)
    requires IsPlace(w, c) && !AtEnd(c) && Step(w, c, true).Go? && Resolve(w, Step(w, c, true).to, true, n) == out
    ensures Resolve(w, c, true, n + 1) == out
  {
    hide Step;
  }

  lemma Started(w: World, start: nat, p: Path, n: nat, out: Outcome)
    requires 0 in w.images && start in w.images[0].nodes && w.images[0].Find(start) == Some(start) && !w.images[0].IsLink(start)
    requires !p.rooted && out != Running && Resolve(w, Place(0, start, p.body, w.images[0].GetAttr(start)), true, n) == out
    ensures StartsOutsideLinks(w.images[0], start) && Meaning(w, 0, start, p, true) == out
  {
    hide Resolve, Meaning;
    assert Components(p) == p.body;
    FromPlace(w, 0, start, p, Place(0, start, p.body, w.images[0].GetAttr(start)), true, n);
    MeaningIs(w, 0, start, p, true, n);
  }

  /** A path of one component, at a link that becomes `rest`, from which the walk goes on. */
  lemma RunLink(w: World, name: string, child: nat, more: seq<Elem>, rest: seq<Elem>, st: Stat, n: nat, out: Outcome)
    requires 0 in w.images && 0 in w.images[0].nodes && w.images[0].root == 0 && w.mounts == map[]
    requires w.images[0].Lookup(0, name) == Some(child) && w.images[0].IsLink(child)
    requires Rewritten(w.images[0].nodes[child].target, more) == Path(false, rest)
    requires Resolve(w, Place(0, 0, rest, w.images[0].GetAttr(child)), true, n) == out
    ensures Resolve(w, Place(0, 0, [Name(name)] + more, st), true, n + 1) == out
  {
    hide Rewritten, Step, Resolve;
    var c := Place(0, 0, [Name(name)] + more, st);
    assert c.rest[1..] == more;
    StepLink(w, c, child, rest);
    Run(w, c, n, out);
  }

  /** A component at a child that is no link. */
  lemma RunChild(w: World, dir: nat, e: Elem, child: nat, more: seq<Elem>, st: Stat, n: nat, out: Outcome)
    requires 0 in w.images && dir in w.images[0].nodes && w.images[0].root == 0 && w.mounts == map[] && e != Empty
    requires w.images[0].Lookup(dir, Text(e)) == Some(child) && !w.images[0].IsLink(child)
    requires Resolve(w, Place(0, child, more, w.images[0].GetAttr(child)), true, n) == out
    ensures Resolve(w, Place(0, dir, [e] + more, st), true, n + 1) == out
  {
    hide Step, Resolve;
    var c := Place(0, dir, [e] + more, st);
    assert c.rest[1..] == more;
    StepChild(w, c, child);
    Run(w, c, n, out);
  }

  lemma RunEnd(w: World, dir: nat, st: Stat)
    requires 0 in w.images && dir in w.images[0].nodes
    ensures Resolve(w, Place(0, dir, [], st), true, 0) == Found(st)
  {
  }

  lemma ToDirectory(w: World, l: string, b: string, c: string, d: string)
    requires IsSuchWorld(w, l, b, c, d)
    ensures 0 in w.images && 4 in w.images[0].nodes && StartsOutsideLinks(w.images[0], 0)
    ensures Meaning(w, 0, 0, One(l), true) == Found(w.images[0].GetAttr(4))
  {
    Parts(w, l, b, c, d);
    TargetsRead(b, c, d);
    hide *;
    var img := w.images[0];
    var s := img.GetAttr(4);
    RunEnd(w, 4, s);
    RunChild(w, 3, Name(d), 4, [], img.GetAttr(3), 0, Found(s));
    assert [Name(d)] + [] == [Name(d)] && [Name(c)] + [Name(d)] == [Name(c), Name(d)] && [Name(b)] + [] == [Name(b)];
    assert Text(Name(d)) == d && Text(Name(c)) == c by { NameTexts(c); NameTexts(d); }
    assert [Name(l)] + [] == [Name(l)] && One(l).body == [Name(l)] && !One(l).rooted by { OneBody(l); }
    assert One(b) == Path(false, [Name(b)]) by { OneBody(b); }
    RunChild(w, 0, Name(c), 3, [Name(d)], img.GetAttr(2), 1, Found(s));
    RunLink(w, b, 2, [], [Name(c), Name(d)], img.GetAttr(1), 2, Found(s));
    RunLink(w, l, 1, [], [Name(b)], img.GetAttr(0), 3, Found(s));
    Started(w, 0, One(l), 4, Found(s));
  }

  lemma NameTexts(name: string)
    ensures Text(Name(name)) == name && Text(Dot) == "." && Text(DotDot) == ".."
  {
  }

  lemma OneBody(name: string)
    ensures One(name) == Path(false, [Name(name)]) && UP == Path(false, [DotDot])
    ensures Slash(One(name), UP) == Path(false, [Name(name), DotDot])
  {
    SlashIs(One(name), UP);
    assert Strip(One(name).body) + [DotDot] == [Name(name), DotDot];
  }

  lemma FromLink(w: World, l: string, b: string, c: string, d: string)
    requires IsSuchWorld(w, l, b, c, d)
    ensures 0 in w.images && 0 in w.images[0].nodes && StartsOutsideLinks(w.images[0], 0)
    ensures Meaning(w, 0, 0, Slash(One(l), UP), true) == Found(w.images[0].GetAttr(0))
  {
    Parts(w, l, b, c, d);
    TargetsRead(b, c, d);
    OneBody(l);
    NameTexts(l);
    hide *;
    var img := w.images[0];
    var s := img.GetAttr(0);
    RunEnd(w, 0, s);
    assert [Dot] + [] == [Dot] && [Name(l)] + [DotDot] == [Name(l), DotDot];
    RunChild(w, 0, Dot, 0, [], img.GetAttr(1), 0, Found(s));
    RunLink(w, l, 1, [DotDot], [Dot], img.GetAttr(0), 1, Found(s));
    Started(w, 0, Slash(One(l), UP), 2, Found(s));
  }

  lemma FromDirectory(w: World, l: string, b: string, c: string, d: string)
    requires IsSuchWorld(w, l, b, c, d)
    ensures 0 in w.images && 3 in w.images[0].nodes && StartsOutsideLinks(w.images[0], 4)
    ensures Meaning(w, 0, 4, UP, true) == Found(w.images[0].GetAttr(3))
  {
    Parts(w, l, b, c, d);
    OneBody(l);
    NameTexts(l);
    hide *;
    var img := w.images[0];
    var s := img.GetAttr(3);
    RunEnd(w, 3, s);
    assert [DotDot] + [] == [DotDot];
    RunChild(w, 4, DotDot, 3, [], img.GetAttr(4), 0, Found(s));
    Started(w, 4, UP, 1, Found(s));
  }

  lemma PlainTargets(w: World, l: string, b: string, c: string, d: string)
    requires IsSuchWorld(w, l, b, c, d)
    ensures HasPlainLinks(w)
  {
    Parts(w, l, b, c, d);
    TargetsRead(b, c, d);
    var one, two := Render(One(b)), Render(Path(false, [Name(c), Name(d)]));
    hide *;
    forall k, n | k in w.images && n in w.images[k].nodes && w.images[k].IsLink(n)
      ensures w.images[k].nodes[n].Link? && IsPlainTarget(w.images[k].nodes[n].target)
    {
      assert k == 0 && (n == 1 || n == 2);
      if n == 1 {
        assert w.images[k].nodes[n] == Link(one);
      } else {
        assert w.images[k].nodes[n] == Link(two);
      }
    }
    AllPlain(w);
  }

  lemma AllPlain(w: World)
    requires w.mounts == map[]
    requires forall k, n | k in w.images && n in w.images[k].nodes && w.images[k].IsLink(n) ::
               w.images[k].nodes[n].Link? && IsPlainTarget(w.images[k].nodes[n].target)
    ensures HasPlainLinks(w)
  {
    hide IsPlainTarget;
  }

  /** All targets are plain, and l leads to the directory d. From there `..` leads to c; l/.. leads to the root. */
  lemma DotsBreakComposition(w: World, l: string, b: string, c: string, d: string)
    requires IsSuchWorld(w, l, b, c, d)
    ensures HasPlainLinks(w) && 0 in w.images && {0, 3, 4} <= w.images[0].nodes.Keys
    ensures LeadsTo(w, 0, 0, One(l), true, w.images[0].GetAttr(4)) && StartsOutsideLinks(w.images[0], 4)
    ensures Meaning(w, 0, 4, UP, true) == Found(w.images[0].GetAttr(3))
    ensures Meaning(w, 0, 0, Slash(One(l), UP), true) == Found(w.images[0].GetAttr(0))
    ensures w.images[0].GetAttr(0) != w.images[0].GetAttr(3)
  {
    Parts(w, l, b, c, d);
    ToDirectory(w, l, b, c, d);
    FromLink(w, l, b, c, d);
    FromDirectory(w, l, b, c, d);
    PlainTargets(w, l, b, c, d);
    PlainOne(l);
    hide IsSuchWorld, Parse, Render, Meaning, IsPlainTarget, Slash, HasPlainLinks, One, NoDots;
  }

  lemma PlainOne(l: string)
    ensures WellFormed(One(l)) && !One(l).rooted && NoDots(One(l).body)
  {
  }
}
