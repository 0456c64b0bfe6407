/** What the target of a link says, dots and all: where a walk goes on behind a link, and which targets mean the same. */
module Targets {
  import opened Dwarfs
  import opened Paths
  import opened PathText
  import opened Resolver
  import opened ResolverRuns
  import opened Wrappers

  // ---------- One link ----------

  /** The component at `d` stands for `target`: a host mount, or a link that is to be entered. */
  predicate StandsFor(w: World, d: Place, follow: bool, target: string)
    requires IsPlace(w, d)
  {
    && !AtEnd(d)
    && if Key(w, d) in w.mounts then w.mounts[Key(w, d)] == Host(target)
       else
         var child := w.images[d.k].Lookup(Key(w, d).0, Key(w, d).1);
         child.Some? && w.images[d.k].nodes[child.value] == Link(target) && (d.rest[1..] != [] || follow)
  }

  /** For every target and every rest, dots included: a relative target is gone on with in the same directory, an
      absolute one is reported. Either way the path is normal, ends as the rest behind the target does, and its
      components, entered one after the other from any directory (an absolute path's from the root), come to where
      those of the target and of the rest come to. */
  lemma LinkEntered(w: World, d: Place, follow: bool, target: string)
    requires IsPlace(w, d) && IsTail(d.rest) && IsSpelled(d.rest) && StandsFor(w, d, follow, target)
    ensures var es := Parse(target).body + d.rest[1..];
            match Step(w, d, follow)
            case Go(to) =>
              && !("/" <= target) && to.k == d.k && to.dir == d.dir
              && IsNormal(Path(false, to.rest)) && EndsLike(to.rest, es)
              && forall s | IsKept(s, true) :: Squash(s, to.rest, true) == Squash(s, es, true)
            case Stop(LinkAbsolute(lnk, _)) =>
              && "/" <= target && "/" <= lnk
              && IsNormal(Parse(lnk)) && EndsLike(Parse(lnk).body, es)
              && Squash([], Parse(lnk).body, true) == Squash([], es, true)
            case _ => false
  {
    var tail := d.rest[1..];
    assert IsTail(tail) && IsSpelled(tail);
    var p := Rewritten(target, tail);
    RewrittenIs(target, tail);
    if p.rooted {
      RewrittenReads(target, tail);
    }
    hide Rewritten, Parse, IsNormal, IsKept, Squash, IsTail, IsSpelled, Step, StandsFor;
    var st := StepSplices(w, d, follow, target);
    assert p == Path(p.rooted, p.body);
  }

  lemma StepSplices(w: World, d: Place, follow: bool, target: string) returns (st: Stat)
    requires IsPlace(w, d) && StandsFor(w, d, follow, target)
    ensures Step(w, d, follow) == Splice(d.k, d.dir, target, d.rest[1..], st)
  {
    hide Splice;
    var key := Key(w, d);
    st := if key in w.mounts then d.st else w.images[d.k].GetAttr(w.images[d.k].Lookup(key.0, key.1).value);
  }

  /** Both end in the same name, or neither ends in a name. */
  predicate EndsLike(a: seq<Elem>, b: seq<Elem>) {
    if b != [] && Last(b).Name? then a != [] && Last(a) == Last(b) else a == [] || !Last(a).Name?
  }

  lemma RewrittenReads(target: string, tail: seq<Elem>)
    requires IsTail(tail) && IsSpelled(tail) && Rewritten(target, tail).rooted
    ensures Parse(Render(Rewritten(target, tail))) == Rewritten(target, tail) && "/" <= Render(Rewritten(target, tail))
  {
    var t := Parse(target);
    ParseShape(target);
    AppendAllIs(t, tail);
    NormalReadsBack(AppendAll(t, tail));
  }

  // ---------- Targets with the same normal form ----------

  predicate SameTarget(t: string, t': string) {
    Normal(Parse(t)) == Normal(Parse(t'))
  }

  predicate SameNode(a: Node, b: Node) {
    if a.Link? && b.Link? then SameTarget(a.target, b.target) else a == b
  }

  ghost predicate SameImage(a: Image, b: Image) {
    a.root == b.root && a.nodes.Keys == b.nodes.Keys && forall n | n in a.nodes :: SameNode(a.nodes[n], b.nodes[n])
  }

  predicate SameMount(a: Target, b: Target) {
    if a.Host? && b.Host? then SameTarget(a.text, b.text) else a == b
  }

  /** Worlds that differ in nothing but how the targets of their links and host mounts are written. */
  ghost predicate SameWorld(w: World, v: World) {
    && w.layout == v.layout
    && w.images.Keys == v.images.Keys && (forall k | k in w.images :: SameImage(w.images[k], v.images[k]))
    && w.mounts.Keys == v.mounts.Keys && (forall m | m in w.mounts :: SameMount(w.mounts[m], v.mounts[m]))
  }

  /** The same but for the size of a link, which is that of its target. */
  predicate SameStat(a: Stat, b: Stat) {
    a.ino == b.ino && a.kind == b.kind && (a.kind == Symlink || a.size == b.size)
  }

  predicate SameOutcome(a: Outcome, b: Outcome) {
    match (a, b)
    case (Found(st), Found(st')) => SameStat(st, st')
    case (LinkAbsolute(lnk, st), LinkAbsolute(lnk', st')) => lnk == lnk' && SameStat(st, st')
    case _ => a == b
  }

  predicate SamePlace(c: Place, d: Place) {
    c.k == d.k && c.dir == d.dir && c.rest == d.rest && SameStat(c.st, d.st)
  }

  predicate SameNext(a: Next, b: Next) {
    match (a, b)
    case (Go(c), Go(d)) => SamePlace(c, d) && IsTail(c.rest)
    case (Stop(out), Stop(out')) => SameOutcome(out, out')
    case _ => false
  }

  /** Whatever is behind it, a target and its normal form are rewritten alike. */
  lemma RewrittenSame(t: string, t': string, tail: seq<Elem>)
    requires SameTarget(t, t') && IsTail(tail)
    ensures Rewritten(t, tail) == Rewritten(t', tail)
    ensures !Rewritten(t, tail).rooted ==> IsTail(Rewritten(t, tail).body)
  {
    RewrittenSlash(t, tail);
    RewrittenSlash(t', tail);
    hide Parse;
    if AppendAll(Parse(t), tail) != EMPTY_PATH {
      NormalFacts(AppendAll(Parse(t), tail));
    }
  }

  lemma RewrittenSlash(t: string, tail: seq<Elem>)
    requires IsTail(tail)
    ensures Rewritten(t, tail) ==
            if tail == [] then Normal(Parse(t))
            else Normal(Slash(Normal(Parse(t)), if tail == [Empty] then EMPTY_PATH else Path(false, tail)))
  {
    var p, q := Parse(t), if tail == [Empty] then EMPTY_PATH else Path(false, tail);
    if tail != [] {
      AppendAllIs(p, tail);
      if tail != [Empty] {
        assert tail[0] == Empty ==> |tail| == 1;
        SlashIs(p, q);
      }
      NormalSlashLeft(p, q);
    }
  }

  lemma SpliceSame(k: nat, dir: nat, t: string, t': string, tail: seq<Elem>, st: Stat, st': Stat)
    requires SameTarget(t, t') && IsTail(tail) && SameStat(st, st')
    ensures SameNext(Splice(k, dir, t, tail, st), Splice(k, dir, t', tail, st'))
  {
    hide Rewritten, Render, IsTail, SameTarget;
    RewrittenSame(t, t', tail);
  }

  lemma AttrSame(a: Image, b: Image, n: nat)
    requires SameImage(a, b) && n in a.nodes
    ensures SameStat(a.GetAttr(n), b.GetAttr(n)) && (a.IsLink(n) <==> b.IsLink(n))
  {
    assert SameNode(a.nodes[n], b.nodes[n]);
    hide SameTarget;
  }

  lemma LookupSame(a: Image, b: Image, ino: nat, name: string)
    requires SameImage(a, b)
    ensures a.Find(ino) == b.Find(ino) && a.Lookup(ino, name) == b.Lookup(ino, name)
  {
    var dir := a.Find(ino);
    if dir.Some? {
      assert SameNode(a.nodes[dir.value], b.nodes[dir.value]);
    }
  }

  lemma EnterSame(w: World, v: World, k: nat, start: nat, path: Path)
    requires SameWorld(w, v) && k in w.images && IsTail(Components(path))
    ensures SameNext(Enter(w, k, start, path), Enter(v, k, start, path))
  {
    hide SameNode, Components;
    assert SameImage(w.images[k], v.images[k]);
    var n := w.images[k].Find(start);
    if n.Some? {
      AttrSame(w.images[k], v.images[k], n.value);
    }
  }

  lemma EnteredTail(tail: seq<Elem>)
    requires IsTail(tail)
    ensures IsTail(Components(AppendAll(EMPTY_PATH, tail)))
  {
    AppendAllIs(EMPTY_PATH, tail);
    assert [] + tail == tail;
  }

  lemma StepSame(w: World, v: World, c: Place, d: Place, follow: bool)
    requires SameWorld(w, v) && SamePlace(c, d) && IsPlace(w, c) && IsTail(c.rest) && !AtEnd(c)
    ensures IsPlace(v, d) && SameNext(Step(w, c, follow), Step(v, d, follow))
  {
    hide Splice, Enter, SameTarget, SameStat;
    assert SameImage(w.images[c.k], v.images[c.k]);
    var key, tail := Key(w, c), c.rest[1..];
    assert IsTail(tail);
    hide IsTail;
    if key in w.mounts {
      MountSame(w, v, c, d, w.mounts[key], v.mounts[key]);
    } else {
      ChildSame(w, v, c, d, follow);
    }
  }

  lemma MountSame(w: World, v: World, c: Place, d: Place, m: Target, m': Target)
    requires SameWorld(w, v) && SamePlace(c, d) && IsPlace(w, c) && IsPlace(v, d) && c.rest != [] && IsTail(c.rest[1..])
    requires SameMount(m, m')
    ensures SameNext(ViaMount(w, c.k, c.dir, m, c.rest[1..], c.st), ViaMount(v, c.k, c.dir, m', c.rest[1..], d.st))
  {
    hide Splice, Enter, SameTarget, SameStat, IsTail, SameImage;
    var tail := c.rest[1..];
    match m {
      case Host(text) => SpliceSame(c.k, c.dir, text, m'.text, tail, c.st, d.st);
      case Memfs(j) =>
        EnteredTail(tail);
        if j in w.images {
          assert SameImage(w.images[j], v.images[j]);
          assert w.images[j].root == v.images[j].root by { RootSame(w.images[j], v.images[j]); }
          EnterSame(w, v, j, w.images[j].root, AppendAll(EMPTY_PATH, tail));
        }
    }
  }

  lemma RootSame(a: Image, b: Image)
    requires SameImage(a, b)
    ensures a.root == b.root && a.nodes.Keys == b.nodes.Keys
  {
  }

  lemma ChildSame(w: World, v: World, c: Place, d: Place, follow: bool)
    requires SameWorld(w, v) && SamePlace(c, d) && IsPlace(w, c) && IsPlace(v, d) && !AtEnd(c) && IsTail(c.rest[1..])
    requires Key(w, c) !in w.mounts && Key(w, c) == Key(v, d)
    ensures SameNext(Step(w, c, follow), Step(v, d, follow))
  {
    hide Splice, SameTarget, SameStat, IsTail;
    var img, img', key, tail := w.images[c.k], v.images[c.k], Key(w, c), c.rest[1..];
    assert SameImage(img, img');
    LookupSame(img, img', key.0, key.1);
    var child := img.Lookup(key.0, key.1);
    if child.Some? {
      AttrSame(img, img', child.value);
      assert SameNode(img.nodes[child.value], img'.nodes[child.value]);
      if img.IsLink(child.value) && (tail != [] || follow) {
        SpliceSame(c.k, c.dir, img.nodes[child.value].target, img'.nodes[child.value].target, tail,
                   img.GetAttr(child.value), img'.GetAttr(child.value));
      }
    }
  }

  lemma {:induction false} ResolveSame(w: World, v: World, c: Place, d: Place, follow: bool, n: nat)
    requires SameWorld(w, v) && SamePlace(c, d) && IsPlace(w, c) && IsPlace(v, d) && IsTail(c.rest)
    ensures SameOutcome(Resolve(w, c, follow, n), Resolve(v, d, follow, n))
    decreases n
  {
    hide Step, SameWorld, SameStat, IsTail;
    if AtEnd(c) {
      OneEnd(w, c, follow, n);
      OneEnd(v, d, follow, n);
    } else {
      OneStep(w, c, follow, n);
      OneStep(v, d, follow, n);
      StepSame(w, v, c, d, follow);
      var next := Step(w, c, follow);
      if n > 0 && next.Go? {
        ResolveSame(w, v, next.to, Step(v, d, follow).to, follow, n - 1);
      }
    }
  }

  /** How targets are written makes no difference: a lookup has the same outcome, the size of links aside, in all
      worlds whose targets have the same normal forms. */
  lemma TargetsAsNormal(w: World, v: World, k: nat, start: nat, p: Path, follow: bool)
    requires SameWorld(w, v) && k in w.images && StartsOutsideLinks(w.images[k], start)
    requires WellFormed(p) && !p.rooted
    ensures k in v.images && StartsOutsideLinks(v.images[k], start)
    ensures SameOutcome(Meaning(w, k, start, p, follow), Meaning(v, k, start, p, follow))
  {
    hide Resolve, Meaning;
    assert SameImage(w.images[k], v.images[k]);
    StartSame(w.images[k], v.images[k], start);
    assert Components(p) == p.body;
    EnterSame(w, v, k, start, p);
    hide SameWorld, IsTail, WellFormed, Enter;
    forall n: nat
      ensures SameOutcome(ResolveFrom(w, k, start, p, follow, n), ResolveFrom(v, k, start, p, follow, n))
    {
      var next := Enter(w, k, start, p);
      if next.Go? {
        ResolveSame(w, v, next.to, Enter(v, k, start, p).to, follow, n);
      }
    }
    if Meaning(w, k, start, p, follow) != Running {
      var n := MeaningReached(w, k, start, p, follow);
      MeaningIs(v, k, start, p, follow, n);
    } else if Meaning(v, k, start, p, follow) != Running {
      var n := MeaningReached(v, k, start, p, follow);
      MeaningIs(w, k, start, p, follow, n);
    }
  }

  lemma StartSame(a: Image, b: Image, start: nat)
    requires SameImage(a, b)
    ensures StartsOutsideLinks(a, start) <==> StartsOutsideLinks(b, start)
  {
    LookupSame(a, b, start, "");
    var n := a.Find(start);
    if n.Some? {
      AttrSame(a, b, n.value);
    }
  }

  // ---------- Targets that mean the same ----------

  /** A relative target means the same behind `./`, behind any name and `/../`, and written in its normal form. */
  lemma SameTargets(t: string, name: string)
    requires t != "" && t[0] != '/' && IsFileName(name)
    ensures SameTarget("./" + t, t) && SameTarget(name + "/../" + t, t) && SameTarget(Render(Normal(Parse(t))), t)
  {
    BehindDot(t);
    BehindNameUp(t, name);
    ParseShape(t);
    NormalReadsBack(Parse(t));
    NormalIdempotent(Parse(t));
    hide Parse, Normal;
  }

  lemma BehindDot(t: string)
    requires t != "" && t[0] != '/'
    ensures SameTarget("./" + t, t)
  {
    hide Normal, BodyElements;
    OneMore(".", t);
    assert "./" + t == "." + "/" + t;
    var b := Parse(t).body;
    assert [] + b == b && [] + [Dot] + b == [Dot] + b;
    NormalRules(false, [], "", b);
  }

  lemma BehindNameUp(t: string, name: string)
    requires t != "" && t[0] != '/' && IsFileName(name)
    ensures SameTarget(name + "/../" + t, t)
  {
    hide Normal, BodyElements;
    var b, up := Parse(t).body, "../" + t;
    OneMore("..", t);
    assert up == ".." + "/" + t;
    OneMore(name, up);
    assert name + "/../" + t == name + "/" + up;
    assert [Name(name)] + ([DotDot] + b) == [] + [Name(name), DotDot] + b && [] + b == b;
    NormalRules(false, [], name, b);
  }

  lemma OneMore(name: string, t: string)
    requires (IsFileName(name) || name == "." || name == "..") && t != "" && t[0] != '/'
    ensures Parse(name + "/" + t) == Path(false, [Classify(name)] + Parse(t).body)
    ensures Parse(t) == Path(false, Parse(t).body) && Parse(t).body != []
  {
    ParseShape(t);
    assert name + "/" + t == name + ("/" + t);
    BodyCons(name, "/" + t);
    OneSeparator(t);
    assert (name + "/" + t)[0] == name[0];
    hide BodyElements, SkipSeparators;
  }

  lemma OneSeparator(t: string)
    requires t != "" && t[0] != '/'
    ensures SkipSeparators("/" + t) == t
  {
    assert ("/" + t)[1..] == t;
  }

  /** A target that comes to the directory that holds it: with something behind it the walk goes on with that, but at
      the end of a path it looks up the name `.` there. */
  lemma OwnDirectory(w: World, d: Place, follow: bool, target: string)
    requires IsPlace(w, d) && StandsFor(w, d, follow, target) && Normal(Parse(target)) == Path(false, [Dot])
    requires IsTail(d.rest[1..]) && IsNormal(Path(false, d.rest[1..]))
    ensures var rest := if d.rest[1..] == [] then [Dot] else d.rest[1..];
            exists st :: Step(w, d, follow) == Go(Place(d.k, d.dir, rest, st))
  {
    var tail := d.rest[1..];
    RewrittenSlash(target, tail);
    if tail != [] {
      DotBehind(tail);
    }
    hide Rewritten, Step, StandsFor, Normal, Parse, Slash, IsNormal, IsTail;
    var st := StepSplices(w, d, follow, target);
  }

  lemma DotBehind(tail: seq<Elem>)
    requires IsTail(tail) && tail != [] && IsNormal(Path(false, tail))
    ensures tail != [Empty] && Normal(Slash(Path(false, [Dot]), Path(false, tail))) == Path(false, tail)
  {
    SlashIs(Path(false, [Dot]), Path(false, tail));
    assert [] + [Dot] + tail == [Dot] + tail && [] + tail == tail;
    NormalRules(false, [], "", tail);
    NormalFixed(Path(false, tail));
  }
}
