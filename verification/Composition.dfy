/** Resolution is compositional: p/q is q resolved from the directory that p resolves to. */
module Composition {
  import opened Dwarfs
  import opened Inodes
  import opened PathText
  import opened Paths
  import opened Resolver
  import opened ResolverRuns
  import opened Routing
  import opened Wrappers

  predicate NoDots(es: seq<Elem>) {
    forall i | 0 <= i < |es| :: es[i] != Dot && es[i] != DotDot
  }

  /** Relative links and host mounts whose targets have no `.` or `..` in them. */
  ghost predicate HasPlainLinks(w: World) {
    && (forall k, n | k in w.images && n in w.images[k].nodes && w.images[k].IsLink(n) ::
          IsPlainTarget(w.images[k].nodes[n].target))
    && (forall m | m in w.mounts && w.mounts[m].Host? :: IsPlainTarget(w.mounts[m].text))
  }

  predicate IsPlainTarget(target: string) {
    !Parse(target).rooted ==> NoDots(Parse(target).body)
  }

  predicate IsPlain(es: seq<Elem>) {
    IsTail(es) && NoDots(es)
  }

  /** `es` with `q` appended below it. */
  function Below(es: seq<Elem>, q: seq<Elem>): seq<Elem> {
    Strip(es) + q
  }

  lemma PlainNormal(p: Path)
    requires WellFormed(p) && NoDots(p.body) && (p.body != [] || !p.rooted)
    ensures Normal(p) == p
  {
    if p.body != [] {
      var kept := Strip(p.body);
      assert kept != [] by {
        assert p.body[0] != Empty;
      }
      forall i | 0 <= i < |kept|
        ensures kept[i].Name?
      {
        assert kept[i] == p.body[i];
      }
      assert Last(kept) == kept[|kept| - 1];
      NormalFixed(p);
    }
  }

  /** Nothing is left for normalisation where a plain target meets a plain rest. */
  lemma RewrittenPlain(target: string, tail: seq<Elem>)
    requires IsPlainTarget(target) && IsPlain(tail)
    ensures Rewritten(target, tail).rooted == Parse(target).rooted
    ensures !Parse(target).rooted ==> Rewritten(target, tail) == AppendAll(Parse(target), tail)
    ensures !Parse(target).rooted ==> IsPlain(Rewritten(target, tail).body)
  {
    var t := Parse(target);
    var p := AppendAll(t, tail);
    ParseShape(target);
    AppendAllIs(t, tail);
    if t.rooted {
      if p != EMPTY_PATH {
        NormalFacts(p);
      }
    } else {
      AppendPlain(t, tail);
      PlainNormal(p);
    }
  }

  lemma AppendPlain(t: Path, tail: seq<Elem>)
    requires WellFormed(t) && NoDots(t.body) && IsPlain(tail)
    ensures AppendAll(t, tail).rooted == t.rooted
    ensures WellFormed(AppendAll(t, tail)) && NoDots(AppendAll(t, tail).body)
  {
    AppendAllIs(t, tail);
    var b, p := Strip(t.body), AppendAll(t, tail).body;
    if tail != [] && tail != [Empty] {
      BelowPlain(t.body, tail);
      assert p[0] == if b == [] then tail[0] else t.body[0];
    }
  }

  lemma BelowPlain(es: seq<Elem>, q: seq<Elem>)
    requires IsPlain(es) && IsPlain(q)
    ensures IsPlain(Below(es, q))
  {
    var s := Strip(es);
    assert forall i | 0 <= i < |s| :: s[i] == es[i] && s[i] != Empty;
  }

  lemma StripConcat(a: seq<Elem>, b: seq<Elem>)
    requires IsTail(b) && b != []
    ensures Strip(a + b) == a + Strip(b)
  {
    assert Last(a + b) == Last(b);
    if Last(b) == Empty {
      assert Front(a + b) == a + Front(b);
    }
  }

  lemma BelowTail(tail: seq<Elem>, q: seq<Elem>)
    requires IsTail(tail) && IsTail(q)
    ensures IsTail(Below(tail, q))
  {
    var s := Strip(tail);
    assert forall i | 0 <= i < |s| :: s[i] == tail[i] && s[i] != Empty;
  }

  /** Appending more below the rest of a path is appending it below what a link rewrites it to. */
  lemma AppendBelow(t: Path, tail: seq<Elem>, q: seq<Elem>)
    requires IsTail(tail) && IsTail(q) && q != [] && q != [Empty]
    ensures AppendAll(t, Below(tail, q)) == Path(t.rooted, Below(AppendAll(t, tail).body, q))
  {
    BelowTail(tail, q);
    AppendAllIs(t, tail);
    AppendAllIs(t, Below(tail, q));
    if tail == [] || tail == [Empty] {
      assert Below(tail, q) == q;
      StripAppend(t);
    } else {
      AppendBelowMore(t, tail, q);
    }
  }

  lemma StripAppend(t: Path)
    ensures Strip(Append(t, Empty).body) == Strip(t.body)
  {
    assert Front(t.body + [Empty]) == t.body;
  }

  lemma AppendBelowMore(t: Path, tail: seq<Elem>, q: seq<Elem>)
    requires IsTail(tail) && tail != [] && tail[0] != Empty
    ensures Below(tail, q) != [] && Below(tail, q)[0] == tail[0]
    ensures Strip(t.body) + Below(tail, q) == Below(Strip(t.body) + tail, q)
  {
    StripConcat(Strip(t.body), tail);
    assert Strip(t.body) + (Strip(tail) + q) == Strip(t.body) + Strip(tail) + q;
  }

  /** The place that `st` was read at, with `q` to go: where a descriptor-relative call starts. */
  function PlaceOf(w: World, st: Stat, q: seq<Elem>): Place
    requires Owner(w, st.ino) in w.images && w.images[Owner(w, st.ino)].Find(st.ino).Some?
  {
    Place(Owner(w, st.ino), w.images[Owner(w, st.ino)].Find(st.ino).value, q, st)
  }

  /** The attributes read last are those of the directory the walk stands in, or those of a link just entered. */
  predicate Stands(w: World, c: Place)
    requires IsPlace(w, c)
  {
    c.st == w.images[c.k].GetAttr(c.dir) || c.st.kind == Symlink
  }

  function Deeper(c: Place, q: seq<Elem>): Place {
    c.(rest := Below(c.rest, q))
  }

  lemma SpliceDeeper(k: nat, dir: nat, target: string, tail: seq<Elem>, st: Stat, q: seq<Elem>)
    requires IsPlainTarget(target) && IsPlain(tail) && IsPlain(q) && q != [] && q != [Empty]
    requires Splice(k, dir, target, tail, st).Go?
    ensures IsPlain(Splice(k, dir, target, tail, st).to.rest)
    ensures Splice(k, dir, target, Below(tail, q), st) == Go(Deeper(Splice(k, dir, target, tail, st).to, q))
  {
    ParseShape(target);
    BelowPlain(tail, q);
    RewrittenPlain(target, tail);
    RewrittenPlain(target, Below(tail, q));
    AppendBelow(Parse(target), tail, q);
  }

  lemma EnterDeeper(w: World, j: nat, tail: seq<Elem>, q: seq<Elem>)
    requires j in w.images && IsPlain(tail) && IsPlain(q) && q != [] && q != [Empty]
    requires Enter(w, j, w.images[j].root, AppendAll(EMPTY_PATH, tail)).Go?
    ensures var next := Enter(w, j, w.images[j].root, AppendAll(EMPTY_PATH, tail));
            && IsPlain(next.to.rest)
            && Enter(w, j, w.images[j].root, AppendAll(EMPTY_PATH, Below(tail, q))) == Go(Deeper(next.to, q))
  {
    AppendBelow(EMPTY_PATH, tail, q);
    AppendPlain(EMPTY_PATH, tail);
    var p, r := AppendAll(EMPTY_PATH, tail), AppendAll(EMPTY_PATH, Below(tail, q));
    assert Components(p) == p.body && Components(r) == r.body;
  }

  lemma ViaMountDeeper(w: World, k: nat, dir: nat, target: Target, tail: seq<Elem>, st: Stat, q: seq<Elem>)
    requires k in w.images && dir in w.images[k].nodes && Stands(w, Place(k, dir, tail, st))
    requires target.Host? ==> IsPlainTarget(target.text)
    requires IsPlain(tail) && IsPlain(q) && q != [] && q != [Empty]
    requires ViaMount(w, k, dir, target, tail, st).Go?
    ensures var to := ViaMount(w, k, dir, target, tail, st).to;
            && ViaMount(w, k, dir, target, Below(tail, q), st) == Go(Deeper(to, q))
            && IsPlain(to.rest) && Stands(w, to)
  {
    match target {
      case Host(text) => SpliceDeeper(k, dir, text, tail, st, q);
      case Memfs(j) => EnterDeeper(w, j, tail, q);
    }
  }

  lemma ViaChildDeeper(w: World, k: nat, dir: nat, child: nat, tail: seq<Elem>, q: seq<Elem>, follow: bool)
    requires k in w.images && dir in w.images[k].nodes && child in w.images[k].nodes
    requires w.images[k].IsLink(child) ==> IsPlainTarget(w.images[k].nodes[child].target)
    requires IsPlain(tail) && IsPlain(q) && q != [] && q != [Empty]
    requires ViaChild(w, k, dir, child, tail, true).Go?
    ensures var to := ViaChild(w, k, dir, child, tail, true).to;
            && ViaChild(w, k, dir, child, Below(tail, q), follow) == Go(Deeper(to, q))
            && IsPlain(to.rest) && Stands(w, to)
  {
    var img := w.images[k];
    if img.IsLink(child) {
      SpliceDeeper(k, dir, img.nodes[child].target, tail, img.GetAttr(child), q);
    }
  }

  lemma DeeperHead(c: Place, q: seq<Elem>)
    requires IsPlain(c.rest) && !AtEnd(c)
    ensures !AtEnd(Deeper(c, q)) && Deeper(c, q).rest[0] == c.rest[0]
    ensures IsPlain(c.rest[1..]) && Deeper(c, q).rest[1..] == Below(c.rest[1..], q)
  {
    var e, tail := c.rest[0], c.rest[1..];
    assert c.rest == [e] + tail;
    assert IsPlain(tail) by {
      assert forall i | 0 <= i < |tail| :: tail[i] == c.rest[i + 1];
    }
    hide IsPlain;
    BelowCons(e, tail, q);
  }

  lemma BelowCons(e: Elem, tail: seq<Elem>, q: seq<Elem>)
    requires e != Empty
    ensures Below([e] + tail, q) == [e] + Below(tail, q)
  {
    assert Strip([e] + tail) == [e] + Strip(tail) by {
      if tail != [] {
        assert Last([e] + tail) == Last(tail);
        assert Front([e] + tail) == [e] + Front(tail);
      }
    }
    assert [e] + Strip(tail) + q == [e] + (Strip(tail) + q);
  }

  lemma DeeperEnd(c: Place, q: seq<Elem>)
    requires IsPlain(c.rest) && AtEnd(c)
    ensures Deeper(c, q) == c.(rest := q)
  {
    assert c.rest == [] || c.rest == [Empty];
    assert [] + q == q;
  }

  lemma StepMountDeeper(w: World, c: Place, q: seq<Elem>, follow: bool)
    requires HasPlainLinks(w) && IsPlace(w, c) && !AtEnd(c) && Stands(w, c)
    requires IsPlain(c.rest) && IsPlain(q) && q != [] && q != [Empty]
    requires Key(w, c) in w.mounts && Step(w, c, true).Go?
    ensures !AtEnd(Deeper(c, q)) && Step(w, Deeper(c, q), follow) == Go(Deeper(Step(w, c, true).to, q))
    ensures IsPlain(Step(w, c, true).to.rest) && Stands(w, Step(w, c, true).to)
  {
    hide ViaMount, Below, IsPlain, IsPlainTarget;
    DeeperHead(c, q);
    ViaMountDeeper(w, c.k, c.dir, w.mounts[Key(w, c)], c.rest[1..], c.st, q);
  }

  lemma StepChildDeeper(w: World, c: Place, q: seq<Elem>, follow: bool)
    requires HasPlainLinks(w) && IsPlace(w, c) && !AtEnd(c) && Stands(w, c)
    requires IsPlain(c.rest) && IsPlain(q) && q != [] && q != [Empty]
    requires Key(w, c) !in w.mounts && Step(w, c, true).Go?
    ensures !AtEnd(Deeper(c, q)) && Step(w, Deeper(c, q), follow) == Go(Deeper(Step(w, c, true).to, q))
    ensures IsPlain(Step(w, c, true).to.rest) && Stands(w, Step(w, c, true).to)
  {
    hide ViaChild, Below, IsPlain, IsPlainTarget;
    DeeperHead(c, q);
    var child := w.images[c.k].Lookup(Key(w, c).0, Key(w, c).1).value;
    ViaChildDeeper(w, c.k, c.dir, child, c.rest[1..], q, follow);
  }

  lemma PlaceOfStanding(w: World, c: Place, q: seq<Elem>)
    requires IsMounted(w) && IsPlace(w, c) && c.st == w.images[c.k].GetAttr(c.dir)
    ensures Reaches(w, c.st) && PlaceOf(w, c.st, q) == c.(rest := q)
  {
    hide FsIndex;
    GetAttrReaches(w, c.k, c.dir);
  }

  /** Resolving below a directory is resolving from it, whichever of the two is known to stop. */
  lemma {:induction false} ResolveDeeper(w: World, c: Place, s: Stat, q: seq<Elem>, follow: bool, n: nat, m: nat)
    requires IsMounted(w) && HasPlainLinks(w) && IsPlace(w, c) && Stands(w, c)
    requires IsPlain(c.rest) && IsPlain(q) && q != [] && q != [Empty]
    requires Resolve(w, c, true, n) == Found(s) && s.kind == Directory
    ensures Reaches(w, s)
    ensures Resolve(w, PlaceOf(w, s, q), follow, m) != Running ==>
              Resolve(w, Deeper(c, q), follow, n + m) == Resolve(w, PlaceOf(w, s, q), follow, m)
    ensures Resolve(w, Deeper(c, q), follow, m) != Running ==>
              Resolve(w, PlaceOf(w, s, q), follow, m) == Resolve(w, Deeper(c, q), follow, m)
    decreases n
  {
    hide Owner, Step, Resolve, PlaceOf, Below, Reaches, IsPlain;
    if AtEnd(c) {
      OneEnd(w, c, true, n);
      DeeperEnd(c, q);
      PlaceOfStanding(w, c, q);
      if Resolve(w, Deeper(c, q), follow, m) != Running {
        ResolveMore(w, Deeper(c, q), follow, m, n + m);
      }
    } else {
      OneStep(w, c, true, n);
      if Key(w, c) in w.mounts {
        StepMountDeeper(w, c, q, follow);
      } else {
        StepChildDeeper(w, c, q, follow);
      }
      var next := Step(w, c, true).to;
      ResolveDeeper(w, next, s, q, follow, n - 1, m);
      OneStep(w, Deeper(c, q), follow, n + m);
      OneStep(w, Deeper(c, q), follow, m);
      if m > 0 && Resolve(w, Deeper(next, q), follow, m - 1) != Running {
        ResolveMore(w, Deeper(next, q), follow, m - 1, m);
      }
    }
  }

  /** Whether the last component may be a link to enter only matters if what was found is a link. */
  lemma {:induction false} FollowToDirectory(w: World, c: Place, s: Stat, follow: bool, n: nat)
    requires IsPlace(w, c) && Resolve(w, c, follow, n) == Found(s) && s.kind != Symlink
    ensures Resolve(w, c, true, n) == Found(s)
    decreases n
  {
    if AtEnd(c) || follow {
    } else {
      OneStep(w, c, follow, n);
      OneStep(w, c, true, n);
      var next := Step(w, c, follow).to;
      if Step(w, c, true) == Go(next) {
        FollowToDirectory(w, next, s, follow, n - 1);
      }
    }
  }

  /** A path that resolves to a directory, and what the rest of the development needs to know about it. */
  ghost predicate LeadsTo(w: World, k: nat, start: nat, p: Path, follow: bool, s: Stat) {
    && k in w.images && StartsOutsideLinks(w.images[k], start)
    && WellFormed(p) && !p.rooted && NoDots(p.body)
    && Meaning(w, k, start, p, follow) == Found(s) && s.kind == Directory
  }

  lemma LeadsToPlace(w: World, k: nat, start: nat, p: Path, follow: bool, s: Stat) returns (c: Place, n: nat)
    requires LeadsTo(w, k, start, p, follow, s)
    ensures IsPlace(w, c) && Stands(w, c) && c.rest == p.body && Resolve(w, c, true, n) == Found(s)
    ensures forall q: Path | !q.rooted :: Enter(w, k, start, q) == Go(c.(rest := q.body))
  {
    n :| ResolveFrom(w, k, start, p, follow, n) == Found(s);
    c := Enter(w, k, start, p).to;
    assert Components(p) == p.body;
    FollowToDirectory(w, c, s, follow, n);
    forall q: Path | !q.rooted
      ensures Enter(w, k, start, q) == Go(c.(rest := q.body))
    {
      assert Components(q) == q.body;
    }
  }

  /** Where the walk to p/q passes p's directory, and where a call on the directory's inode number starts. */
  lemma CompositionPlaces(w: World, k: nat, start: nat, p: Path, q: Path, fp: bool, s: Stat)
    returns (c: Place, d: Place, n: nat)
    requires IsMounted(w) && HasPlainLinks(w) && LeadsTo(w, k, start, p, fp, s)
    requires WellFormed(q) && !q.rooted && NoDots(q.body) && q.body != []
    ensures Reaches(w, s) && d == PlaceOf(w, s, q.body)
    ensures IsPlace(w, c) && Stands(w, c) && IsPlain(c.rest) && Resolve(w, c, true, n) == Found(s)
    ensures StartsOutsideLinks(w.images[Owner(w, s.ino)], s.ino)
    ensures Enter(w, Owner(w, s.ino), s.ino, q) == Go(d)
    ensures Enter(w, k, start, Slash(p, q)) == Go(Deeper(c, q.body))
  {
    hide Owner, Resolve;
    c, n := LeadsToPlace(w, k, start, p, fp, s);
    SlashIs(p, q);
    assert Reaches(w, s) by {
      ResolveDeeper(w, c, s, q.body, true, n, 0);
    }
    d := PlaceOf(w, s, q.body);
    assert Components(q) == q.body;
  }

  /** Resolving p/q is resolving q from the directory that p resolves to, through any relative links,
      host mounts and image mounts in between, and for either treatment of a final link: the walk from
      the start and the call on the inode number that was returned end alike, or neither ends. */
  lemma ResolveBelowDirectory(w: World, k: nat, start: nat, p: Path, q: Path, fp: bool, follow: bool, s: Stat)
    requires IsMounted(w) && HasPlainLinks(w) && LeadsTo(w, k, start, p, fp, s)
    requires WellFormed(q) && !q.rooted && NoDots(q.body) && q.body != []
    ensures Reaches(w, s) && StartsOutsideLinks(w.images[Owner(w, s.ino)], s.ino)
    ensures Meaning(w, k, start, Slash(p, q), follow) == Meaning(w, Owner(w, s.ino), s.ino, q, follow)
  {
    hide Owner;
    var c, d, n := CompositionPlaces(w, k, start, p, q, fp, s);
    PlainBody(q);
    CompositionRuns(w, k, start, p, q, follow, s, c, d, n);
  }

  lemma PlainBody(q: Path)
    requires WellFormed(q) && NoDots(q.body) && q.body != []
    ensures IsPlain(q.body) && q.body != [Empty]
  {
  }

  lemma CompositionRuns(w: World, k: nat, start: nat, p: Path, q: Path, follow: bool, s: Stat, c: Place, d: Place, n: nat)
    requires IsMounted(w) && HasPlainLinks(w) && IsPlace(w, c) && Stands(w, c)
    requires k in w.images && StartsOutsideLinks(w.images[k], start)
    requires IsPlain(c.rest) && IsPlain(q.body) && q.body != [] && q.body != [Empty]
    requires Resolve(w, c, true, n) == Found(s) && s.kind == Directory
    requires Reaches(w, s) && Owner(w, s.ino) in w.images && StartsOutsideLinks(w.images[Owner(w, s.ino)], s.ino)
    requires d == PlaceOf(w, s, q.body)
    requires Enter(w, Owner(w, s.ino), s.ino, q) == Go(d)
    requires Enter(w, k, start, Slash(p, q)) == Go(Deeper(c, q.body))
    ensures Meaning(w, k, start, Slash(p, q), follow) == Meaning(w, Owner(w, s.ino), s.ino, q, follow)
  {
    hide *;
    var o, b := Owner(w, s.ino), q.body;
    if m: nat :| ResolveFrom(w, o, s.ino, q, follow, m) != Running {
      FromPlace(w, o, s.ino, q, d, follow, m);
      FromPlace(w, k, start, Slash(p, q), Deeper(c, b), follow, n + m);
      ResolveDeeper(w, c, s, b, follow, n, m);
      MeaningIs(w, o, s.ino, q, follow, m);
      MeaningIs(w, k, start, Slash(p, q), follow, n + m);
    } else {
      forall m: nat
        ensures ResolveFrom(w, k, start, Slash(p, q), follow, m) == Running
      {
        FromPlace(w, o, s.ino, q, d, follow, m);
        FromPlace(w, k, start, Slash(p, q), Deeper(c, b), follow, m);
        ResolveDeeper(w, c, s, b, follow, n, m);
      }
      NoMeaning(w, o, s.ino, q, follow);
      NoMeaning(w, k, start, Slash(p, q), follow);
    }
  }

  /** Paths reach the resolver as absolute normal paths, in which there are no dots left. */
  lemma NormalHasNoDots(p: Path)
    requires p.rooted
    ensures NoDots(Normal(p).body)
  {
    SquashKept([], p.body, true);
  }
}
