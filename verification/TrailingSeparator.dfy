/** Composition without exception: the empty path below a directory, which leaves a trailing separator. */
module TrailingSeparator {
  import opened Composition
  import opened Dwarfs
  import PathText
  import opened Paths
  import opened Resolver
  import opened ResolverRuns
  import opened Routing
  import opened Wrappers

  /** `r` is `es` with a trailing separator; no elements may also stay none. */
  predicate Trails(es: seq<Elem>, r: seq<Elem>) {
    r == Below(es, [Empty]) || (es == [] && r == [])
  }

  lemma BelowClosed(b: seq<Elem>, tail: seq<Elem>)
    requires tail != []
    ensures b + Below(tail, [Empty]) == Append(Path(false, b + tail), Empty).body
    ensures tail == [Empty] <==> Below(tail, [Empty]) == [Empty]
  {
    assert Last(b + tail) == Last(tail);
    if Last(tail) == Empty {
      assert Below(tail, [Empty]) == tail;
    } else {
      assert b + (tail + [Empty]) == b + tail + [Empty];
    }
  }

  lemma AppendSeparator(t: Path, tail: seq<Elem>)
    requires IsTail(tail)
    ensures AppendAll(t, Below(tail, [Empty])) == Append(AppendAll(t, tail), Empty)
  {
    BelowTail(tail, [Empty]);
    AppendAllIs(t, tail);
    AppendAllIs(t, Below(tail, [Empty]));
    hide IsTail, AppendAll;
    if tail == [] {
      assert Below(tail, [Empty]) == [Empty];
    } else {
      BelowSomething(tail);
      BelowClosed(Strip(t.body), tail);
    }
  }

  lemma AppendTrails(p: Path)
    ensures Trails(p.body, Append(p, Empty).body)
  {
    if p.body != [] && Last(p.body) == Empty {
      assert p.body == Front(p.body) + [Empty];
    }
  }

  lemma SpliceSeparated(k: nat, dir: nat, target: string, tail: seq<Elem>, st: Stat)
    requires IsPlainTarget(target) && IsPlain(tail)
    requires Splice(k, dir, target, tail, st).Go?
    ensures var next, next' := Splice(k, dir, target, tail, st), Splice(k, dir, target, Below(tail, [Empty]), st);
            && IsPlain(next.to.rest)
            && next'.Go? && next'.to == next.to.(rest := next'.to.rest) && Trails(next.to.rest, next'.to.rest)
  {
    hide Below, Trails;
    BelowPlain(tail, [Empty]);
    RewrittenPlain(target, tail);
    RewrittenPlain(target, Below(tail, [Empty]));
    AppendSeparator(PathText.Parse(target), tail);
    AppendTrails(AppendAll(PathText.Parse(target), tail));
  }

  lemma EnterSeparated(w: World, j: nat, tail: seq<Elem>)
    requires j in w.images && IsPlain(tail)
    requires Enter(w, j, w.images[j].root, AppendAll(EMPTY_PATH, tail)).Go?
    ensures var next := Enter(w, j, w.images[j].root, AppendAll(EMPTY_PATH, tail));
            var next' := Enter(w, j, w.images[j].root, AppendAll(EMPTY_PATH, Below(tail, [Empty])));
            && IsPlain(next.to.rest)
            && next'.Go? && next'.to == next.to.(rest := next'.to.rest) && Trails(next.to.rest, next'.to.rest)
  {
    hide Below, Trails;
    AppendPlain(EMPTY_PATH, tail);
    AppendSeparator(EMPTY_PATH, tail);
    var p, r := AppendAll(EMPTY_PATH, tail), AppendAll(EMPTY_PATH, Below(tail, [Empty]));
    AppendTrails(p);
    assert Components(p) == p.body && Components(r) == r.body;
  }

  /** A trailing separator makes the walk enter every link, and changes nothing else. */
  lemma StepSeparated(w: World, c: Place, follow: bool)
    requires HasPlainLinks(w) && IsPlace(w, c) && !AtEnd(c) && IsPlain(c.rest)
    requires Step(w, c, true).Go?
    ensures !AtEnd(Deeper(c, [Empty])) && Step(w, Deeper(c, [Empty]), follow).Go?
    ensures var to, to' := Step(w, c, true).to, Step(w, Deeper(c, [Empty]), follow).to;
            IsPlain(to.rest) && to' == to.(rest := to'.rest) && Trails(to.rest, to'.rest)
  {
    hide Splice, Enter, Below, IsPlain, IsPlainTarget;
    DeeperHead(c, [Empty]);
    var key, tail := Key(w, c), c.rest[1..];
    assert Below(tail, [Empty]) != [] by { BelowSomething(tail); }
    if key in w.mounts {
      match w.mounts[key] {
        case Host(text) => SpliceSeparated(c.k, c.dir, text, tail, c.st);
        case Memfs(j) => EnterSeparated(w, j, tail);
      }
    } else {
      var child := w.images[c.k].Lookup(key.0, key.1).value;
      if w.images[c.k].IsLink(child) {
        SpliceSeparated(c.k, c.dir, w.images[c.k].nodes[child].target, tail, w.images[c.k].GetAttr(child));
      }
    }
  }

  lemma BelowSomething(es: seq<Elem>)
    ensures Below(es, [Empty]) != []
  {
    assert Last(Below(es, [Empty])) == Empty;
  }

  lemma {:induction false} ResolveSeparated(w: World, c: Place, r: seq<Elem>, s: Stat, follow: bool, n: nat)
    requires HasPlainLinks(w) && IsPlace(w, c) && IsPlain(c.rest) && Trails(c.rest, r)
    requires Resolve(w, c, true, n) == Found(s)
    ensures Resolve(w, c.(rest := r), follow, n) == Found(s)
    decreases n
  {
    hide Step, Resolve, IsPlain, Below;
    if AtEnd(c) {
      OneEnd(w, c, true, n);
      AtEndTrails(c, r);
      OneEnd(w, c.(rest := r), follow, n);
    } else {
      OneStep(w, c, true, n);
      StepSeparated(w, c, follow);
      OneStep(w, Deeper(c, [Empty]), follow, n);
      var to, to' := Step(w, c, true).to, Step(w, Deeper(c, [Empty]), follow).to;
      ResolveSeparated(w, to, to'.rest, s, follow, n - 1);
    }
  }

  lemma AtEndTrails(c: Place, r: seq<Elem>)
    requires IsPlain(c.rest) && AtEnd(c) && Trails(c.rest, r)
    ensures AtEnd(c.(rest := r))
  {
    DeeperEnd(c, [Empty]);
  }

  /** The inode number of a directory leads back to it. */
  lemma FromDirectory(w: World, s: Stat, follow: bool)
    requires Reaches(w, s) && s.kind == Directory
    ensures StartsOutsideLinks(w.images[Owner(w, s.ino)], s.ino)
    ensures Meaning(w, Owner(w, s.ino), s.ino, EMPTY_PATH, follow) == Found(s)
  {
    hide Owner;
    var o := Owner(w, s.ino);
    var next := Enter(w, o, s.ino, EMPTY_PATH);
    assert Components(EMPTY_PATH) == [];
    assert ResolveFrom(w, o, s.ino, EMPTY_PATH, follow, 0) == Found(s);
    MeaningIs(w, o, s.ino, EMPTY_PATH, follow, 0);
  }

  lemma WithSeparator(w: World, k: nat, start: nat, p: Path, fp: bool, follow: bool, s: Stat)
    requires IsMounted(w) && HasPlainLinks(w) && LeadsTo(w, k, start, p, fp, s)
    ensures Reaches(w, s)
    ensures Meaning(w, k, start, Slash(p, EMPTY_PATH), follow) == Found(s)
  {
    hide Resolve, Step;
    var m: nat :| ResolveFrom(w, k, start, p, fp, m) == Found(s);
    RoutingSound(w, k, start, p, fp, m);
    var c, n := LeadsToPlace(w, k, start, p, fp, s);
    var p' := Slash(p, EMPTY_PATH);
    AppendTrails(p);
    ResolveSeparated(w, c, p'.body, s, follow, n);
    FromPlace(w, k, start, p', c.(rest := p'.body), follow, n);
    MeaningIs(w, k, start, p', follow, n);
  }

  /** Resolving p/q is resolving q from the directory that p resolves to, for every relative path q and for
      either treatment of a final link. */
  lemma ResolveBelow(w: World, k: nat, start: nat, p: Path, q: Path, fp: bool, follow: bool, s: Stat)
    requires IsMounted(w) && HasPlainLinks(w) && LeadsTo(w, k, start, p, fp, s)
    requires WellFormed(q) && !q.rooted && NoDots(q.body)
    ensures Reaches(w, s) && StartsOutsideLinks(w.images[Owner(w, s.ino)], s.ino)
    ensures Meaning(w, k, start, Slash(p, q), follow) == Meaning(w, Owner(w, s.ino), s.ino, q, follow)
  {
    hide Owner;
    if q.body == [] {
      WithSeparator(w, k, start, p, fp, follow, s);
      FromDirectory(w, s, follow);
    } else {
      ResolveBelowDirectory(w, k, start, p, q, fp, follow, s);
    }
  }
}
