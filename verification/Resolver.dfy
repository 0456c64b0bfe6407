/** Path resolution over mounted images: `memfs::find_inode` and what is built on it. */
module Resolver {
  import opened Dwarfs
  import opened Inodes
  import opened PathText
  import opened Paths
  import opened Wrappers

  datatype Target = Host(text: string) | Memfs(index: nat)

  datatype WorldData = WorldData(layout: ValidLayout, images: map<nat, Image>, mounts: map<(nat, string), Target>)

  /** Resolution never starts at a link: it starts at an image's root or at an open directory. */
  predicate StartsOutsideLinks(img: Image, start: nat) {
    var pi := img.Find(start);
    pi.Some? ==> !img.IsLink(pi.value)
  }

  type World = w: WorldData | forall k | k in w.images :: StartsOutsideLinks(w.images[k], w.images[k].root)
    witness WorldData(COMPILED, map[], map[])

  /** `Running` is the outcome of a loop that has not stopped within the given number of iterations. */
  datatype Outcome = Found(st: Stat) | NoEntry | LinkAbsolute(lnk: string, st: Stat) | Running

  // ---------- The reference: one component at a time, on what is left of the path ----------

  /** The walk stands in directory `dir` of image `k` with `rest` to go; `st` holds the attributes read last. */
  datatype Place = Place(k: nat, dir: nat, rest: seq<Elem>, st: Stat)

  predicate IsPlace(w: World, c: Place) {
    c.k in w.images && c.dir in w.images[c.k].nodes
  }

  datatype Next = Stop(out: Outcome) | Go(to: Place)

  predicate AtEnd(c: Place) {
    c.rest == [] || c.rest[0] == Empty
  }

  /** The path that replaces a link and what follows it. */
  function Rewritten(target: string, tail: seq<Elem>): Path {
    Normal(AppendAll(Parse(target), tail))
  }

  /** Appending the rest and then normalising: the names that come out of it are those of the target and the rest
      behind it, entered one after the other. */
  lemma RewrittenIs(target: string, tail: seq<Elem>)
    requires IsTail(tail)
    ensures var p, es := Rewritten(target, tail), Parse(target).body + tail;
            && (p.rooted <==> target != "" && target[0] == '/')
            && IsNormal(p)
            && (p.rooted ==> Squash([], p.body, true) == Squash([], es, true))
            && (!p.rooted ==> forall s | IsKept(s, true) :: Squash(s, p.body, true) == Squash(s, es, true))
            && (es != [] && Last(es).Name? ==> p.body != [] && Last(p.body) == Last(es))
            && (es != [] && !Last(es).Name? ==> p.body == [] || !Last(p.body).Name?)
  {
    hide IsKept, Push, IsNormal, Parse, Squash;
    var t := Parse(target);
    var q := AppendAll(t, tail);
    AppendAllIs(t, tail);
    NormalIsNormal(q);
    RootedText(target);
    AppendedEnd(t, tail);
    forall s
      ensures Squash(s, q.body, true) == Squash(s, t.body + tail, true)
    {
      AppendedSquash(s, t, tail);
    }
    if q == EMPTY_PATH {
    } else {
      NormalFacts(q);
      if q.body != [] {
        NormalEnd(q);
      }
      if !q.rooted {
        forall s | IsKept(s, true)
          ensures Squash(s, Normal(q).body, true) == Squash(s, q.body, true)
        {
          SquashAgain(s, Normal(q).body, true);
          SquashAgain(s, q.body, true);
        }
      }
    }
  }

  lemma RootedText(t: string)
    ensures Parse(t).rooted <==> t != "" && t[0] == '/'
  {
  }

  lemma AppendedSquash(s: seq<Elem>, t: Path, tail: seq<Elem>)
    requires IsTail(tail)
    ensures Squash(s, AppendAll(t, tail).body, true) == Squash(s, t.body + tail, true)
  {
    AppendAllIs(t, tail);
    SquashConcat(s, t.body, tail, true);
    if tail == [] {
      assert t.body + tail == t.body;
    } else if tail == [Empty] {
      SquashSeparator(s, t.body, true);
    } else {
      var b := Strip(t.body);
      SquashConcat(s, b, tail, true);
      if b != t.body {
        SquashSeparator(s, b, true);
        assert t.body == b + [Empty];
      }
    }
  }

  lemma AppendedEnd(t: Path, tail: seq<Elem>)
    requires IsTail(tail)
    ensures var q, es := AppendAll(t, tail), t.body + tail;
            && AppendAll(t, tail).rooted == t.rooted
            && (es != [] && (t.body != [] || tail != [Empty]) ==> q.body != [] && Last(q.body) == Last(es))
            && (t.body == [] && tail == [Empty] ==> q == t)
  {
    AppendAllIs(t, tail);
    if tail == [] {
      assert t.body + tail == t.body;
    } else {
      assert Last(t.body + tail) == Last(tail);
    }
  }

  /** A link or host mount in directory `dir`: go on with its target there, or report where it leads. */
  function Splice(k: nat, dir: nat, target: string, tail: seq<Elem>, st: Stat): (r: Next)
    ensures r.Go? ==> r.to.st == st && r.to.k == k && r.to.dir == dir
    ensures r.Stop? ==> r.out.LinkAbsolute? && r.out.st == st
  {
    var p := Rewritten(target, tail);
    if p.rooted then Stop(LinkAbsolute(Render(p), st)) else Go(Place(k, dir, p.body, st))
  }

  /** Enter an image at the inode `start`. */
  function Enter(w: World, k: nat, start: nat, path: Path): (r: Next)
    requires k in w.images
    ensures r.Go? ==> IsPlace(w, r.to) && r.to.k == k && r.to.st == w.images[k].GetAttr(r.to.dir)
    ensures r.Stop? ==> r.out.NoEntry?
  {
    match w.images[k].Find(start)
    case None => Stop(NoEntry)
    case Some(dir) => Go(Place(k, dir, Components(path), w.images[k].GetAttr(dir)))
  }

  /** Pass a mount point in directory `dir` with `tail` to go. */
  function ViaMount(w: World, k: nat, dir: nat, target: Target, tail: seq<Elem>, st: Stat): (r: Next)
    requires k in w.images && dir in w.images[k].nodes
    ensures r.Go? ==> IsPlace(w, r.to)
  {
    match target
    case Host(text) => Splice(k, dir, text, tail, st)
    case Memfs(j) =>
      if j in w.images then Enter(w, j, w.images[j].root, AppendAll(EMPTY_PATH, tail)) else Stop(NoEntry)
  }

  /** Go to a child of directory `dir` with `tail` to go. A link that is the last component is entered
      only if `follow`. */
  function ViaChild(w: World, k: nat, dir: nat, child: nat, tail: seq<Elem>, follow: bool): (r: Next)
    requires k in w.images && dir in w.images[k].nodes && child in w.images[k].nodes
    ensures r.Go? ==> IsPlace(w, r.to)
  {
    var img := w.images[k];
    if img.IsLink(child) && (tail != [] || follow)
    then Splice(k, dir, img.nodes[child].target, tail, img.GetAttr(child))
    else Go(Place(k, child, tail, img.GetAttr(child)))
  }

  /** The place's directory and a name in it: the key of a mount point. */
  function Key(w: World, c: Place): (nat, string)
    requires IsPlace(w, c) && c.rest != []
  {
    (w.images[c.k].root + c.dir, Text(c.rest[0]))
  }

  /** Consume the first component. Mounts hide what the image holds. */
  function Step(w: World, c: Place, follow: bool): (r: Next)
    requires IsPlace(w, c) && !AtEnd(c)
    ensures r.Go? ==> IsPlace(w, r.to)
    ensures r.Stop? ==> r.out.NoEntry? || r.out.LinkAbsolute?
  {
    var key := Key(w, c);
    if key in w.mounts then ViaMount(w, c.k, c.dir, w.mounts[key], c.rest[1..], c.st)
    else
      match w.images[c.k].Lookup(key.0, key.1)
      case None => Stop(NoEntry)
      case Some(child) => ViaChild(w, c.k, c.dir, child, c.rest[1..], follow)
  }

  function Resolve(w: World, c: Place, follow: bool, steps: nat): Outcome
    requires IsPlace(w, c)
    decreases steps, 0
  {
    if AtEnd(c) then Found(c.st)
    else if steps == 0 then Running
    else ResolveNext(w, Step(w, c, follow), follow, steps - 1)
  }

  function ResolveNext(w: World, next: Next, follow: bool, steps: nat): Outcome
    requires next.Go? ==> IsPlace(w, next.to)
    decreases steps, 1
  {
    match next
    case Stop(out) => out
    case Go(c) => Resolve(w, c, follow, steps)
  }

  function ResolveFrom(w: World, k: nat, start: nat, path: Path, follow: bool, steps: nat): Outcome
    requires k in w.images && StartsOutsideLinks(w.images[k], start)
  {
    ResolveNext(w, Enter(w, k, start, path), follow, steps)
  }

  // ---------- The implementation: one loop that rewrites its path in place ----------

  datatype Ret = Continue | Error | Absolute | Relative

  /** `process_link`: the rest of the path from the iterator on is appended to the link. A relative
      result replaces the path and resets the iterator. */
  method ProcessLink(target: string, it: nat, path: seq<Elem>) returns (ret: Ret, lnk: string, it': nat, path': seq<Elem>)
    requires it <= |path|
    ensures lnk == Render(Rewritten(target, path[it..]))
    ensures ret == if Rewritten(target, path[it..]).rooted then Absolute else Relative
    ensures ret == Relative ==> it' == 0 && path' == Rewritten(target, path[it..]).body
    ensures ret == Absolute ==> it' == it && path' == path
    ensures IsTail(path[it..]) ==> (ret == Absolute <==> target != "" && target[0] == '/')
    ensures IsTail(path[it..]) && ret == Relative ==>
              && IsNormal(Path(false, path'))
              && forall s | IsKept(s, true) :: Squash(s, path', true) == Squash(s, Parse(target).body + path[it..], true)
  {
    if IsTail(path[it..]) {
      RewrittenIs(target, path[it..]);
    }
    hide IsTail, IsNormal, IsKept, Squash;
    var newPath := Parse(target);
    var i := it;
    while i < |path|
      invariant it <= i <= |path|
      invariant AppendAll(newPath, path[i..]) == AppendAll(Parse(target), path[it..])
    {
      newPath := Append(newPath, path[i]);
      assert path[i..][0] == path[i] && path[i..][1..] == path[i + 1..];
      i := i + 1;
    }
    newPath := Normal(newPath);
    lnk := Render(newPath);
    it', path' := it, path;
    if newPath.rooted {
      ret := Absolute;
    } else {
      ret, path', it' := Relative, Components(newPath), 0;
    }
  }

  /** `process_inode`: read the attributes; follow a link unless it is the last element and not to be
      followed. A link moves the iterator past itself either way. */
  method ProcessInode(img: Image, pi: nat, follow: bool, it: nat, path: seq<Elem>)
    returns (ret: Ret, st: Stat, lnk: string, it': nat, path': seq<Elem>)
    requires pi in img.nodes && it <= |path|
    requires img.IsLink(pi) ==> it < |path|
    ensures st == img.GetAttr(pi)
    ensures !img.IsLink(pi) ==> ret == Continue && it' == it && path' == path
    ensures img.IsLink(pi) && !(it + 1 != |path| || follow) ==> ret == Continue && it' == |path| && path' == path
    ensures img.IsLink(pi) && (it + 1 != |path| || follow) ==>
              var p := Rewritten(img.nodes[pi].target, path[it + 1..]);
              && ret == (if p.rooted then Absolute else Relative)
              && lnk == Render(p)
              && (ret == Relative ==> it' == 0 && path' == p.body)
              && (ret == Absolute ==> it' == it + 1 && path' == path)
  {
    ret, st, lnk, it', path' := Continue, img.GetAttr(pi), "", it, path;
    if img.IsLink(pi) {
      it' := it' + 1;
      if it' != |path| || follow {
        ret, lnk, it', path' := ProcessLink(img.nodes[pi].target, it', path);
      }
    }
  }

  /** The path to look up in an image mounted at the iterator's element. */
  method NextPath(it: nat, path: seq<Elem>) returns (nextPath: Path)
    requires it < |path|
    ensures nextPath == AppendAll(EMPTY_PATH, path[it..][1..])
  {
    nextPath := EMPTY_PATH;
    assert path[it..][1..] == path[it + 1..];
    var i := it + 1;
    while i != |path|
      invariant i <= |path|
      invariant AppendAll(nextPath, path[i..]) == AppendAll(EMPTY_PATH, path[it..][1..])
    {
      nextPath := Append(nextPath, path[i]);
      assert path[i..][0] == path[i] && path[i..][1..] == path[i + 1..];
      i := i + 1;
    }
  }

  /** What the reference makes of the state of the loop. */
  ghost function Ahead(w: World, k: nat, pi: nat, ret: Ret, it: nat, path: seq<Elem>, st: Stat, lnk: string): (r: Next)
    requires k in w.images && it <= |path|
    requires ret == Continue ==> pi in w.images[k].nodes
    ensures r.Go? ==> IsPlace(w, r.to)
  {
    match ret
    case Continue => Go(Place(k, pi, path[it..], st))
    case Absolute => Stop(LinkAbsolute(lnk, st))
    case _ => Stop(NoEntry)
  }

  /** The loop body where the iterator's element is a host mount: the mount acts as a link. */
  method StepOverHostMount(w: World, k: nat, pi: nat, target: string, it: nat, path: seq<Elem>, ghost follow: bool, st: Stat)
    returns (ret: Ret, lnk: string, it': nat, path': seq<Elem>)
    requires k in w.images && pi in w.images[k].nodes && it < |path| && path[it] != Empty
    requires (w.images[k].root + pi, Text(path[it])) in w.mounts
    requires w.mounts[(w.images[k].root + pi, Text(path[it]))] == Host(target)
    ensures ret != Relative && it' <= |path'|
    ensures Ahead(w, k, pi, ret, it', path', st, lnk) == Step(w, Place(k, pi, path[it..], st), follow)
  {
    assert path[it..][0] == path[it] && path[it..][1..] == path[it + 1..];
    ret, lnk, it', path' := ProcessLink(target, it + 1, path);
    if ret == Relative {
      ret := Continue;
      assert path'[0..] == path';
    } else if it' != |path'| {
      it' := it' + 1;
    }
  }

  /** The loop body where the iterator's element is looked up in the image. A relative link takes the
      walk back to the directory it was found in. */
  method StepByName(w: World, k: nat, pi: nat, it: nat, path: seq<Elem>, follow: bool, st: Stat)
    returns (ret: Ret, pi': nat, st': Stat, lnk: string, it': nat, path': seq<Elem>)
    requires k in w.images && pi in w.images[k].nodes && it < |path| && path[it] != Empty
    requires (w.images[k].root + pi, Text(path[it])) !in w.mounts
    ensures ret != Relative && it' <= |path'| && (ret == Continue ==> pi' in w.images[k].nodes)
    ensures Ahead(w, k, pi', ret, it', path', st', lnk) == Step(w, Place(k, pi, path[it..], st), follow)
  {
    hide Rewritten, Render, Components;
    assert path[it..][0] == path[it] && path[it..][1..] == path[it + 1..];
    assert path[it + 1..] == [] <==> it + 1 == |path|;
    var img := w.images[k];
    ret, pi', st', lnk, it', path' := Continue, pi, st, "", it, path;
    var child := img.Lookup(img.root + pi, Text(path[it]));
    if child.Some? {
      pi' := child.value;
      ret, st', lnk, it', path' := ProcessInode(img, pi', follow, it, path);
      if ret == Relative {
        pi' := pi;
        ret := Continue;
        assert path'[0..] == path';
        return;
      }
    } else {
      ret := Error;
    }
    if it' != |path'| {
      it' := it' + 1;
    }
  }

  /** `find_inode`, run for at most `limit` iterations of its loop (nested calls included): for every
      limit it is where the reference is after as many steps. */
  method FindInode(w: World, k: nat, start: nat, path: Path, follow: bool, limit: nat) returns (out: Outcome)
    requires k in w.images && StartsOutsideLinks(w.images[k], start)
    ensures out == ResolveFrom(w, k, start, path, follow, limit)
    decreases limit
  {
    var img := w.images[k];
    var found := img.Find(start);
    if found.None? {
      return NoEntry;
    }
    var pi := found.value;
    var pPath := Components(path);
    var it: nat, n: nat := 0, 0;
    var ret, st, lnk;
    ret, st, lnk, it, pPath := ProcessInode(img, pi, follow, it, pPath);
    assert pPath[0..] == pPath;
    while it < |pPath| && pPath[it] != Empty && ret == Continue && n < limit
      invariant it <= |pPath| && n <= limit && ret != Relative
      invariant ret == Continue ==> pi in img.nodes
      invariant ResolveFrom(w, k, start, path, follow, limit) ==
                ResolveNext(w, Ahead(w, k, pi, ret, it, pPath, st, lnk), follow, limit - n)
      decreases limit - n
    {
      n := n + 1;
      assert !AtEnd(Place(k, pi, pPath[it..], st));
      var here := (img.root + pi, Text(pPath[it]));
      if here !in w.mounts {
        ret, pi, st, lnk, it, pPath := StepByName(w, k, pi, it, pPath, follow, st);
      } else if w.mounts[here].Host? {
        ret, lnk, it, pPath := StepOverHostMount(w, k, pi, w.mounts[here].text, it, pPath, follow, st);
      } else if w.mounts[here].index in w.images {
        var index := w.mounts[here].index;
        var nextPath := NextPath(it, pPath);
        out := FindInode(w, index, w.images[index].root, nextPath, follow, limit - n);
        return;
      } else {
        ret := Error;
        it := it + 1;
      }
    }
    match ret {
      case Continue =>
        out := if it < |pPath| && pPath[it] != Empty then Running else Found(st);
      case Absolute =>
        out := LinkAbsolute(lnk, st);
      case _ =>
        out := NoEntry;
    }
  }
}
