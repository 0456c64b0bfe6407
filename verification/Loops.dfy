/** Exactly when lookups go on for ever: there is no limit on links, but a walk that goes on comes back, while
    it works off the target of a link or mount, to that same link or mount. */
module Loops {
  import opened AbsoluteLinks
  import opened Composition
  import opened Dwarfs
  import opened Lookup
  import opened OpenAt
  import opened Paths
  import opened PathText
  import opened Resolver
  import opened ResolverRuns
  import opened TrailingSeparator

  // ---------- The walk, with or without hops from the root ----------

  /** Where the lookup goes on from the root for an absolute text inside the memfs. */
  function FromRoot(w: World, lnk: string): (r: Next)
    ensures r.Go? ==> IsPlace(w, r.to)
    ensures r.Stop? ==> r.out.NoEntry?
  {
    if 0 in w.images && IsBelowMount(Parse(lnk)) then Enter(w, 0, w.images[0].root, Inside(Parse(lnk))) else Stop(NoEntry)
  }

  /** One step. With `hops`, an absolute link inside the memfs is a step to the root image. */
  function Onward(w: World, c: Place, follow: bool, hops: bool): (r: Next)
    requires IsPlace(w, c) && !AtEnd(c)
    ensures r.Go? ==> IsPlace(w, r.to)
  {
    var next := Step(w, c, follow);
    if hops && next.Stop? && next.out.LinkAbsolute? && IsTebakoPath(next.out.lnk) then FromRoot(w, next.out.lnk) else next
  }

  /** The walk stops within `n` steps. */
  predicate Stops(w: World, c: Place, follow: bool, hops: bool, n: nat)
    requires IsPlace(w, c)
    decreases n
  {
    AtEnd(c) ||
    (n > 0 && (Onward(w, c, follow, hops).Stop? || Stops(w, Onward(w, c, follow, hops).to, follow, hops, n - 1)))
  }

  /** After `i` steps from `c` the walk stands at `d`. */
  ghost predicate Comes(w: World, c: Place, follow: bool, hops: bool, d: Place, i: nat)
    requires IsPlace(w, c)
    decreases i
  {
    if i == 0 then d == c
    else !AtEnd(c) && Onward(w, c, follow, hops).Go? && Comes(w, Onward(w, c, follow, hops).to, follow, hops, d, i - 1)
  }

  /** The place with only its first component to go. */
  function FirstOnly(d: Place): Place
    requires d.rest != []
  {
    d.(rest := [d.rest[0]])
  }

  predicate SameName(d: Place, e: Place) {
    d.rest != [] && e.rest != [] && d.k == e.k && d.dir == e.dir && d.rest[0] == e.rest[0]
  }

  /** Looking up the first component alone comes back to it: the same name in the same directory. */
  ghost predicate Again(w: World, d: Place, follow: bool, hops: bool)
    requires IsPlace(w, d) && !AtEnd(d)
  {
    exists e, j: nat :: j > 0 && Comes(w, FirstOnly(d), follow, hops, e, j) && SameName(d, e) && !AtEnd(e)
  }

  /** The walk comes to a component that comes back to itself. A link at the end of the path is entered only if
      `follow`, one before the end always. */
  ghost predicate LoopsAt(w: World, c: Place, follow: bool, hops: bool, d: Place, i: nat)
    requires IsPlace(w, c)
  {
    Comes(w, c, follow, hops, d, i) && IsPlace(w, d) && !AtEnd(d) && Again(w, d, follow || d.rest[1..] != [], hops)
  }

  /** Relative targets have no dots; where hops count, absolute targets are sound and links are followed. */
  ghost predicate IsWalkable(w: World, follow: bool, hops: bool) {
    HasPlainLinks(w) && (hops ==> follow && HasSoundLinks(w))
  }

  predicate IsFit(w: World, c: Place) {
    IsPlace(w, c) && IsPlain(c.rest) && IsSpelled(c.rest) && Stands(w, c)
  }

  // ---------- Steps ----------

  lemma StandsOn(w: World, c: Place, follow: bool)
    requires IsPlace(w, c) && !AtEnd(c) && Stands(w, c) && Step(w, c, follow).Go?
    ensures Stands(w, Step(w, c, follow).to)
  {
    hide Rewritten;
  }

  lemma PlainOn(w: World, c: Place, follow: bool)
    requires HasPlainLinks(w) && IsPlace(w, c) && !AtEnd(c) && IsPlain(c.rest) && Step(w, c, follow).Go?
    ensures IsPlain(Step(w, c, follow).to.rest)
  {
    if Step(w, c, true).Go? && Step(w, c, true).to.rest == Step(w, c, follow).to.rest {
      StepSeparated(w, c, true);
    } else {
      hide Splice, IsPlain;
      DeeperHead(c, [Empty]);
    }
  }

  lemma FromRootFit(w: World, lnk: string)
    requires IsLinkText(lnk) && IsTebakoPath(lnk) && FromRoot(w, lnk).Go?
    ensures IsFit(w, FromRoot(w, lnk).to) && IsPlainPath(Inside(Parse(lnk))) && FromRoot(w, lnk).to.rest == Inside(Parse(lnk)).body
  {
    hide Parse, IsTebakoPath;
    var p := Inside(Parse(lnk));
    assert Components(p) == p.body;
    assert p.body == [] || p.body == Parse(lnk).body[1..];
  }

  /** What a step to the root reports is the text of an absolute path. */
  lemma HopText(w: World, c: Place, lnk: string, st: Stat)
    requires HasSoundLinks(w) && IsPlace(w, c) && !AtEnd(c) && IsPlain(c.rest) && IsSpelled(c.rest)
    requires Step(w, c, true) == Stop(LinkAbsolute(lnk, st))
    ensures IsLinkText(lnk) && (IsTebakoPath(lnk) ==> IsBelowMount(Parse(lnk)))
  {
    assert IsPlainPath(EMPTY_PATH);
    hide Step, IsPlain, IsSpelled, HasSoundLinks, Parse, Render, LinkBelow, IsTebakoPath, IsPlainPath;
    StopBelow(w, c, EMPTY_PATH, true, lnk, st);
    TebakoRoot(Parse(lnk));
  }

  lemma FitOn(w: World, c: Place, follow: bool, hops: bool)
    requires IsWalkable(w, follow, hops) && IsFit(w, c) && !AtEnd(c) && Onward(w, c, follow, hops).Go?
    ensures IsFit(w, Onward(w, c, follow, hops).to)
  {
    hide Step, IsPlain, IsSpelled, FromRoot, IsTebakoPath, IsLinkText, HasPlainLinks, HasSoundLinks, Stands, IsBelowMount;
    var next := Step(w, c, follow);
    if next.Go? {
      PlainOn(w, c, follow);
      StepSpelled(w, c, follow);
      StandsOn(w, c, follow);
    } else {
      HopText(w, c, next.out.lnk, next.out.st);
      FromRootFit(w, next.out.lnk);
    }
  }

  // ---------- A walk and the walk with more behind it ----------

  /** What does not lead on still does not with more behind it. */
  lemma StopsBelow(w: World, c: Place, q: Path, follow: bool)
    requires HasPlainLinks(w) && IsPlace(w, c) && !AtEnd(c) && IsPlain(c.rest) && IsPlainPath(q)
    requires Step(w, c, true).Stop?
    ensures !AtEnd(Deeper(c, TailOf(q))) && Step(w, Deeper(c, TailOf(q)), follow).Stop?
    ensures Step(w, c, true).out.NoEntry? ==> Step(w, Deeper(c, TailOf(q)), follow).out.NoEntry?
  {
    hide Rewritten, Below, IsPlain, IsPlainTarget;
    TailFacts(q);
    DeeperHead(c, TailOf(q));
    var key, tail := Key(w, c), c.rest[1..];
    assert Below(tail, TailOf(q)) != [] by { BelowNotEmpty(tail, q); }
    BelowPlain(tail, TailOf(q));
    if key in w.mounts {
      if w.mounts[key].Host? {
        RewrittenPlain(w.mounts[key].text, tail);
        RewrittenPlain(w.mounts[key].text, Below(tail, TailOf(q)));
      }
    } else {
      var child := w.images[c.k].Lookup(key.0, key.1);
      if child.Some? && w.images[c.k].IsLink(child.value) {
        RewrittenPlain(w.images[c.k].nodes[child.value].target, tail);
        RewrittenPlain(w.images[c.k].nodes[child.value].target, Below(tail, TailOf(q)));
      }
    }
  }

  /** One step with `q` behind: it stops where the step without does, and else goes to the same directory with
      `q` behind what is left. */
  lemma OnwardBelow(w: World, c: Place, q: Path, follow: bool, hops: bool)
    requires IsWalkable(w, follow, hops) && IsFit(w, c) && !AtEnd(c) && IsPlainPath(q)
    ensures !AtEnd(Deeper(c, TailOf(q)))
    ensures var next, below := Onward(w, c, true, hops), Onward(w, Deeper(c, TailOf(q)), follow, hops);
            && (next.Stop? ==> below.Stop?)
            && (next.Go? ==> below.Go? && below.to == next.to.(rest := below.to.rest))
            && (next.Go? && !AtEnd(next.to) ==> below.to == Deeper(next.to, TailOf(q)))
            && (next.Go? && AtEnd(next.to) ==> if q.body == [] then AtEnd(below.to) else below.to.rest == q.body)
  {
    hide Step, Below, IsPlain, IsSpelled, Stands, FromRoot, HasPlainLinks, HasSoundLinks, IsTebakoPath, IsPlainPath, TailOf, LinkBelow,
         IsLinkText;
    var next := Step(w, c, true);
    if next.Go? {
      StepOnBelow(w, c, q, follow);
    } else {
      StopsBelow(w, c, q, follow);
      if hops && next.out.LinkAbsolute? {
        StopBelow(w, c, q, follow, next.out.lnk, next.out.st);
        HopText(w, c, next.out.lnk, next.out.st);
        LinkBelowIs(next.out.lnk, q);
        if IsTebakoPath(next.out.lnk) {
          FromRootBelow(w, next.out.lnk, q);
        }
      } else if !hops {
      }
    }
  }

  lemma StepOnBelow(w: World, c: Place, q: Path, follow: bool)
    requires HasPlainLinks(w) && IsFit(w, c) && !AtEnd(c) && IsPlainPath(q) && Step(w, c, true).Go?
    ensures !AtEnd(Deeper(c, TailOf(q)))
    ensures var next, below := Step(w, c, true), Step(w, Deeper(c, TailOf(q)), follow);
            && below.Go? && below.to == next.to.(rest := below.to.rest)
            && (!AtEnd(next.to) ==> below.to == Deeper(next.to, TailOf(q)))
            && (AtEnd(next.to) ==> if q.body == [] then AtEnd(below.to) else below.to.rest == q.body)
  {
    hide Step, IsPlain, IsSpelled, Stands, HasPlainLinks;
    TailFacts(q);
    var to := Step(w, c, true).to;
    if q.body == [] {
      StepSeparated(w, c, follow);
      EndsSeparated(to.rest, Step(w, Deeper(c, [Empty]), follow).to.rest);
    } else {
      if Key(w, c) in w.mounts {
        StepMountDeeper(w, c, q.body, follow);
      } else {
        StepChildDeeper(w, c, q.body, follow);
      }
      if AtEnd(to) {
        DeeperEnd(to, q.body);
      }
    }
  }

  lemma EndsSeparated(es: seq<Elem>, r: seq<Elem>)
    requires IsPlain(es) && Trails(es, r)
    ensures es == [] || es[0] == Empty ==> r == [] || r[0] == Empty
    ensures es != [] && es[0] != Empty ==> r == Below(es, [Empty])
  {
    assert es != [] && es[0] == Empty ==> es == [Empty];
  }

  /** The hop from the root with `q` behind. */
  lemma FromRootBelow(w: World, lnk: string, q: Path)
    requires IsLinkText(lnk) && IsTebakoPath(lnk) && IsBelowMount(Parse(lnk)) && IsPlainPath(q)
    requires IsBelowMount(Parse(LinkBelow(lnk, q))) || IsTebakoPath(LinkBelow(lnk, q))
    ensures var next, below := FromRoot(w, lnk), FromRoot(w, LinkBelow(lnk, q));
            && (next.Stop? ==> below.Stop?)
            && (next.Go? ==> below.Go? && below.to == next.to.(rest := below.to.rest))
            && (next.Go? && !AtEnd(next.to) ==> below.to == Deeper(next.to, TailOf(q)))
            && (next.Go? && AtEnd(next.to) ==> if q.body == [] then AtEnd(below.to) else below.to.rest == q.body)
  {
    hide Parse, LinkBelow, IsTebakoPath, Below, Slash, Append, Enter, IsLinkText, IsPlainPath, TailOf;
    LinkBelowIs(lnk, q);
    InsideBelow(Parse(lnk), q) by {
      assert IsPlainPath(q) && NoDots(Parse(lnk).body) by { TextParts(lnk); }
    }
    var p := Inside(Parse(lnk));
    SlashParts(p, q);
    if 0 in w.images {
      EnterBoth(w, 0, w.images[0].root, p, Slash(p, q));
    }
  }

  lemma TextParts(lnk: string)
    requires IsLinkText(lnk)
    ensures NoDots(Parse(lnk).body)
  {
  }

  lemma EnterBoth(w: World, k: nat, start: nat, p: Path, q: Path)
    requires k in w.images && !p.rooted && !q.rooted
    ensures Enter(w, k, start, p).Go? <==> Enter(w, k, start, q).Go?
    ensures Enter(w, k, start, p).Go? ==>
              && Enter(w, k, start, p).to.rest == p.body
              && Enter(w, k, start, q).to == Enter(w, k, start, p).to.(rest := q.body)
  {
    assert Components(p) == p.body && Components(q) == q.body;
  }

  lemma SlashParts(p: Path, q: Path)
    requires IsRelative(p) && IsPlainPath(q)
    ensures !Slash(p, q).rooted
    ensures p.body != [] ==> p.body[0] != Empty && Slash(p, q).body == Below(p.body, TailOf(q))
    ensures p.body == [] ==> Slash(p, q).body == q.body
  {
    if q.body == [] {
      AppendTrails(p);
    } else {
      SlashIs(p, q);
      assert [] + q.body == q.body;
    }
  }

  /** If the walk with `q` behind stops, so does the walk without. */
  lemma {:induction false} PrefixStops(w: World, c: Place, q: Path, follow: bool, hops: bool, n: nat)
    requires IsWalkable(w, follow, hops) && IsFit(w, c) && IsPlainPath(q)
    requires IsPlace(w, Deeper(c, TailOf(q))) && Stops(w, Deeper(c, TailOf(q)), follow, hops, n)
    ensures Stops(w, c, true, hops, n)
    decreases n
  {
    hide Onward, IsFit, IsWalkable, TailOf, IsPlainPath, Deeper;
    if AtEnd(c) {
    } else {
      FitIsPlace(w, c);
      OnwardBelow(w, c, q, follow, hops);
      WalkableTrue(w, follow, hops);
      var next := Onward(w, c, true, hops);
      if next.Go? && !AtEnd(next.to) {
        FitOn(w, c, true, hops);
        PrefixStops(w, next.to, q, follow, hops, n - 1);
      }
    }
  }

  lemma FitIsPlace(w: World, c: Place)
    requires IsFit(w, c)
    ensures IsPlace(w, c)
  {
  }

  lemma WalkableTrue(w: World, follow: bool, hops: bool)
    requires IsWalkable(w, follow, hops)
    ensures IsWalkable(w, true, hops)
  {
  }

  /** If the walk stops, the walk with `q` behind stops, or comes to where only `q` is left. */
  lemma {:induction false} CarriesOn(w: World, c: Place, q: Path, follow: bool, hops: bool, n: nat) returns (x: Place, i: nat)
    requires IsWalkable(w, follow, hops) && IsFit(w, c) && !AtEnd(c) && IsPlainPath(q) && IsPlace(w, Deeper(c, TailOf(q)))
    requires Stops(w, c, true, hops, n)
    ensures Stops(w, Deeper(c, TailOf(q)), follow, hops, n) ||
            (Comes(w, Deeper(c, TailOf(q)), follow, hops, x, i) && x.rest == q.body && q.body != [])
    decreases n
  {
    hide Onward, IsFit, IsWalkable, TailOf, IsPlainPath, Deeper;
    x, i := c, 0;
    FitIsPlace(w, c);
    OnwardBelow(w, c, q, follow, hops);
    WalkableTrue(w, follow, hops);
    var next, below := Onward(w, c, true, hops), Onward(w, Deeper(c, TailOf(q)), follow, hops);
    if next.Go? {
      if AtEnd(next.to) {
        x, i := below.to, 1;
        assert Comes(w, below.to, follow, hops, x, 0);
      } else {
        FitOn(w, c, true, hops);
        x, i := CarriesOn(w, next.to, q, follow, hops, n - 1);
        i := i + 1;
      }
    }
  }

  /** Where the walk comes, the walk with `q` behind comes with `q` behind. */
  lemma {:induction false} ComesBelow(w: World, c: Place, q: Path, follow: bool, hops: bool, x: Place, i: nat)
    requires IsWalkable(w, follow, hops) && IsFit(w, c) && IsPlainPath(q) && IsPlace(w, Deeper(c, TailOf(q)))
    requires Comes(w, c, true, hops, x, i) && !AtEnd(x)
    ensures Comes(w, Deeper(c, TailOf(q)), follow, hops, Deeper(x, TailOf(q)), i)
    decreases i
  {
    hide Onward, IsFit, IsWalkable, TailOf, IsPlainPath, Deeper;
    if i == 0 {
    } else {
      FitIsPlace(w, c);
      OnwardBelow(w, c, q, follow, hops);
      WalkableTrue(w, follow, hops);
      FitOn(w, c, true, hops);
      var next := Onward(w, c, true, hops).to;
      ComesSomewhere(w, next, true, hops, x, i - 1);
      ComesBelow(w, next, q, follow, hops, x, i - 1);
    }
  }

  lemma ComesSomewhere(w: World, c: Place, follow: bool, hops: bool, x: Place, i: nat)
    requires IsPlace(w, c) && Comes(w, c, follow, hops, x, i) && !AtEnd(x)
    ensures !AtEnd(c)
  {
  }

  lemma {:induction false} ComesFit(w: World, c: Place, follow: bool, hops: bool, x: Place, i: nat)
    requires IsWalkable(w, follow, hops) && IsFit(w, c) && Comes(w, c, follow, hops, x, i)
    ensures IsFit(w, x)
    decreases i
  {
    hide Onward, IsWalkable;
    if i == 0 {
    } else {
      FitOn(w, c, follow, hops);
      ComesFit(w, Onward(w, c, follow, hops).to, follow, hops, x, i - 1);
    }
  }

  lemma {:induction false} ComesFurther(w: World, c: Place, follow: bool, hops: bool, x: Place, i: nat, y: Place, j: nat)
    requires IsPlace(w, c) && Comes(w, c, follow, hops, x, i) && IsPlace(w, x) && Comes(w, x, follow, hops, y, j)
    ensures Comes(w, c, follow, hops, y, i + j)
    decreases i
  {
    hide Onward;
    if i == 0 {
    } else {
      ComesFurther(w, Onward(w, c, follow, hops).to, follow, hops, x, i - 1, y, j);
    }
  }

  /** The walk stops if where it comes does, and after as many steps more. */
  lemma {:induction false} StopsFromThere(w: World, c: Place, follow: bool, hops: bool, x: Place, i: nat, n: nat)
    requires IsPlace(w, c) && Comes(w, c, follow, hops, x, i)
    ensures IsPlace(w, x)
    ensures Stops(w, x, follow, hops, n) ==> Stops(w, c, follow, hops, i + n)
    ensures Stops(w, c, follow, hops, n) ==> n >= i && Stops(w, x, follow, hops, n - i)
    decreases i
  {
    hide Onward;
    if i == 0 {
    } else {
      var next := Onward(w, c, follow, hops).to;
      StopsFromThere(w, next, follow, hops, x, i - 1, n);
      if n > 0 {
        StopsFromThere(w, next, follow, hops, x, i - 1, n - 1);
      }
    }
  }

  // ---------- Attributes read on the way do not matter ----------

  lemma OnwardAside(w: World, c: Place, st: Stat, follow: bool, hops: bool)
    requires IsPlace(w, c) && !AtEnd(c)
    ensures var next, aside := Onward(w, c, follow, hops), Onward(w, c.(st := st), follow, hops);
            && (next.Stop? <==> aside.Stop?)
            && (next.Go? ==> aside.to == next.to.(st := aside.to.st))
  {
    hide Rewritten, Render, FromRoot;
  }

  lemma {:induction false} StopsAside(w: World, c: Place, st: Stat, follow: bool, hops: bool, n: nat)
    requires IsPlace(w, c) && Stops(w, c, follow, hops, n)
    ensures Stops(w, c.(st := st), follow, hops, n)
    decreases n
  {
    hide Onward;
    if AtEnd(c) {
    } else {
      OnwardAside(w, c, st, follow, hops);
      var next := Onward(w, c, follow, hops);
      if next.Go? {
        StopsAside(w, next.to, Onward(w, c.(st := st), follow, hops).to.st, follow, hops, n - 1);
      }
    }
  }

  // ---------- A walk that comes to no such component stops ----------

  /** The names that a step can get past, with the directories that hold them. */
  ghost function Names(w: World): set<(nat, nat, Elem)> {
    (set k, n, name | k in w.images && n in w.images[k].nodes && w.images[k].nodes[n].Dir? && name in w.images[k].nodes[n].children ::
       (k, n, Name(name))) +
    (set k, m | k in w.images && m in w.mounts && m.0 >= w.images[k].root :: (k, m.0 - w.images[k].root, Name(m.1)))
  }

  function NameOf(d: Place): (nat, nat, Elem)
    requires d.rest != []
  {
    (d.k, d.dir, d.rest[0])
  }

  lemma NameKnown(w: World, c: Place, follow: bool, hops: bool)
    requires IsFit(w, c) && !AtEnd(c) && Onward(w, c, follow, hops).Go?
    ensures NameOf(c) in Names(w)
  {
    hide Rewritten, Render, FromRoot;
    assert c.rest[0] == Name(Text(c.rest[0]));
    var key := Key(w, c);
    if key in w.mounts {
      assert key.0 - w.images[c.k].root == c.dir;
    } else {
      var child := w.images[c.k].Lookup(key.0, key.1);
      assert child.Some?;
    }
  }

  /** No component that the walk comes to is being worked off already, or comes back to itself. */
  ghost predicate IsClear(w: World, c: Place, follow: bool, hops: bool, busy: set<(nat, nat, Elem)>)
    requires IsPlace(w, c)
  {
    forall d, i: nat | Comes(w, c, follow, hops, d, i) && IsPlace(w, d) && !AtEnd(d) ::
      NameOf(d) !in busy && !Again(w, d, follow || d.rest[1..] != [], hops)
  }

  lemma ClearThere(w: World, c: Place, follow: bool, hops: bool, busy: set<(nat, nat, Elem)>, x: Place, i: nat)
    requires IsPlace(w, c) && IsClear(w, c, follow, hops, busy) && Comes(w, c, follow, hops, x, i) && IsPlace(w, x)
    ensures IsClear(w, x, follow, hops, busy)
  {
    hide Comes, Again;
    forall d, j: nat | Comes(w, x, follow, hops, d, j) && IsPlace(w, d) && !AtEnd(d)
      ensures NameOf(d) !in busy && !Again(w, d, follow || d.rest[1..] != [], hops)
    {
      ComesFurther(w, c, follow, hops, x, i, d, j);
    }
  }

  lemma NotBack(w: World, c: Place, follow: bool, hops: bool, d: Place, j: nat)
    requires IsPlace(w, c) && !AtEnd(c) && !Again(w, c, follow, hops)
    requires j > 0 && Comes(w, FirstOnly(c), follow, hops, d, j) && !AtEnd(d)
    ensures NameOf(d) != NameOf(c)
  {
    hide Comes;
    assert SameName(c, d) <==> NameOf(d) == NameOf(c);
  }

  /** The walk from the only component's target is clear of that component, too. */
  lemma ClearOfLast(w: World, c: Place, follow: bool, hops: bool, busy: set<(nat, nat, Elem)>)
    requires IsPlace(w, c) && !AtEnd(c) && |c.rest| == 1 && IsClear(w, c, follow, hops, busy)
    requires Onward(w, c, follow, hops).Go?
    ensures IsClear(w, Onward(w, c, follow, hops).to, follow, hops, busy + {NameOf(c)})
  {
    hide Onward;
    var to := Onward(w, c, follow, hops).to;
    assert Comes(w, c, follow, hops, c, 0);
    assert FirstOnly(c) == c && c.rest[1..] == [];
    forall d, i: nat | Comes(w, to, follow, hops, d, i) && IsPlace(w, d) && !AtEnd(d)
      ensures NameOf(d) !in busy + {NameOf(c)} && !Again(w, d, follow || d.rest[1..] != [], hops)
    {
      assert Comes(w, c, follow, hops, d, i + 1);
      NotBack(w, c, follow, hops, d, i + 1);
    }
  }

  /** The path whose elements are what is behind the first component. */
  function Behind(d: Place): Path
    requires d.rest != []
  {
    if d.rest[1..] == [Empty] then EMPTY_PATH else Path(false, d.rest[1..])
  }

  lemma BehindIs(w: World, d: Place)
    requires IsFit(w, d) && !AtEnd(d) && d.rest[1..] != []
    ensures IsPlainPath(Behind(d)) && TailOf(Behind(d)) == d.rest[1..] && |Behind(d).body| < |d.rest|
    ensures Deeper(FirstOnly(d), TailOf(Behind(d))) == d && IsFit(w, FirstOnly(d)) && !AtEnd(FirstOnly(d))
  {
    var e, tail := d.rest[0], d.rest[1..];
    assert d.rest == [e] + tail;
    assert Below([e], tail) == [e] + tail;
    assert tail[0] == d.rest[1];
    assert forall i | 0 <= i < |tail| :: tail[i] == d.rest[i + 1];
  }

  /** The walk from the first component alone is clear of that component, too. */
  lemma ClearOfFirst(w: World, c: Place, follow: bool, hops: bool, busy: set<(nat, nat, Elem)>)
    requires IsWalkable(w, follow, hops) && IsFit(w, c) && !AtEnd(c) && c.rest[1..] != [] && IsClear(w, c, follow, hops, busy)
    requires Onward(w, FirstOnly(c), true, hops).Go?
    ensures IsClear(w, Onward(w, FirstOnly(c), true, hops).to, true, hops, busy + {NameOf(c)})
  {
    hide Onward, IsWalkable, TailOf, Below, IsPlain, IsSpelled, Stands;
    BehindIs(w, c);
    var first, q := FirstOnly(c), Behind(c);
    var to := Onward(w, first, true, hops).to;
    assert Comes(w, c, follow, hops, c, 0);
    forall d, i: nat | Comes(w, to, true, hops, d, i) && IsPlace(w, d) && !AtEnd(d)
      ensures NameOf(d) !in busy + {NameOf(c)} && !Again(w, d, true, hops)
    {
      assert Comes(w, first, true, hops, d, i + 1);
      ComesBelow(w, first, q, follow, hops, d, i + 1);
      WalkableTrue(w, follow, hops);
      ComesFit(w, first, true, hops, d, i + 1);
      AgainBelow(w, d, q, hops);
      NotBack(w, c, true, hops, d, i + 1);
    }
  }

  lemma AgainBelow(w: World, d: Place, q: Path, hops: bool)
    requires IsFit(w, d) && !AtEnd(d) && IsPlainPath(q)
    ensures var below := Deeper(d, TailOf(q));
            && IsPlace(w, below) && !AtEnd(below) && NameOf(below) == NameOf(d) && below.rest[1..] != []
            && (Again(w, d, true, hops) <==> Again(w, below, true, hops))
  {
    hide Comes, Below, TailOf, Again;
    DeeperHead(d, TailOf(q));
    BelowNotEmpty(d.rest[1..], q);
    SameFirst(w, d, Deeper(d, TailOf(q)), true, hops);
  }

  lemma SameFirst(w: World, d: Place, e: Place, follow: bool, hops: bool)
    requires IsPlace(w, d) && IsPlace(w, e) && !AtEnd(d) && !AtEnd(e) && FirstOnly(d) == FirstOnly(e)
    ensures Again(w, d, follow, hops) <==> Again(w, e, follow, hops)
  {
    hide Comes;
    assert d.k == e.k && d.dir == e.dir && [d.rest[0]][0] == [e.rest[0]][0];
    forall x
      ensures SameName(d, x) <==> SameName(e, x)
    {
    }
  }

  lemma Fewer(names: set<(nat, nat, Elem)>, busy: set<(nat, nat, Elem)>, x: (nat, nat, Elem))
    requires x in names && x !in busy
    ensures names - (busy + {x}) < names - busy
  {
    assert x in names - busy && x !in names - (busy + {x});
  }

  lemma {:induction false} StopsIfClear(w: World, c: Place, follow: bool, hops: bool, busy: set<(nat, nat, Elem)>) returns (n: nat)
    requires IsWalkable(w, follow, hops) && IsFit(w, c) && IsClear(w, c, follow, hops, busy)
    ensures Stops(w, c, follow, hops, n)
    decreases Names(w) - busy, |c.rest|
  {
    hide Onward, IsWalkable, IsPlain, IsSpelled, Stands, Names, Again, Below;
    assert Comes(w, c, follow, hops, c, 0);
    if AtEnd(c) {
      n := 0;
    } else if Onward(w, c, follow, hops).Stop? {
      n := 1;
    } else if c.rest[1..] == [] {
      var to := Onward(w, c, follow, hops).to;
      NameKnown(w, c, follow, hops);
      Fewer(Names(w), busy, NameOf(c));
      ClearOfLast(w, c, follow, hops, busy);
      FitOn(w, c, follow, hops);
      n := StopsIfClear(w, to, follow, hops, busy + {NameOf(c)});
      n := n + 1;
    } else {
      BehindIs(w, c);
      n := FirstStops(w, c, follow, hops, busy);
      var x, i := CarriesOn(w, FirstOnly(c), Behind(c), follow, hops, n);
      if !Stops(w, c, follow, hops, n) {
        ComesFit(w, c, follow, hops, x, i);
        ClearThere(w, c, follow, hops, busy, x, i);
        n := StopsIfClear(w, x, follow, hops, busy);
        StopsFromThere(w, c, follow, hops, x, i, n);
        n := i + n;
      }
    }
  }

  lemma {:induction false} FirstStops(w: World, c: Place, follow: bool, hops: bool, busy: set<(nat, nat, Elem)>) returns (n: nat)
    requires IsWalkable(w, follow, hops) && IsFit(w, c) && IsClear(w, c, follow, hops, busy) && !AtEnd(c) && c.rest[1..] != []
    ensures IsPlace(w, FirstOnly(c)) && Stops(w, FirstOnly(c), true, hops, n)
    decreases Names(w) - busy, |c.rest|, 0
  {
    hide Onward, IsWalkable, IsPlain, IsSpelled, Stands, Names, Again, Below;
    assert Comes(w, c, follow, hops, c, 0);
    BehindIs(w, c);
    var first := FirstOnly(c);
    if Onward(w, first, true, hops).Stop? {
      n := 1;
    } else {
      NameKnown(w, first, true, hops);
      Fewer(Names(w), busy, NameOf(c));
      ClearOfFirst(w, c, follow, hops, busy);
      WalkableTrue(w, follow, hops);
      FitOn(w, first, true, hops);
      n := StopsIfClear(w, Onward(w, first, true, hops).to, true, hops, busy + {NameOf(c)});
      n := n + 1;
    }
  }

  // ---------- A component that comes back to itself never stops ----------

  /** Steps that do not end the walk are the same whether a final link is entered or not. */
  lemma {:induction false} ComesFollowing(w: World, c: Place, d: Place, i: nat)
    requires IsPlace(w, c) && Comes(w, c, false, false, d, i) && !AtEnd(d)
    ensures Comes(w, c, true, false, d, i)
    decreases i
  {
    if i == 0 {
    } else {
      hide Rewritten;
      var next := Onward(w, c, false, false).to;
      ComesSomewhere(w, next, false, false, d, i - 1);
      assert Step(w, c, true) == Step(w, c, false);
      ComesFollowing(w, next, d, i - 1);
    }
  }

  lemma {:induction false} NeverStops(w: World, d: Place, follow: bool, hops: bool, n: nat)
    requires IsWalkable(w, follow, hops) && IsFit(w, d) && !AtEnd(d) && Again(w, d, follow, hops)
    ensures IsPlace(w, FirstOnly(d)) && !Stops(w, FirstOnly(d), follow, hops, n)
    decreases n
  {
    hide Onward, IsPlain, IsSpelled, Stands, Below, TailOf, HasPlainLinks, HasSoundLinks;
    var first := FirstOnly(d);
    if Stops(w, first, follow, hops, n) {
      var e, j: nat :| j > 0 && Comes(w, first, follow, hops, e, j) && SameName(d, e) && !AtEnd(e);
      FirstFit(w, d);
      ComesFit(w, first, follow, hops, e, j);
      StopsFromThere(w, first, follow, hops, e, j, n);
      assert FirstOnly(e).(st := first.st) == first;
      if e.rest[1..] == [] {
        assert FirstOnly(e) == e;
        StopsAside(w, e, first.st, follow, hops, n - j);
        NeverStops(w, d, follow, hops, n - j);
      } else {
        BehindIs(w, e);
        PrefixStops(w, FirstOnly(e), Behind(e), follow, hops, n - j);
        StopsAside(w, FirstOnly(e), first.st, true, hops, n - j);
        if !follow {
          ComesFollowing(w, first, e, j);
          assert Again(w, d, true, hops);
        }
        NeverStops(w, d, true, hops, n - j);
      }
    }
  }

  lemma FirstFit(w: World, d: Place)
    requires IsFit(w, d) && !AtEnd(d)
    ensures IsFit(w, FirstOnly(d)) && !AtEnd(FirstOnly(d))
  {
  }

  lemma LoopNeverStops(w: World, c: Place, follow: bool, hops: bool, d: Place, i: nat, n: nat)
    requires IsWalkable(w, follow, hops) && IsFit(w, c) && LoopsAt(w, c, follow, hops, d, i)
    ensures !Stops(w, c, follow, hops, n)
  {
    hide Onward, Comes, IsPlain, IsSpelled, Stands, Below, TailOf, Again, IsWalkable;
    if Stops(w, c, follow, hops, n) {
      StopsFromThere(w, c, follow, hops, d, i, n);
      ComesFit(w, c, follow, hops, d, i);
      WalkableTrue(w, follow, hops);
      if d.rest[1..] == [] {
        assert FirstOnly(d) == d;
        NeverStops(w, d, follow, hops, n - i);
      } else {
        BehindIs(w, d);
        PrefixStops(w, FirstOnly(d), Behind(d), follow, hops, n - i);
        NeverStops(w, d, true, hops, n - i);
      }
    }
  }

  /** The walk stops if and only if it comes to no component that comes back to itself. */
  lemma StopsIff(w: World, c: Place, follow: bool, hops: bool)
    requires IsWalkable(w, follow, hops) && IsFit(w, c)
    ensures (exists n: nat :: Stops(w, c, follow, hops, n)) <==> !(exists d, i: nat :: LoopsAt(w, c, follow, hops, d, i))
  {
    hide Comes, Again, IsWalkable, IsPlain, IsSpelled, Stands;
    if exists d, i: nat :: LoopsAt(w, c, follow, hops, d, i) {
      var d, i: nat :| LoopsAt(w, c, follow, hops, d, i);
      forall n: nat
        ensures !Stops(w, c, follow, hops, n)
      {
        LoopNeverStops(w, c, follow, hops, d, i, n);
      }
    } else {
      assert IsClear(w, c, follow, hops, {}) by {
        forall d, i: nat | Comes(w, c, follow, hops, d, i) && IsPlace(w, d) && !AtEnd(d)
          ensures !Again(w, d, follow || d.rest[1..] != [], hops)
        {
          assert !LoopsAt(w, c, follow, hops, d, i);
        }
      }
      var n := StopsIfClear(w, c, follow, hops, {});
    }
  }

  // ---------- Lookups ----------

  /** The lookup comes to a component that, looked up alone, comes back to itself. */
  ghost predicate LoopsBack(w: World, k: nat, start: nat, p: Path, follow: bool, hops: bool)
    requires k in w.images
  {
    Enter(w, k, start, p).Go? && exists d, i: nat :: LoopsAt(w, Enter(w, k, start, p).to, follow, hops, d, i)
  }

  lemma {:induction false} StopsResolved(w: World, c: Place, follow: bool, n: nat)
    requires IsPlace(w, c)
    ensures Stops(w, c, follow, false, n) <==> Resolve(w, c, follow, n) != Running
    decreases n
  {
    hide Step, Resolve;
    if AtEnd(c) {
      OneEnd(w, c, follow, n);
    } else {
      OneStep(w, c, follow, n);
      if n > 0 && Step(w, c, follow).Go? {
        StopsResolved(w, Step(w, c, follow).to, follow, n - 1);
      }
    }
  }

  lemma EnterFit(w: World, k: nat, start: nat, p: Path)
    requires k in w.images && IsPlainPath(p) && Enter(w, k, start, p).Go?
    ensures IsFit(w, Enter(w, k, start, p).to)
  {
    assert Components(p) == p.body;
  }

  /** The loop of find_inode goes on for ever if and only if it comes to a link or host mount that, looked up
      alone, comes back to itself: to the same name in the same directory of the same image. */
  lemma RunsForEverIff(w: World, k: nat, start: nat, p: Path, follow: bool)
    requires HasPlainLinks(w) && k in w.images && StartsOutsideLinks(w.images[k], start) && IsPlainPath(p)
    ensures Meaning(w, k, start, p, follow) == Running <==> LoopsBack(w, k, start, p, follow, false)
  {
    hide Resolve, Stops, LoopsAt, IsFit, HasPlainLinks, IsPlainPath;
    var next := Enter(w, k, start, p);
    if next.Go? {
      var c := next.to;
      EnterFit(w, k, start, p);
      StopsIff(w, c, follow, false);
      if n: nat :| Stops(w, c, follow, false, n) {
        StopsResolved(w, c, follow, n);
        FromPlace(w, k, start, p, c, follow, n);
        MeaningIs(w, k, start, p, follow, n);
      } else {
        forall n: nat
          ensures ResolveFrom(w, k, start, p, follow, n) == Running
        {
          StopsResolved(w, c, follow, n);
          FromPlace(w, k, start, p, c, follow, n);
        }
      }
    } else {
      assert ResolveFrom(w, k, start, p, follow, 0) == NoEntry;
      MeaningIs(w, k, start, p, follow, 0);
    }
  }

  /** The walk with hops stops if the walk without comes to no hop, or stops from where the hop leads. */
  lemma {:induction false} HopStops(w: World, c: Place, n: nat, m: nat)
    requires IsPlace(w, c) && Resolve(w, c, true, n) != Running
    requires var out := Resolve(w, c, true, n);
             out.LinkAbsolute? && IsTebakoPath(out.lnk) && FromRoot(w, out.lnk).Go? ==>
               Stops(w, FromRoot(w, out.lnk).to, true, true, m)
    ensures Stops(w, c, true, true, n + m)
    decreases n
  {
    hide Step, Resolve, FromRoot, IsTebakoPath;
    if AtEnd(c) {
      OneEnd(w, c, true, n);
    } else {
      OneStep(w, c, true, n);
      var next := Step(w, c, true);
      if next.Go? {
        HopStops(w, next.to, n - 1, m);
      } else if Onward(w, c, true, true).Go? {
        MoreStops(w, Onward(w, c, true, true).to, true, true, m, n + m - 1);
      }
    }
  }

  lemma {:induction false} MoreStops(w: World, c: Place, follow: bool, hops: bool, n: nat, m: nat)
    requires IsPlace(w, c) && Stops(w, c, follow, hops, n) && n <= m
    ensures Stops(w, c, follow, hops, m)
    decreases n
  {
    hide Onward;
    if AtEnd(c) {
    } else if Onward(w, c, follow, hops).Go? {
      MoreStops(w, Onward(w, c, follow, hops).to, follow, hops, n - 1, m - 1);
    }
  }

  lemma {:induction false} StopsToHop(w: World, c: Place, n: nat)
    requires IsPlace(w, c) && Stops(w, c, true, true, n)
    ensures var out := Resolve(w, c, true, n);
            && out != Running
            && (out.LinkAbsolute? && IsTebakoPath(out.lnk) && FromRoot(w, out.lnk).Go? ==>
                  n > 0 && Stops(w, FromRoot(w, out.lnk).to, true, true, n - 1))
    decreases n
  {
    hide Step, Resolve, FromRoot, IsTebakoPath;
    if AtEnd(c) {
      OneEnd(w, c, true, n);
    } else {
      OneStep(w, c, true, n);
      var next := Step(w, c, true);
      if next.Go? {
        StopsToHop(w, next.to, n - 1);
        var out := Resolve(w, next.to, true, n - 1);
        if out.LinkAbsolute? && IsTebakoPath(out.lnk) && FromRoot(w, out.lnk).Go? {
          MoreStops(w, FromRoot(w, out.lnk).to, true, true, n - 2, n - 1);
        }
      }
    }
  }

  /** The hop of the walk is where the lookup from the root begins. */
  lemma HopIsRoot(w: World, k: nat, start: nat, p: Path, lnk: string, st: Stat)
    requires HasSoundLinks(w) && k in w.images && StartsOutsideLinks(w.images[k], start) && IsPlainPath(p)
    requires FollowsShort(w, k, start, p) && Meaning(w, k, start, p, true) == LinkAbsolute(lnk, st) && IsTebakoPath(lnk)
    ensures HasRoot(w, lnk) <==> 0 in w.images
    ensures HasRoot(w, lnk) ==>
              && IsPlainPath(RootPath(lnk)) && FollowsShort(w, 0, w.images[0].root, RootPath(lnk))
              && FromRoot(w, lnk) == Enter(w, 0, w.images[0].root, RootPath(lnk))
    ensures !HasRoot(w, lnk) ==> FromRoot(w, lnk).Stop?
  {
    hide Meaning, IsTebakoPath, Parse, MemfsPath, RootPath, IsLinkText, LinkBelow, HasSoundLinks, FollowsShort;
    assert IsPlainPath(EMPTY_PATH);
    BelowAbsolute(w, k, start, p, EMPTY_PATH, true, lnk, st);
    ShortHop(w, k, start, p, lnk, st);
    RootPathIs(lnk);
    if HasRoot(w, lnk) {
      FollowsShortNext(w, k, start, p, lnk, st);
    }
  }

  lemma ShortHop(w: World, k: nat, start: nat, p: Path, lnk: string, st: Stat)
    requires k in w.images && StartsOutsideLinks(w.images[k], start) && FollowsShort(w, k, start, p)
    requires Meaning(w, k, start, p, true) == LinkAbsolute(lnk, st) && IsTebakoPath(lnk)
    ensures |lnk| <= PATH_LENGTH
  {
    hide Meaning, IsTebakoPath;
    assert Follows(w, k, start, p, 0, lnk);
  }

  lemma {:induction false} EndStops(w: World, k: nat, start: nat, p: Path, n: nat) returns (m: nat)
    requires HasSoundLinks(w) && k in w.images && StartsOutsideLinks(w.images[k], start) && IsPlainPath(p)
    requires FollowsShort(w, k, start, p) && FindAbs(w, k, start, p, true, n) != Looping
    ensures Enter(w, k, start, p).Go? ==> Stops(w, Enter(w, k, start, p).to, true, true, m)
    decreases n
  {
    hide FindAbs, Meaning, Resolve, Stops, IsTebakoPath, RootPath, MemfsPath, HasSoundLinks, FollowsShort, IsPlainPath, FromRoot, RootEnds;
    EndsAt(w, k, start, p, true, n);
    EndsIs(w, k, start, p, true, FindAbs(w, k, start, p, true, n));
    m := 0;
    var r := MeaningReached(w, k, start, p, true);
    var out := Meaning(w, k, start, p, true);
    if out.LinkAbsolute? && IsTebakoPath(out.lnk) {
      Hop(w, k, start, p, out.lnk, out.st, n);
      HopIsRoot(w, k, start, p, out.lnk, out.st);
      if HasRoot(w, out.lnk) {
        m := EndStops(w, 0, w.images[0].root, RootPath(out.lnk), n - 1);
      }
    }
    if Enter(w, k, start, p).Go? {
      FromPlace(w, k, start, p, Enter(w, k, start, p).to, true, r);
      HopStops(w, Enter(w, k, start, p).to, r, m);
      m := r + m;
    }
  }

  lemma {:induction false} StopEnds(w: World, k: nat, start: nat, p: Path, n: nat)
    requires HasSoundLinks(w) && k in w.images && StartsOutsideLinks(w.images[k], start) && IsPlainPath(p)
    requires FollowsShort(w, k, start, p)
    requires Enter(w, k, start, p).Go? ==> Stops(w, Enter(w, k, start, p).to, true, true, n)
    ensures exists r :: EndsWith(w, k, start, p, true, r)
    decreases n
  {
    hide FindAbs, Meaning, Resolve, Stops, IsTebakoPath, RootPath, MemfsPath, HasSoundLinks, FollowsShort, IsPlainPath, FromRoot, EndsWith;
    StopMeans(w, k, start, p, n);
    EndsSomehow(w, k, start, p, true);
    var out := Meaning(w, k, start, p, true);
    if out.LinkAbsolute? && IsTebakoPath(out.lnk) {
      HopIsRoot(w, k, start, p, out.lnk, out.st);
      var r0 := Missing;
      if HasRoot(w, out.lnk) {
        StopEnds(w, 0, w.images[0].root, RootPath(out.lnk), if n == 0 then 0 else n - 1);
        r0 :| EndsWith(w, 0, w.images[0].root, RootPath(out.lnk), true, r0);
      }
      assert RootEnds(w, out.lnk, r0);
      EndsIs(w, k, start, p, true, ReportedToStat(r0));
    }
  }

  lemma StopMeans(w: World, k: nat, start: nat, p: Path, n: nat)
    requires k in w.images && StartsOutsideLinks(w.images[k], start)
    requires Enter(w, k, start, p).Go? ==> Stops(w, Enter(w, k, start, p).to, true, true, n)
    ensures var out := Meaning(w, k, start, p, true);
            && out != Running
            && (out.LinkAbsolute? ==> n > 0)
            && (out.LinkAbsolute? && IsTebakoPath(out.lnk) && FromRoot(w, out.lnk).Go? ==>
                  Stops(w, FromRoot(w, out.lnk).to, true, true, n - 1))
  {
    hide Resolve, Stops, FromRoot, IsTebakoPath;
    var next := Enter(w, k, start, p);
    MeaningIs(w, k, start, p, true, n) by {
      if next.Go? {
        StopsToHop(w, next.to, n);
        FromPlace(w, k, start, p, next.to, true, n);
      }
    }
    if next.Go? {
      StopsToHop(w, next.to, n);
      FromPlace(w, k, start, p, next.to, true, n);
      NoLinkYet(w, next.to, n);
    }
  }

  lemma NoLinkYet(w: World, c: Place, n: nat)
    requires IsPlace(w, c)
    ensures Resolve(w, c, true, n).LinkAbsolute? ==> n > 0
  {
  }

  /** A lookup that follows absolute links inside the memfs, too, ends if and only if it comes, hops to the root
      counted as steps, to no link or mount that comes back to itself; one that does not follow links ends if
      and only if the loop does. */
  lemma EndsIff(w: World, k: nat, start: nat, p: Path, follow: bool)
    requires HasSoundLinks(w) && k in w.images && StartsOutsideLinks(w.images[k], start) && IsPlainPath(p)
    requires follow ==> FollowsShort(w, k, start, p)
    ensures (exists r :: EndsWith(w, k, start, p, follow, r)) <==> !LoopsBack(w, k, start, p, follow, follow)
  {
    SoundIsPlain(w);
    hide FindAbs, Meaning, Stops, LoopsAt, IsFit, HasSoundLinks, HasPlainLinks, IsWalkable, IsPlainPath, FollowsShort;
    if follow {
      if r :| EndsWith(w, k, start, p, true, r) {
        var n: nat :| FindAbs(w, k, start, p, true, n) == r;
        var m := EndStops(w, k, start, p, n);
      }
      if Enter(w, k, start, p).Go? {
        EnterFit(w, k, start, p);
        StopsIff(w, Enter(w, k, start, p).to, true, true);
      }
      if !LoopsBack(w, k, start, p, true, true) {
        var n: nat := 0;
        if Enter(w, k, start, p).Go? {
          n :| Stops(w, Enter(w, k, start, p).to, true, true, n);
        }
        StopEnds(w, k, start, p, n);
      }
    } else {
      UnfollowedEnds(w, k, start, p);
      RunsForEverIff(w, k, start, p, false);
    }
  }

  lemma SoundIsPlain(w: World)
    requires HasSoundLinks(w)
    ensures HasPlainLinks(w) && IsWalkable(w, true, true)
  {
  }

  lemma UnfollowedEnds(w: World, k: nat, start: nat, p: Path)
    requires k in w.images && StartsOutsideLinks(w.images[k], start)
    ensures (exists r :: EndsWith(w, k, start, p, false, r)) <==> Meaning(w, k, start, p, false) != Running
  {
    hide FindAbs, Meaning, EndsWith, IsTebakoPath;
    if Meaning(w, k, start, p, false) != Running {
      EndsSomehow(w, k, start, p, false);
    }
    if r :| EndsWith(w, k, start, p, false, r) {
      EndsIs(w, k, start, p, false, r);
    }
  }
}
