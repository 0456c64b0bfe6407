/** Leaving the memfs: the text with which a lookup is handed to the host. */
module Escape {
  import opened Composition
  import opened Dwarfs
  import opened Lookup
  import opened PathText
  import opened Paths
  import opened Resolver
  import opened ResolverRuns
  import opened Routing
  import opened Wrappers

  // ---------- Every way out ----------

  /** After `n` steps from `c` the walk stands at `d`. */
  ghost predicate Arrives(w: World, c: Place, follow: bool, d: Place, n: nat)
    requires IsPlace(w, c)
    decreases n
  {
    if n == 0 then d == c
    else !AtEnd(c) && Step(w, c, follow).Go? && Arrives(w, Step(w, c, follow).to, follow, d, n - 1)
  }

  /** The component at `d` is a host mount or a link to be entered, and normal(target/rest) is absolute. */
  ghost predicate AbsoluteAt(w: World, d: Place, follow: bool, target: string)
    requires IsPlace(w, d)
  {
    && !AtEnd(d) && Rewritten(target, d.rest[1..]).rooted
    && if Key(w, d) in w.mounts then w.mounts[Key(w, d)] == Host(target)
       else
         var child := w.images[d.k].Lookup(Key(w, d).0, Key(w, d).1);
         child.Some? && w.images[d.k].nodes[child.value] == Link(target) && (d.rest[1..] != [] || follow)
  }

  /** The attributes read last when the component at `d` is taken: those of a link, or at a mount those of
      whatever was read before. */
  function ReadLast(w: World, d: Place): Stat
    requires IsPlace(w, d) && !AtEnd(d)
  {
    var child := w.images[d.k].Lookup(Key(w, d).0, Key(w, d).1);
    if Key(w, d) in w.mounts || child.None? then d.st else w.images[d.k].GetAttr(child.value)
  }

  /** The lookup comes, after `n` steps, to such a component at `d`, `lnk` is the text of normal(target/rest),
      and `st` what was read last. */
  ghost predicate ComesTo(w: World, k: nat, start: nat, path: Path, follow: bool,
                          d: Place, n: nat, target: string, lnk: string, st: Stat)
    requires k in w.images && StartsOutsideLinks(w.images[k], start)
  {
    && Enter(w, k, start, path).Go?
    && Arrives(w, Enter(w, k, start, path).to, follow, d, n)
    && IsPlace(w, d) && AbsoluteAt(w, d, follow, target)
    && lnk == Render(Rewritten(target, d.rest[1..])) && st == ReadLast(w, d)
  }

  lemma {:induction false} ArrivedGoesOn(w: World, c: Place, follow: bool, d: Place, n: nat, m: nat)
    requires IsPlace(w, c) && Arrives(w, c, follow, d, n)
    ensures IsPlace(w, d) && Resolve(w, c, follow, n + m) == Resolve(w, d, follow, m)
    decreases n
  {
    hide Step, Resolve;
    if n == 0 {
    } else {
      OneStep(w, c, follow, n + m);
      ArrivedGoesOn(w, Step(w, c, follow).to, follow, d, n - 1, m);
    }
  }

  /** A walk that ends with an absolute link came to the component that brought it in. */
  lemma {:induction false} CameTo(w: World, c: Place, follow: bool, n: nat, lnk: string, st: Stat) returns (d: Place, m: nat)
    requires IsPlace(w, c) && Resolve(w, c, follow, n) == LinkAbsolute(lnk, st)
    ensures Arrives(w, c, follow, d, m) && IsPlace(w, d) && !AtEnd(d) && Step(w, d, follow) == Stop(LinkAbsolute(lnk, st))
    decreases n
  {
    hide Step;
    var next := Step(w, c, follow);
    if next.Go? {
      d, m := CameTo(w, next.to, follow, n - 1, lnk, st);
      m := m + 1;
    } else {
      d, m := c, 0;
    }
  }

  /** What a step reports at such a component. */
  lemma AbsoluteStep(w: World, d: Place, follow: bool, target: string)
    requires IsPlace(w, d) && AbsoluteAt(w, d, follow, target)
    ensures Step(w, d, follow) == Stop(LinkAbsolute(Render(Rewritten(target, d.rest[1..])), ReadLast(w, d)))
  {
    hide Rewritten, Render;
  }

  /** Only such components report an absolute link. */
  lemma StepAbsolute(w: World, d: Place, follow: bool, lnk: string, st: Stat) returns (target: string)
    requires IsPlace(w, d) && !AtEnd(d) && Step(w, d, follow) == Stop(LinkAbsolute(lnk, st))
    ensures AbsoluteAt(w, d, follow, target) && lnk == Render(Rewritten(target, d.rest[1..])) && st == ReadLast(w, d)
  {
    hide Rewritten, Render;
    if Key(w, d) in w.mounts {
      target := w.mounts[Key(w, d)].text;
    } else {
      var child := w.images[d.k].Lookup(Key(w, d).0, Key(w, d).1).value;
      target := w.images[d.k].nodes[child].target;
    }
  }

  /** The lookup comes to such a component somewhere. */
  ghost predicate ComesToText(w: World, k: nat, start: nat, path: Path, follow: bool, lnk: string, st: Stat)
    requires k in w.images && StartsOutsideLinks(w.images[k], start)
  {
    exists d, n, target :: ComesTo(w, k, start, path, follow, d, n, target, lnk, st)
  }

  /** The walk means an absolute link if and only if, through any links and mounts, it comes to one. */
  lemma AbsoluteIff(w: World, k: nat, start: nat, path: Path, follow: bool, lnk: string, st: Stat)
    requires k in w.images && StartsOutsideLinks(w.images[k], start)
    ensures Meaning(w, k, start, path, follow) == LinkAbsolute(lnk, st) <==> ComesToText(w, k, start, path, follow, lnk, st)
  {
    hide ComesTo, Meaning, ReadLast;
    if Meaning(w, k, start, path, follow) == LinkAbsolute(lnk, st) {
      var d, n, target := MeantAbsolute(w, k, start, path, follow, lnk, st);
    }
    forall d, n, target | ComesTo(w, k, start, path, follow, d, n, target, lnk, st)
      ensures Meaning(w, k, start, path, follow) == LinkAbsolute(lnk, st)
    {
      MeansAbsolute(w, k, start, path, follow, d, n, target, lnk, st);
    }
  }

  lemma MeantAbsolute(w: World, k: nat, start: nat, path: Path, follow: bool, lnk: string, st: Stat)
    returns (d: Place, m: nat, target: string)
    requires k in w.images && StartsOutsideLinks(w.images[k], start)
    requires Meaning(w, k, start, path, follow) == LinkAbsolute(lnk, st)
    ensures ComesTo(w, k, start, path, follow, d, m, target, lnk, st)
  {
    hide Resolve, Step, AbsoluteAt, Render, Rewritten, ReadLast;
    var n := MeaningReached(w, k, start, path, follow);
    var c := Enter(w, k, start, path).to;
    FromPlace(w, k, start, path, c, follow, n);
    d, m := CameTo(w, c, follow, n, lnk, st);
    target := StepAbsolute(w, d, follow, lnk, st);
  }

  lemma MeansAbsolute(w: World, k: nat, start: nat, path: Path, follow: bool,
                      d: Place, n: nat, target: string, lnk: string, st: Stat)
    requires k in w.images && StartsOutsideLinks(w.images[k], start)
    requires ComesTo(w, k, start, path, follow, d, n, target, lnk, st)
    ensures Meaning(w, k, start, path, follow) == LinkAbsolute(lnk, st)
  {
    hide Resolve, Step, Render, Rewritten, ReadLast;
    var c := Enter(w, k, start, path).to;
    ArrivedGoesOn(w, c, follow, d, n, 1);
    AbsoluteStep(w, d, follow, target);
    OneStep(w, d, follow, 1);
    FromPlace(w, k, start, path, c, follow, n + 1);
    MeaningIs(w, k, start, path, follow, n + 1);
  }

  /** A lookup is handed to the host with the text `lnk` if and only if, for any path and through any links
      and mounts, it comes to a host mount or a link to be entered for which normal(target/rest) is
      absolute, `lnk` is that text, and it lies outside the memfs. */
  lemma OutsideIff(w: World, k: nat, start: nat, path: Path, follow: bool, lnk: string)
    requires k in w.images && StartsOutsideLinks(w.images[k], start)
    ensures EndsWith(w, k, start, path, follow, Outside(lnk)) <==>
            !IsTebakoPath(lnk) && exists st :: ComesToText(w, k, start, path, follow, lnk, st)
  {
    hide ComesToText, IsTebakoPath, EndsWith, Meaning, RootEnds;
    EndsIs(w, k, start, path, follow, Outside(lnk));
    var out := Meaning(w, k, start, path, follow);
    if out.LinkAbsolute? {
      AbsoluteIff(w, k, start, path, follow, lnk, out.st);
    }
    forall st | ComesToText(w, k, start, path, follow, lnk, st)
      ensures out == LinkAbsolute(lnk, st)
    {
      AbsoluteIff(w, k, start, path, follow, lnk, st);
    }
  }

  /** A lookup that does not follow links gives the attributes `st` if and only if the walk finds them, or it
      comes to a host mount or a link in mid-path whose normal(target/rest) lies inside the memfs, and `st` is
      what was read last there: the link's own attributes, or at a mount those of what the walk came through. */
  lemma UnfollowedIff(w: World, k: nat, start: nat, path: Path, st: Stat)
    requires k in w.images && StartsOutsideLinks(w.images[k], start)
    ensures EndsWith(w, k, start, path, false, Ok(st)) <==>
            || Meaning(w, k, start, path, false) == Found(st)
            || exists lnk :: IsTebakoPath(lnk) && ComesToText(w, k, start, path, false, lnk, st)
  {
    hide ComesToText, IsTebakoPath, EndsWith, Meaning, RootEnds;
    EndsIs(w, k, start, path, false, Ok(st));
    var out := Meaning(w, k, start, path, false);
    if out.LinkAbsolute? {
      AbsoluteIff(w, k, start, path, false, out.lnk, out.st);
    }
    forall lnk | ComesToText(w, k, start, path, false, lnk, st)
      ensures out == LinkAbsolute(lnk, st)
    {
      AbsoluteIff(w, k, start, path, false, lnk, st);
    }
  }

  // ---------- A mount or link below a directory ----------

  /** What a first step from a directory reports, the walk that passes the directory reports. */
  lemma ReportedBelow(w: World, k: nat, start: nat, p: Path, q: Path, fp: bool, follow: bool, s: Stat, out: Outcome)
    requires IsMounted(w) && HasPlainLinks(w) && LeadsTo(w, k, start, p, fp, s)
    requires WellFormed(q) && !q.rooted && NoDots(q.body) && q.body != []
    requires Reaches(w, s) ==> Step(w, PlaceOf(w, s, q.body), follow) == Stop(out)
    ensures Meaning(w, k, start, Slash(p, q), follow) == out
  {
    hide Owner;
    ResolveBelowDirectory(w, k, start, p, q, fp, follow, s);
    var o := Owner(w, s.ino);
    var d := PlaceOf(w, s, q.body);
    assert Enter(w, o, s.ino, q) == Go(d) by {
      assert Components(q) == q.body;
    }
    FromPlace(w, o, s.ino, q, d, follow, 1);
    OneStep(w, d, follow, 1);
    MeaningIs(w, o, s.ino, q, follow, 1);
  }

  lemma PlaceKey(w: World, s: Stat, q: seq<Elem>)
    requires Reaches(w, s) && q != []
    ensures var d := PlaceOf(w, s, q);
            IsPlace(w, d) && d.k == Owner(w, s.ino) && d.rest == q && d.st == s && Key(w, d) == (s.ino, Text(q[0]))
  {
    hide Owner;
  }

  /** The path m/rest. */
  function Under(m: Elem, rest: seq<Elem>): Path {
    Path(false, [m] + rest)
  }

  lemma UnderFacts(m: Elem, rest: seq<Elem>)
    requires m.Name? && IsTail(rest) && NoDots(rest)
    ensures var q := Under(m, rest);
            && WellFormed(q) && !q.rooted && NoDots(q.body) && q.body != []
            && q.body[0] == m && q.body[1..] == rest
  {
  }

  /** A path p/m/rest that meets a host mount m in the directory p leads outside with exactly the text
      normal(target/rest), after whatever relative links, host mounts and image mounts p goes through. */
  lemma HostMountLeadsOutside(w: World, k: nat, start: nat, p: Path, fp: bool, s: Stat,
                              m: Elem, rest: seq<Elem>, target: string, follow: bool)
    requires IsMounted(w) && HasPlainLinks(w) && LeadsTo(w, k, start, p, fp, s)
    requires m.Name? && IsTail(rest) && NoDots(rest)
    requires (s.ino, m.text) in w.mounts && w.mounts[(s.ino, m.text)] == Host(target) && Parse(target).rooted
    requires !IsTebakoPath(Render(Rewritten(target, rest)))
    ensures EndsWith(w, k, start, Slash(p, Under(m, rest)), follow, Outside(Render(Rewritten(target, rest))))
  {
    var q := Under(m, rest);
    UnderFacts(m, rest);
    hide Owner, Step, Rewritten, Under, NoDots, HasPlainLinks, IsTebakoPath;
    if Reaches(w, s) {
      PlaceKey(w, s, q.body);
      HostMountStep(w, PlaceOf(w, s, q.body), target, follow);
    }
    AbsoluteBelow(w, k, start, p, q, fp, follow, s, Render(Rewritten(target, rest)), s);
  }

  /** The same for a symbolic link m with an absolute target, unless it is the last component and not
      to be followed. */
  lemma LinkLeadsOutside(w: World, k: nat, start: nat, p: Path, fp: bool, s: Stat,
                         m: Elem, child: nat, rest: seq<Elem>, target: string, follow: bool)
    requires IsMounted(w) && HasPlainLinks(w) && LeadsTo(w, k, start, p, fp, s) && Reaches(w, s)
    requires m.Name? && IsTail(rest) && NoDots(rest) && (rest != [] || follow)
    requires (s.ino, m.text) !in w.mounts
    requires w.images[Owner(w, s.ino)].Lookup(s.ino, m.text) == Some(child)
    requires w.images[Owner(w, s.ino)].nodes[child] == Link(target) && Parse(target).rooted
    requires !IsTebakoPath(Render(Rewritten(target, rest)))
    ensures EndsWith(w, k, start, Slash(p, Under(m, rest)), follow, Outside(Render(Rewritten(target, rest))))
  {
    var q := Under(m, rest);
    UnderFacts(m, rest);
    PlaceKey(w, s, q.body);
    hide Owner, Step, Rewritten, Under, NoDots, HasPlainLinks, IsTebakoPath, PlaceOf, Key;
    LinkStep(w, PlaceOf(w, s, q.body), child, target, follow);
    var st := w.images[Owner(w, s.ino)].GetAttr(child);
    AbsoluteBelow(w, k, start, p, q, fp, follow, s, Render(Rewritten(target, rest)), st);
  }

  /** A host mount m whose target lies inside the memfs, looked up without following links, gives the
      attributes of the directory that holds the mount point, whatever is behind it: lstat() on such a
      path does not describe what the path names. */
  lemma HostMountInsideNotFollowed(w: World, k: nat, start: nat, p: Path, fp: bool, s: Stat,
                                   m: Elem, rest: seq<Elem>, target: string)
    requires IsMounted(w) && HasPlainLinks(w) && LeadsTo(w, k, start, p, fp, s)
    requires m.Name? && IsTail(rest) && NoDots(rest)
    requires (s.ino, m.text) in w.mounts && w.mounts[(s.ino, m.text)] == Host(target) && Parse(target).rooted
    requires IsTebakoPath(Render(Rewritten(target, rest)))
    ensures EndsWith(w, k, start, Slash(p, Under(m, rest)), false, Ok(s))
  {
    var q := Under(m, rest);
    UnderFacts(m, rest);
    hide Owner, Step, Rewritten, Under, NoDots, HasPlainLinks, IsTebakoPath;
    if Reaches(w, s) {
      PlaceKey(w, s, q.body);
      HostMountStep(w, PlaceOf(w, s, q.body), target, false);
    }
    AbsoluteBelow(w, k, start, p, q, fp, false, s, Render(Rewritten(target, rest)), s);
  }

  /** The text reported is that of a path: read again, it is normal(target/rest). */
  lemma OutsideTextReadsBack(target: string, rest: seq<Elem>)
    requires IsTail(rest) && IsSpelled(rest)
    ensures Parse(Render(Rewritten(target, rest))) == Rewritten(target, rest)
  {
    var t := Parse(target);
    ParseShape(target);
    AppendAllIs(t, rest);
    NormalReadsBack(AppendAll(t, rest));
  }

  lemma AbsoluteBelow(w: World, k: nat, start: nat, p: Path, q: Path, fp: bool, follow: bool, s: Stat, lnk: string, st: Stat)
    requires IsMounted(w) && HasPlainLinks(w) && LeadsTo(w, k, start, p, fp, s)
    requires WellFormed(q) && !q.rooted && NoDots(q.body) && q.body != []
    requires Reaches(w, s) ==> Step(w, PlaceOf(w, s, q.body), follow) == Stop(LinkAbsolute(lnk, st))
    ensures !IsTebakoPath(lnk) ==> EndsWith(w, k, start, Slash(p, q), follow, Outside(lnk))
    ensures IsTebakoPath(lnk) && !follow ==> EndsWith(w, k, start, Slash(p, q), follow, Ok(st))
  {
    hide Owner, EndsWith, HasPlainLinks, IsTebakoPath;
    ReportedBelow(w, k, start, p, q, fp, follow, s, LinkAbsolute(lnk, st));
    EndsSomehow(w, k, start, Slash(p, q), follow);
  }

  lemma HostMountStep(w: World, d: Place, target: string, follow: bool)
    requires IsPlace(w, d) && !AtEnd(d) && IsTail(d.rest[1..])
    requires Key(w, d) in w.mounts && w.mounts[Key(w, d)] == Host(target) && Parse(target).rooted
    ensures Step(w, d, follow) == Stop(LinkAbsolute(Render(Rewritten(target, d.rest[1..])), d.st))
  {
    AppendedRoot(target, d.rest[1..]);
  }

  lemma LinkStep(w: World, d: Place, child: nat, target: string, follow: bool)
    requires IsPlace(w, d) && !AtEnd(d) && IsTail(d.rest[1..]) && (d.rest[1..] != [] || follow)
    requires Key(w, d) !in w.mounts && w.images[d.k].Lookup(Key(w, d).0, Key(w, d).1) == Some(child)
    requires w.images[d.k].nodes[child] == Link(target) && Parse(target).rooted
    ensures Step(w, d, follow) == Stop(LinkAbsolute(Render(Rewritten(target, d.rest[1..])), w.images[d.k].GetAttr(child)))
  {
    AppendedRoot(target, d.rest[1..]);
  }

  lemma AppendedRoot(target: string, rest: seq<Elem>)
    requires Parse(target).rooted && IsTail(rest)
    ensures Rewritten(target, rest).rooted
  {
    AppendAllIs(Parse(target), rest);
    NormalFacts(AppendAll(Parse(target), rest));
  }
}
