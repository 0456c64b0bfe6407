/** openat() and open(): what is found for q relative to a directory descriptor, and for the path p/q when p
    is the path that the descriptor was opened with, through relative and absolute links alike. */
module OpenAt {
  import opened AbsoluteLinks
  import opened Composition
  import opened Dwarfs
  import opened Escape
  import opened Lookup
  import opened Paths
  import opened PathText
  import opened Resolver
  import opened ResolverRuns
  import opened Routing
  import opened TrailingSeparator
  import opened Wrappers

  // ---------- Premises ----------

  /** A relative path without dots, as parsing a text yields it. */
  predicate IsPlainPath(p: Path) {
    IsRelative(p) && NoDots(p.body)
  }

  /** An absolute target names something, and that is below the mount point, the mount point itself, or
      something whose first name does not even begin like the mount point's. */
  predicate IsSoundTarget(target: string) {
    var p := Normal(Parse(target));
    p.rooted ==> IsSoundRoot(p)
  }

  predicate IsSoundRoot(p: Path) {
    p.body != [] && (MOUNT_NAME <= Text(p.body[0]) ==> p.body[0] == Name(MOUNT_NAME))
  }

  /** Relative targets have no dots in them, absolute ones are sound. */
  ghost predicate HasSoundLinks(w: World) {
    && HasPlainLinks(w)
    && (forall k, n | k in w.images && n in w.images[k].nodes && w.images[k].IsLink(n) ::
          IsSoundTarget(w.images[k].nodes[n].target))
    && (forall m | m in w.mounts && w.mounts[m].Host? :: IsSoundTarget(w.mounts[m].text))
  }

  /** The text that a lookup of p/q comes to where the lookup of p comes to `lnk`. */
  function LinkBelow(lnk: string, q: Path): string {
    Render(Slash(Parse(lnk), q))
  }

  /** The absolute texts that the lookups of p and p/q follow inside the memfs fit the path buffer. */
  ghost predicate TextsFit(w: World, k: nat, start: nat, p: Path, q: Path)
    requires k in w.images && StartsOutsideLinks(w.images[k], start)
  {
    forall n: nat, lnk | Follows(w, k, start, p, n, lnk) :: |lnk| <= PATH_LENGTH && |LinkBelow(lnk, q)| <= PATH_LENGTH
  }

  // ---------- Absolute texts, and what lies below them ----------

  /** The text of an absolute path that a walk can report. */
  predicate IsLinkText(lnk: string) {
    var p := Parse(lnk);
    p.rooted && WellFormed(p) && IsSpelled(p.body) && NoDots(p.body) && Render(p) == lnk && IsSoundRoot(p)
  }

  /** The rest of a path when `q` is appended to it: at least a separator. */
  function TailOf(q: Path): seq<Elem> {
    if q.body == [] then [Empty] else q.body
  }

  lemma TailFacts(q: Path)
    requires IsPlainPath(q)
    ensures IsPlain(TailOf(q)) && TailOf(q) != [] && (q.body != [] ==> TailOf(q) != [Empty])
  {
  }

  lemma AppendTail(t: Path, tail: seq<Elem>, q: Path)
    requires IsPlain(tail) && IsPlainPath(q)
    ensures AppendAll(t, Below(tail, TailOf(q))) == Slash(AppendAll(t, tail), q)
  {
    TailFacts(q);
    if q.body == [] {
      AppendSeparator(t, tail);
    } else {
      AppendBelow(t, tail, q.body);
      SlashIs(AppendAll(t, tail), q);
      AppendAllIs(t, tail);
    }
  }

  /** What normalisation makes of an absolute target and a rest without dots begins as the target does. */
  lemma RewrittenRoot(target: string, tail: seq<Elem>)
    requires Parse(target).rooted && IsSoundTarget(target) && IsPlain(tail) && IsSpelled(tail)
    ensures Rewritten(target, tail).rooted && IsLinkText(Render(Rewritten(target, tail)))
    ensures Parse(Render(Rewritten(target, tail))) == Rewritten(target, tail)
  {
    hide Parse, Render, Normal;
    var t := Parse(target);
    var a := AppendAll(t, tail);
    ParseShape(target);
    AppendAllIs(t, tail);
    RootStays(t, tail);
    NormalFacts(t);
    NormalFacts(a);
    assert IsSpelled(a.body);
    NormalReadsBack(a);
    NormalHasNoDots(a);
    FirstStays(t, tail);
  }

  lemma FirstStays(t: Path, tail: seq<Elem>)
    requires t.rooted && WellFormed(t) && Normal(t).body != [] && IsPlain(tail)
    ensures Normal(AppendAll(t, tail)).body != [] && Normal(AppendAll(t, tail)).body[0] == Normal(t).body[0]
  {
    hide Normal, AppendAll;
    AppendAllIs(t, tail);
    var n := Normal(t);
    NormalFacts(t);
    NormalHasNoDots(t);
    if tail == [] {
    } else {
      var q := if tail == [Empty] then EMPTY_PATH else Path(false, tail);
      assert AppendAll(t, tail) == Slash(t, q) by {
        if tail == [Empty] {
        } else {
          SlashIs(t, q);
        }
      }
      NormalSlashLeft(t, q);
      SlashBelow(n, q);
    }
  }

  /** Below an absolute normal path there is nothing to normalise if nothing without dots is appended. */
  lemma SlashBelow(n: Path, q: Path)
    requires n.rooted && WellFormed(n) && NoDots(n.body) && n.body != []
    requires WellFormed(q) && !q.rooted && NoDots(q.body)
    ensures var s := Slash(n, q);
            && s.rooted && WellFormed(s) && NoDots(s.body) && Normal(s) == s
            && s.body != [] && s.body[0] == n.body[0]
  {
    var s := Slash(n, q);
    if q.body == [] {
      assert s.body[..|n.body|] == n.body;
    } else {
      SlashIs(n, q);
      var b := Strip(n.body);
      assert b != [] && b[0] == n.body[0];
      assert forall i | 0 <= i < |b| :: b[i] == n.body[i] && b[i] != Empty;
    }
    PlainNormal(s);
  }

  /** The text below a link's text is again such a text, and leads to what lies below. */
  lemma LinkBelowIs(lnk: string, q: Path)
    requires IsLinkText(lnk) && IsPlainPath(q)
    ensures IsLinkText(LinkBelow(lnk, q)) && Parse(LinkBelow(lnk, q)) == Slash(Parse(lnk), q)
    ensures Normal(Slash(Parse(lnk), q)) == Slash(Parse(lnk), q)
    ensures IsTebakoPath(LinkBelow(lnk, q)) == IsTebakoPath(lnk)
  {
    hide Parse, Render, Normal, IsTebakoPath;
    var n := Parse(lnk);
    SlashBelow(n, q);
    SpelledSlash(n, q);
    RoundTrip(Slash(n, q));
    TebakoRoot(n);
    TebakoRoot(Slash(n, q));
  }

  /** Such a path is inside the memfs by its text if and only if its first name is the mount point's. */
  lemma TebakoRoot(p: Path)
    requires p.rooted && WellFormed(p) && IsSpelled(p.body) && NoDots(p.body) && IsSoundRoot(p)
    ensures IsTebakoPath(Render(p)) <==> p.body[0] == Name(MOUNT_NAME)
  {
    hide Render;
    RenderRoot(p);
    var name := Text(p.body[0]);
    assert p.body[0] == Name(name);
    BeginsLikeMount(name, if p.body[1..] == [] then "" else "/" + RenderBody(p.body[1..]));
  }

  /** Where the lookup goes on from the root for a text inside the memfs. */
  lemma RootPathIs(lnk: string)
    requires IsLinkText(lnk) && IsTebakoPath(lnk) && |lnk| <= PATH_LENGTH
    ensures IsBelowMount(Parse(lnk))
    ensures MemfsPath(lnk) == lnk && |lnk| >= MOUNT_POINT_LENGTH && RootPath(lnk) == Inside(Parse(lnk))
    ensures IsPlainPath(RootPath(lnk))
  {
    hide Parse, Render, Normal, BelowMountPoint;
    var n := Parse(lnk);
    TebakoRoot(n);
    PlainNormal(n);
    InsideText(n);
  }

  lemma InsideBelow(n: Path, q: Path)
    requires IsBelowMount(n) && NoDots(n.body) && IsPlainPath(q)
    ensures IsBelowMount(Slash(n, q)) && Inside(Slash(n, q)) == Slash(Inside(n), q)
  {
    var b := n.body[1..];
    assert n.body == [n.body[0]] + b;
    SlashBelow(n, q);
    SpelledSlash(n, q);
    if q.body == [] {
      InsideSeparator(n);
    } else {
      SlashIs(n, q);
      SlashIs(Inside(n), q);
      BelowCons(n.body[0], b, q.body);
      assert Slash(n, q).body[1..] == Below(b, q.body);
      assert Below(b, q.body) != [Empty];
    }
  }

  lemma InsideSeparator(n: Path)
    requires IsBelowMount(n) && IsBelowMount(Append(n, Empty))
    ensures Inside(Append(n, Empty)) == Append(Inside(n), Empty)
  {
    var b := n.body[1..];
    assert n.body == [n.body[0]] + b;
    if b == [] {
      assert Append(n, Empty).body[1..] == [Empty];
    } else {
      assert Last(n.body) == Last(b);
      assert Last(b) != Empty ==> Append(n, Empty).body[1..] == b + [Empty];
    }
  }

  // ---------- The walk to p/q where the walk to p comes to an absolute link ----------

  lemma SpliceBelow(k: nat, dir: nat, target: string, tail: seq<Elem>, st: Stat, q: Path, lnk: string)
    requires IsPlainTarget(target) && IsSoundTarget(target) && IsPlain(tail) && IsSpelled(tail) && IsPlainPath(q)
    requires Splice(k, dir, target, tail, st) == Stop(LinkAbsolute(lnk, st))
    ensures IsLinkText(lnk)
    ensures Splice(k, dir, target, Below(tail, TailOf(q)), st) == Stop(LinkAbsolute(LinkBelow(lnk, q), st))
  {
    hide Parse, Render, Normal, AppendAll, Slash, Below;
    RewrittenPlain(target, tail);
    RewrittenRoot(target, tail);
    AppendTail(Parse(target), tail, q);
    var a := AppendAll(Parse(target), tail);
    NormalSlashLeft(a, q);
    LinkBelowIs(lnk, q);
  }

  /** The component that brings the link in brings it in with `q` behind it, followed or not. */
  lemma StopBelow(w: World, c: Place, q: Path, follow: bool, lnk: string, st: Stat)
    requires HasSoundLinks(w) && IsPlace(w, c) && !AtEnd(c) && IsPlain(c.rest) && IsSpelled(c.rest) && IsPlainPath(q)
    requires Step(w, c, true) == Stop(LinkAbsolute(lnk, st))
    ensures IsLinkText(lnk) && !AtEnd(Deeper(c, TailOf(q)))
    ensures Step(w, Deeper(c, TailOf(q)), follow) == Stop(LinkAbsolute(LinkBelow(lnk, q), st))
  {
    hide Splice, Below, IsPlain, IsPlainTarget, IsSoundTarget, IsLinkText, LinkBelow, IsSpelled;
    TailFacts(q);
    DeeperHead(c, TailOf(q));
    var key, tail := Key(w, c), c.rest[1..];
    assert IsSpelled(tail) by { TailSpelled(c.rest); }
    assert Below(tail, TailOf(q)) != [] by { BelowNotEmpty(tail, q); }
    if key in w.mounts {
      SpliceBelow(c.k, c.dir, w.mounts[key].text, tail, c.st, q, lnk);
    } else {
      var child := w.images[c.k].Lookup(key.0, key.1).value;
      SpliceBelow(c.k, c.dir, w.images[c.k].nodes[child].target, tail, w.images[c.k].GetAttr(child), q, lnk);
    }
  }

  lemma TailSpelled(es: seq<Elem>)
    requires IsSpelled(es) && es != []
    ensures IsSpelled(es[1..])
  {
  }

  lemma BelowNotEmpty(es: seq<Elem>, q: Path)
    ensures Below(es, TailOf(q)) != []
  {
  }

  lemma SpelledRewritten(target: string, tail: seq<Elem>)
    requires IsTail(tail) && IsSpelled(tail)
    ensures IsSpelled(Rewritten(target, tail).body)
  {
    ParseShape(target);
    AppendAllIs(Parse(target), tail);
    NormalReadsBack(AppendAll(Parse(target), tail));
  }

  /** What is left of the path stays such as texts give it. */
  lemma StepSpelled(w: World, c: Place, follow: bool)
    requires IsPlace(w, c) && !AtEnd(c) && IsPlain(c.rest) && IsSpelled(c.rest) && Step(w, c, follow).Go?
    ensures IsSpelled(Step(w, c, follow).to.rest)
  {
    hide Rewritten;
    var key, tail := Key(w, c), c.rest[1..];
    AppendAllIs(EMPTY_PATH, tail);
    if key in w.mounts && w.mounts[key].Host? {
      SpelledRewritten(w.mounts[key].text, tail);
    } else if key !in w.mounts {
      var child := w.images[c.k].Lookup(key.0, key.1).value;
      if w.images[c.k].IsLink(child) {
        SpelledRewritten(w.images[c.k].nodes[child].target, tail);
      }
    }
  }

  /** One step of the walk to p is one step of the walk to p/q. */
  lemma GoBelow(w: World, c: Place, q: Path, follow: bool)
    requires HasPlainLinks(w) && IsPlace(w, c) && !AtEnd(c) && IsPlain(c.rest) && IsPlainPath(q)
    requires Stands(w, c) || q.body == []
    requires Step(w, c, true).Go? && !AtEnd(Step(w, c, true).to)
    ensures var to := Step(w, c, true).to;
            && IsPlain(to.rest) && (q.body != [] ==> Stands(w, to))
            && !AtEnd(Deeper(c, TailOf(q)))
            && Step(w, Deeper(c, TailOf(q)), follow) == Go(Deeper(to, TailOf(q)))
  {
    hide Step, Below, IsPlain, Stands;
    TailFacts(q);
    if q.body == [] {
      StepSeparated(w, c, follow);
    } else if Key(w, c) in w.mounts {
      StepMountDeeper(w, c, q.body, follow);
    } else {
      StepChildDeeper(w, c, q.body, follow);
    }
  }

  lemma {:induction false} AbsoluteDeeper(w: World, c: Place, q: Path, follow: bool, lnk: string, st: Stat, n: nat)
    requires HasSoundLinks(w) && IsPlace(w, c) && IsPlain(c.rest) && IsSpelled(c.rest) && IsPlainPath(q)
    requires Stands(w, c) || q.body == []
    requires Resolve(w, c, true, n) == LinkAbsolute(lnk, st)
    ensures IsLinkText(lnk)
    ensures Resolve(w, Deeper(c, TailOf(q)), follow, n) == LinkAbsolute(LinkBelow(lnk, q), st)
    decreases n
  {
    hide Step, Resolve, Below, IsPlain, IsSpelled, Stands, IsLinkText, LinkBelow;
    if AtEnd(c) {
      OneEnd(w, c, true, n);
    } else {
      OneStep(w, c, true, n);
      var next := Step(w, c, true);
      if next.Go? {
        var to := next.to;
        StepSpelled(w, c, true);
        if AtEnd(to) {
          OneEnd(w, to, true, n - 1);
        }
        GoBelow(w, c, q, follow);
        AbsoluteDeeper(w, to, q, follow, lnk, st, n - 1);
      } else {
        StopBelow(w, c, q, follow, lnk, st);
      }
      OneStep(w, Deeper(c, TailOf(q)), follow, n);
    }
  }

  /** Where the lookup of p comes to an absolute link, that of p/q comes to the same link with q behind it,
      whether links are to be followed at the end or not. */
  lemma BelowAbsolute(w: World, k: nat, start: nat, p: Path, q: Path, follow: bool, lnk: string, st: Stat)
    requires HasSoundLinks(w) && k in w.images && StartsOutsideLinks(w.images[k], start)
    requires IsPlainPath(p) && IsPlainPath(q)
    requires Meaning(w, k, start, p, true) == LinkAbsolute(lnk, st)
    ensures IsLinkText(lnk)
    ensures Meaning(w, k, start, Slash(p, q), follow) == LinkAbsolute(LinkBelow(lnk, q), st)
  {
    hide Resolve, LinkBelow, IsLinkText, Meaning, HasSoundLinks, Slash, TailOf, Below, NoDots;
    var n := MeaningReached(w, k, start, p, true);
    var c := Enter(w, k, start, p).to;
    assert Components(p) == p.body;
    FromPlace(w, k, start, p, c, true, n);
    if p.body == [] {
      OneEnd(w, c, true, n);
    }
    AbsoluteDeeper(w, c, q, follow, lnk, st, n);
    SlashTail(p, q);
    var s := Slash(p, q);
    assert Components(s) == s.body;
    FromPlace(w, k, start, s, Deeper(c, TailOf(q)), follow, n);
    MeaningIs(w, k, start, s, follow, n);
  }

  lemma SlashTail(p: Path, q: Path)
    requires IsPlainPath(p) && IsPlainPath(q) && p.body != []
    ensures Slash(p, q) == Path(false, Below(p.body, TailOf(q))) && IsPlainPath(Slash(p, q))
  {
    TailFacts(q);
    AppendTail(EMPTY_PATH, p.body, q);
    AppendAllIs(EMPTY_PATH, p.body);
    if q.body == [] {
      assert Last(p.body) == Empty ==> p.body == Front(p.body) + [Empty];
    } else {
      SlashIs(p, q);
    }
    BelowPlain(p.body, TailOf(q));
    assert Strip(p.body) != [] && Strip(p.body)[0] == p.body[0];
  }

  // ---------- The two calls ----------

  /** What open(p/q) makes of what openat() finds for q: nothing, if the lookup of p meets no absolute link.
      Otherwise p/q goes through tebako_stat() if links are followed, and if they are not ends where that link
      is met. */
  ghost function Reply(w: World, k: nat, start: nat, p: Path, follow: bool, r: Result): Result
    requires k in w.images && StartsOutsideLinks(w.images[k], start)
  {
    match Meaning(w, k, start, p, true)
    case LinkAbsolute(_, st) => if follow then ReportedToStat(r) else Ok(st)
    case _ => r
  }

  /** open(p/q) is to end with `r`, by what openat() finds for q in the directory `s`. */
  ghost predicate RepliesWith(w: World, k: nat, start: nat, p: Path, q: Path, follow: bool, s: Stat, r: Result)
    requires k in w.images && StartsOutsideLinks(w.images[k], start)
    requires Reaches(w, s) && StartsOutsideLinks(w.images[Owner(w, s.ino)], s.ino)
  {
    exists r0 :: EndsWith(w, Owner(w, s.ino), s.ino, q, follow, r0) && r == Reply(w, k, start, p, follow, r0)
  }

  lemma DirectoryStarts(w: World, s: Stat)
    requires Reaches(w, s) && s.kind == Directory
    ensures StartsOutsideLinks(w.images[Owner(w, s.ino)], s.ino)
  {
  }

  lemma TextsFitNext(w: World, k: nat, start: nat, p: Path, q: Path, lnk: string, st: Stat)
    requires k in w.images && StartsOutsideLinks(w.images[k], start) && TextsFit(w, k, start, p, q)
    requires Meaning(w, k, start, p, true) == LinkAbsolute(lnk, st) && IsTebakoPath(lnk)
    ensures |lnk| <= PATH_LENGTH && |LinkBelow(lnk, q)| <= PATH_LENGTH
    ensures HasRoot(w, lnk) ==> TextsFit(w, 0, w.images[0].root, RootPath(lnk), q)
  {
    hide Meaning, IsTebakoPath, MemfsPath, RootPath, LinkBelow;
    assert Follows(w, k, start, p, 0, lnk);
    if HasRoot(w, lnk) {
      forall n: nat, next | Follows(w, 0, w.images[0].root, RootPath(lnk), n, next)
        ensures |next| <= PATH_LENGTH && |LinkBelow(next, q)| <= PATH_LENGTH
      {
        assert Follows(w, k, start, p, n + 1, next);
      }
    }
  }

  /** The lookups from the root that the absolute links of p and of p/q lead to. */
  lemma RootsBelow(w: World, lnk: string, q: Path)
    requires IsLinkText(lnk) && IsTebakoPath(lnk) && |lnk| <= PATH_LENGTH
    requires IsPlainPath(q) && |LinkBelow(lnk, q)| <= PATH_LENGTH
    ensures IsTebakoPath(LinkBelow(lnk, q)) && (HasRoot(w, lnk) <==> 0 in w.images)
    ensures HasRoot(w, LinkBelow(lnk, q)) <==> 0 in w.images
    ensures |MemfsPath(lnk)| >= MOUNT_POINT_LENGTH && |MemfsPath(LinkBelow(lnk, q))| >= MOUNT_POINT_LENGTH
    ensures RootPath(LinkBelow(lnk, q)) == Slash(RootPath(lnk), q)
    ensures IsPlainPath(RootPath(lnk))
  {
    hide Parse, Render, Normal, MemfsPath, RootPath, Slash, IsTebakoPath;
    LinkBelowIs(lnk, q);
    RootPathIs(lnk);
    RootPathIs(LinkBelow(lnk, q));
    InsideBelow(Parse(lnk), q);
  }

  lemma {:induction false} OpensBelow(w: World, k: nat, start: nat, p: Path, q: Path, s: Stat, r: Result, n: nat)
    requires IsMounted(w) && HasSoundLinks(w) && k in w.images && StartsOutsideLinks(w.images[k], start)
    requires IsPlainPath(p) && IsPlainPath(q) && TextsFit(w, k, start, p, q)
    requires FindAbs(w, k, start, p, true, n) == Ok(s) && s.kind == Directory
    ensures Reaches(w, s) && StartsOutsideLinks(w.images[Owner(w, s.ino)], s.ino)
    ensures EndsWith(w, k, start, Slash(p, q), true, r) <==> RepliesWith(w, k, start, p, q, true, s, r)
    decreases n
  {
    hide FindAbs, Meaning, EndsWith, TextsFit, HasSoundLinks, HasPlainLinks, IsMounted, Reaches, Owner, RepliesWith,
         IsPlainPath, IsTebakoPath, LinkBelow, MemfsPath, RootPath, IsLinkText;
    AnswerReaches(w, k, start, p, true, n, s);
    DirectoryStarts(w, s);
    EndsAt(w, k, start, p, true, n);
    EndsIs(w, k, start, p, true, Ok(s));
    match Meaning(w, k, start, p, true) {
      case LinkAbsolute(lnk, st) =>
        Hop(w, k, start, p, lnk, st, n);
        BelowAbsolute(w, k, start, p, q, true, lnk, st);
        TextsFitNext(w, k, start, p, q, lnk, st);
        RootsBelow(w, lnk, q);
        forall r1
          ensures EndsWith(w, 0, w.images[0].root, Slash(RootPath(lnk), q), true, r1) <==>
                  RepliesWith(w, 0, w.images[0].root, RootPath(lnk), q, true, s, r1)
        {
          OpensBelow(w, 0, w.images[0].root, RootPath(lnk), q, s, r1, n - 1);
        }
        ReplyThroughRoot(w, k, start, p, q, s, r, lnk, st);
      case _ =>
        FoundAgrees(w, k, start, p, q, true, s, r);
    }
  }

  lemma EndsAt(w: World, k: nat, start: nat, p: Path, follow: bool, n: nat)
    requires k in w.images && StartsOutsideLinks(w.images[k], start)
    requires FindAbs(w, k, start, p, follow, n) != Looping
    ensures EndsWith(w, k, start, p, follow, FindAbs(w, k, start, p, follow, n))
  {
  }

  lemma ReplyThroughRoot(w: World, k: nat, start: nat, p: Path, q: Path, s: Stat, r: Result, lnk: string, st: Stat)
    requires k in w.images && StartsOutsideLinks(w.images[k], start) && 0 in w.images
    requires Reaches(w, s) && StartsOutsideLinks(w.images[Owner(w, s.ino)], s.ino)
    requires Meaning(w, k, start, p, true) == LinkAbsolute(lnk, st)
    requires Meaning(w, k, start, Slash(p, q), true) == LinkAbsolute(LinkBelow(lnk, q), st)
    requires IsTebakoPath(LinkBelow(lnk, q)) && HasRoot(w, LinkBelow(lnk, q)) && HasRoot(w, lnk)
    requires RootPath(LinkBelow(lnk, q)) == Slash(RootPath(lnk), q)
    requires forall r1 :: EndsWith(w, 0, w.images[0].root, Slash(RootPath(lnk), q), true, r1) <==>
                          RepliesWith(w, 0, w.images[0].root, RootPath(lnk), q, true, s, r1)
    ensures EndsWith(w, k, start, Slash(p, q), true, r) <==> RepliesWith(w, k, start, p, q, true, s, r)
  {
    hide FindAbs, Meaning, EndsWith, IsTebakoPath, LinkBelow, MemfsPath, RootPath, Owner, Slash;
    EndsIs(w, k, start, Slash(p, q), true, r);
    var root, pp := w.images[0].root, RootPath(lnk);
    if EndsWith(w, k, start, Slash(p, q), true, r) {
      var r1 :| RootEnds(w, LinkBelow(lnk, q), r1) && r == ReportedToStat(r1);
      assert RepliesWith(w, 0, root, pp, q, true, s, r1);
      var r0 :| EndsWith(w, Owner(w, s.ino), s.ino, q, true, r0) && r1 == Reply(w, 0, root, pp, true, r0);
      assert r == Reply(w, k, start, p, true, r0);
    }
    if RepliesWith(w, k, start, p, q, true, s, r) {
      var r0 :| EndsWith(w, Owner(w, s.ino), s.ino, q, true, r0) && r == Reply(w, k, start, p, true, r0);
      var r1 := Reply(w, 0, root, pp, true, r0);
      assert RepliesWith(w, 0, root, pp, q, true, s, r1);
      assert RootEnds(w, LinkBelow(lnk, q), r1);
    }
  }

  /** Where p meets no absolute link the calls agree, and do so for either treatment of a final link. */
  lemma FoundAgrees(w: World, k: nat, start: nat, p: Path, q: Path, follow: bool, s: Stat, r: Result)
    requires IsMounted(w) && HasSoundLinks(w) && k in w.images && StartsOutsideLinks(w.images[k], start)
    requires IsPlainPath(p) && IsPlainPath(q)
    requires Meaning(w, k, start, p, true) == Found(s) && s.kind == Directory
    ensures Reaches(w, s) && StartsOutsideLinks(w.images[Owner(w, s.ino)], s.ino)
    ensures EndsWith(w, k, start, Slash(p, q), follow, r) <==> RepliesWith(w, k, start, p, q, follow, s, r)
  {
    hide FindAbs, Meaning, EndsWith, Reaches, Owner, IsMounted, HasPlainLinks;
    OpenAtAgrees(w, k, start, p, q, true, follow, s, r);
  }

  /** For a directory that open(p) leads to, through any number of relative and absolute links: open(p/q) ends
      with what `Reply` makes of what openat() finds for q in that directory, and it ends if openat() does; if
      the lookup of p meets an absolute link and links are not followed, it ends with the attributes read last
      where that link is met. */
  lemma OpenAtIs(w: World, k: nat, start: nat, p: Path, q: Path, follow: bool, s: Stat, r: Result)
    requires IsMounted(w) && HasSoundLinks(w) && k in w.images && StartsOutsideLinks(w.images[k], start)
    requires IsPlainPath(p) && IsPlainPath(q) && TextsFit(w, k, start, p, q)
    requires EndsWith(w, k, start, p, true, Ok(s)) && s.kind == Directory
    ensures Reaches(w, s) && StartsOutsideLinks(w.images[Owner(w, s.ino)], s.ino)
    ensures follow || Meaning(w, k, start, p, true).Found? ==>
              (EndsWith(w, k, start, Slash(p, q), follow, r) <==> RepliesWith(w, k, start, p, q, follow, s, r))
    ensures !follow && !Meaning(w, k, start, p, true).Found? ==>
              && Meaning(w, k, start, p, true).LinkAbsolute?
              && (EndsWith(w, k, start, Slash(p, q), follow, r) <==> r == Ok(Meaning(w, k, start, p, true).st))
  {
    hide FindAbs, Meaning, TextsFit, HasSoundLinks, HasPlainLinks, IsMounted, Reaches, Owner, RepliesWith,
         IsPlainPath, IsTebakoPath, LinkBelow, MemfsPath, RootPath, IsLinkText, RootEnds;
    var n: nat :| FindAbs(w, k, start, p, true, n) == Ok(s);
    OpensBelow(w, k, start, p, q, s, r, n);
    EndsIs(w, k, start, p, true, Ok(s));
    if !follow {
      match Meaning(w, k, start, p, true) {
        case LinkAbsolute(lnk, st) =>
          BelowAbsolute(w, k, start, p, q, false, lnk, st);
          TextsFitNext(w, k, start, p, q, lnk, st);
          RootsBelow(w, lnk, q);
          EndsIs(w, k, start, Slash(p, q), false, r);
        case _ =>
          FoundAgrees(w, k, start, p, q, false, s, r);
      }
    }
  }

  /** What openat() finds for q in the directory `s` is what open(p/q) finds, whatever that is, and the one ends
      if the other does. */
  ghost predicate Agree(w: World, k: nat, start: nat, p: Path, q: Path, follow: bool, s: Stat)
    requires k in w.images && StartsOutsideLinks(w.images[k], start)
    requires Reaches(w, s) && StartsOutsideLinks(w.images[Owner(w, s.ino)], s.ino)
  {
    forall r :: EndsWith(w, Owner(w, s.ino), s.ino, q, follow, r) <==> EndsWith(w, k, start, Slash(p, q), follow, r)
  }

  /** The walk to q from `s` comes to a link or mount that leads to the host. */
  ghost predicate LeavesFrom(w: World, s: Stat, q: Path)
    requires Reaches(w, s) && StartsOutsideLinks(w.images[Owner(w, s.ino)], s.ino)
  {
    exists lnk, st :: !IsTebakoPath(lnk) && ComesToText(w, Owner(w, s.ino), s.ino, q, true, lnk, st)
  }

  /** The walk to q from `s`, links not followed at the end, finds the attributes `st`, or comes to an absolute
      text inside the memfs with `st` read last. */
  ghost predicate EndsOn(w: World, s: Stat, q: Path, st: Stat)
    requires Reaches(w, s) && StartsOutsideLinks(w.images[Owner(w, s.ino)], s.ino)
  {
    || Meaning(w, Owner(w, s.ino), s.ino, q, false) == Found(st)
    || exists lnk :: IsTebakoPath(lnk) && ComesToText(w, Owner(w, s.ino), s.ino, q, false, lnk, st)
  }

  /** The two calls agree if and only if the lookup of p meets no absolute link; or links are followed, and the
      walk to q leads nowhere outside; or they are not, and the walk to q ends on what was read last before
      that link of p. */
  lemma OpenAtAgreesIff(w: World, k: nat, start: nat, p: Path, q: Path, follow: bool, s: Stat)
    requires IsMounted(w) && HasSoundLinks(w) && k in w.images && StartsOutsideLinks(w.images[k], start)
    requires IsPlainPath(p) && IsPlainPath(q) && TextsFit(w, k, start, p, q)
    requires EndsWith(w, k, start, p, true, Ok(s)) && s.kind == Directory
    ensures Reaches(w, s) && StartsOutsideLinks(w.images[Owner(w, s.ino)], s.ino)
    ensures Agree(w, k, start, p, q, follow, s) <==>
            match Meaning(w, k, start, p, true)
            case LinkAbsolute(_, st) => if follow then !LeavesFrom(w, s, q) else EndsOn(w, s, q, st)
            case _ => true
  {
    hide FindAbs, Meaning, EndsWith, TextsFit, HasSoundLinks, HasPlainLinks, IsMounted, Owner, IsPlainPath, Slash, RepliesWith,
         LeavesFrom, EndsOn, RootEnds;
    OpenAtIs(w, k, start, p, q, follow, s, Missing);
    EndsIs(w, k, start, p, true, Ok(s));
    forall r
      ensures follow || Meaning(w, k, start, p, true).Found? ==>
                (EndsWith(w, k, start, Slash(p, q), follow, r) <==> RepliesWith(w, k, start, p, q, follow, s, r))
      ensures !follow && !Meaning(w, k, start, p, true).Found? ==>
                (EndsWith(w, k, start, Slash(p, q), follow, r) <==> r == Ok(Meaning(w, k, start, p, true).st))
    {
      OpenAtIs(w, k, start, p, q, follow, s, r);
    }
    match Meaning(w, k, start, p, true) {
      case LinkAbsolute(_, st) =>
        if follow {
          AgreeFollowing(w, k, start, p, q, s);
        } else {
          AgreeUnfollowed(w, k, start, p, q, s, st);
        }
      case _ =>
        RepliesSame(w, k, start, p, q, follow, s);
    }
  }

  lemma RepliesSame(w: World, k: nat, start: nat, p: Path, q: Path, follow: bool, s: Stat)
    requires k in w.images && StartsOutsideLinks(w.images[k], start)
    requires Reaches(w, s) && StartsOutsideLinks(w.images[Owner(w, s.ino)], s.ino)
    requires !Meaning(w, k, start, p, true).LinkAbsolute?
    requires forall r :: EndsWith(w, k, start, Slash(p, q), follow, r) <==> RepliesWith(w, k, start, p, q, follow, s, r)
    ensures Agree(w, k, start, p, q, follow, s)
  {
    hide Meaning, EndsWith, Owner;
  }

  lemma AgreeFollowing(w: World, k: nat, start: nat, p: Path, q: Path, s: Stat)
    requires k in w.images && StartsOutsideLinks(w.images[k], start)
    requires Reaches(w, s) && StartsOutsideLinks(w.images[Owner(w, s.ino)], s.ino)
    requires Meaning(w, k, start, p, true).LinkAbsolute?
    requires forall r :: EndsWith(w, k, start, Slash(p, q), true, r) <==> RepliesWith(w, k, start, p, q, true, s, r)
    ensures Agree(w, k, start, p, q, true, s) <==> !LeavesFrom(w, s, q)
  {
    hide Meaning, EndsWith, Owner, IsTebakoPath, ComesToText;
    var o := Owner(w, s.ino);
    if LeavesFrom(w, s, q) {
      var lnk, st :| !IsTebakoPath(lnk) && ComesToText(w, o, s.ino, q, true, lnk, st);
      OutsideIff(w, o, s.ino, q, true, lnk);
      assert !RepliesWith(w, k, start, p, q, true, s, Outside(lnk));
    } else {
      forall lnk
        ensures !EndsWith(w, o, s.ino, q, true, Outside(lnk))
      {
        OutsideIff(w, o, s.ino, q, true, lnk);
      }
      forall r
        ensures EndsWith(w, o, s.ino, q, true, r) <==> RepliesWith(w, k, start, p, q, true, s, r)
      {
        assert Reply(w, k, start, p, true, r) == ReportedToStat(r);
      }
    }
  }

  lemma AgreeUnfollowed(w: World, k: nat, start: nat, p: Path, q: Path, s: Stat, st: Stat)
    requires k in w.images && StartsOutsideLinks(w.images[k], start)
    requires Reaches(w, s) && StartsOutsideLinks(w.images[Owner(w, s.ino)], s.ino)
    requires forall r :: EndsWith(w, k, start, Slash(p, q), false, r) <==> r == Ok(st)
    ensures Agree(w, k, start, p, q, false, s) <==> EndsOn(w, s, q, st)
  {
    hide Meaning, EndsWith, Owner, ComesToText, IsTebakoPath;
    var o := Owner(w, s.ino);
    UnfollowedIff(w, o, s.ino, q, st);
    assert EndsOn(w, s, q, st) <==> EndsWith(w, o, s.ino, q, false, Ok(st));
    if EndsOn(w, s, q, st) {
      forall r | EndsWith(w, o, s.ino, q, false, r)
        ensures r == Ok(st)
      {
        EndsOnce(w, o, s.ino, q, false, r, Ok(st));
      }
    }
  }
}
