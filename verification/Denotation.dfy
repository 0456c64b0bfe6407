/** What a path means, without rewriting it on the way: a link leads to where the normal form of its target leads
    from the directory that holds it, and what is behind the link leads on from there. */
module Denotation {
  import opened Composition
  import opened Dwarfs
  import opened Paths
  import opened PathText
  import opened Resolver
  import opened ResolverRuns
  import opened Wrappers

  /** An inode, by image and local number. */
  datatype Spot = Spot(k: nat, node: nat)

  /** Where a path leads: to an inode, nowhere, or off to an absolute target with `rest` behind it. */
  datatype End = At(spot: Spot) | Nowhere | Off(target: string, rest: seq<Elem>)

  predicate IsSpot(w: World, a: Spot) {
    a.k in w.images && a.node in w.images[a.k].nodes
  }

  /** A relative target that leads away: not empty, and not to the directory that holds it. */
  predicate IsGoing(target: string) {
    var p := Normal(Parse(target));
    !p.rooted ==> p.body != [] && p.body != [Dot]
  }

  predicate IsSteady(img: Image, ino: nat) {
    var parent := img.Lookup(ino, "..");
    parent.Some? ==> !img.IsLink(parent.value)
  }

  /** All targets lead away, and `..` is nowhere a link or a mount point. */
  ghost predicate HasTargets(w: World) {
    && (forall k, n | k in w.images && n in w.images[k].nodes && w.images[k].IsLink(n) :: IsGoing(w.images[k].nodes[n].target))
    && (forall m | m in w.mounts && w.mounts[m].Host? :: IsGoing(w.mounts[m].text))
    && (forall k, ino | k in w.images :: IsSteady(w.images[k], ino))
    && (forall m | m in w.mounts :: m.1 != "..")
  }

  /** Parent steps, then names, then perhaps a separator. */
  predicate IsWay(es: seq<Elem>) {
    && IsTail(es)
    && (forall i | 0 <= i < |es| :: es[i] != Dot)
    && (forall i, j | 0 <= i < j < |es| && es[j] == DotDot :: es[i] == DotDot)
  }

  lemma WayOn(es: seq<Elem>)
    requires IsWay(es) && es != []
    ensures IsWay(es[1..]) && (es[0] != DotDot ==> IsPlain(es[1..]))
  {
    var b := es[1..];
    assert forall i | 0 <= i < |b| :: b[i] == es[i + 1];
  }

  /** What a name stands for in a directory: an inode, a relative path there, an absolute one, or nothing. */
  datatype Sense = Straight(to: Spot) | Alias(body: seq<Elem>) | Abroad(target: string) | Void

  function Aliased(target: string): Sense {
    var p := Normal(Parse(target));
    if p.rooted then Abroad(target) else Alias(p.body)
  }

  /** Mounts hide what the image holds; links stand for their targets only if they are to be entered. */
  function SenseOf(w: World, a: Spot, name: string, enter: bool): (r: Sense)
    requires IsSpot(w, a)
    ensures r.Straight? ==> IsSpot(w, r.to)
  {
    var img := w.images[a.k];
    var key := (img.root + a.node, name);
    if key in w.mounts then
      match w.mounts[key]
      case Host(text) => Aliased(text)
      case Memfs(j) =>
        if j in w.images && w.images[j].Find(w.images[j].root).Some?
        then Straight(Spot(j, w.images[j].Find(w.images[j].root).value)) else Void
    else
      match img.Lookup(key.0, name)
      case None => Void
      case Some(child) =>
        if img.IsLink(child) && enter then Aliased(img.nodes[child].target) else Straight(Spot(a.k, child))
  }

  /** From `a`, the components `es` lead to `end`, a link in the end being entered only if `follow`; `n` counts
      the names looked up. */
  ghost predicate Leads(w: World, a: Spot, es: seq<Elem>, follow: bool, end: End, n: nat)
    requires IsSpot(w, a)
    decreases n, 0
  {
    if es == [] || es[0] == Empty then n == 0 && end == At(a)
    else
      n > 0 &&
      match SenseOf(w, a, Text(es[0]), follow || es[1..] != [])
      case Void => n == 1 && end == Nowhere
      case Abroad(target) => n == 1 && end == Off(target, es[1..])
      case Straight(b) => Leads(w, b, es[1..], follow, end, n - 1)
      case Alias(body) =>
        if es[1..] == [] then Leads(w, a, body, follow, end, n - 1)
        else exists mid, i: nat, j: nat :: i + j == n - 1 && Via(w, a, body, es[1..], follow, end, mid, i, j)
  }

  /** `first` leads to `mid`, and `rest` on from there to `end`; off to an absolute target it is left behind. */
  ghost predicate Via(w: World, a: Spot, first: seq<Elem>, rest: seq<Elem>, follow: bool, end: End, mid: End, i: nat, j: nat)
    requires IsSpot(w, a)
    decreases i + j, 1
  {
    Leads(w, a, first, true, mid, i) &&
    if mid.At? then IsSpot(w, mid.spot) && Leads(w, mid.spot, rest, follow, end, j)
    else j == 0 && end == WithBehind(mid, rest)
  }

  function WithBehind(end: End, rest: seq<Elem>): End
    requires !end.At?
  {
    if end.Off? then Off(end.target, Below(end.rest, rest)) else end
  }

  /** The same, spelled out. */
  ghost predicate Joins(w: World, a: Spot, first: seq<Elem>, rest: seq<Elem>, follow: bool, end: End, mid: End, i: nat, j: nat)
    requires IsSpot(w, a)
  {
    Leads(w, a, first, true, mid, i) &&
    if mid.At? then IsSpot(w, mid.spot) && Leads(w, mid.spot, rest, follow, end, j)
    else j == 0 && end == WithBehind(mid, rest)
  }

  lemma ViaJoins(w: World, a: Spot, first: seq<Elem>, rest: seq<Elem>, follow: bool, end: End, mid: End, i: nat, j: nat)
    requires IsSpot(w, a)
    ensures Via(w, a, first, rest, follow, end, mid, i, j) <==> Joins(w, a, first, rest, follow, end, mid, i, j)
  {
    hide WithBehind;
  }

  /** A name that stands for a path, with something behind it. */
  predicate HasAlias(w: World, a: Spot, es: seq<Elem>, body: seq<Elem>)
    requires IsSpot(w, a)
  {
    es != [] && es[0] != Empty && es[1..] != [] && SenseOf(w, a, Text(es[0]), true) == Alias(body)
  }

  lemma AliasApart(w: World, a: Spot, es: seq<Elem>, body: seq<Elem>, follow: bool, end: End, n: nat)
    returns (mid: End, i: nat, j: nat)
    requires IsSpot(w, a) && HasAlias(w, a, es, body) && Leads(w, a, es, follow, end, n)
    ensures i + j + 1 == n && Joins(w, a, body, es[1..], follow, end, mid, i, j)
  {
    hide SenseOf, WithBehind, Joins;
    mid, i, j :| i + j == n - 1 && Via(w, a, body, es[1..], follow, end, mid, i, j);
    ViaJoins(w, a, body, es[1..], follow, end, mid, i, j);
  }

  lemma AliasTogether(w: World, a: Spot, es: seq<Elem>, body: seq<Elem>, follow: bool, end: End, n: nat, mid: End, i: nat, j: nat)
    requires IsSpot(w, a) && HasAlias(w, a, es, body)
    requires i + j + 1 == n && Joins(w, a, body, es[1..], follow, end, mid, i, j)
    ensures Leads(w, a, es, follow, end, n)
  {
    ViaJoins(w, a, body, es[1..], follow, end, mid, i, j);
    assert i + j == n - 1 && Via(w, a, body, es[1..], follow, end, mid, i, j);
  }

  lemma {:induction false} LeadsToSpot(w: World, a: Spot, es: seq<Elem>, follow: bool, end: End, n: nat)
    requires IsSpot(w, a) && Leads(w, a, es, follow, end, n)
    ensures end.At? ==> IsSpot(w, end.spot)
    decreases n
  {
    hide SenseOf, WithBehind;
    if es == [] || es[0] == Empty {
    } else {
      match SenseOf(w, a, Text(es[0]), follow || es[1..] != []) {
        case Straight(b) =>
          LeadsToSpot(w, b, es[1..], follow, end, n - 1);
        case Alias(body) =>
          if es[1..] == [] {
            LeadsToSpot(w, a, body, follow, end, n - 1);
          } else {
            var mid, i, j := AliasApart(w, a, es, body, follow, end, n);
            if mid.At? {
              LeadsToSpot(w, mid.spot, es[1..], follow, end, j);
            } else {
              StaysOff(mid, es[1..]);
            }
          }
        case _ =>
      }
    }
  }

  // ---------- Paths one after the other ----------

  lemma BelowHead(es: seq<Elem>, q: seq<Elem>)
    requires es != [] && es[0] != Empty && q != []
    ensures Below(es, q) != [] && Below(es, q)[0] == es[0]
    ensures Below(es, q)[1..] == Below(es[1..], q) && Below(es[1..], q) != []
  {
    BelowCons(es[0], es[1..], q);
    assert es == [es[0]] + es[1..];
  }

  lemma BelowEnd(es: seq<Elem>, q: seq<Elem>)
    requires IsTail(es) && (es == [] || es[0] == Empty)
    ensures Below(es, q) == q
  {
    assert es == [] || es == [Empty];
    assert [] + q == q;
  }

  lemma TailOfTail(es: seq<Elem>)
    requires IsTail(es) && es != []
    ensures IsTail(es[1..])
  {
  }

  lemma BelowBelow(a: seq<Elem>, b: seq<Elem>, c: seq<Elem>)
    requires IsTail(b) && b != []
    ensures Below(Below(a, b), c) == Below(a, Below(b, c))
  {
    StripConcat(Strip(a), b);
    assert Strip(a) + Strip(b) + c == Strip(a) + (Strip(b) + c);
  }

  lemma WithBehindBehind(mid: End, b: seq<Elem>, c: seq<Elem>)
    requires !mid.At? && IsTail(b) && b != []
    ensures WithBehind(WithBehind(mid, b), c) == WithBehind(mid, Below(b, c))
  {
    if mid.Off? {
      BelowBelow(mid.rest, b, c);
    }
  }

  /** A path and another behind it lead where the second leads from where the first, its links entered, leads. */
  lemma {:induction false} LeadsOn(w: World, a: Spot, es: seq<Elem>, q: seq<Elem>, follow: bool, end: End, mid: End, n: nat, m: nat)
    requires IsSpot(w, a) && IsTail(es) && q != [] && Joins(w, a, es, q, follow, end, mid, n, m)
    ensures Leads(w, a, Below(es, q), follow, end, n + m)
    decreases n, 1
  {
    hide Below, SenseOf, IsTail, WithBehind;
    if es == [] || es[0] == Empty {
      BelowEnd(es, q);
    } else {
      BelowHead(es, q);
      TailOfTail(es);
      match SenseOf(w, a, Text(es[0]), true) {
        case Void =>
          assert WithBehind(Nowhere, q) == Nowhere by { BehindNowhere(q); }
        case Abroad(target) =>
          assert WithBehind(Off(target, es[1..]), q) == Off(target, Below(es[1..], q)) by { BehindOff(target, es[1..], q); }
        case Straight(b) =>
          assert Joins(w, b, es[1..], q, follow, end, mid, n - 1, m);
          LeadsOn(w, b, es[1..], q, follow, end, mid, n - 1, m);
        case Alias(body) =>
          LeadsOnAlias(w, a, es, body, q, follow, end, mid, n, m);
      }
    }
  }

  lemma {:induction false} LeadsOnAlias(w: World, a: Spot, es: seq<Elem>, body: seq<Elem>, q: seq<Elem>,
                                        follow: bool, end: End, mid: End, n: nat, m: nat)
    requires IsSpot(w, a) && IsTail(es) && q != [] && Joins(w, a, es, q, follow, end, mid, n, m)
    requires es != [] && es[0] != Empty && SenseOf(w, a, Text(es[0]), true) == Alias(body)
    ensures Leads(w, a, Below(es, q), follow, end, n + m)
    decreases n, 0
  {
    hide Below, SenseOf, IsTail, WithBehind;
    BelowHead(es, q);
    TailOfTail(es);
    if es[1..] == [] {
      BelowEnd(es[1..], q);
      AliasTogether(w, a, Below(es, q), body, follow, end, n + m, mid, n - 1, m);
    } else {
      var mid0, i, j := AliasApart(w, a, es, body, true, mid, n);
      if mid0.At? {
        LeadsOn(w, mid0.spot, es[1..], q, follow, end, mid, j, m);
      } else {
        WithBehindBehind(mid0, es[1..], q);
        StaysOff(mid0, es[1..]);
      }
      AliasTogether(w, a, Below(es, q), body, follow, end, n + m, mid0, i, j + m);
    }
  }

  lemma BehindNowhere(q: seq<Elem>)
    ensures WithBehind(Nowhere, q) == Nowhere
  {
  }

  lemma BehindOff(target: string, r: seq<Elem>, q: seq<Elem>)
    ensures WithBehind(Off(target, r), q) == Off(target, Below(r, q))
  {
  }

  lemma StaysOff(mid: End, q: seq<Elem>)
    requires !mid.At?
    ensures !WithBehind(mid, q).At?
  {
  }

  /** And whatever both lead to together, the first leads to some end from which the second leads there. */
  lemma {:induction false} LeadsApart(w: World, a: Spot, es: seq<Elem>, q: seq<Elem>, follow: bool, end: End, n: nat)
    returns (mid: End, i: nat, j: nat)
    requires IsSpot(w, a) && IsTail(es) && q != [] && Leads(w, a, Below(es, q), follow, end, n)
    ensures i + j == n && Joins(w, a, es, q, follow, end, mid, i, j)
    decreases n, 1
  {
    hide Below, SenseOf, IsTail, WithBehind;
    if es == [] || es[0] == Empty {
      BelowEnd(es, q);
      mid, i, j := At(a), 0, n;
    } else {
      BelowHead(es, q);
      TailOfTail(es);
      match SenseOf(w, a, Text(es[0]), true) {
        case Void =>
          BehindNowhere(q);
          mid, i, j := Nowhere, 1, 0;
        case Abroad(target) =>
          BehindOff(target, es[1..], q);
          mid, i, j := Off(target, es[1..]), 1, 0;
        case Straight(b) =>
          mid, i, j := LeadsApart(w, b, es[1..], q, follow, end, n - 1);
          i := i + 1;
        case Alias(body) =>
          mid, i, j := LeadsApartAlias(w, a, es, body, q, follow, end, n);
      }
    }
  }

  lemma {:induction false} LeadsApartAlias(w: World, a: Spot, es: seq<Elem>, body: seq<Elem>, q: seq<Elem>,
                                           follow: bool, end: End, n: nat) returns (mid: End, i: nat, j: nat)
    requires IsSpot(w, a) && IsTail(es) && q != [] && Leads(w, a, Below(es, q), follow, end, n)
    requires es != [] && es[0] != Empty && SenseOf(w, a, Text(es[0]), true) == Alias(body)
    ensures i + j == n && Joins(w, a, es, q, follow, end, mid, i, j)
    decreases n, 0
  {
    hide Below, SenseOf, IsTail, WithBehind;
    BelowHead(es, q);
    TailOfTail(es);
    var mid0, i0, j0 := AliasApart(w, a, Below(es, q), body, follow, end, n);
    if es[1..] == [] {
      BelowEnd(es[1..], q);
      mid, i, j := mid0, i0 + 1, j0;
    } else if mid0.At? {
      mid, i, j := LeadsApart(w, mid0.spot, es[1..], q, follow, end, j0);
      AliasTogether(w, a, es, body, true, mid, i0 + i + 1, mid0, i0, i);
      i := i0 + i + 1;
    } else {
      WithBehindBehind(mid0, es[1..], q);
      StaysOff(mid0, es[1..]);
      mid := WithBehind(mid0, es[1..]);
      AliasTogether(w, a, es, body, true, mid, i0 + 1, mid0, i0, 0);
      i, j := i0 + 1, 0;
    }
  }

  // ---------- The walk ----------

  function SpotOf(c: Place): Spot {
    Spot(c.k, c.dir)
  }

  /** When the walk has come to the end it has just read the attributes of the inode it stands on. */
  predicate EndsSound(w: World, c: Place)
    requires IsPlace(w, c)
  {
    AtEnd(c) ==> c.st == w.images[c.k].GetAttr(c.dir)
  }

  /** What a lookup answers where the path leads to `end`. */
  ghost predicate Says(w: World, out: Outcome, end: End) {
    match end
    case At(b) => IsSpot(w, b) && out == Found(w.images[b.k].GetAttr(b.node))
    case Nowhere => out == NoEntry
    case Off(target, rest) => out.LinkAbsolute? && out.lnk == Render(Rewritten(target, rest))
  }

  /** A step leads on to where the place before it leads, and one that ends the walk says where that is. */
  ghost predicate Keeps(w: World, c: Place, next: Next, follow: bool, end: End, n: nat)
    requires IsPlace(w, c)
  {
    match next
    case Go(to) =>
      && IsPlace(w, to) && IsWay(to.rest) && EndsSound(w, to)
      && (Leads(w, SpotOf(to), to.rest, follow, end, n) <==> Leads(w, SpotOf(c), c.rest, follow, end, n + 1))
    case Stop(out) =>
      && (Leads(w, SpotOf(c), c.rest, follow, end, n + 1) ==> Says(w, out, end))
      && (exists e :: Says(w, out, e) && Leads(w, SpotOf(c), c.rest, follow, e, 1))
  }

  /** Names pushed on what is kept stay there. */
  lemma {:induction false} SquashNames(s: seq<Elem>, tail: seq<Elem>)
    requires IsPlain(tail)
    ensures Squash(s, tail, false) == s + Strip(tail)
    decreases |tail|
  {
    if tail == [] {
    } else {
      var front := Front(tail);
      assert IsPlain(front);
      SquashNames(s, front);
      assert front != [] ==> Last(front) == tail[|front| - 1] != Empty;
      assert s + front + [Last(tail)] == s + (front + [Last(tail)]);
      assert tail == front + [Last(tail)];
    }
  }

  /** The normal form of a relative target that leads away: what is kept of it, and perhaps a separator. */
  lemma GoingBody(target: string)
    requires IsGoing(target) && !Parse(target).rooted
    ensures var t := Parse(target);
            var body := Normal(t).body;
            && !Normal(t).rooted && Kept(t) != [] && IsWay(body) && body != [] && body[0] != Empty && Strip(body) == Kept(t)
            && body == Form(false, Kept(t), EndsOpen(t)).body
  {
    var t := Parse(target);
    assert t != EMPTY_PATH;
    NothingKept(false);
    SquashKept([], t.body, false);
    NormalFacts(t);
    KeptShape(Kept(t), false);
    assert Front(Kept(t) + [Empty]) == Kept(t);
  }

  /** A separator behind parent steps is dropped; anything else is put below the target's normal form. */
  function Onward(body: seq<Elem>, tail: seq<Elem>): seq<Elem> {
    if tail == [] || (tail == [Empty] && body != [] && Last(body) == DotDot) then body else Below(body, tail)
  }

  lemma RewrittenWay(target: string, tail: seq<Elem>)
    requires IsGoing(target) && !Parse(target).rooted && IsPlain(tail)
    ensures Rewritten(target, tail) == Path(false, Onward(Normal(Parse(target)).body, tail))
  {
    var t := Parse(target);
    GoingBody(target);
    hide Parse, IsGoing, IsWay;
    var kept := Kept(t);
    AppendAllIs(t, tail);
    if tail == [] {
    } else if tail == [Empty] {
      SeparatorFacts(t);
    } else {
      var b := Strip(t.body);
      SquashConcat([], b, tail, false);
      if b != t.body {
        SquashSeparator([], b, false);
        assert t.body == b + [Empty];
      }
      SquashNames(kept, tail);
      PlainEnd(kept, b, tail);
    }
  }

  lemma PlainEnd(kept: seq<Elem>, b: seq<Elem>, tail: seq<Elem>)
    requires IsPlain(tail) && tail != [] && tail != [Empty]
    ensures Form(false, kept + Strip(tail), EndsOpen(Path(false, b + tail))) == Path(false, kept + tail)
  {
    assert Last(b + tail) == Last(tail);
    assert tail[0] != Empty;
    if Last(tail) == Empty {
      assert tail == Strip(tail) + [Empty] && Last(kept + Strip(tail)) == tail[|tail| - 2];
      assert kept + Strip(tail) + [Empty] == kept + tail;
    }
  }

  lemma OnwardWay(body: seq<Elem>, tail: seq<Elem>)
    requires IsWay(body) && body != [] && body[0] != Empty && IsPlain(tail)
    ensures IsWay(Onward(body, tail)) && Onward(body, tail) != [] && Onward(body, tail)[0] != Empty
  {
    var b := Strip(body);
    assert b != [] && b[0] == body[0];
    assert forall i | 0 <= i < |b| :: b[i] == body[i] && b[i] != Empty;
  }

  lemma SpliceBody(k: nat, dir: nat, target: string, tail: seq<Elem>, st: Stat)
    requires IsGoing(target) && IsPlain(tail)
    ensures Splice(k, dir, target, tail, st).Go? <==> Aliased(target).Alias?
    ensures Splice(k, dir, target, tail, st).Go? ==>
              var rest, body := Splice(k, dir, target, tail, st).to.rest, Aliased(target).body;
              && IsWay(rest) && rest != [] && rest[0] != Empty && IsTail(body) && IsWay(body)
              && rest == Onward(body, tail)
  {
    var t := Parse(target);
    RewrittenIs(target, tail);
    RewrittenIs(target, []);
    if !t.rooted {
      GoingBody(target);
      RewrittenWay(target, tail);
      OnwardWay(Normal(t).body, tail);
    }
    hide IsGoing, Onward, Squash, IsKept, IsNormal;
  }

  /** A separator behind parent steps changes nothing. */
  lemma {:induction false} StepsLead(w: World, a: Spot, es: seq<Elem>, follow: bool, end: End, n: nat)
    requires HasTargets(w) && IsSpot(w, a) && forall i | 0 <= i < |es| :: es[i] == DotDot
    ensures Leads(w, a, es + [Empty], follow, end, n) <==> Leads(w, a, es, follow, end, n)
    decreases |es|
  {
    if es == [] {
    } else {
      var far := es + [Empty];
      assert far[0] == es[0] == DotDot && far[1..] == es[1..] + [Empty];
      SteadySense(w, a);
      assert Text(DotDot) == "..";
      var sense := SenseOf(w, a, "..", true);
      hide SenseOf, HasTargets;
      if sense.Straight? && n > 0 {
        StepsLead(w, sense.to, es[1..], follow, end, n - 1);
      }
    }
  }

  lemma SteadySense(w: World, a: Spot)
    requires HasTargets(w) && IsSpot(w, a)
    ensures SenseOf(w, a, "..", true) == SenseOf(w, a, "..", false)
    ensures SenseOf(w, a, "..", true).Straight? || SenseOf(w, a, "..", true).Void?
  {
    assert IsSteady(w.images[a.k], w.images[a.k].root + a.node);
  }

  /** A link or host mount in the walk leads where its target and the rest behind it lead. */
  lemma SpliceLeads(w: World, c: Place, target: string, st: Stat, follow: bool, end: End, n: nat)
    requires HasTargets(w) && IsPlace(w, c) && !AtEnd(c) && IsPlain(c.rest[1..]) && IsGoing(target)
    requires SenseOf(w, SpotOf(c), Text(c.rest[0]), follow || c.rest[1..] != []) == Aliased(target)
    requires Splice(c.k, c.dir, target, c.rest[1..], st).Go?
    ensures var to := Splice(c.k, c.dir, target, c.rest[1..], st).to;
            Leads(w, SpotOf(to), to.rest, follow, end, n) <==> Leads(w, SpotOf(c), c.rest, follow, end, n + 1)
  {
    hide Splice, SenseOf, Below, IsGoing, IsPlain, WithBehind, Joins, HasTargets;
    var a, tail := SpotOf(c), c.rest[1..];
    var to := Splice(c.k, c.dir, target, tail, st).to;
    SpliceBody(c.k, c.dir, target, tail, st);
    var body := Aliased(target).body;
    hide Onward;
    if tail != [] {
      OnwardLeads(w, a, body, tail, follow, end, n);
      if Leads(w, a, to.rest, follow, end, n) {
        var mid, i, j := LeadsApart(w, a, body, tail, follow, end, n);
        AliasTogether(w, a, c.rest, body, follow, end, n + 1, mid, i, j);
      }
      if Leads(w, a, c.rest, follow, end, n + 1) {
        var mid, i, j := AliasApart(w, a, c.rest, body, follow, end, n + 1);
        LeadsOn(w, a, body, tail, follow, end, mid, i, j);
      }
    } else {
      assert Onward(body, []) == body by { OnwardNothing(body); }
    }
  }

  lemma OnwardNothing(body: seq<Elem>)
    ensures Onward(body, []) == body
  {
  }

  lemma OnwardLeads(w: World, a: Spot, body: seq<Elem>, tail: seq<Elem>, follow: bool, end: End, n: nat)
    requires HasTargets(w) && IsSpot(w, a) && IsWay(body) && tail != []
    ensures Leads(w, a, Onward(body, tail), follow, end, n) <==> Leads(w, a, Below(body, tail), follow, end, n)
  {
    hide HasTargets;
    if tail == [Empty] && body != [] && Last(body) == DotDot {
      assert Strip(body) == body;
      StepsLead(w, a, body, follow, end, n);
    }
  }

  /** What stands for something else is not `..`, so there are no parent steps behind it. */
  lemma NamesBehind(w: World, c: Place)
    requires HasTargets(w) && IsPlace(w, c) && !AtEnd(c) && IsWay(c.rest)
    requires var child := w.images[c.k].Lookup(Key(w, c).0, Key(w, c).1);
             Key(w, c) in w.mounts || (child.Some? && w.images[c.k].IsLink(child.value))
    ensures IsPlain(c.rest[1..])
  {
    WayOn(c.rest);
    assert IsSteady(w.images[c.k], w.images[c.k].root + c.dir);
  }

  lemma SplicedKeeps(w: World, c: Place, target: string, st: Stat, follow: bool, end: End, n: nat)
    requires HasTargets(w) && IsPlace(w, c) && !AtEnd(c) && IsPlain(c.rest[1..]) && IsGoing(target)
    requires SenseOf(w, SpotOf(c), Text(c.rest[0]), follow || c.rest[1..] != []) == Aliased(target)
    ensures Keeps(w, c, Splice(c.k, c.dir, target, c.rest[1..], st), follow, end, n)
  {
    hide SenseOf, Below, IsGoing, Rewritten, Render, HasTargets, Onward, IsPlain;
    SpliceBody(c.k, c.dir, target, c.rest[1..], st);
    var next := Splice(c.k, c.dir, target, c.rest[1..], st);
    if next.Go? {
      SpliceLeads(w, c, target, st, follow, end, n);
    } else {
      var e := Off(target, c.rest[1..]);
      assert Says(w, next.out, e) && Leads(w, SpotOf(c), c.rest, follow, e, 1);
    }
  }

  /** Components that differ in a trailing separator lead to the same place. */
  lemma SeparatorLeads(w: World, a: Spot, es: seq<Elem>, r: seq<Elem>, follow: bool, end: End, n: nat)
    requires IsSpot(w, a) && (r == es || (es == [Empty] && r == []))
    ensures Leads(w, a, es, follow, end, n) <==> Leads(w, a, r, follow, end, n)
  {
  }

  lemma EnteredKeeps(w: World, c: Place, j: nat, follow: bool, end: End, n: nat)
    requires IsPlace(w, c) && !AtEnd(c) && IsPlain(c.rest[1..])
    requires Key(w, c) in w.mounts && w.mounts[Key(w, c)] == Memfs(j)
    ensures Keeps(w, c, ViaMount(w, c.k, c.dir, Memfs(j), c.rest[1..], c.st), follow, end, n)
  {
    hide IsWay, Below, Components, AppendAll;
    var tail := c.rest[1..];
    EnteredRest(tail);
    EnteredLeads(w, c, j, follow, end, n);
    var next := ViaMount(w, c.k, c.dir, Memfs(j), tail, c.st);
    if next.Go? {
      SeparatorLeads(w, SpotOf(next.to), tail, next.to.rest, follow, end, n);
    } else {
      EnteredLeads(w, c, j, follow, Nowhere, 0);
      assert Says(w, next.out, Nowhere) && Leads(w, SpotOf(c), c.rest, follow, Nowhere, 1);
    }
  }

  lemma EnteredLeads(w: World, c: Place, j: nat, follow: bool, end: End, n: nat)
    requires IsPlace(w, c) && !AtEnd(c)
    requires Key(w, c) in w.mounts && w.mounts[Key(w, c)] == Memfs(j)
    ensures Leads(w, SpotOf(c), c.rest, follow, end, n + 1) <==>
            if j in w.images && w.images[j].Find(w.images[j].root).Some?
            then Leads(w, Spot(j, w.images[j].Find(w.images[j].root).value), c.rest[1..], follow, end, n)
            else n == 0 && end == Nowhere
  {
  }

  lemma EnteredRest(tail: seq<Elem>)
    requires IsPlain(tail)
    ensures var es := Components(AppendAll(EMPTY_PATH, tail)); IsWay(es) && (es == tail || (tail == [Empty] && es == []))
  {
    AppendAllIs(EMPTY_PATH, tail);
    AppendPlain(EMPTY_PATH, tail);
    assert [] + tail == tail && Components(AppendAll(EMPTY_PATH, tail)) == AppendAll(EMPTY_PATH, tail).body;
  }

  lemma ChildKeeps(w: World, c: Place, child: nat, follow: bool, end: End, n: nat)
    requires HasTargets(w) && IsPlace(w, c) && !AtEnd(c) && IsWay(c.rest)
    requires Key(w, c) !in w.mounts && w.images[c.k].Lookup(Key(w, c).0, Key(w, c).1) == Some(child)
    ensures Keeps(w, c, ViaChild(w, c.k, c.dir, child, c.rest[1..], follow), follow, end, n)
  {
    hide Splice, Says, Keeps, Leads, IsGoing, IsWay, IsPlain;
    var img, tail := w.images[c.k], c.rest[1..];
    if img.IsLink(child) && (tail != [] || follow) {
      NamesBehind(w, c);
      SplicedKeeps(w, c, img.nodes[child].target, img.GetAttr(child), follow, end, n);
    } else {
      StraightKeeps(w, c, child, follow, end, n);
    }
  }

  lemma StraightKeeps(w: World, c: Place, child: nat, follow: bool, end: End, n: nat)
    requires IsPlace(w, c) && !AtEnd(c) && IsWay(c.rest)
    requires Key(w, c) !in w.mounts && w.images[c.k].Lookup(Key(w, c).0, Key(w, c).1) == Some(child)
    requires w.images[c.k].IsLink(child) ==> c.rest[1..] == [] && !follow
    ensures Keeps(w, c, Go(Place(c.k, child, c.rest[1..], w.images[c.k].GetAttr(child))), follow, end, n)
  {
    WayOn(c.rest);
    hide IsWay, Below;
  }

  lemma StepKeeps(w: World, c: Place, follow: bool, end: End, n: nat)
    requires HasTargets(w) && IsPlace(w, c) && !AtEnd(c) && IsWay(c.rest)
    ensures Keeps(w, c, Step(w, c, follow), follow, end, n)
  {
    hide Splice, ViaChild, Enter, IsWay, IsPlain, IsGoing, Leads;
    var key := Key(w, c);
    if key in w.mounts {
      NamesBehind(w, c);
      match w.mounts[key] {
        case Host(text) => SplicedKeeps(w, c, text, c.st, follow, end, n);
        case Memfs(j) => EnteredKeeps(w, c, j, follow, end, n);
      }
    } else {
      match w.images[c.k].Lookup(key.0, key.1) {
        case Some(child) => ChildKeeps(w, c, child, follow, end, n);
        case None => NothingKeeps(w, c, follow, end, n);
      }
    }
  }

  lemma NothingKeeps(w: World, c: Place, follow: bool, end: End, n: nat)
    requires IsPlace(w, c) && !AtEnd(c) && Key(w, c) !in w.mounts
    requires w.images[c.k].Lookup(Key(w, c).0, Key(w, c).1).None?
    ensures Keeps(w, c, Stop(NoEntry), follow, end, n)
  {
    assert Says(w, NoEntry, Nowhere) && Leads(w, SpotOf(c), c.rest, follow, Nowhere, 1);
  }

  lemma LeadsNowhere(w: World, a: Spot, es: seq<Elem>, follow: bool, end: End, n: nat)
    requires IsSpot(w, a)
    ensures es == [] || es[0] == Empty ==> (Leads(w, a, es, follow, end, n) <==> n == 0 && end == At(a))
    ensures es != [] && es[0] != Empty && Leads(w, a, es, follow, end, n) ==> n > 0
  {
  }

  /** A walk that has stopped says where its path leads. */
  lemma {:induction false} ResolveLeads(w: World, c: Place, follow: bool, n: nat) returns (end: End, m: nat)
    requires HasTargets(w) && IsPlace(w, c) && IsWay(c.rest) && EndsSound(w, c)
    requires Resolve(w, c, follow, n) != Running
    ensures Leads(w, SpotOf(c), c.rest, follow, end, m) && Says(w, Resolve(w, c, follow, n), end)
    decreases n
  {
    hide Step, Resolve, IsWay, Leads, HasTargets;
    if AtEnd(c) {
      OneEnd(w, c, follow, n);
      end, m := At(SpotOf(c)), 0;
      LeadsNowhere(w, SpotOf(c), c.rest, follow, end, m);
    } else {
      OneStep(w, c, follow, n);
      var next := Step(w, c, follow);
      StepKeeps(w, c, follow, Nowhere, 0);
      if next.Go? {
        end, m := ResolveLeads(w, next.to, follow, n - 1);
        StepKeeps(w, c, follow, end, m);
        m := m + 1;
      } else {
        end :| Says(w, next.out, end) && Leads(w, SpotOf(c), c.rest, follow, end, 1);
        m := 1;
      }
    }
  }

  /** And a path that leads somewhere is walked to there. */
  lemma {:induction false} LeadsResolve(w: World, c: Place, follow: bool, end: End, n: nat)
    requires HasTargets(w) && IsPlace(w, c) && IsWay(c.rest) && EndsSound(w, c)
    requires Leads(w, SpotOf(c), c.rest, follow, end, n)
    ensures Says(w, Resolve(w, c, follow, n), end)
    decreases n
  {
    hide Step, Resolve, IsWay, Leads, HasTargets;
    LeadsNowhere(w, SpotOf(c), c.rest, follow, end, n);
    if AtEnd(c) {
      OneEnd(w, c, follow, n);
    } else {
      OneStep(w, c, follow, n);
      StepKeeps(w, c, follow, end, n - 1);
      var next := Step(w, c, follow);
      if next.Go? {
        LeadsResolve(w, next.to, follow, end, n - 1);
      }
    }
  }

  /** A lookup ends if and only if its path leads to some end, links in the end being entered if they are to be
      followed; and it answers what that end is: the inode, that there is nothing, or the absolute target. */
  lemma Denoted(w: World, k: nat, start: nat, p: Path, follow: bool)
    requires HasTargets(w) && k in w.images && StartsOutsideLinks(w.images[k], start)
    requires WellFormed(p) && !p.rooted && IsWay(p.body)
    ensures var out, at := Meaning(w, k, start, p, follow), w.images[k].Find(start);
            if at.None? then out == NoEntry
            else
              && (out != Running <==> exists end, n :: Leads(w, Spot(k, at.value), p.body, follow, end, n))
              && (forall end, n | Leads(w, Spot(k, at.value), p.body, follow, end, n) :: Says(w, out, end))
  {
    hide Resolve, Leads, Meaning, Says, HasTargets;
    if w.images[k].Find(start).None? {
      MeaningIs(w, k, start, p, follow, 0);
    } else {
      var a := Spot(k, w.images[k].Find(start).value);
      if Meaning(w, k, start, p, follow) != Running {
        var end, m := MeaningLeads(w, k, start, p, follow);
      }
      forall end, n | Leads(w, a, p.body, follow, end, n)
        ensures Meaning(w, k, start, p, follow) != Running && Says(w, Meaning(w, k, start, p, follow), end)
      {
        LeadsMeaning(w, k, start, p, follow, end, n);
      }
    }
  }

  lemma MeaningLeads(w: World, k: nat, start: nat, p: Path, follow: bool) returns (end: End, m: nat)
    requires HasTargets(w) && k in w.images && StartsOutsideLinks(w.images[k], start)
    requires WellFormed(p) && !p.rooted && IsWay(p.body) && w.images[k].Find(start).Some?
    requires Meaning(w, k, start, p, follow) != Running
    ensures Leads(w, Spot(k, w.images[k].Find(start).value), p.body, follow, end, m)
  {
    hide Resolve, Leads, Meaning, HasTargets;
    assert Components(p) == p.body;
    var c := Enter(w, k, start, p).to;
    var n := MeaningReached(w, k, start, p, follow);
    FromPlace(w, k, start, p, c, follow, n);
    end, m := ResolveLeads(w, c, follow, n);
  }

  lemma LeadsMeaning(w: World, k: nat, start: nat, p: Path, follow: bool, end: End, n: nat)
    requires HasTargets(w) && k in w.images && StartsOutsideLinks(w.images[k], start)
    requires WellFormed(p) && !p.rooted && IsWay(p.body) && w.images[k].Find(start).Some?
    requires Leads(w, Spot(k, w.images[k].Find(start).value), p.body, follow, end, n)
    ensures Meaning(w, k, start, p, follow) != Running && Says(w, Meaning(w, k, start, p, follow), end)
  {
    hide Resolve, Leads, Meaning, HasTargets, Render, Rewritten;
    assert Components(p) == p.body;
    var c := Enter(w, k, start, p).to;
    LeadsResolve(w, c, follow, end, n);
    FromPlace(w, k, start, p, c, follow, n);
    MeaningIs(w, k, start, p, follow, n);
  }

  /** A lookup finds an inode if and only if the path leads there. */
  lemma FoundIff(w: World, k: nat, start: nat, p: Path, follow: bool, s: Stat)
    requires HasTargets(w) && k in w.images && StartsOutsideLinks(w.images[k], start)
    requires WellFormed(p) && !p.rooted && IsWay(p.body) && w.images[k].Find(start).Some?
    ensures Meaning(w, k, start, p, follow) == Found(s) <==>
            exists b, n :: IsSpot(w, b) && s == w.images[b.k].GetAttr(b.node) &&
                           Leads(w, Spot(k, w.images[k].Find(start).value), p.body, follow, At(b), n)
  {
    hide Leads, Meaning, HasTargets;
    var a := Spot(k, w.images[k].Find(start).value);
    Denoted(w, k, start, p, follow);
    if Meaning(w, k, start, p, follow) == Found(s) {
      var end, n :| Leads(w, a, p.body, follow, end, n);
      assert Says(w, Found(s), end) && end == At(end.spot);
    }
  }

  /** It finds nothing if and only if the path leads nowhere. */
  lemma NoEntryIff(w: World, k: nat, start: nat, p: Path, follow: bool)
    requires HasTargets(w) && k in w.images && StartsOutsideLinks(w.images[k], start)
    requires WellFormed(p) && !p.rooted && IsWay(p.body) && w.images[k].Find(start).Some?
    ensures Meaning(w, k, start, p, follow) == NoEntry <==>
            exists n :: Leads(w, Spot(k, w.images[k].Find(start).value), p.body, follow, Nowhere, n)
  {
    hide Leads, Meaning, HasTargets;
    var a := Spot(k, w.images[k].Find(start).value);
    Denoted(w, k, start, p, follow);
    if Meaning(w, k, start, p, follow) == NoEntry {
      var end, n :| Leads(w, a, p.body, follow, end, n);
      assert Says(w, NoEntry, end) && end == Nowhere;
    }
  }

  /** It ends at an absolute target if and only if the path leads off to one. */
  lemma AbsoluteIff(w: World, k: nat, start: nat, p: Path, follow: bool, lnk: string)
    requires HasTargets(w) && k in w.images && StartsOutsideLinks(w.images[k], start)
    requires WellFormed(p) && !p.rooted && IsWay(p.body) && w.images[k].Find(start).Some?
    ensures (Meaning(w, k, start, p, follow).LinkAbsolute? && Meaning(w, k, start, p, follow).lnk == lnk) <==>
            exists target, rest, n :: lnk == Render(Rewritten(target, rest)) &&
                           Leads(w, Spot(k, w.images[k].Find(start).value), p.body, follow, Off(target, rest), n)
  {
    hide Leads, Meaning, HasTargets, Render, Rewritten;
    var a, out := Spot(k, w.images[k].Find(start).value), Meaning(w, k, start, p, follow);
    Denoted(w, k, start, p, follow);
    if out.LinkAbsolute? {
      var end, n :| Leads(w, a, p.body, follow, end, n);
      assert Says(w, out, end) && end == Off(end.target, end.rest);
    }
  }
}
