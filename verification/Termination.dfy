/** When the resolver's loop ends. There is no cap on the number of links, so a premise on the links is needed. */
module Termination {
  import opened Dwarfs
  import opened PathText
  import opened Paths
  import opened Resolver
  import opened ResolverRuns
  import opened Wrappers

  type Rank = string -> nat

  function Pow(b: nat, e: nat): nat {
    if e == 0 then 1 else b * Pow(b, e - 1)
  }

  lemma Scale(a: nat, b: nat, x: nat)
    requires a <= b
    ensures a * x <= b * x
    ensures a < b && x > 0 ==> a * x < b * x
  {
  }

  lemma {:induction false} PowPositive(b: nat, e: nat)
    requires b > 0
    ensures Pow(b, e) >= 1
  {
    if e == 0 {
    } else {
      PowPositive(b, e - 1);
      Scale(1, b, Pow(b, e - 1));
    }
  }

  lemma {:induction false} PowMonotone(b: nat, d: nat, e: nat)
    requires b > 0 && d <= e
    ensures Pow(b, d) <= Pow(b, e)
    decreases e
  {
    if d == e {
    } else {
      PowMonotone(b, d, e - 1);
      Scale(1, b, Pow(b, e - 1));
    }
  }

  /** The cost of a component: more than any link of its rank can bring in. */
  function ElemWeight(rank: Rank, K: nat, e: Elem): nat {
    if e == Empty then 0 else Pow(K + 1, rank(Text(e)))
  }

  function Weight(rank: Rank, K: nat, es: seq<Elem>): nat {
    if es == [] then 0 else ElemWeight(rank, K, es[0]) + Weight(rank, K, es[1..])
  }

  /** The components of a relative target all rank below the name that leads to it, and there are at most `K`. */
  ghost predicate TargetRanked(rank: Rank, K: nat, name: string, target: string) {
    var t := Parse(target);
    !t.rooted ==> |t.body| <= K && forall i | 0 <= i < |t.body| && t.body[i] != Empty :: rank(Text(t.body[i])) < rank(name)
  }

  ghost predicate ChildRanked(rank: Rank, K: nat, img: Image, dir: nat, name: string) {
    var child := img.Lookup(img.root + dir, name);
    child.Some? && img.IsLink(child.value) ==> TargetRanked(rank, K, name, img.nodes[child.value].target)
  }

  /** Names can be ranked so that relative links and host mounts lead from higher ranks to lower ones. */
  ghost predicate IsRanked(w: World, rank: Rank, K: nat) {
    && rank(".") == 0
    && (forall k, dir, name | k in w.images :: ChildRanked(rank, K, w.images[k], dir, name))
    && (forall m | m in w.mounts && w.mounts[m].Host? :: TargetRanked(rank, K, m.1, w.mounts[m].text))
  }

  lemma {:induction false} WeightConcat(rank: Rank, K: nat, a: seq<Elem>, b: seq<Elem>)
    ensures Weight(rank, K, a + b) == Weight(rank, K, a) + Weight(rank, K, b)
    decreases |a|
  {
    if a == [] {
      assert a + b == b;
    } else {
      assert (a + b)[1..] == a[1..] + b;
      WeightConcat(rank, K, a[1..], b);
    }
  }

  lemma WeightLast(rank: Rank, K: nat, es: seq<Elem>)
    requires es != []
    ensures Weight(rank, K, es) == Weight(rank, K, Front(es)) + ElemWeight(rank, K, Last(es))
  {
    assert es == Front(es) + [Last(es)];
    WeightConcat(rank, K, Front(es), [Last(es)]);
  }

  lemma WeightSnoc(rank: Rank, K: nat, es: seq<Elem>, e: Elem)
    ensures Weight(rank, K, es + [e]) == Weight(rank, K, es) + ElemWeight(rank, K, e)
  {
    WeightConcat(rank, K, es, [e]);
  }

  /** The weight of a whole path. */
  function PathWeight(rank: Rank, K: nat, p: Path): nat {
    Weight(rank, K, Components(p))
  }

  lemma PathWeightIs(rank: Rank, K: nat, p: Path)
    ensures PathWeight(rank, K, p) ==
            (if p.rooted then ElemWeight(rank, K, RootDir) else 0) + Weight(rank, K, p.body)
  {
    if p.rooted {
      assert Components(p)[1..] == p.body;
    } else {
      assert Components(p) == p.body;
    }
  }

  lemma WeightAppend(rank: Rank, K: nat, p: Path, e: Elem)
    ensures PathWeight(rank, K, Append(p, e)) <= PathWeight(rank, K, p) + ElemWeight(rank, K, e)
  {
    PathWeightIs(rank, K, p);
    PathWeightIs(rank, K, Append(p, e));
    var b := Strip(p.body);
    if b != p.body {
      WeightLast(rank, K, p.body);
    }
    WeightSnoc(rank, K, b, e);
    WeightSnoc(rank, K, p.body, e);
  }

  lemma {:induction false} WeightAppendAll(rank: Rank, K: nat, p: Path, es: seq<Elem>)
    ensures PathWeight(rank, K, AppendAll(p, es)) <= PathWeight(rank, K, p) + Weight(rank, K, es)
    ensures p.body == [] || p.body[0] != Empty ==> AppendAll(p, es).body == [] || AppendAll(p, es).body[0] != Empty
    decreases |es|
  {
    if es == [] {
    } else {
      WeightAppend(rank, K, p, es[0]);
      WeightAppendAll(rank, K, Append(p, es[0]), es[1..]);
    }
  }

  lemma {:induction false} WeightSquash(rank: Rank, K: nat, es: seq<Elem>, rooted: bool)
    ensures Weight(rank, K, Squash([], es, rooted)) <= Weight(rank, K, es)
    decreases |es|
  {
    if es == [] {
    } else {
      WeightSquash(rank, K, Front(es), rooted);
      WeightLast(rank, K, es);
      var s := Squash([], Front(es), rooted);
      WeightSnoc(rank, K, s, Last(es));
      if s != [] {
        WeightLast(rank, K, s);
      }
    }
  }

  /** Normalisation never raises the weight. */
  lemma WeightNormal(rank: Rank, K: nat, p: Path)
    requires rank(".") == 0 && (p.body == [] || p.body[0] != Empty)
    ensures Weight(rank, K, Normal(p).body) <= Weight(rank, K, p.body)
  {
    if p.body != [] {
      WeightSquash(rank, K, p.body, p.rooted);
      WeightSnoc(rank, K, Kept(p), Empty);
      assert Weight(rank, K, [Dot]) == 1 by {
        assert Pow(K + 1, 0) == 1;
        assert [Dot][1..] == [];
      }
      PowPositive(K + 1, rank(Text(p.body[0])));
    }
  }

  lemma Times(a: nat, x: nat)
    requires a > 0
    ensures a * x == (a - 1) * x + x
  {
  }

  lemma {:induction false} WeightBound(rank: Rank, K: nat, es: seq<Elem>, r: nat)
    requires forall i | 0 <= i < |es| && es[i] != Empty :: rank(Text(es[i])) <= r
    ensures Weight(rank, K, es) <= |es| * Pow(K + 1, r)
    decreases |es|
  {
    if es == [] {
    } else {
      WeightBound(rank, K, es[1..], r);
      PowPositive(K + 1, r);
      if es[0] != Empty {
        PowMonotone(K + 1, rank(Text(es[0])), r);
      }
      Times(|es|, Pow(K + 1, r));
    }
  }

  /** At most `K` components that rank below `r` weigh less than one that ranks `r`. */
  lemma WeightBelow(rank: Rank, K: nat, b: seq<Elem>, r: nat)
    requires |b| <= K && (b != [] ==> b[0] != Empty)
    requires forall i | 0 <= i < |b| && b[i] != Empty :: rank(Text(b[i])) < r
    ensures Weight(rank, K, b) < Pow(K + 1, r)
  {
    PowPositive(K + 1, r);
    if b != [] {
      assert rank(Text(b[0])) < r;
      WeightBound(rank, K, b, r - 1);
      PowPositive(K + 1, r - 1);
      Scale(|b|, K + 1, Pow(K + 1, r - 1));
    }
  }

  /** A relative target weighs less than the name that leads to it. */
  lemma WeightTarget(rank: Rank, K: nat, name: string, target: string)
    requires TargetRanked(rank, K, name, target) && !Parse(target).rooted
    ensures Weight(rank, K, Parse(target).body) < Pow(K + 1, rank(name))
  {
    ParseShape(target);
    WeightBelow(rank, K, Parse(target).body, rank(name));
  }

  lemma SpliceWeight(rank: Rank, K: nat, name: string, k: nat, dir: nat, target: string, tail: seq<Elem>, st: Stat)
    requires rank(".") == 0 && TargetRanked(rank, K, name, target)
    requires Splice(k, dir, target, tail, st).Go?
    ensures Weight(rank, K, Splice(k, dir, target, tail, st).to.rest) < Pow(K + 1, rank(name)) + Weight(rank, K, tail)
  {
    var t := Parse(target);
    var p := AppendAll(t, tail);
    ParseShape(target);
    WeightAppendAll(rank, K, t, tail);
    if t.rooted {
      RootStays(t, tail);
      NormalFacts(p);
    } else {
      WeightTarget(rank, K, name, target);
      PathWeightIs(rank, K, t);
      PathWeightIs(rank, K, p);
      WeightNormal(rank, K, p);
    }
  }

  lemma MountWeight(w: World, k: nat, dir: nat, target: Target, name: string, tail: seq<Elem>, st: Stat, rank: Rank, K: nat)
    requires k in w.images && dir in w.images[k].nodes && ViaMount(w, k, dir, target, tail, st).Go?
    requires rank(".") == 0 && (target.Host? ==> TargetRanked(rank, K, name, target.text))
    ensures Weight(rank, K, ViaMount(w, k, dir, target, tail, st).to.rest) < Pow(K + 1, rank(name)) + Weight(rank, K, tail)
  {
    hide Splice;
    match target {
      case Host(text) => SpliceWeight(rank, K, name, k, dir, text, tail, st);
      case Memfs(j) =>
        PowPositive(K + 1, rank(name));
        WeightAppendAll(rank, K, EMPTY_PATH, tail);
        assert Components(EMPTY_PATH) == [];
    }
  }

  lemma ChildWeight(w: World, k: nat, dir: nat, child: nat, name: string, tail: seq<Elem>, follow: bool, rank: Rank, K: nat)
    requires k in w.images && dir in w.images[k].nodes && child in w.images[k].nodes
    requires ViaChild(w, k, dir, child, tail, follow).Go?
    requires rank(".") == 0
    requires w.images[k].IsLink(child) ==> TargetRanked(rank, K, name, w.images[k].nodes[child].target)
    ensures Weight(rank, K, ViaChild(w, k, dir, child, tail, follow).to.rest) < Pow(K + 1, rank(name)) + Weight(rank, K, tail)
  {
    hide Splice;
    var img := w.images[k];
    PowPositive(K + 1, rank(name));
    if img.IsLink(child) && (tail != [] || follow) {
      SpliceWeight(rank, K, name, k, dir, img.nodes[child].target, tail, img.GetAttr(child));
    }
  }

  /** Every step makes what is left of the path weigh less. */
  lemma StepWeight(w: World, c: Place, follow: bool, rank: Rank, K: nat)
    requires IsRanked(w, rank, K) && IsPlace(w, c) && !AtEnd(c) && Step(w, c, follow).Go?
    ensures Weight(rank, K, Step(w, c, follow).to.rest) < Weight(rank, K, c.rest)
  {
    hide ViaMount, ViaChild;
    var key, tail := Key(w, c), c.rest[1..];
    PowPositive(K + 1, rank(key.1));
    if key in w.mounts {
      MountWeight(w, c.k, c.dir, w.mounts[key], key.1, tail, c.st, rank, K);
    } else {
      var child := w.images[c.k].Lookup(key.0, key.1).value;
      assert ChildRanked(rank, K, w.images[c.k], c.dir, key.1);
      ChildWeight(w, c.k, c.dir, child, key.1, tail, follow, rank, K);
    }
  }

  /** In a ranked world the loop, nested loops for mounted images included, stops after at most as many
      iterations as what is left of the path weighs. */
  lemma {:induction false} RankedStops(w: World, c: Place, follow: bool, rank: Rank, K: nat, n: nat)
    requires IsRanked(w, rank, K) && IsPlace(w, c) && n >= Weight(rank, K, c.rest)
    ensures Resolve(w, c, follow, n) != Running
    decreases n
  {
    if AtEnd(c) {
    } else {
      PowPositive(K + 1, rank(Text(c.rest[0])));
      var next := Step(w, c, follow);
      if next.Go? {
        StepWeight(w, c, follow, rank, K);
        RankedStops(w, next.to, follow, rank, K, n - 1);
      }
    }
  }

  /** So every lookup in a ranked world ends. */
  lemma LookupEnds(w: World, k: nat, start: nat, path: Path, follow: bool, rank: Rank, K: nat)
    requires IsRanked(w, rank, K) && k in w.images && StartsOutsideLinks(w.images[k], start)
    ensures Meaning(w, k, start, path, follow) != Running
    ensures ResolveFrom(w, k, start, path, follow, PathWeight(rank, K, path)) == Meaning(w, k, start, path, follow)
  {
    var n := PathWeight(rank, K, path);
    var next := Enter(w, k, start, path);
    if next.Go? {
      RankedStops(w, next.to, follow, rank, K, n);
    }
    MeaningIs(w, k, start, path, follow, n);
  }

  /** An image whose root directory holds a link to itself. */
  function SelfLink(name: string): Image {
    Image(0, map[0 := Dir(map[name := 1], []), 1 := Link(name)])
  }

  /** Without the premise the loop need not end: a lookup of a link to itself goes on for ever. */
  lemma SelfLinkNeverEnds(w: World, name: string)
    requires IsFileName(name)
    requires w.images == map[0 := SelfLink(name)] && w.mounts == map[]
    ensures Meaning(w, 0, 0, Path(false, [Name(name)]), true) == Running
  {
    var p, img := Path(false, [Name(name)]), SelfLink(name);
    assert Components(p) == p.body;
    forall n: nat
      ensures ResolveFrom(w, 0, 0, p, true, n) == Running
    {
      SelfLinkRuns(w, name, img.GetAttr(0), n);
    }
    NoMeaning(w, 0, 0, p, true);
  }

  lemma {:induction false} SelfLinkRuns(w: World, name: string, st: Stat, n: nat)
    requires IsFileName(name)
    requires w.images == map[0 := SelfLink(name)] && w.mounts == map[]
    ensures Resolve(w, Place(0, 0, [Name(name)], st), true, n) == Running
    decreases n
  {
    hide Step, SelfLink;
    var c := Place(0, 0, [Name(name)], st);
    if n == 0 {
    } else {
      SelfLinkStep(w, name, c);
      OneStep(w, c, true, n);
      SelfLinkRuns(w, name, Step(w, c, true).to.st, n - 1);
    }
  }

  lemma OneName(name: string)
    requires IsFileName(name)
    ensures Rewritten(name, []) == Path(false, [Name(name)])
  {
    var p := Path(false, [Name(name)]);
    RoundTrip(p);
    assert Render(p) == name by { assert "" + name == name; }
    NormalFixed(p);
  }

  lemma SelfLinkStep(w: World, name: string, c: Place)
    requires IsFileName(name) && w.images == map[0 := SelfLink(name)] && w.mounts == map[]
    requires c.k == 0 && c.dir == 0 && c.rest == [Name(name)]
    ensures IsPlace(w, c) && Step(w, c, true) == Go(Place(0, 0, [Name(name)], SelfLink(name).GetAttr(1)))
  {
    hide Rewritten;
    OneName(name);
    assert c.rest[1..] == [];
  }
}
