/** Paths as the component sequences that iterating over a `std::filesystem::path` yields: an optional
    root directory, then elements; a trailing separator shows up as a last, empty element. Appending
    and lexical normalisation follow subclause [fs.path.generic] of ISO/IEC 14882:2020. */
module Paths {
  import opened Wrappers

  datatype Elem = RootDir | Empty | Dot | DotDot | Name(text: string)

  datatype Path = Path(rooted: bool, body: seq<Elem>)

  const EMPTY_PATH: Path := Path(false, [])

  /** What iteration yields. */
  function Components(p: Path): seq<Elem> {
    (if p.rooted then [RootDir] else []) + p.body
  }

  /** No root directory, and an empty element at the end only: the shape of what is left of a path
      after its first element. */
  predicate IsTail(es: seq<Elem>) {
    forall i | 0 <= i < |es| :: es[i] != RootDir && (es[i] == Empty ==> i == |es| - 1)
  }

  /** The shape of every sequence that path iteration can produce. */
  predicate WellFormed(p: Path) {
    IsTail(p.body) && (p.body != [] ==> p.body[0] != Empty)
  }

  /** `p /= e` for a one-element path `e` (the empty path if `e` is `Empty`). */
  function Append(p: Path, e: Elem): Path {
    if e == RootDir then Path(true, [])
    else if e == Empty then
      if p.body == [] || Last(p.body) == Empty then p else Path(p.rooted, p.body + [Empty])
    else Path(p.rooted, Strip(p.body) + [e])
  }

  /** The elements without a trailing separator. */
  function Strip(es: seq<Elem>): seq<Elem> {
    if es != [] && Last(es) == Empty then Front(es) else es
  }

  /** `p /= e` for the elements of `es` in turn. */
  function AppendAll(p: Path, es: seq<Elem>): Path
    decreases |es|
  {
    if es == [] then p else AppendAll(Append(p, es[0]), es[1..])
  }

  /** `p / q`. */
  function Slash(p: Path, q: Path): Path {
    if q.rooted then q
    else if q.body == [] then Append(p, Empty)
    else AppendAll(p, q.body)
  }

  /** `p += "/"`. */
  function AddSeparator(p: Path): Path {
    if p == EMPTY_PATH then Path(true, []) else Append(p, Empty)
  }

  // ---------- Lexical normalisation ----------

  /** One element consumed by normalisation, the file names kept so far being `s`. */
  function Push(s: seq<Elem>, e: Elem, rooted: bool): seq<Elem> {
    match e
    case DotDot =>
      if s != [] && Last(s) != DotDot then Front(s)
      else if rooted then s
      else s + [DotDot]
    case Name(_) => s + [e]
    case _ => s
  }

  function Squash(s: seq<Elem>, es: seq<Elem>, rooted: bool): seq<Elem> {
    if es == [] then s else Push(Squash(s, Front(es), rooted), Last(es), rooted)
  }

  /** The file names that survive normalisation. */
  function Kept(p: Path): seq<Elem> {
    Squash([], p.body, p.rooted)
  }

  /** The path does not end in an ordinary file name. */
  predicate EndsOpen(p: Path) {
    p.body != [] ==> !Last(p.body).Name?
  }

  function Form(rooted: bool, kept: seq<Elem>, open: bool): Path {
    if kept == [] then Path(rooted, if rooted then [] else [Dot])
    else Path(rooted, if open && Last(kept) != DotDot then kept + [Empty] else kept)
  }

  /** `p.lexically_normal()`. */
  function Normal(p: Path): Path {
    if p == EMPTY_PATH then p else Form(p.rooted, Kept(p), EndsOpen(p))
  }

  /** What normalisation keeps: file names, preceded by parent steps if there is no root to absorb them. */
  predicate IsKept(s: seq<Elem>, rooted: bool) {
    && (forall i | 0 <= i < |s| :: s[i].Name? || (s[i] == DotDot && !rooted))
    && (forall i, j | 0 <= i < j < |s| && s[j] == DotDot :: s[i] == DotDot)
  }

  /** A path that normalisation has nothing left to do on. */
  predicate IsNormal(p: Path) {
    || p == EMPTY_PATH || p == Path(false, [Dot]) || p == Path(true, [])
    || (var kept := Strip(p.body);
        kept != [] && IsKept(kept, p.rooted) && (Last(p.body) == Empty ==> Last(kept).Name?))
  }

  // ---------- Laws of appending ----------

  /** Appending the rest of a path, all at once. */
  lemma {:induction false} AppendAllIs(p: Path, es: seq<Elem>)
    requires IsTail(es)
    ensures AppendAll(p, es) ==
            if es == [] then p
            else if es == [Empty] then Append(p, Empty)
            else Path(p.rooted, Strip(p.body) + es)
    decreases |es|
  {
    if es == [] || es == [Empty] {
    } else {
      var b, rest := Strip(p.body), es[1..];
      var q := Append(p, es[0]);
      assert es == [es[0]] + rest && q.body == b + [es[0]];
      AppendAllIs(q, rest);
      assert b + es == q.body + rest;
    }
  }

  lemma {:induction false} RootStays(p: Path, es: seq<Elem>)
    requires p.rooted
    ensures AppendAll(p, es).rooted
    decreases |es|
  {
    if es == [] {
    } else {
      RootStays(Append(p, es[0]), es[1..]);
    }
  }

  lemma SlashIs(p: Path, q: Path)
    requires WellFormed(q) && !q.rooted && q.body != []
    ensures Slash(p, q) == Path(p.rooted, Strip(p.body) + q.body)
  {
    AppendAllIs(p, q.body);
  }

  // ---------- Laws of normalisation ----------

  lemma {:induction false} SquashConcat(s: seq<Elem>, a: seq<Elem>, b: seq<Elem>, rooted: bool)
    ensures Squash(s, a + b, rooted) == Squash(Squash(s, a, rooted), b, rooted)
    decreases |b|
  {
    if b == [] {
      assert a + b == a;
    } else {
      assert Front(a + b) == a + Front(b);
      SquashConcat(s, a, Front(b), rooted);
    }
  }

  lemma NothingKept(rooted: bool)
    ensures IsKept([], rooted)
  {
  }

  /** What is kept ends in a file name, or in parent steps only. */
  lemma KeptFront(s: seq<Elem>, rooted: bool)
    requires IsKept(s, rooted) && s != []
    ensures IsKept(Front(s), rooted)
    ensures Last(s).Name? || (Last(s) == DotDot && !rooted && (Front(s) != [] ==> Last(Front(s)) == DotDot))
  {
    assert Front(s) != [] ==> Last(Front(s)) == s[|s| - 2];
  }

  lemma KeptShape(s: seq<Elem>, rooted: bool)
    requires IsKept(s, rooted)
    ensures forall i | 0 <= i < |s| :: s[i] != Empty && s[i] != RootDir
  {
  }

  lemma KeptPush(s: seq<Elem>, e: Elem, rooted: bool)
    requires IsKept(s, rooted)
    ensures IsKept(Push(s, e, rooted), rooted)
  {
    if s != [] && Last(s) == DotDot {
      assert forall i | 0 <= i < |s| - 1 :: s[i] == DotDot;
    }
  }

  lemma {:induction false} SquashKept(s: seq<Elem>, es: seq<Elem>, rooted: bool)
    requires IsKept(s, rooted)
    ensures IsKept(Squash(s, es, rooted), rooted)
    decreases |es|
  {
    hide IsKept, Push;
    if es == [] {
    } else {
      SquashKept(s, Front(es), rooted);
      KeptPush(Squash(s, Front(es), rooted), Last(es), rooted);
    }
  }

  /** Normalising what is already kept changes nothing. */
  lemma {:induction false} SquashFixed(s: seq<Elem>, rooted: bool)
    requires IsKept(s, rooted)
    ensures Squash([], s, rooted) == s
    decreases |s|
  {
    hide IsKept;
    if s == [] {
    } else {
      KeptFront(s, rooted);
      SquashFixed(Front(s), rooted);
      assert s == Front(s) + [Last(s)];
    }
  }

  lemma SquashSeparator(s: seq<Elem>, es: seq<Elem>, rooted: bool)
    ensures Squash(s, es + [Empty], rooted) == Squash(s, es, rooted)
  {
    assert Front(es + [Empty]) == es;
  }

  lemma SquashLast(s: seq<Elem>, t: seq<Elem>, e: Elem, rooted: bool)
    ensures Squash(s, t + [e], rooted) == Push(Squash(s, t, rooted), e, rooted)
  {
    assert Front(t + [e]) == t;
  }

  /** Squashing first the tail of a path on its own gives the same result. */
  lemma {:induction false} SquashAgain(s: seq<Elem>, es: seq<Elem>, rooted: bool)
    requires IsKept(s, rooted)
    ensures Squash(s, Squash([], es, false), rooted) == Squash(s, es, rooted)
    decreases |es|
  {
    hide IsKept;
    if es == [] {
    } else {
      SquashAgain(s, Front(es), rooted);
      NothingKept(false);
      SquashKept([], Front(es), false);
      PushAgain(s, Squash([], Front(es), false), Last(es), rooted);
    }
  }

  lemma PushAgain(s: seq<Elem>, t: seq<Elem>, e: Elem, rooted: bool)
    requires IsKept(t, false)
    ensures Squash(s, Push(t, e, false), rooted) == Push(Squash(s, t, rooted), e, rooted)
  {
    hide IsKept, Squash;
    SquashLast(s, t, e, rooted);
    if e == DotDot && t != [] && Last(t) != DotDot {
      KeptFront(t, false);
      SquashLast(s, Front(t), Last(t), rooted);
      assert t == Front(t) + [Last(t)];
      var u := Squash(s, Front(t), rooted);
      assert Front(u + [Last(t)]) == u;
    }
  }

  lemma FormKept(rooted: bool, kept: seq<Elem>, open: bool)
    requires IsKept(kept, rooted)
    ensures Kept(Form(rooted, kept, open)) == kept
  {
    hide IsKept;
    if kept == [] {
      assert Front([Dot]) == [] && Squash([], [], rooted) == [];
      assert Squash([], [Dot], rooted) == Push([], Dot, rooted);
    } else {
      SquashFixed(kept, rooted);
      SquashSeparator([], kept, rooted);
    }
  }

  lemma FormEnd(rooted: bool, kept: seq<Elem>, open: bool)
    requires IsKept(kept, rooted) && kept != []
    ensures EndsOpen(Form(rooted, kept, open)) == (open || Last(kept) == DotDot)
  {
    KeptFront(kept, rooted);
    hide IsKept;
  }

  lemma FormWellFormed(rooted: bool, kept: seq<Elem>, open: bool)
    requires IsKept(kept, rooted)
    ensures WellFormed(Form(rooted, kept, open))
  {
    KeptShape(kept, rooted);
    hide IsKept;
  }

  /** A normal form is made of what it keeps. */
  lemma FormFacts(rooted: bool, kept: seq<Elem>, open: bool)
    requires IsKept(kept, rooted)
    ensures Form(rooted, kept, open).rooted == rooted
    ensures Kept(Form(rooted, kept, open)) == kept
    ensures kept != [] ==> EndsOpen(Form(rooted, kept, open)) == (open || Last(kept) == DotDot)
    ensures Form(rooted, kept, open) != EMPTY_PATH
    ensures WellFormed(Form(rooted, kept, open))
  {
    hide IsKept, Kept, WellFormed, EndsOpen;
    FormKept(rooted, kept, open);
    FormWellFormed(rooted, kept, open);
    if kept != [] {
      FormEnd(rooted, kept, open);
    }
  }

  lemma NormalFacts(p: Path)
    requires p != EMPTY_PATH
    ensures Normal(p).rooted == p.rooted && Normal(p) != EMPTY_PATH
    ensures Kept(Normal(p)) == Kept(p)
    ensures Kept(p) != [] && Last(Kept(p)) != DotDot ==> EndsOpen(Normal(p)) == EndsOpen(p)
    ensures WellFormed(Normal(p))
  {
    SquashKept([], p.body, p.rooted);
    FormFacts(p.rooted, Kept(p), EndsOpen(p));
  }

  /** A path's root, kept names and open end decide its normal form. */
  lemma SameNormal(p: Path, q: Path)
    requires p != EMPTY_PATH && q != EMPTY_PATH
    requires p.rooted == q.rooted && Kept(p) == Kept(q)
    requires Kept(p) != [] && Last(Kept(p)) != DotDot ==> EndsOpen(p) == EndsOpen(q)
    ensures Normal(p) == Normal(q)
  {
  }

  lemma FormIsNormal(rooted: bool, kept: seq<Elem>, open: bool)
    requires IsKept(kept, rooted) && kept != []
    ensures IsNormal(Form(rooted, kept, open))
  {
    KeptFront(kept, rooted);
    hide IsKept;
    assert Front(kept + [Empty]) == kept;
  }

  lemma NormalIsNormal(p: Path)
    ensures IsNormal(Normal(p))
  {
    hide IsKept, Squash;
    if p != EMPTY_PATH && Kept(p) != [] {
      NothingKept(p.rooted);
      SquashKept([], p.body, p.rooted);
      FormIsNormal(p.rooted, Kept(p), EndsOpen(p));
    }
  }

  /** A normal path is left alone; with `NormalIsNormal`, normalisation is idempotent and its
      results are exactly the normal paths. */
  lemma NormalFixed(p: Path)
    requires IsNormal(p)
    ensures Normal(p) == p
  {
    if p == Path(false, [Dot]) {
      assert Front(p.body) == [];
    } else if p.body != [] {
      var kept, open := Strip(p.body), Last(p.body) == Empty;
      assert p.body == if open then kept + [Empty] else kept;
      assert p == Form(p.rooted, kept, open);
      FormFacts(p.rooted, kept, open);
    }
  }

  lemma NormalIdempotent(p: Path)
    ensures Normal(Normal(p)) == Normal(p)
  {
    NormalIsNormal(p);
    NormalFixed(Normal(p));
  }

  lemma SlashFacts(c: Path, q: Path)
    requires WellFormed(q) && !q.rooted && q.body != []
    ensures Slash(c, q).rooted == c.rooted && Slash(c, q).body != []
    ensures Kept(Slash(c, q)) == Squash(Kept(c), q.body, c.rooted)
    ensures EndsOpen(Slash(c, q)) == EndsOpen(q)
  {
    SlashIs(c, q);
    hide IsTail, Slash, Push;
    var b := Strip(c.body);
    SquashConcat([], b, q.body, c.rooted);
    if b != c.body {
      assert c.body == b + [Empty];
      SquashSeparator([], b, c.rooted);
    }
  }

  /** Normalising the right operand first makes no difference: normal(c/normal(q)) = normal(c/q). */
  lemma NormalSlashRight(c: Path, q: Path)
    requires WellFormed(q) && !q.rooted
    ensures Normal(Slash(c, Normal(q))) == Normal(Slash(c, q))
  {
    hide IsKept, IsTail, Squash, Slash, EndsOpen;
    if q.body != [] {
      var n := Normal(q);
      NormalFacts(q);
      NormalNotEmpty(q);
      SlashFacts(c, q);
      SlashFacts(c, n);
      NothingKept(c.rooted);
      SquashKept([], c.body, c.rooted);
      SquashAgain(Kept(c), q.body, c.rooted);
      SquashAgain(Kept(c), n.body, c.rooted);
      OpenNormal(q);
      SameNormal(Slash(c, n), Slash(c, q));
    }
  }

  lemma NormalNotEmpty(q: Path)
    requires !q.rooted && q.body != []
    ensures Normal(q).body != []
  {
    hide Kept;
  }

  lemma OpenNormal(q: Path)
    requires !q.rooted && q.body != []
    ensures EndsOpen(Normal(q)) == EndsOpen(q)
  {
    NormalFacts(q);
    assert !EndsOpen(q) ==> Last(Kept(q)) == Last(q.body);
    if Kept(q) != [] {
      FormFacts(q.rooted, Kept(q), EndsOpen(q)) by {
        SquashKept([], q.body, q.rooted);
      }
    }
  }

  /** Normalising the left operand first makes no difference: normal(normal(c)/q) = normal(c/q). */
  lemma NormalSlashLeft(c: Path, q: Path)
    requires WellFormed(q) && !q.rooted
    ensures Normal(Slash(Normal(c), q)) == Normal(Slash(c, q))
  {
    if c != EMPTY_PATH {
      NormalFacts(c);
      if q.body != [] {
        SlashFacts(c, q);
        SlashFacts(Normal(c), q);
        SameNormal(Slash(Normal(c), q), Slash(c, q));
      } else {
        SeparatorFacts(c);
        SeparatorFacts(Normal(c));
        SameNormal(Append(Normal(c), Empty), Append(c, Empty));
      }
    }
  }

  lemma SeparatorFacts(c: Path)
    requires c != EMPTY_PATH
    ensures Append(c, Empty).rooted == c.rooted && Append(c, Empty) != EMPTY_PATH
    ensures Kept(Append(c, Empty)) == Kept(c)
    ensures EndsOpen(Append(c, Empty))
  {
    SquashSeparator([], c.body, c.rooted);
  }

  // ---------- What normalisation does, one rule at a time ----------

  lemma SquashMiddle(s: seq<Elem>, a: seq<Elem>, m: seq<Elem>, b: seq<Elem>, rooted: bool)
    requires Squash(Squash(s, a, rooted), m, rooted) == Squash(s, a, rooted)
    ensures Squash(s, a + m + b, rooted) == Squash(s, a + b, rooted)
  {
    SquashConcat(s, a, b, rooted);
    SquashConcat(s, a, m, rooted);
    SquashConcat(s, a + m, b, rooted);
  }

  lemma NothingToPush(s: seq<Elem>, name: string, rooted: bool)
    ensures Squash(s, [Dot], rooted) == s
    ensures Squash(s, [Name(name), DotDot], rooted) == s
    ensures Squash([], [DotDot], true) == []
  {
    SquashLast(s, [], Dot, rooted);
    SquashLast(s, [], Name(name), rooted);
    SquashLast(s, [Name(name)], DotDot, rooted);
    SquashLast([], [], DotDot, true);
    assert [] + [Dot] == [Dot] && [] + [Name(name)] == [Name(name)] && [] + [DotDot] == [DotDot];
    assert [Name(name)] + [DotDot] == [Name(name), DotDot];
    assert Front(s + [Name(name)]) == s;
  }

  /** A `.` goes, a name goes with the `..` behind it, a `..` goes at the root. With `NormalFixed` these rules
      say what every path comes to. */
  lemma NormalRules(rooted: bool, a: seq<Elem>, name: string, b: seq<Elem>)
    requires b != []
    ensures Normal(Path(rooted, a + [Dot] + b)) == Normal(Path(rooted, a + b))
    ensures Normal(Path(rooted, a + [Name(name), DotDot] + b)) == Normal(Path(rooted, a + b))
    ensures Normal(Path(true, [DotDot] + b)) == Normal(Path(true, b))
  {
    hide Squash, Push;
    NothingToPush(Squash([], a, rooted), name, rooted);
    SquashMiddle([], a, [Dot], b, rooted);
    SquashMiddle([], a, [Name(name), DotDot], b, rooted);
    NothingToPush([], name, true);
    SquashConcat([], [DotDot], b, true);
    assert Last(a + b) == Last(b) && Last(a + [Dot] + b) == Last(b) && Last(a + [Name(name), DotDot] + b) == Last(b);
    assert Last([DotDot] + b) == Last(b);
  }

  /** A path that ends in a name still does; one that ends in `.`, in `..` or in a separator ends open: it comes to
      the root, to `.`, to parent steps, or to a name with a separator behind it. */
  lemma NormalEnd(p: Path)
    requires p.body != []
    ensures Last(p.body).Name? ==> Normal(p).body != [] && Last(Normal(p).body) == Last(p.body)
    ensures !Last(p.body).Name? ==>
              Normal(p).body == [] || Last(Normal(p).body) == Dot || Last(Normal(p).body) == DotDot ||
              Last(Normal(p).body) == Empty
  {
    hide IsKept;
    NothingKept(p.rooted);
    SquashKept([], p.body, p.rooted);
    if Kept(p) != [] {
      KeptFront(Kept(p), p.rooted);
    }
  }
}
