/** The text of a path: parsing it into elements and writing it in generic format. */
module PathText {
  import opened Paths
  import opened Wrappers

  const SEPARATOR: char := '/'

  /** `TEBAKO_PATH_LENGTH`: the longest path or name that the library keeps. */
  const PATH_LENGTH: nat := 4096

  /** `TEBAKO_MOUNT_POINT` and its length. */
  const MOUNT_POINT: string := "/__tebako_memfs__"
  const MOUNT_POINT_LENGTH: nat := 17

  /** The name of the mount point in the root directory. */
  const MOUNT_NAME: string := "__tebako_memfs__"

  function Classify(s: string): Elem {
    if s == "" then Empty else if s == "." then Dot else if s == ".." then DotDot else Name(s)
  }

  function Text(e: Elem): string {
    match e
    case RootDir => "/"
    case Empty => ""
    case Dot => "."
    case DotDot => ".."
    case Name(t) => t
  }

  /** The number of characters before the first separator. */
  function Span(t: string): (n: nat)
    ensures n <= |t|
    ensures forall i | 0 <= i < n :: t[i] != SEPARATOR
    ensures n < |t| ==> t[n] == SEPARATOR
  {
    if t == "" || t[0] == SEPARATOR then 0 else 1 + Span(t[1..])
  }

  function SkipSeparators(t: string): (r: string)
    ensures |r| <= |t|
    ensures r != "" ==> r[0] != SEPARATOR
    ensures t != "" && t[0] != SEPARATOR ==> r == t
  {
    if t != "" && t[0] == SEPARATOR then SkipSeparators(t[1..]) else t
  }

  /** The elements of a relative path. */
  function BodyElements(t: string): seq<Elem>
    requires t != "" ==> t[0] != SEPARATOR
    decreases |t|
  {
    if t == "" then []
    else
      var n := Span(t);
      var rest := SkipSeparators(t[n..]);
      if n == |t| then [Classify(t)]
      else if rest == "" then [Classify(t[..n]), Empty]
      else [Classify(t[..n])] + BodyElements(rest)
  }

  /** `path(t)`; repeated separators count as one. */
  function Parse(t: string): Path {
    if t != "" && t[0] == SEPARATOR then Path(true, BodyElements(SkipSeparators(t)))
    else Path(false, BodyElements(t))
  }

  function RenderBody(es: seq<Elem>): string {
    if es == [] then ""
    else if |es| == 1 then Text(es[0])
    else Text(es[0]) + [SEPARATOR] + RenderBody(es[1..])
  }

  /** `generic_string()` of a path with single separators, such as every normal path. */
  function Render(p: Path): string {
    (if p.rooted then [SEPARATOR] else "") + RenderBody(p.body)
  }

  /** The path's elements have the text that parsing would give them. */
  predicate IsSpelled(es: seq<Elem>) {
    forall i | 0 <= i < |es| && es[i].Name? :: IsFileName(es[i].text)
  }

  predicate IsFileName(s: string) {
    SEPARATOR !in s && s != "" && s != "." && s != ".."
  }

  /** `is_tebako_path`: a comparison of the first 17 characters, whatever follows them. */
  predicate IsTebakoPath(t: string) {
    MOUNT_POINT <= t
  }

  lemma {:induction false} BodyElementsShape(t: string)
    requires t != "" ==> t[0] != SEPARATOR
    ensures IsTail(BodyElements(t)) && IsSpelled(BodyElements(t))
    ensures t != "" ==> BodyElements(t) != [] && BodyElements(t)[0] != Empty
    decreases |t|
  {
    if t == "" {
    } else {
      var n := Span(t);
      assert n > 0;
      assert SEPARATOR !in t[..n];
      var rest := SkipSeparators(t[n..]);
      if n < |t| && rest != "" {
        BodyElementsShape(rest);
      }
    }
  }

  lemma ParseShape(t: string)
    ensures WellFormed(Parse(t)) && IsSpelled(Parse(t).body)
    ensures t != "" ==> Parse(t) != EMPTY_PATH
  {
    BodyElementsShape(if t != "" && t[0] == SEPARATOR then SkipSeparators(t) else t);
  }

  lemma SpanOf(name: string, rest: string)
    requires SEPARATOR !in name
    requires rest == "" || rest[0] == SEPARATOR
    ensures Span(name + rest) == |name|
  {
    var t := name + rest;
    assert forall i | 0 <= i < |name| :: t[i] == name[i];
    assert rest != "" ==> t[|name|] == rest[0];
  }

  /** One name and what follows its separators. */
  lemma BodyCons(name: string, rest: string)
    requires IsFileName(name) || name == "." || name == ".."
    requires rest == "" || rest[0] == SEPARATOR
    ensures var after := SkipSeparators(rest);
            BodyElements(name + rest) ==
            [Classify(name)] + (if rest == "" then [] else if after == "" then [Empty] else BodyElements(after))
  {
    SpanOf(name, rest);
    var t := name + rest;
    assert t[..|name|] == name && t[|name|..] == rest;
    assert t[0] == name[0];
    assert rest == "" ==> t == name;
  }

  lemma {:induction false} BodyRoundTrip(es: seq<Elem>)
    requires IsTail(es) && IsSpelled(es) && (es != [] ==> es[0] != Empty)
    ensures es != [] ==> RenderBody(es) != "" && RenderBody(es)[0] != SEPARATOR
    ensures BodyElements(RenderBody(es)) == es
    decreases |es|
  {
    if es == [] {
    } else {
      var name, tail := Text(es[0]), es[1..];
      assert es == [es[0]] + tail && Classify(name) == es[0];
      if tail == [] {
        BodyCons(name, "");
        assert name + "" == name;
      } else {
        var rest := [SEPARATOR] + RenderBody(tail);
        assert RenderBody(es) == name + rest;
        BodyCons(name, rest);
        assert rest[1..] == RenderBody(tail);
        if tail[0] == Empty {
          assert tail == [Empty];
        } else {
          BodyRoundTrip(tail);
        }
      }
    }
  }

  /** Parsing what was written gives the path back. */
  lemma RoundTrip(p: Path)
    requires WellFormed(p) && IsSpelled(p.body)
    ensures Parse(Render(p)) == p
  {
    BodyRoundTrip(p.body);
    var b := RenderBody(p.body);
    if p.rooted {
      assert Render(p)[1..] == b;
    } else {
      assert "" + b == b;
    }
  }

  lemma {:induction false} SkipOnlySeparators(t: string)
    ensures SkipSeparators(t + "/") == if SkipSeparators(t) == "" then "" else SkipSeparators(t) + "/"
  {
    if t == "" {
      assert SkipSeparators("/") == SkipSeparators("/"[1..]);
    } else if t[0] == SEPARATOR {
      SkipOnlySeparators(t[1..]);
      assert (t + "/")[1..] == t[1..] + "/";
    }
  }

  lemma AppendBehind(e: Elem, b: seq<Elem>)
    requires b != []
    ensures Append(Path(false, [e] + b), Empty).body == [e] + Append(Path(false, b), Empty).body
  {
    assert Last([e] + b) == Last(b);
    assert [e] + (b + [Empty]) == [e] + b + [Empty];
  }

  lemma {:induction false} BodyAddSeparator(t: string)
    requires t != "" && t[0] != SEPARATOR
    ensures BodyElements(t + "/") == Append(Path(false, BodyElements(t)), Empty).body
    decreases |t|
  {
    var n := Span(t);
    var name, rest := t[..n], t[n..];
    assert t == name + rest;
    BodyCons(name, rest);
    SkipOnlySeparators(rest);
    var after := SkipSeparators(rest);
    assert BodyElements(t + "/") ==
           [Classify(name)] + (if after == "" then [Empty] else BodyElements(after + "/")) by {
      assert t + "/" == name + (rest + "/");
      BodyCons(name, rest + "/");
    }
    if after != "" {
      BodyAddSeparator(after);
      BodyElementsShape(after);
      AppendBehind(Classify(name), BodyElements(after));
    } else {
      var e := Classify(name);
      assert [e] + [] == [e] && [e] + [Empty] == [e, Empty];
    }
  }

  /** Adding a separator to the text is adding one to the path. */
  lemma ParseAddSeparator(t: string)
    ensures Parse(t + "/") == AddSeparator(Parse(t))
  {
    if t == "" {
      assert SkipSeparators("/") == SkipSeparators("/"[1..]);
    } else if t[0] == SEPARATOR {
      SkipOnlySeparators(t);
      if SkipSeparators(t) != "" {
        BodyAddSeparator(SkipSeparators(t));
      }
    } else {
      BodyAddSeparator(t);
      BodyElementsShape(t);
    }
  }

  lemma BeginsLikeMount(name: string, behind: string)
    requires SEPARATOR !in name && (behind == "" || behind[0] == SEPARATOR)
    ensures MOUNT_POINT <= "/" + name + behind <==> MOUNT_NAME <= name
  {
    var text := "/" + name + behind;
    assert MOUNT_POINT == "/" + MOUNT_NAME && SEPARATOR !in MOUNT_NAME;
    if |name| >= |MOUNT_NAME| {
      var front := name[..|MOUNT_NAME|];
      assert text[..|MOUNT_POINT|] == "/" + front;
      assert ("/" + front)[1..] == front && MOUNT_POINT[1..] == MOUNT_NAME;
    } else {
      assert behind != "" ==> text[|name| + 1] == SEPARATOR;
      assert MOUNT_POINT[|name| + 1] == MOUNT_NAME[|name|];
    }
  }

  lemma RenderRoot(p: Path)
    requires p.rooted && p.body != []
    ensures Render(p) == "/" + Text(p.body[0]) + (if p.body[1..] == [] then "" else "/" + RenderBody(p.body[1..]))
  {
  }

  lemma SpelledSlash(c: Path, q: Path)
    requires IsSpelled(c.body) && IsSpelled(q.body) && WellFormed(q) && !q.rooted
    ensures IsSpelled(Slash(c, q).body)
  {
    if q.body == [] {
    } else {
      SlashIs(c, q);
    }
  }

  lemma {:induction false} SpelledSquash(es: seq<Elem>, rooted: bool)
    requires IsSpelled(es)
    ensures IsSpelled(Squash([], es, rooted))
    decreases |es|
  {
    if es == [] {
    } else {
      SpelledSquash(Front(es), rooted);
      assert Last(es) == es[|es| - 1];
    }
  }

  /** A normal path reads back from its text. */
  lemma NormalReadsBack(p: Path)
    requires IsSpelled(p.body)
    ensures IsSpelled(Normal(p).body) && Parse(Render(Normal(p))) == Normal(p)
  {
    if p != EMPTY_PATH {
      SpelledSquash(p.body, p.rooted);
      NormalFacts(p);
      RoundTrip(Normal(p));
    }
  }

  /** An absolute path, once normalised, is inside the memfs by its text if and only if its first name begins
      like the mount point's. */
  lemma TebakoNormal(p: Path)
    requires p.rooted && IsSpelled(p.body)
    ensures IsTebakoPath(Render(Normal(p))) <==> Kept(p) != [] && MOUNT_NAME <= Text(Kept(p)[0])
  {
    hide IsKept, Render;
    NothingKept(true);
    SquashKept([], p.body, true);
    SpelledSquash(p.body, true);
    var n, kept := Normal(p), Kept(p);
    if kept == [] {
      assert n == Path(true, []);
      assert Render(n) == "/" by { RootText(); }
    } else {
      KeptNames(kept);
      assert n.rooted && n.body != [] && n.body[0] == kept[0];
      RenderRoot(n);
      BeginsLikeMount(Text(kept[0]), if n.body[1..] == [] then "" else "/" + RenderBody(n.body[1..]));
    }
  }

  lemma RootText()
    ensures Render(Path(true, [])) == "/"
  {
  }

  lemma KeptNames(kept: seq<Elem>)
    requires IsKept(kept, true) && IsSpelled(kept)
    ensures forall i | 0 <= i < |kept| :: kept[i].Name? && SEPARATOR !in Text(kept[i])
  {
  }
}
