/** The working directory inside the memfs: how it moves and how paths are expanded against it. */
module WorkingDir {
  import opened Lookup
  import opened PathText
  import opened Paths
  import opened Words
  import opened Wrappers

  /** What `stat` says of a path that is to become the working directory. */
  datatype Reply = IsDirectory | IsOther | Fails

  /** `set_cwd` on a path. */
  function CwdFrom(text: string): Path {
    Normal(Parse(text + "/"))
  }

  /** `expand_path` */
  function Expanded(cwd: Path, text: string): string {
    Assigned(Render(Normal(Slash(cwd, Parse(text)))))
  }

  /** `to_tebako_path`: relative paths are expanded if there is a working directory; other paths are the
      library's business only if their text begins with the mount point. */
  function ToTebakoPath(cwd: Path, text: string): Option<string> {
    var p := Normal(Parse(text));
    if cwd != EMPTY_PATH && !p.rooted then Some(Expanded(cwd, Render(p)))
    else if IsTebakoPath(text) then Some(Assigned(Render(p)))
    else None
  }

  /** A working directory: none, or an absolute normal path. */
  predicate IsCwd(p: Path) {
    p == EMPTY_PATH || (p.rooted && IsNormal(p) && WellFormed(p) && IsSpelled(p.body))
  }

  class WorkingDirectory {
    var cwd: Path

    constructor ()
      ensures cwd == EMPTY_PATH
    {
      cwd := EMPTY_PATH;
    }

    /** `tebako_drop_cwd` */
    method Drop()
      modifies this
      ensures cwd == EMPTY_PATH
    {
      cwd := EMPTY_PATH;
    }

    /** `tebako_chdir`. The working directory is always none, or absolute and normal. */
    method Chdir(text: string, stat: string -> Reply, hostChdir: bool) returns (ok: bool)
      requires IsCwd(cwd)
      modifies this
      ensures IsCwd(cwd)
      ensures match ToTebakoPath(old(cwd), text)
              case Some(t) => ok == stat(t).IsDirectory? && cwd == (if ok then CwdFrom(t) else old(cwd))
              case None => ok == hostChdir && cwd == (if ok then EMPTY_PATH else old(cwd))
      ensures "/__tebako_memfs__" <= text && |Render(Normal(Parse(text)))| <= 4096 ==>
                && ok == stat(Render(Normal(Parse(text)))).IsDirectory?
                && cwd == (if ok then Normal(AddSeparator(Parse(text))) else old(cwd))
      ensures !("/" <= text) && old(cwd) != EMPTY_PATH && |Render(Normal(Slash(old(cwd), Parse(text))))| <= 4096 ==>
                && ok == stat(Render(Normal(Slash(old(cwd), Parse(text))))).IsDirectory?
                && cwd == (if ok then Normal(AddSeparator(Slash(old(cwd), Parse(text)))) else old(cwd))
      ensures !("/__tebako_memfs__" <= text) && ("/" <= text || old(cwd) == EMPTY_PATH) ==>
                ok == hostChdir && cwd == (if ok then EMPTY_PATH else old(cwd))
    {
      MoveIs(cwd, text);
      hide Parse, Render, Normal, AddSeparator, Slash, ToTebakoPath;
      var t := ToTebakoPath(cwd, text);
      match t {
        case Some(path) =>
          ok := stat(path).IsDirectory?;
          if ok {
            TebakoPathRooted(cwd, text);
            CwdFromIsCwd(path);
            cwd := CwdFrom(path);
          }
        case None =>
          ok := hostChdir;
          if ok {
            cwd := EMPTY_PATH;
          }
      }
    }

    /** Moves one after the other, up to the first that fails. If they are relative moves and all succeed, the
        working directory is that of one move along all of them: from normal(x/) it is normal(x/p1/.../pn/). */
    method ChdirAll(texts: seq<string>, stat: string -> Reply, hostChdir: bool) returns (ok: bool)
      requires IsCwd(cwd)
      modifies this
      ensures IsCwd(cwd)
      ensures ok && old(cwd) != EMPTY_PATH && AreMoves(old(cwd), texts) ==> cwd == MovedAll(old(cwd), texts)
      ensures forall x: Path ::
                ok && IsStart(x) && old(cwd) == Normal(AddSeparator(x)) && AreMoves(old(cwd), texts) ==>
                  cwd == Normal(AddSeparator(SlashAll(x, texts)))
    {
      hide IsCwd, AreMoves, MovedAll, ToTebakoPath, CwdFrom, SlashAll, Normal, Parse;
      ok := true;
      var i := 0;
      MovedNowhere(cwd);
      assert texts[..0] == [];
      while i < |texts|
        invariant 0 <= i <= |texts| && IsCwd(cwd) && ok
        invariant old(cwd) != EMPTY_PATH && AreMoves(old(cwd), texts) ==>
                    cwd != EMPTY_PATH && cwd == MovedAll(old(cwd), texts[..i])
      {
        ghost var before := cwd;
        ok := Chdir(texts[i], stat, hostChdir);
        if !ok {
          return;
        }
        if old(cwd) != EMPTY_PATH && AreMoves(old(cwd), texts) {
          MovedOneMore(old(cwd), texts, i);
        }
        i := i + 1;
      }
      assert texts[..i] == texts;
      forall x: Path | IsStart(x) && old(cwd) == Normal(AddSeparator(x)) && AreMoves(old(cwd), texts)
        ensures old(cwd) != EMPTY_PATH && MovedAll(old(cwd), texts) == Normal(AddSeparator(SlashAll(x, texts)))
      {
        NormalFacts(AddSeparator(x));
        MovesAdd(x, texts);
      }
    }
  }

  lemma CwdFromIsCwd(text: string)
    requires text != "" && text[0] == SEPARATOR
    ensures IsCwd(CwdFrom(text))
  {
    ParseShape(text + "/");
    var p := Parse(text + "/");
    NormalReadsBack(p);
    NormalIsNormal(p);
    NormalFacts(p);
  }

  lemma NormalText(p: Path)
    requires p.rooted
    ensures Assigned(Render(Normal(p))) != "" && Assigned(Render(Normal(p)))[0] == SEPARATOR
  {
    NormalFacts(p);
  }

  lemma TebakoPathRooted(cwd: Path, text: string)
    requires IsCwd(cwd) && ToTebakoPath(cwd, text).Some?
    ensures var t := ToTebakoPath(cwd, text).value;
            t != "" && t[0] == SEPARATOR
  {
    hide Render, Normal, Assigned;
    var p := Normal(Parse(text));
    if cwd != EMPTY_PATH && !p.rooted {
      var q := Parse(Render(p));
      if !q.rooted && q.body != [] {
        RootStays(cwd, q.body);
      }
      NormalText(Slash(cwd, q));
    } else {
      assert text[0] == MOUNT_POINT[0] == SEPARATOR;
      NormalText(Parse(text));
    }
  }

  // ---------- The algebra of moving about ----------

  /** Texts that the path buffer holds whole. */
  predicate IsShort(cwd: Path, text: string) {
    |Render(Normal(Slash(cwd, Parse(text))))| <= PATH_LENGTH
  }

  /** A relative path is expanded to normal(cwd/path), read back from its text. */
  lemma ExpandedIs(cwd: Path, text: string)
    requires IsCwd(cwd) && cwd != EMPTY_PATH && !Parse(text).rooted && IsShort(cwd, text)
    ensures var t := ToTebakoPath(cwd, text);
            t.Some? && Parse(t.value) == Normal(Slash(cwd, Parse(text)))
  {
    hide IsNormal;
    var q := Parse(text);
    ParseShape(text);
    NormalReadsBack(q);
    if q != EMPTY_PATH {
      NormalFacts(q);
    }
    NormalSlashRight(cwd, q);
    SpelledSlash(cwd, q);
    NormalReadsBack(Slash(cwd, q));
  }

  /** So a relative move takes the working directory from c to normal(c/path/). */
  lemma MovedTo(cwd: Path, text: string)
    requires IsCwd(cwd) && cwd != EMPTY_PATH && !Parse(text).rooted && IsShort(cwd, text)
    ensures var t := ToTebakoPath(cwd, text);
            t.Some? && CwdFrom(t.value) == Normal(AddSeparator(Slash(cwd, Parse(text))))
  {
    hide ToTebakoPath, Parse, Render, Normal, IsShort, IsNormal;
    ExpandedIs(cwd, text);
    var t := ToTebakoPath(cwd, text).value;
    var x := Slash(cwd, Parse(text));
    ParseAddSeparator(t);
    if !Parse(text).rooted && Parse(text).body != [] {
      RootStays(cwd, Parse(text).body);
    }
    NormalFacts(x);
    NormalSlashLeft(x, EMPTY_PATH);
  }

  /** An absolute text is the library's business if and only if it begins with the mount point, whatever the working
      directory is, and without one no relative text is. What is taken reads back as the normal form. */
  lemma TakenIff(cwd: Path, text: string)
    requires IsCwd(cwd)
    ensures "/" <= text ==>
              && (ToTebakoPath(cwd, text).Some? <==> "/__tebako_memfs__" <= text)
              && ToTebakoPath(cwd, text) == ToTebakoPath(EMPTY_PATH, text)
    ensures "/" <= text && ToTebakoPath(cwd, text).Some? && |Render(Normal(Parse(text)))| <= 4096 ==>
              && ToTebakoPath(cwd, text).value == Render(Normal(Parse(text)))
              && Parse(ToTebakoPath(cwd, text).value) == Normal(Parse(text))
    ensures !("/" <= text) ==> (ToTebakoPath(cwd, text).Some? <==> cwd != EMPTY_PATH)
  {
    var p := Parse(text);
    ParseShape(text);
    NormalReadsBack(p);
    hide Parse, Render;
    assert p.rooted <==> "/" <= text by { RootedText(text); }
    assert "/__tebako_memfs__" == MOUNT_POINT && MOUNT_POINT[0] == '/';
    if p != EMPTY_PATH {
      NormalFacts(p);
    }
  }

  lemma RootedText(text: string)
    ensures Parse(text).rooted <==> "/" <= text
  {
  }

  /** An absolute move into the memfs ends in normal(path/), wherever it starts. */
  lemma AbsoluteMove(cwd: Path, text: string)
    requires IsCwd(cwd) && "/__tebako_memfs__" <= text && |Render(Normal(Parse(text)))| <= 4096
    ensures var t := ToTebakoPath(cwd, text);
            t == Some(Render(Normal(Parse(text)))) && CwdFrom(t.value) == Normal(AddSeparator(Parse(text)))
  {
    hide ToTebakoPath, Parse, Render, Normal;
    assert "/" <= text by { assert "/__tebako_memfs__"[0] == text[0]; }
    TakenIff(cwd, text);
    RootedText(text);
    var t, p := ToTebakoPath(cwd, text).value, Parse(text);
    ParseAddSeparator(t);
    NormalFacts(p);
    NormalSlashLeft(p, EMPTY_PATH);
  }

  /** Where a move leads, and whether it is the library's. */
  lemma MoveIs(cwd: Path, text: string)
    requires IsCwd(cwd)
    ensures "/__tebako_memfs__" <= text && |Render(Normal(Parse(text)))| <= 4096 ==>
              var t := ToTebakoPath(cwd, text);
              t == Some(Render(Normal(Parse(text)))) && CwdFrom(t.value) == Normal(AddSeparator(Parse(text)))
    ensures !("/" <= text) && cwd != EMPTY_PATH && |Render(Normal(Slash(cwd, Parse(text))))| <= 4096 ==>
              var t, x := ToTebakoPath(cwd, text), Slash(cwd, Parse(text));
              t == Some(Render(Normal(x))) && CwdFrom(t.value) == Normal(AddSeparator(x))
    ensures !("/__tebako_memfs__" <= text) && ("/" <= text || cwd == EMPTY_PATH) ==> ToTebakoPath(cwd, text) == None
  {
    hide ToTebakoPath, Parse, Render, Normal, CwdFrom;
    TakenIff(cwd, text);
    RootedText(text);
    if "/__tebako_memfs__" <= text && |Render(Normal(Parse(text)))| <= 4096 {
      AbsoluteMove(cwd, text);
    }
    if !("/" <= text) && cwd != EMPTY_PATH && |Render(Normal(Slash(cwd, Parse(text))))| <= 4096 {
      ExpandsTo(cwd, text);
      MovedTo(cwd, text);
    }
  }

  /** c/p1/p2/... */
  function SlashAll(c: Path, texts: seq<string>): Path {
    if texts == [] then c else Slash(SlashAll(c, texts[..|texts| - 1]), Parse(texts[|texts| - 1]))
  }

  /** The working directory after relative moves from `c`, none of them failing. */
  function MovedAll(c: Path, texts: seq<string>): Path {
    if texts == [] then c
    else
      var cwd := MovedAll(c, texts[..|texts| - 1]);
      var t := ToTebakoPath(cwd, texts[|texts| - 1]);
      if t.Some? then CwdFrom(t.value) else cwd
  }

  /** Relative paths, and nothing on the way outgrows the path buffer. */
  predicate AreMoves(c: Path, texts: seq<string>) {
    texts != [] ==>
      && AreMoves(c, texts[..|texts| - 1])
      && !Parse(texts[|texts| - 1]).rooted
      && IsShort(MovedAll(c, texts[..|texts| - 1]), texts[|texts| - 1])
  }

  /** The path that a run of moves starts from. */
  predicate IsStart(x: Path) {
    x.rooted && WellFormed(x) && IsSpelled(x.body)
  }

  lemma MovedNowhere(c: Path)
    ensures MovedAll(c, []) == c && AreMoves(c, [])
  {
  }

  lemma {:induction false} MovesBefore(c: Path, texts: seq<string>, i: nat)
    requires AreMoves(c, texts) && i <= |texts|
    ensures AreMoves(c, texts[..i])
    decreases |texts|
  {
    if i == |texts| {
      assert texts[..i] == texts;
    } else {
      MovesBefore(c, texts[..|texts| - 1], i);
      assert texts[..|texts| - 1][..i] == texts[..i];
    }
  }

  lemma MovedOneMore(c: Path, texts: seq<string>, i: nat)
    requires AreMoves(c, texts) && i < |texts| && IsCwd(MovedAll(c, texts[..i])) && MovedAll(c, texts[..i]) != EMPTY_PATH
    ensures var t := ToTebakoPath(MovedAll(c, texts[..i]), texts[i]);
            && t.Some? && MovedAll(c, texts[..i + 1]) == CwdFrom(t.value) != EMPTY_PATH
  {
    hide Parse, Normal, IsShort, CwdFrom, IsCwd, ToTebakoPath;
    var more := texts[..i + 1];
    MovesBefore(c, texts, i + 1);
    assert more[..|more| - 1] == texts[..i] && more[|more| - 1] == texts[i];
    var cwd := MovedAll(c, texts[..i]);
    ParseShape(texts[i]);
    ExpandedIs(cwd, texts[i]);
    var t := ToTebakoPath(cwd, texts[i]).value;
    TebakoPathRooted(cwd, texts[i]);
    CwdFromRooted(t);
  }

  lemma CwdFromRooted(text: string)
    requires text != "" && text[0] == SEPARATOR
    ensures CwdFrom(text) != EMPTY_PATH
  {
    ParseShape(text + "/");
    NormalFacts(Parse(text + "/"));
  }

  lemma {:induction false} SlashAllRooted(c: Path, texts: seq<string>)
    requires c.rooted && WellFormed(c)
    ensures SlashAll(c, texts).rooted
    decreases |texts|
  {
    if texts == [] {
    } else {
      SlashAllRooted(c, texts[..|texts| - 1]);
      var p, q := SlashAll(c, texts[..|texts| - 1]), Parse(texts[|texts| - 1]);
      if !q.rooted && q.body != [] {
        RootStays(p, q.body);
      }
    }
  }

  /** Moving on from normal(x/) is moving on from x. */
  lemma MoveOn(x: Path, q: Path)
    requires x.rooted && WellFormed(q) && !q.rooted
    ensures Normal(AddSeparator(Slash(Normal(AddSeparator(x)), q))) == Normal(AddSeparator(Slash(x, q)))
  {
    hide Normal;
    var a := AddSeparator(x);
    var y, z := Slash(Normal(a), q), Slash(x, q);
    NormalFacts(a);
    assert Slash(a, q) == z by {
      if q.body != [] {
        SlashIs(a, q);
        SlashIs(x, q);
      }
    }
    NormalSlashLeft(a, q);
    if q.body != [] {
      RootStays(Normal(a), q.body);
      RootStays(x, q.body);
    }
    NormalSlashLeft(y, EMPTY_PATH);
    NormalSlashLeft(z, EMPTY_PATH);
  }

  /** After any successful run of relative moves p1, ..., pn from c/ the working directory is
      normal(c/p1/.../pn/): moving step by step, through texts that are written and read back each time,
      is one normalisation of the whole path. */
  lemma {:induction false} MovesAdd(x: Path, texts: seq<string>)
    requires x.rooted && WellFormed(x) && IsSpelled(x.body)
    requires AreMoves(Normal(AddSeparator(x)), texts)
    ensures MovedAll(Normal(AddSeparator(x)), texts) == Normal(AddSeparator(SlashAll(x, texts)))
    ensures IsCwd(MovedAll(Normal(AddSeparator(x)), texts))
    decreases |texts|
  {
    hide Normal, IsNormal, IsShort, ToTebakoPath, CwdFrom, Parse;
    var c := Normal(AddSeparator(x));
    if texts == [] {
      CwdNormal(x);
    } else {
      var before, text := texts[..|texts| - 1], texts[|texts| - 1];
      MovesAdd(x, before);
      SlashAllRooted(x, before);
      var cwd, y := MovedAll(c, before), SlashAll(x, before);
      ParseShape(text);
      NormalFacts(AddSeparator(y));
      MovedTo(cwd, text);
      MoveOn(y, Parse(text));
      TebakoPathRooted(cwd, text);
      CwdFromIsCwd(ToTebakoPath(cwd, text).value);
    }
  }

  lemma CwdNormal(x: Path)
    requires x.rooted && WellFormed(x) && IsSpelled(x.body)
    ensures IsCwd(Normal(AddSeparator(x)))
  {
    var a := AddSeparator(x);
    NormalIsNormal(a);
    NormalFacts(a);
    NormalReadsBack(a);
  }

  // ---------- Leaving the memfs ----------

  /** The number of parent steps in what normalisation keeps of a relative path; they come first. */
  function Ups(kept: seq<Elem>): (r: nat)
    ensures r <= |kept|
  {
    if kept == [] then 0 else if Last(kept) == DotDot then |kept| else Ups(Front(kept))
  }

  lemma {:induction false} UpsComeFirst(kept: seq<Elem>)
    requires IsKept(kept, false)
    ensures forall i | 0 <= i < Ups(kept) :: kept[i] == DotDot
    ensures forall i | Ups(kept) <= i < |kept| :: kept[i].Name?
    decreases |kept|
  {
    if kept == [] {
    } else if Last(kept) != DotDot {
      KeptFront(kept, false);
      UpsComeFirst(Front(kept));
    }
  }

  /** Where a relative path leads from the directory with the names `s`: its parent steps take as many names
      away as there are, then its own names are added. */
  lemma {:induction false} SquashMoves(s: seq<Elem>, kept: seq<Elem>)
    requires IsKept(s, true) && IsKept(kept, false)
    ensures Squash(s, kept, true) == s[..Max(0, |s| - Ups(kept))] + kept[Ups(kept)..]
    decreases |kept|
  {
    hide IsKept, Squash, Push;
    if kept == [] {
      assert s[..|s|] == s && Squash(s, [], true) == s by { SquashNothing(s); }
    } else {
      KeptFront(kept, false);
      var front := Front(kept);
      SquashMoves(s, front);
      assert kept == front + [Last(kept)];
      SquashLast(s, front, Last(kept), true);
      if Last(kept) == DotDot {
        UpsOfParents(front);
        OneUp(s, |front|);
      } else {
        OneName(s[..Max(0, |s| - Ups(front))], front, Last(kept), Ups(front));
      }
    }
  }

  lemma UpsOfParents(front: seq<Elem>)
    requires front != [] ==> Last(front) == DotDot
    ensures Ups(front) == |front| && front[|front|..] == []
  {
  }

  lemma OneName(t: seq<Elem>, front: seq<Elem>, e: Elem, n: nat)
    requires e.Name? && n <= |front|
    ensures Push(t + front[n..], e, true) == t + (front + [e])[n..]
  {
    assert (front + [e])[n..] == front[n..] + [e];
    assert t + front[n..] + [e] == t + (front[n..] + [e]);
  }

  lemma SquashNothing(s: seq<Elem>)
    ensures Squash(s, [], true) == s
  {
  }

  lemma OneUp(s: seq<Elem>, n: nat)
    requires IsKept(s, true)
    ensures Push(s[..Max(0, |s| - n)] + [], DotDot, true) == s[..Max(0, |s| - (n + 1))]
    ensures s[..Max(0, |s| - (n + 1))] == s[..Max(0, |s| - (n + 1))] + []
  {
    hide IsKept;
    var t := s[..Max(0, |s| - n)];
    assert t + [] == t;
    if t != [] {
      NamesOnly(s, |t| - 1);
      assert Front(t) == s[..|t| - 1];
    }
  }

  lemma NamesOnly(s: seq<Elem>, i: nat)
    requires IsKept(s, true) && i < |s|
    ensures s[i].Name?
  {
  }

  /** What a relative path is expanded to, without regard to the size of the path buffer. */
  lemma ExpandsTo(cwd: Path, text: string)
    requires IsCwd(cwd) && cwd != EMPTY_PATH && !Parse(text).rooted
    ensures var x := Slash(cwd, Parse(text));
            && ToTebakoPath(cwd, text) == Some(Assigned(Render(Normal(x))))
            && x.rooted && IsSpelled(x.body)
  {
    hide IsNormal;
    var q := Parse(text);
    ParseShape(text);
    NormalReadsBack(q);
    if q != EMPTY_PATH {
      NormalFacts(q);
    }
    NormalSlashRight(cwd, q);
    SpelledSlash(cwd, q);
    if q.body != [] {
      RootStays(cwd, q.body);
    }
  }

  lemma KeptBelow(cwd: Path, q: Path)
    requires cwd.rooted && WellFormed(q) && !q.rooted
    ensures Kept(Slash(cwd, q)) == Squash(Kept(cwd), Kept(q), true)
  {
    hide IsKept;
    NothingKept(true);
    SquashKept([], cwd.body, true);
    SquashAgain(Kept(cwd), q.body, true);
    if q.body == [] {
      SeparatorFacts(cwd);
    } else {
      SlashFacts(cwd, q);
    }
  }

  /** A relative move from a working directory inside the memfs leads outside if and only if the parent steps
      of the path reach above the directory's first name and no name that begins like the mount point's
      follows them; and so it is with the working directory after the move. */
  lemma LeavesIff(cwd: Path, text: string)
    requires IsCwd(cwd) && cwd != EMPTY_PATH && IsTebakoPath(Render(cwd)) && !Parse(text).rooted
    ensures var t := ToTebakoPath(cwd, text);
            var kept := Kept(Parse(text));
            && t.Some?
            && (!IsTebakoPath(t.value) <==>
                  Ups(kept) >= |Kept(cwd)| && !(Ups(kept) < |kept| && MOUNT_NAME <= Text(kept[Ups(kept)])))
            && (IsShort(cwd, text) ==> (IsTebakoPath(Render(CwdFrom(t.value))) <==> IsTebakoPath(t.value)))
  {
    hide Parse, Render, Normal, IsTebakoPath, IsNormal, IsKept, Squash, ToTebakoPath, Assigned, IsShort, CwdFrom;
    var q, x := Parse(text), Slash(cwd, Parse(text));
    ParseShape(text);
    ExpandsTo(cwd, text);
    NormalFixed(cwd);
    TebakoNormal(cwd);
    TebakoNormal(x);
    AssignedTebako(Render(Normal(x)));
    KeptBelow(cwd, q);
    NothingKept(true);
    NothingKept(false);
    SquashKept([], cwd.body, true);
    SquashKept([], q.body, false);
    SquashMoves(Kept(cwd), Kept(q));
    if IsShort(cwd, text) {
      MovedTo(cwd, text);
      SeparatorFacts(x);
      SpelledSeparator(x);
      TebakoNormal(Append(x, Empty));
    }
  }

  lemma SpelledSeparator(x: Path)
    requires IsSpelled(x.body)
    ensures IsSpelled(Append(x, Empty).body)
  {
  }

  lemma AssignedTebako(text: string)
    ensures IsTebakoPath(Assigned(text)) <==> IsTebakoPath(text)
  {
    if |text| > PATH_LENGTH {
      assert Assigned(text)[..|MOUNT_POINT|] == text[..|MOUNT_POINT|];
    }
  }

  /** So it is in particular with the parent of the mount point: from the mount point a move to the parent, if
      the host has such a directory, leads to the host's root, and later relative paths are expanded there. */
  lemma ParentOfMountPoint()
    ensures var cwd := Path(true, [Name("__tebako_memfs__"), Empty]);
            && ToTebakoPath(cwd, "..") == Some("/")
            && CwdFrom("/") == Path(true, []) != EMPTY_PATH
            && !IsTebakoPath("/")
  {
    hide Parse, Render, Normal, IsSpelled;
    var cwd, up, root := Path(true, [Name("__tebako_memfs__"), Empty]), Path(false, [DotDot]), Path(true, []);
    ReadsAs(up, "..");
    ReadsAs(root, "/");
    ParseAddSeparator("/");
    assert "/" + "/" == "//";
    NormalFixed(up);
    NormalFixed(root);
    assert Slash(cwd, up) == Path(true, [Name("__tebako_memfs__"), DotDot]);
    assert Normal(Slash(cwd, up)) == root by {
      UpFromName("__tebako_memfs__");
    }
  }

  lemma ReadsAs(p: Path, text: string)
    requires (p == Path(false, [DotDot]) && text == "..") || (p == Path(true, []) && text == "/")
    ensures Render(p) == text && Parse(text) == p
  {
    assert Render(p) == text;
    RoundTrip(p);
  }

  lemma UpFromName(name: string)
    ensures Normal(Path(true, [Name(name), DotDot])) == Path(true, [])
  {
    assert Front([Name(name), DotDot]) == [Name(name)];
    assert Front([Name(name)]) == [];
    assert Squash([], [Name(name)], true) == [Name(name)];
  }
}
