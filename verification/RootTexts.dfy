/** The texts that reach `find_inode_root`: it never reads their first 17 characters, nor the one behind them. */
module RootTexts {
  import opened Composition
  import opened Lookup
  import opened Paths
  import opened PathText
  import opened Resolver
  import opened SingleNames
  import opened WorkingDir
  import opened Wrappers

  /** The text is the mount point, or goes on behind it with a separator. */
  predicate IsInsideText(text: string) {
    MOUNT_POINT <= text && (|text| == MOUNT_POINT_LENGTH || text[MOUNT_POINT_LENGTH] == SEPARATOR)
  }

  /** Whatever stands in front, a text is looked up as if it were the mount point and a separator. */
  lemma FrontUnread(w: World, text: string, follow: bool, n: nat)
    ensures |text| == MOUNT_POINT_LENGTH ==> FindRoot(w, text, follow, n) == FindRoot(w, MOUNT_POINT, follow, n)
    ensures |text| > MOUNT_POINT_LENGTH ==>
              FindRoot(w, text, follow, n) == FindRoot(w, MOUNT_POINT + "/" + text[MOUNT_POINT_LENGTH + 1..], follow, n)
  {
    hide FindAbs, Parse;
    if |text| == MOUNT_POINT_LENGTH {
      assert BelowMountPoint(text) == BelowMountPoint(MOUNT_POINT);
    } else if |text| > MOUNT_POINT_LENGTH {
      var rest := text[MOUNT_POINT_LENGTH + 1..];
      BelowMountText(MOUNT_POINT + "/" + rest, rest) by {
        assert MOUNT_POINT + "/" + rest == MOUNT_POINT + ("/" + rest);
      }
      assert |MOUNT_POINT + "/" + rest| == MOUNT_POINT_LENGTH + 1 + |rest|;
    }
  }

  lemma SameNameText(name: string, behind: string)
    requires SEPARATOR !in name && (behind == "" || behind[0] == SEPARATOR)
    ensures IsInsideText("/" + name + behind) <==> name == MOUNT_NAME
  {
    var text := "/" + name + behind;
    BeginsLikeMount(name, behind);
    assert |MOUNT_NAME| + 1 == MOUNT_POINT_LENGTH && MOUNT_POINT == "/" + MOUNT_NAME;
    if MOUNT_NAME <= name {
      assert |name| > |MOUNT_NAME| ==> text[MOUNT_POINT_LENGTH] == name[|MOUNT_NAME|];
      assert |name| == |MOUNT_NAME| ==> name == MOUNT_NAME;
      assert |name| == |MOUNT_NAME| && behind != "" ==> text[MOUNT_POINT_LENGTH] == behind[0];
    }
  }

  /** The text of an absolute path without dots is looked up as what it names if and only if it is the mount point or
      goes on behind it with a separator. Then the path looked up is what is behind the mount point; any other
      text of 17 characters or more is looked up from the root image as well, though it names something else. */
  lemma LookedUpAsNamedIff(w: World, p: Path, follow: bool, n: nat)
    requires p.rooted && WellFormed(p) && IsSpelled(p.body) && NoDots(p.body)
    ensures IsInsideText(Render(p)) <==> IsBelowMount(p)
    ensures IsBelowMount(p) && 0 in w.images ==>
              FindRoot(w, Render(p), follow, n) == FindAbs(w, 0, w.images[0].root, Inside(p), follow, n)
    ensures |Render(p)| >= MOUNT_POINT_LENGTH && 0 in w.images ==>
              FindRoot(w, Render(p), follow, n) ==
              FindAbs(w, 0, w.images[0].root, Parse(BelowMountPoint(Render(p))), follow, n)
  {
    hide FindAbs, Parse, Inside;
    if p.body == [] {
      RootText();
      assert !IsInsideText("/");
    } else {
      RenderRoot(p);
      hide Render;
      assert p.body[0] == Name(Text(p.body[0]));
      SameNameText(Text(p.body[0]), if p.body[1..] == [] then "" else "/" + RenderBody(p.body[1..]));
      if IsBelowMount(p) {
        InsideText(p);
      }
    }
  }

  // ---------- A witness ----------

  /** Out of the mount point to its parent, and from there to `f` in `a`. */
  function Detour(a: string, f: string): Path {
    Path(true, [Name(MOUNT_NAME), DotDot, Name(a), Name(f)])
  }

  function Outer(a: string, f: string): Path {
    Path(true, [Name(a), Name(f)])
  }

  lemma UpAgain(m: string)
    ensures Squash([], [Name(m), DotDot], true) == []
  {
    SquashLast([], [], Name(m), true);
    SquashLast([], [Name(m)], DotDot, true);
    assert [] + [Name(m)] == [Name(m)] && [Name(m)] + [DotDot] == [Name(m), DotDot];
    assert Front([Name(m)]) == [];
  }

  lemma DetourNormal(a: string, f: string)
    ensures Normal(Detour(a, f)) == Outer(a, f)
  {
    hide Squash;
    var there, back := [Name(MOUNT_NAME), DotDot], [Name(a), Name(f)];
    assert Detour(a, f).body == there + back;
    SquashConcat([], there, back, true);
    UpAgain(MOUNT_NAME);
    SquashFixed(back, true);
    assert Last(Detour(a, f).body) == Name(f);
  }

  lemma OuterText(a: string, f: string)
    requires IsFileName(a) && IsFileName(f) && |a| == |MOUNT_NAME|
    ensures Render(Outer(a, f)) == "/" + a + ("/" + f)
    ensures |Render(Outer(a, f))| > MOUNT_POINT_LENGTH && Render(Outer(a, f))[MOUNT_POINT_LENGTH + 1..] == f
  {
    var o := Outer(a, f);
    assert o.body[1..] == [Name(f)] && RenderBody([Name(f)]) == f;
    assert Render(o) == "/" + (a + "/" + f);
    assert "/" + (a + "/" + f) == "/" + a + ("/" + f);
  }

  /** Outside the memfs a text that begins with the mount point is taken for one inside, normalised, and looked
      up: for any name `a` as long as the mount point's, mount point/../a/f is looked up as f in the root image. */
  lemma DetourFinds(w: World, a: string, f: string, follow: bool, n: nat)
    requires IsShortName(a) && IsShortName(f) && |a| == |MOUNT_NAME| && a != MOUNT_NAME && 0 in w.images
    ensures var t := ToTebakoPath(EMPTY_PATH, Render(Detour(a, f)));
            && t == Some(Render(Outer(a, f))) && !IsTebakoPath(t.value) && !IsBelowMount(Parse(t.value))
            && FindRoot(w, t.value, follow, n) == FindAbs(w, 0, w.images[0].root, One(f), follow, n)
  {
    DetourGoesOn(a, f);
    OuterText(a, f);
    NameReads(f);
    hide ToTebakoPath, Parse, Render, FindAbs, IsTebakoPath, IsBelowMount;
  }

  lemma DetourGoesOn(a: string, f: string)
    requires IsShortName(a) && IsShortName(f) && |a| == |MOUNT_NAME| && a != MOUNT_NAME
    ensures ToTebakoPath(EMPTY_PATH, Render(Detour(a, f))) == Some(Render(Outer(a, f)))
    ensures !IsTebakoPath(Render(Outer(a, f))) && !IsBelowMount(Parse(Render(Outer(a, f))))
  {
    hide Parse, Normal, Render, Detour, Outer;
    OuterText(a, f);
    OuterReads(a, f);
    DetourNormal(a, f);
    DetourText(a, f);
    BeginsLikeMount(a, "/" + f);
  }

  lemma OuterReads(a: string, f: string)
    requires IsFileName(a) && IsFileName(f) && a != MOUNT_NAME
    ensures Parse(Render(Outer(a, f))) == Outer(a, f) && !IsBelowMount(Outer(a, f))
  {
    RoundTrip(Outer(a, f));
  }

  lemma DetourText(a: string, f: string)
    requires IsFileName(a) && IsFileName(f)
    ensures Parse(Render(Detour(a, f))) == Detour(a, f) && IsTebakoPath(Render(Detour(a, f)))
  {
    MountNameIsName();
    hide Parse, Render;
    var p := Detour(a, f);
    RoundTrip(p);
    RenderRoot(p);
    BeginsLikeMount(MOUNT_NAME, "/" + RenderBody(p.body[1..]));
  }

  lemma NameReads(f: string)
    requires IsFileName(f)
    ensures Parse(f) == One(f)
  {
    RoundTrip(One(f));
    assert Render(One(f)) == f by {
      assert "" + f == f;
    }
  }
}
