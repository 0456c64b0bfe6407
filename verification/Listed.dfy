/** What reading a directory lists is what lookups in it find. */
module Listed {
  import opened DirStream
  import opened DirTable
  import opened Paths
  import opened Resolver
  import opened ResolverRuns
  import opened Routing
  import opened Wrappers

  /** Looking up a name as it was listed, from the directory's own inode number and without entering a link, finds the
      inode number that was listed with it, and calls on that number are routed to the child. Nothing may be
      mounted on the name, and it must have been listed whole. */
  lemma ListedIsFound(w: World, k: nat, n: nat, i: nat)
    requires IsMounted(w) && k in w.images && n in w.images[k].nodes && w.images[k].nodes[n].Dir?
    requires i < |w.images[k].nodes[n].listing|
    requires var img := w.images[k];
             var e := img.nodes[n].listing[i];
             && e.name in img.nodes[n].children && img.nodes[n].children[e.name] == e.local && e.local in img.nodes
             && (img.root + n, e.name) !in w.mounts && |e.name| <= 4096
    ensures var ino := w.images[k].GetAttr(n).ino;
            && StartsOutsideLinks(w.images[k], ino)
            && var dir := ListingOf(w, ino);
               && dir.Some? && i < |dir.value.entries|
               && var d := DirentAt(dir.value, i);
                  var out := Meaning(w, k, ino, Path(false, [Name(d.name)]), false);
                  out.Found? && out.st.ino == d.ino && Reaches(w, out.st) && Owner(w, d.ino) == k
  {
    var img := w.images[k];
    var e, ino := img.nodes[n].listing[i], img.GetAttr(n).ino;
    hide ListingOf, Reaches, Owner, IsMounted;
    ListingIs(w, k, n);
    ListedReaches(w, k, n, i);
    LooksUp(w, k, n, e.name, e.local);
  }

  lemma LooksUp(w: World, k: nat, n: nat, name: string, child: nat)
    requires k in w.images && n in w.images[k].nodes && w.images[k].nodes[n].Dir?
    requires var img := w.images[k];
             && name in img.nodes[n].children && img.nodes[n].children[name] == child && child in img.nodes
             && (img.root + n, name) !in w.mounts
    ensures StartsOutsideLinks(w.images[k], w.images[k].root + n)
    ensures Meaning(w, k, w.images[k].root + n, Path(false, [Name(name)]), false) == Found(w.images[k].GetAttr(child))
  {
    hide Meaning, Resolve;
    var img, p := w.images[k], Path(false, [Name(name)]);
    var c := Place(k, n, [Name(name)], img.GetAttr(n));
    assert Components(p) == p.body && img.Find(img.root + n) == Some(n);
    assert Enter(w, k, img.root + n, p) == Go(c);
    assert [Name(name)][1..] == [];
    assert Step(w, c, false) == Go(Place(k, child, [], img.GetAttr(child)));
    FromPlace(w, k, img.root + n, p, c, false, 1);
    OneStep(w, c, false, 1);
    OneEnd(w, Step(w, c, false).to, false, 0);
    MeaningIs(w, k, img.root + n, p, false, 1);
  }
}
