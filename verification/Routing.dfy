/** Routing: an inode number that resolution returns leads later calls back to where it was found. */
module Routing {
  import opened Dwarfs
  import opened Inodes
  import opened PathText
  import opened Paths
  import opened Resolver
  import opened Wrappers

  /** Every image sits at an index that fits, has the root inode that goes with it, and numbers its
      inodes within the local bits. */
  ghost predicate IsMounted(w: World) {
    forall k | k in w.images ::
      && IndexFits(w.layout, k)
      && w.images[k].root == RootInode(w.layout, k)
      && forall n | n in w.images[k].nodes :: LocalFits(w.layout, n)
  }

  /** The image that later calls on this inode number are routed to. */
  function Owner(w: World, ino: nat): nat {
    FsIndex(w.layout, ino)
  }

  /** Later calls on the number in `st` reach an image, and what they find there is what `st` says. */
  ghost predicate Reaches(w: World, st: Stat) {
    && Owner(w, st.ino) in w.images
    && var img := w.images[Owner(w, st.ino)];
       img.Find(st.ino).Some? && img.GetAttr(img.Find(st.ino).value) == st
  }

  lemma GetAttrReaches(w: World, k: nat, n: nat)
    requires IsMounted(w) && k in w.images && n in w.images[k].nodes
    ensures Reaches(w, w.images[k].GetAttr(n)) && Owner(w, w.images[k].GetAttr(n).ino) == k
  {
    hide FsIndex, FsInoFromFsAndIno, RootInode, IndexFits, LocalFits, FsIno;
    var img := w.images[k];
    RootLeadsTo(w.layout, k, n);
    assert img.GetAttr(n).ino == RootInode(w.layout, k) + n;
    assert img.Find(img.root + n) == Some(n);
  }

  lemma RootLeadsTo(l: ValidLayout, k: nat, n: nat)
    requires IndexFits(l, k) && LocalFits(l, n)
    ensures FsIndex(l, RootInode(l, k) + n) == k
  {
    hide FsIndex, FsInoFromFsAndIno, RootInode, IndexFits, LocalFits, FsIno;
    WalkSumIsEncoded(l, k, n);
    DecodeEncode(l, k, n);
  }

  /** The attributes were read from some inode of some image. */
  ghost predicate IsAttr(w: World, st: Stat) {
    exists k, n :: IsAttrOf(w, st, k, n)
  }

  ghost predicate IsAttrOf(w: World, st: Stat, k: nat, n: nat) {
    k in w.images && n in w.images[k].nodes && st == w.images[k].GetAttr(n)
  }

  lemma StepAttr(w: World, c: Place, follow: bool)
    requires IsPlace(w, c) && IsAttr(w, c.st) && !AtEnd(c)
    ensures var next := Step(w, c, follow);
            && (next.Go? ==> IsAttr(w, next.to.st))
            && (next.Stop? && next.out.LinkAbsolute? ==> IsAttr(w, next.out.st))
  {
    var img := w.images[c.k];
    var child := img.Lookup(img.root + c.dir, Text(c.rest[0]));
    if child.Some? {
      assert IsAttrOf(w, img.GetAttr(child.value), c.k, child.value);
    }
    var next := Step(w, c, follow);
    if next.Go? && next.to.st == w.images[next.to.k].GetAttr(next.to.dir) {
      assert IsAttrOf(w, next.to.st, next.to.k, next.to.dir);
    }
  }

  lemma {:induction false} ResolveAttr(w: World, c: Place, follow: bool, n: nat)
    requires IsPlace(w, c) && IsAttr(w, c.st)
    ensures var out := Resolve(w, c, follow, n);
            out.Found? || out.LinkAbsolute? ==> IsAttr(w, out.st)
    decreases n
  {
    if AtEnd(c) || n == 0 {
    } else {
      StepAttr(w, c, follow);
      var next := Step(w, c, follow);
      if next.Go? {
        ResolveAttr(w, next.to, follow, n - 1);
      }
    }
  }

  /** Routing is sound: whatever image the walk ends in, the inode number it returns leads later
      calls to that image and to the very inode whose attributes were returned. */
  lemma RoutingSound(w: World, k: nat, start: nat, path: Path, follow: bool, n: nat)
    requires IsMounted(w) && k in w.images && StartsOutsideLinks(w.images[k], start)
    ensures var out := ResolveFrom(w, k, start, path, follow, n);
            out.Found? || out.LinkAbsolute? ==> Reaches(w, out.st)
  {
    hide Owner;
    var next := Enter(w, k, start, path);
    if next.Go? {
      assert IsAttrOf(w, next.to.st, k, next.to.dir);
      ResolveAttr(w, next.to, follow, n);
      forall st | IsAttr(w, st)
        ensures Reaches(w, st)
      {
        var i, m :| IsAttrOf(w, st, i, m);
        GetAttrReaches(w, i, m);
      }
    }
  }
}
