/** From a path to the bytes of a file: the lookup, the open file it leads to, and reading from it. */
module OpenFile {
  import opened AbsoluteLinks
  import opened Dwarfs
  import opened FT = FileTable
  import opened Lookup
  import opened Resolver
  import opened ReturnCodes
  import opened Routing
  import opened Words
  import opened Wrappers

  /** What `open` is told by a lookup that has ended; `host` is what `stat` says of a place on the host. */
  function ReplyOf(r: Result, host: string -> Option<Stat>): StatReply {
    match r
    case Ok(st) => Attributes(st)
    case Outside(_) => OutsideLink
    case HostStat(lnk) => (match host(lnk) case Some(st) => Attributes(st) case None => NoSuchFile)
    case _ => NoSuchFile
  }

  /** Files are no longer than the offset type can tell. */
  ghost predicate HasSizedFiles(w: World) {
    && (forall k, n | k in w.images && n in w.images[k].nodes :: w.images[k].GetAttr(n).size <= INT64_MAX)
    && (forall ino: nat | FileOf(w, ino).Some? :: |FileOf(w, ino).value| <= INT64_MAX)
  }

  /** The attributes describe a file of the memfs. */
  predicate IsFileNode(w: World, s: Stat) {
    && Owner(w, s.ino) in w.images
    && var img := w.images[Owner(w, s.ino)];
       img.Find(s.ino).Some? && img.nodes[img.Find(s.ino).value].File? && img.GetAttr(img.Find(s.ino).value) == s
  }

  /** The bytes of that file. */
  function NodeBytes(w: World, s: Stat): seq<Byte>
    requires IsFileNode(w, s)
  {
    var img := w.images[Owner(w, s.ino)];
    img.nodes[img.Find(s.ino).value].data
  }

  /** The answer to a lookup of a file, through any links, describes an inode of the memfs that is that file;
      reads on its number are reads of its bytes, and their count is the size reported. */
  lemma FileAnswered(w: World, k: nat, start: nat, path: Paths.Path, follow: bool, s: Stat)
    requires IsMounted(w) && k in w.images && StartsOutsideLinks(w.images[k], start)
    requires EndsWith(w, k, start, path, follow, Ok(s)) && s.kind == Regular
    ensures IsFileNode(w, s) && FileOf(w, s.ino) == Some(NodeBytes(w, s)) && |NodeBytes(w, s)| == s.size
  {
    AnswersReach(w, k, start, path, follow, s);
    hide Owner, EndsWith;
  }

  lemma RootAnswered(w: World, text: string, follow: bool, limit: nat, s: Stat)
    requires IsMounted(w) && FindRoot(w, text, follow, limit) == Ok(s)
    ensures Reaches(w, s)
    ensures s.kind == Regular ==> IsFileNode(w, s) && FileOf(w, s.ino) == Some(NodeBytes(w, s))
  {
    hide FindAbs, Owner, IsMounted, PathText.Parse, BelowMountPoint;
    AnswerReaches(w, 0, w.images[0].root, PathText.Parse(BelowMountPoint(text)), follow, limit, s);
  }

  /** Open a path inside the memfs and read from its beginning. If the lookup ends within `limit` iterations
      with a file of the memfs, what is read is the beginning of the bytes of the very inode that the path
      resolves to. */
  method OpenAndRead(t: FT.FileTable, w: World, text: string, flags: Flags, host: string -> Option<Stat>,
                     n: nat, dupped: int, limit: nat)
    returns (vfd: int, ret: int, bytes: seq<Byte>)
    requires t.Valid() && IsMounted(w) && HasSizedFiles(w) && dupped >= 0 && dupped !in t.process
    requires forall l :: host(l).Some? ==> host(l).value.size <= INT64_MAX
    modifies t
    ensures t.Valid()
    ensures var r := FindRoot(w, text, !flags.noFollow, limit);
            && (r.Ok? && r.st.kind == Regular && !flags.write && !flags.directory ==>
                  && vfd == dupped && vfd in t.fds && IsFileNode(w, r.st)
                  && (|Slice(NodeBytes(w, r.st), 0, n)| <= INT32_MAX ==>
                        && bytes == Slice(NodeBytes(w, r.st), 0, n) && ret == |bytes|
                        && t.fds[vfd] == Fd(r.st, |bytes|, 0, vfd)))
            && (r.Ok? && r.st.kind == Regular && !flags.write && !flags.directory ==>
                  && IsFileNode(w, r.st)
                  && var k := Owner(w, r.st.ino);
                     var file := w.images[k].nodes[r.st.ino - w.images[k].root].data;
                     (if n < |file| then n else |file|) <= INT32_MAX ==>
                       && ret == |bytes| == (if n < |file| then n else |file|)
                       && forall i | 0 <= i < |bytes| :: bytes[i] == file[i])
            && (r.HostStat? && !flags.write && !flags.directory && host(r.lnk).Some? && host(r.lnk).value.kind != Symlink ==>
                  vfd == dupped && vfd in t.fds && t.fds[vfd].st == host(r.lnk).value)
            && (r.HostStat? && host(r.lnk).None? ==> vfd == IO_ERROR && t.fds == old(t.fds))
            && (r.Outside? ==> vfd == LINK_OUTSIDE && t.fds == old(t.fds))
            && (r.Missing? ==> vfd == IO_ERROR && t.fds == old(t.fds))
  {
    hide FindRoot, IsMounted, FileOf, Slice, Owner, InodeRead, FT.FileTable.Valid;
    vfd, ret, bytes := IO_ERROR, IO_ERROR, [];
    var r := FindInodeRoot(w, text, !flags.noFollow, limit);
    if r.Looping? {
      return;
    }
    if r.Ok? {
      RootAnswered(w, text, !flags.noFollow, limit, r.st);
    }
    var errno;
    vfd, errno := t.Open(ReplyOf(r, host), flags, dupped);
    if vfd >= 0 {
      ret, bytes := t.Read(w, vfd, n);
    }
  }
}
