/** The table of open directories over the table of open files; scanning a directory; whole runs of the library. */
module DirTable {
  import opened DirStream
  import opened Dwarfs
  import FT = FileTable
  import opened Kernel
  import opened ReturnCodes
  import opened Resolver
  import opened Routing
  import opened Words
  import opened Wrappers

  /** The listing of the directory that an inode number leads to. */
  function ListingOf(w: World, ino: nat): Option<Listing> {
    var k := Owner(w, ino);
    if k !in w.images then None
    else
      var img := w.images[k];
      var n := img.Find(ino);
      if n.Some? && img.nodes[n.value].Dir? then Some(Listing(img.root, img.nodes[n.value].listing)) else None
  }

  /** The number of every inode of a mounted image leads to its own listing, if it is a directory. */
  lemma ListingIs(w: World, k: nat, n: nat)
    requires IsMounted(w) && k in w.images && n in w.images[k].nodes
    ensures var img := w.images[k];
            ListingOf(w, img.GetAttr(n).ino) ==
            if img.nodes[n].Dir? then Some(Listing(img.root, img.nodes[n].listing)) else None
  {
    hide Owner, IsMounted;
    GetAttrReaches(w, k, n);
  }

  /** The number listed for an entry is that of the child: later calls on it are routed to the child. */
  lemma ListedReaches(w: World, k: nat, n: nat, i: nat)
    requires IsMounted(w) && k in w.images && n in w.images[k].nodes && w.images[k].nodes[n].Dir?
    requires i < |w.images[k].nodes[n].listing| && w.images[k].nodes[n].listing[i].local in w.images[k].nodes
    ensures var img := w.images[k];
            var dir := ListingOf(w, img.GetAttr(n).ino);
            && dir.Some? && i < |dir.value.entries|
            && var child := img.GetAttr(img.nodes[n].listing[i].local);
               child.ino == DirentAt(dir.value, i).ino && Reaches(w, child) && Owner(w, child.ino) == k
  {
    hide Owner, IsMounted, ListingOf, Reaches;
    ListingIs(w, k, n);
    GetAttrReaches(w, k, w.images[k].nodes[n].listing[i].local);
  }

  /** Directories have at most INT_MAX entries: `load_cache` takes the start of the window as an `int`. */
  ghost predicate HasSmallDirs(w: World) {
    forall ino: nat | ListingOf(w, ino).Some? :: |ListingOf(w, ino).value.entries| <= INT32_MAX
  }

  lemma SmallDirs(w: World)
    requires HasSmallDirs(w)
    ensures forall ino: nat | ListingOf(w, ino).Some? :: |ListingOf(w, ino).value.entries| <= INT32_MAX
  {
  }

  function Filter(es: seq<Dirent>, sel: Dirent -> bool): seq<Dirent> {
    if es == [] then []
    else Filter(es[..|es| - 1], sel) + (if sel(es[|es| - 1]) then [es[|es| - 1]] else [])
  }

  lemma {:induction false} FilterLength(es: seq<Dirent>, sel: Dirent -> bool)
    ensures |Filter(es, sel)| <= |es|
  {
    if es == [] {
    } else {
      FilterLength(es[..|es| - 1], sel);
    }
  }

  lemma FilterNext(dir: Listing, n: nat, sel: Dirent -> bool)
    requires n < |dir.entries|
    ensures Filter(AllEntries(dir, n + 1), sel) ==
            Filter(AllEntries(dir, n), sel) + (if sel(DirentAt(dir, n)) then [DirentAt(dir, n)] else [])
    ensures |Filter(AllEntries(dir, n), sel)| <= n
  {
    var es := AllEntries(dir, n + 1);
    assert es[..|es| - 1] == AllEntries(dir, n);
    FilterLength(AllEntries(dir, n), sel);
  }

  /** What is collected: entries that `sel` accepts and no others, all of them, and in the order of the listing. */
  lemma {:induction false} FilterIs(dir: Listing, n: nat, sel: Dirent -> bool)
    requires n <= |dir.entries|
    ensures var list := Filter(AllEntries(dir, n), sel);
            && (forall j | 0 <= j < |list| :: sel(list[j]) && 0 <= list[j].off < n && list[j] == DirentAt(dir, list[j].off))
            && (forall i, j | 0 <= i < j < |list| :: list[i].off < list[j].off)
            && (forall i | 0 <= i < n :: sel(DirentAt(dir, i)) ==> DirentAt(dir, i) in list)
  {
    hide Filter, AllEntries;
    if n == 0 {
      NoEntries(dir, sel);
    } else {
      FilterIs(dir, n - 1, sel);
      FilterNext(dir, n - 1, sel);
    }
  }

  /** The same, spelled out. */
  lemma ListIs(dir: Listing, sel: Dirent -> bool, list: seq<Dirent>)
    requires list == Filter(AllEntries(dir, |dir.entries|), sel)
    ensures forall j | 0 <= j < |list| ::
              && sel(list[j]) && 0 <= list[j].off < |dir.entries|
              && list[j].ino == dir.root + dir.entries[list[j].off].local
              && list[j].name == (var t := dir.entries[list[j].off].name; if |t| <= 4096 then t else t[..4096])
    ensures forall i, j | 0 <= i < j < |list| :: list[i].off < list[j].off
    ensures forall i | 0 <= i < |dir.entries| ::
              var t := dir.entries[i].name;
              var e := Dirent(dir.root + dir.entries[i].local, i, if |t| <= 4096 then t else t[..4096]);
              sel(e) ==> exists j | 0 <= j < |list| :: list[j].off == i
  {
    hide Filter, AllEntries;
    FilterIs(dir, |dir.entries|, sel);
    forall i | 0 <= i < |dir.entries|
      ensures var t := dir.entries[i].name;
              var e := Dirent(dir.root + dir.entries[i].local, i, if |t| <= 4096 then t else t[..4096]);
              sel(e) ==> exists j | 0 <= j < |list| :: list[j].off == i
    {
      if DirentAt(dir, i) in list {
        var j :| 0 <= j < |list| && list[j] == DirentAt(dir, i);
        assert list[j].off == i;
      }
    }
  }

  /** The number of windows it takes to see `n` entries one after the other. */
  function Windows(n: nat): nat {
    (n + WINDOW - 1) / WINDOW
  }

  lemma NoEntries(dir: Listing, sel: Dirent -> bool)
    ensures Filter(AllEntries(dir, 0), sel) == [] && Windows(0) == 0
  {
  }

  /** A new window is needed exactly at the multiples of its size. */
  lemma WindowsNext(p: nat)
    ensures Windows(p + 1) == Windows(p) + (if p % WINDOW == 0 then 1 else 0)
    ensures WINDOW * (Windows(p) - 1) < p <= WINDOW * Windows(p)
    ensures p % WINDOW == 0 <==> p == WINDOW * Windows(p)
    ensures p > 0 <==> Windows(p) > 0
  {
  }

  // ---------- The plain lists with a cursor each ----------

  /** An open directory as its user sees it. */
  datatype Handle = Handle(vfd: int, dir: Listing, pos: int)

  datatype Table = Table(handles: map<nat, Handle>, fds: map<int, FT.Fd>)

  /** A call on the table; `address` is where a new stream will be allocated. */
  datatype DirCall =
    | OpenDir(vfd: int, address: nat)
    | ReadDir(dirp: nat)
    | SeekDir(dirp: nat, pos: int)
    | TellDir(dirp: nat)
    | CloseDir(dirp: nat)

  datatype DirAnswer = Opened(dirp: nat, size: nat) | NotOpened | Gave(answer: Answer) | NoStream | ClosedWith(ret: int)

  /** What a descriptor's window is loaded from. */
  function SourceOf(w: World, fds: map<int, FT.Fd>, vfd: int): Source {
    if vfd !in fds then NoDescriptor
    else
      match ListingOf(w, fds[vfd].st.ino)
      case None => NoDirectory
      case Some(dir) => Entries(dir)
  }

  /** The answer to a call, and the table after it. */
  function Answered(w: World, t: Table, call: DirCall): (DirAnswer, Table) {
    match call
    case OpenDir(vfd, address) =>
      (match SourceOf(w, t.fds, vfd)
       case Entries(dir) => (Opened(address, |dir.entries|), t.(handles := t.handles[address := Handle(vfd, dir, 0)]))
       case _ => (NotOpened, t))
    case CloseDir(dirp) =>
      if dirp !in t.handles then (ClosedWith(INVALID_FD), t)
      else
        var vfd := t.handles[dirp].vfd;
        (ClosedWith(if vfd in t.fds then IO_CONTINUE else INVALID_FD), Table(t.handles - {dirp}, t.fds - {vfd}))
    case _ =>
      if call.dirp !in t.handles then (NoStream, t)
      else
        var h := t.handles[call.dirp];
        var (answer, pos) := Cursor(h.dir, h.pos, OpOf(call));
        (Gave(answer), t.(handles := t.handles[call.dirp := h.(pos := pos)]))
  }

  function OpOf(call: DirCall): Op
    requires call.ReadDir? || call.SeekDir? || call.TellDir?
  {
    match call
    case ReadDir(_) => Read
    case SeekDir(_, pos) => Seek(pos)
    case TellDir(_) => Tell
  }

  function AnsweredAll(w: World, t: Table, calls: seq<DirCall>): (seq<DirAnswer>, Table)
    decreases |calls|
  {
    if calls == [] then ([], t)
    else
      var (answer, t') := Answered(w, t, calls[0]);
      var (answers, t'') := AnsweredAll(w, t', calls[1..]);
      ([answer] + answers, t'')
  }

  /** Every call of a run is answered from the table as it is then. */
  lemma {:induction false} AnsweredAt(w: World, t: Table, calls: seq<DirCall>, i: nat)
    requires i < |calls|
    ensures |AnsweredAll(w, t, calls).0| == |calls|
    ensures AnsweredAll(w, t, calls).0[i] == Answered(w, AnsweredAll(w, t, calls[..i]).1, calls[i]).0
    decreases |calls|
  {
    hide Answered;
    var t', rest := Answered(w, t, calls[0]).1, calls[1..];
    if i == 0 {
      if rest != [] {
        AnsweredAt(w, t', rest, 0);
      }
    } else {
      AnsweredAt(w, t', rest, i - 1);
      assert calls[..i][0] == calls[0] && calls[..i][1..] == rest[..i - 1];
    }
  }

  /** Whatever else is called in between, an entry read from a stream is the one under that stream's cursor. */
  lemma ListedByCalls(w: World, t: Table, calls: seq<DirCall>)
    ensures var answers := AnsweredAll(w, t, calls).0;
            && |answers| == |calls|
            && forall i | 0 <= i < |calls| && answers[i].Gave? && answers[i].answer.Listed? ::
                 var e, before := answers[i].answer.e, AnsweredAll(w, t, calls[..i]).1;
                 && calls[i].ReadDir? && calls[i].dirp in before.handles
                 && var h := before.handles[calls[i].dirp];
                    && e.off == h.pos && 0 <= h.pos < |h.dir.entries| && e.ino == h.dir.root + h.dir.entries[h.pos].local
                    && e.name == (var name := h.dir.entries[h.pos].name; if |name| <= 4096 then name else name[..4096])
  {
    hide AnsweredAll, DirentAt;
    if calls == [] {
      assert AnsweredAll(w, t, calls) == ([], t) by { NoCalls(w, t); }
    } else {
      AnsweredAt(w, t, calls, 0);
      forall i | 0 <= i < |calls| && AnsweredAll(w, t, calls).0[i].Gave? && AnsweredAll(w, t, calls).0[i].answer.Listed?
        ensures ListedFrom(AnsweredAll(w, t, calls[..i]).1, calls[i], AnsweredAll(w, t, calls).0[i].answer.e)
      {
        AnsweredAt(w, t, calls, i);
        ListedOne(w, AnsweredAll(w, t, calls[..i]).1, calls[i]);
      }
    }
  }

  predicate ListedFrom(t: Table, call: DirCall, e: Dirent) {
    && call.ReadDir? && call.dirp in t.handles
    && var h := t.handles[call.dirp];
       && e.off == h.pos && 0 <= h.pos < |h.dir.entries| && e.ino == h.dir.root + h.dir.entries[h.pos].local
       && e.name == (var name := h.dir.entries[h.pos].name; if |name| <= 4096 then name else name[..4096])
  }

  lemma ListedOne(w: World, t: Table, call: DirCall)
    requires Answered(w, t, call).0.Gave? && Answered(w, t, call).0.answer.Listed?
    ensures ListedFrom(t, call, Answered(w, t, call).0.answer.e)
  {
    hide SourceOf, DirentAt;
    var h := t.handles[call.dirp];
    EntryIs(h.dir, h.pos);
  }

  lemma NoCalls(w: World, t: Table)
    ensures AnsweredAll(w, t, []) == ([], t)
  {
  }

  /** Every descriptor that a directory was opened on still leads to that directory. */
  ghost predicate AllLead(w: World, t: Table) {
    forall dirp | dirp in t.handles :: SourceOf(w, t.fds, t.handles[dirp].vfd) == Entries(t.handles[dirp].dir)
  }

  /** The allocator gives new streams unused addresses, and positions fit a `long`. */
  predicate IsCall(t: Table, call: DirCall) {
    && (call.OpenDir? ==> call.address > 0 && call.address !in t.handles)
    && (call.SeekDir? ==> IsI64(call.pos))
  }

  /** So it is before every call of a run. */
  ghost predicate AreCalls(w: World, t: Table, calls: seq<DirCall>)
    decreases |calls|
  {
    calls != [] ==>
      AllLead(w, t) && IsCall(t, calls[0]) && AreCalls(w, Answered(w, t, calls[0]).1, calls[1..])
  }

  class Directories {
    const files: FT.FileTable
    var streams: map<nat, Stream>

    /** This table, the descriptor table, the streams and their windows. */
    ghost var Repr: set<object>

    /** Every stream is in order, and no two share their window. */
    ghost predicate Valid()
      reads this, Repr
      ensures Valid() ==> this in Repr && files in Repr && files.Valid()
    {
      && this in Repr && files in Repr
      && files.Valid()
      && (forall a | a in streams :: streams[a] in Repr && streams[a].cache in Repr && streams[a].Valid())
      && Separate()
    }

    ghost predicate Separate()
      reads this, streams.Values
    {
      forall a, b | a in streams && b in streams :: streams[a].cache == streams[b].cache ==> a == b
    }

    /** Every window is the run of its directory that it should be: no load has failed. */
    ghost predicate AllHold()
      reads this, Repr
      ensures AllHold() ==> Valid()
    {
      Valid() && forall a | a in streams :: streams[a].Holds()
    }

    /** The table as its users see it. */
    ghost function View(): (r: Table)
      reads this, files, streams.Values
      ensures r.fds == files.fds && r.handles.Keys == streams.Keys
      ensures forall a | a in streams :: r.handles[a] == Handle(streams[a].vfd, streams[a].dir, streams[a].position)
    {
      Table(map a | a in streams :: Handle(streams[a].vfd, streams[a].dir, streams[a].position), files.fds)
    }

    constructor (files: FT.FileTable)
      requires files.Valid()
      ensures AllHold() && this.files == files && streams == map[] && Repr == {this, files}
    {
      this.files, streams, Repr := files, map[], {this, files};
    }

    /** The table with a new stream in it. */
    method Add(s: Stream, address: nat)
      requires Valid() && s.Holds() && s !in Repr && s.cache !in Repr && address !in streams
      modifies this`streams, this`Repr
      ensures Valid() && (old(AllHold()) ==> AllHold())
      ensures streams == old(streams)[address := s] && Repr == old(Repr) + {s, s.cache}
    {
      assert s.Valid();
      hide Stream.Valid, Stream.Holds, FT.FileTable.Valid, View;
      assert forall a | a in streams :: streams[a].cache != s.cache;
      streams, Repr := streams[address := s], Repr + {s, s.cache};
    }

    /** `opendir` on a descriptor; `address` is where the stream will be allocated. */
    method OpenDir(w: World, vfd: int, address: nat) returns (dirp: nat, size: nat)
      requires Valid() && HasSmallDirs(w) && address > 0 && address !in streams
      modifies this`streams, this`Repr
      ensures Valid() && (old(AllHold()) ==> AllHold()) && fresh(Repr - old(Repr))
      ensures match SourceOf(w, files.fds, vfd)
              case Entries(dir) =>
                && dirp == address && size == |dir.entries|
                && address in streams && streams == old(streams)[address := streams[address]]
                && var s := streams[address];
                   && fresh(s) && fresh(s.cache) && s.Holds() && s.dir == dir && s.vfd == vfd
                   && s.position == 0 && s.cacheStart == 0 && s.loads == 1
              case _ => dirp == 0 && streams == old(streams)
      ensures View() == match SourceOf(w, files.fds, vfd)
                        case Entries(dir) => old(View()).(handles := old(View()).handles[address := Handle(vfd, dir, 0)])
                        case _ => old(View())
    {
      hide ListingOf, DirentAt, Valid, AllHold, HasSmallDirs, Stream.Valid, Stream.Holds, FT.FileTable.Valid;
      assert forall i: nat | ListingOf(w, i).Some? :: |ListingOf(w, i).value.entries| <= INT32_MAX by {
        SmallDirs(w);
      }
      dirp, size := 0, 0;
      var s := new Stream(vfd);
      var ret := s.LoadCache(SourceOf(w, files.fds, vfd), 0, true);
      if ret == IO_CONTINUE {
        dirp, size := address, s.dirSize;
        Add(s, address);
      }
    }

    /** `readdir`. While the stream's descriptor leads to its directory, the answer is that of the plain
        list with a cursor, and the other streams stay where they are. */
    method ReadDir(w: World, dirp: nat) returns (ret: int, slot: Slot)
      requires Valid() && HasSmallDirs(w)
      modifies Repr - {this, files}
      ensures Valid()
      ensures dirp !in streams ==> ret == INVALID_FD && slot == Nothing && View() == old(View()) && (old(AllHold()) ==> AllHold())
      ensures forall a | a in streams && a != dirp :: unchanged(streams[a]) && unchanged(streams[a].cache)
      ensures dirp in streams && slot.Slot? && 0 <= old(streams[dirp].position) < |streams[dirp].dir.entries| ==>
                var i, dir := old(streams[dirp].position), streams[dirp].dir;
                && slot.e.off == i && slot.e.ino == dir.root + dir.entries[i].local
                && slot.e.name == (var t := dir.entries[i].name; if |t| <= 4096 then t else t[..4096])
      ensures dirp in streams && 0 <= old(streams[dirp].position) < old(streams[dirp].dirSize) &&
              !old(streams[dirp].Hits()) && !old(streams[dirp].Emptied()) ==>
                var vfd := streams[dirp].vfd;
                && (vfd !in files.fds ==> ret == INVALID_FD && slot == Nothing)
                && (vfd in files.fds && ListingOf(w, files.fds[vfd].st.ino).None? ==> ret == IO_ERROR && slot == Nothing)
                && (vfd in files.fds && ListingOf(w, files.fds[vfd].st.ino).Some? ==> ret == IO_CONTINUE && slot.Slot?)
      ensures dirp in streams && old(AllHold()) && SourceOf(w, files.fds, streams[dirp].vfd) == Entries(old(streams[dirp].dir)) ==>
                && AllHold() && streams[dirp].dir == old(streams[dirp].dir)
                && var h := old(View()).handles[dirp];
                   var (answer, pos) := Cursor(h.dir, h.pos, Read);
                   AnswerOf(ret, slot) == answer && View() == old(View()).(handles := old(View()).handles[dirp := h.(pos := pos)])
    {
      hide ListingOf, Cursor, DirentAt, Stream.Valid, FT.FileTable.Valid;
      ret, slot := INVALID_FD, Nothing;
      if dirp in streams {
        var s := streams[dirp];
        ret, slot := s.ReadDir(SourceOf(w, files.fds, s.vfd));
      }
    }

    /** `seekdir` */
    method SeekDir(dirp: nat, pos: int) returns (ret: int)
      requires Valid() && IsI64(pos)
      modifies Repr - {this, files}
      ensures Valid() && (old(AllHold()) ==> AllHold())
      ensures ret == if dirp in streams then IO_CONTINUE else INVALID_FD
      ensures View() == if dirp !in streams then old(View())
                        else old(View()).(handles := old(View()).handles[dirp := old(View()).handles[dirp].(pos := pos)])
    {
      hide Stream.Valid, Stream.Holds, FT.FileTable.Valid;
      ret := INVALID_FD;
      if dirp in streams {
        streams[dirp].SeekDir(pos);
        ret := IO_CONTINUE;
      }
    }

    /** `telldir` */
    method TellDir(dirp: nat) returns (ret: int)
      requires Valid()
      ensures ret == if dirp in streams then streams[dirp].position else INVALID_FD
    {
      ret := if dirp in streams then streams[dirp].position else INVALID_FD;
    }

    /** `closedir` closes the descriptor by its number and forgets the stream. */
    method CloseDir(dirp: nat) returns (ret: int)
      requires Valid()
      modifies this`streams, files
      ensures Valid() && (old(AllHold()) ==> AllHold()) && Repr == old(Repr)
      ensures dirp !in old(streams) ==> ret == INVALID_FD && streams == old(streams) && files.fds == old(files.fds) && files.log == old(files.log)
      ensures dirp in old(streams) ==>
                && streams == old(streams) - {dirp}
                && var vfd := old(streams)[dirp].vfd;
                   && files.fds == old(files.fds) - {vfd}
                   && (if vfd in old(files.fds)
                       then ret == IO_CONTINUE && files.process == old(files.process) - {vfd} && files.log == old(files.log) + [Closed(vfd)]
                       else ret == INVALID_FD && files.process == old(files.process) && files.log == old(files.log))
      ensures View() == if dirp !in old(streams) then old(View())
                        else Table(old(View()).handles - {dirp}, old(View()).fds - {old(View()).handles[dirp].vfd})
    {
      hide Stream.Valid, Stream.Holds, FT.FileTable.Valid;
      ret := INVALID_FD;
      if dirp in streams {
        ret := files.Close(streams[dirp].vfd);
        streams := streams - {dirp};
      }
    }

    /** One call. While every descriptor leads to the directory that was opened on it, the answer and what
        its users see of the table are those of plain lists with a cursor each. */
    method Do(w: World, call: DirCall) returns (answer: DirAnswer)
      requires AllHold() && HasSmallDirs(w) && AllLead(w, View()) && IsCall(View(), call)
      modifies Repr
      ensures AllHold() && fresh(Repr - old(Repr))
      ensures (answer, View()) == Answered(w, old(View()), call)
    {
      hide ListingOf, DirentAt, View, Valid, AllHold, HasSmallDirs, Stream.Valid, Stream.Holds, FT.FileTable.Valid;
      match call {
        case OpenDir(vfd, address) =>
          var dirp, size := OpenDir(w, vfd, address);
          answer := if dirp != 0 then Opened(dirp, size) else NotOpened;
        case ReadDir(dirp) =>
          var ret, slot := ReadDir(w, dirp);
          answer := if dirp in streams then Gave(AnswerOf(ret, slot)) else NoStream;
        case SeekDir(dirp, pos) =>
          var ret := SeekDir(dirp, pos);
          answer := if ret == IO_CONTINUE then Gave(At(pos)) else NoStream;
        case TellDir(dirp) =>
          var pos := TellDir(dirp);
          answer := if dirp in streams then Gave(At(pos)) else NoStream;
          assert dirp in streams ==> View().handles[dirp := View().handles[dirp]] == View().handles;
        case CloseDir(dirp) =>
          var ret := CloseDir(dirp);
          answer := ClosedWith(ret);
      }
    }

    /** Any interleaving of calls on any number of open directories answers like as many plain lists with a
        cursor each. */
    method Run(w: World, calls: seq<DirCall>) returns (answers: seq<DirAnswer>)
      requires AllHold() && HasSmallDirs(w) && AreCalls(w, View(), calls)
      modifies Repr
      ensures AllHold() && (answers, View()) == AnsweredAll(w, old(View()), calls) && |answers| == |calls|
      ensures forall i | 0 <= i < |calls| && answers[i].Gave? && answers[i].answer.Listed? ::
                var e, before := answers[i].answer.e, AnsweredAll(w, old(View()), calls[..i]).1;
                && calls[i].ReadDir? && calls[i].dirp in before.handles
                && var h := before.handles[calls[i].dirp];
                   && e.off == h.pos && 0 <= h.pos < |h.dir.entries| && e.ino == h.dir.root + h.dir.entries[h.pos].local
                   && e.name == (var name := h.dir.entries[h.pos].name; if |name| <= 4096 then name else name[..4096])
    {
      hide Answered, AllLead, IsCall, HasSmallDirs, View, AllHold;
      answers := [];
      var i := 0;
      assert calls[0..] == calls;
      while i < |calls|
        invariant 0 <= i <= |calls| && AllHold() && fresh(Repr - old(Repr))
        invariant AreCalls(w, View(), calls[i..])
        invariant AnsweredAll(w, old(View()), calls).0 == answers + AnsweredAll(w, View(), calls[i..]).0
        invariant AnsweredAll(w, old(View()), calls).1 == AnsweredAll(w, View(), calls[i..]).1
      {
        assert calls[i..][0] == calls[i] && calls[i..][1..] == calls[i + 1..];
        var answer := Do(w, calls[i]);
        answers := answers + [answer];
        i := i + 1;
      }
      assert calls[i..] == [];
      assert answers + [] == answers;
      assert AnsweredAll(w, View(), []) == ([], View());
      assert answers == AnsweredAll(w, old(View()), calls).0;
      hide AnsweredAll;
      ListedByCalls(w, old(View()), calls);
    }

    /** The descriptors that streams were opened on. */
    static ghost function Vfds(streams: map<nat, Stream>): set<int> {
      set dirp | dirp in streams :: streams[dirp].vfd
    }

    /** `close_all` closes the descriptors of all streams, and no others. */
    method CloseAll()
      requires Valid()
      modifies this`streams, files
      ensures AllHold() && streams == map[]
      ensures files.fds == old(files.fds) - Vfds(old(streams))
    {
      hide FT.FileTable.Valid, Stream.Valid, Stream.Holds;
      var keys := streams.Keys;
      assert old(files.fds) - {} == old(files.fds);
      while keys != {}
        invariant Valid() && keys <= streams.Keys && streams == old(streams)
        invariant files.fds == old(files.fds) - (set dirp | dirp in streams && dirp !in keys :: streams[dirp].vfd)
        decreases keys
      {
        ghost var some := SomeIn(keys);
        assert some in keys;
        var dirp :| dirp in keys;
        var _ := files.Close(streams[dirp].vfd);
        keys := keys - {dirp};
      }
      streams := map[];
    }

    /** `release_memfs_resources`: nothing is held any more, and every descriptor ever taken has been
        closed exactly as often as it was taken. */
    method Release()
      requires Valid()
      modifies this`streams, files
      ensures AllHold() && streams == map[] && files.fds == map[] && Held(files.log) == Some({})
      ensures forall fd :: Count(files.log, Dupped(fd)) == Count(files.log, Closed(fd))
    {
      CloseAll();
      files.CloseAll();
      var none: map<int, FT.Fd> := map[];
      assert none.Keys == {};
      forall fd
        ensures Count(files.log, Dupped(fd)) == Count(files.log, Closed(fd))
      {
        ClosedOnce(files.log, fd);
      }
    }

    /** `tebako_scandir` on a path inside the memfs: the entries that `sel` accepts, in order and once
        each, within a list of the directory's size; one window load for every 50 entries; both tables
        are left as they were found. A path that leads outside is scanned by the host, with result `host`.
        Without a list to fill, or if the descriptor turns out not to list, the descriptor stays open. */
    method ScanDir(w: World, stat: FT.StatReply, sel: Dirent -> bool, wanted: bool, dupped: int, address: nat, host: int)
      returns (n: int, list: array<Dirent>, ghost loads: nat)
      requires Valid() && HasSmallDirs(w) && address > 0 && address !in streams
      requires dupped >= 0 && dupped !in files.process
      requires stat.Attributes? ==> stat.st.size <= INT64_MAX
      modifies this`streams, this`Repr, files
      ensures Valid() && streams == old(streams)
      ensures match stat
              case OutsideLink => n == host && files.fds == old(files.fds) && files.process == old(files.process)
              case NoSuchFile => n == IO_ERROR && files.fds == old(files.fds) && files.process == old(files.process)
              case Attributes(st) =>
                if st.kind != Directory then
                  n == IO_ERROR && files.fds == old(files.fds) && files.process == old(files.process)
                else if wanted && ListingOf(w, st.ino).Some? then
                  && Scanned(ListingOf(w, st.ino).value, sel, n, list, loads)
                  && files.fds == old(files.fds) && files.process == old(files.process)
                else
                  && n == IO_ERROR && files.fds == old(files.fds)[dupped := FT.Fd(st, 0, 0, dupped)]
                  && files.process == old(files.process) + {dupped}
      ensures stat.Attributes? && stat.st.kind == Directory && wanted && ListingOf(w, stat.st.ino).Some? ==>
                var dir := ListingOf(w, stat.st.ino).value;
                && 0 <= n <= list.Length == |dir.entries|
                && (dir.entries != [] ==> loads == (|dir.entries| + 49) / 50)
                && var es := list[..n];
                   && (forall j | 0 <= j < |es| ::
                         && sel(es[j]) && 0 <= es[j].off < |dir.entries|
                         && es[j].ino == dir.root + dir.entries[es[j].off].local
                         && es[j].name == (var t := dir.entries[es[j].off].name; if |t| <= 4096 then t else t[..4096]))
                   && (forall i, j | 0 <= i < j < |es| :: es[i].off < es[j].off)
                   && (forall i | 0 <= i < |dir.entries| ::
                         var t := dir.entries[i].name;
                         var e := Dirent(dir.root + dir.entries[i].local, i, if |t| <= 4096 then t else t[..4096]);
                         sel(e) ==> exists j | 0 <= j < |es| :: es[j].off == i)
    {
      hide ListingOf, Filter, AllEntries, Valid, DirentAt, Scanned;
      n, list, loads := ScanPath(w, stat, sel, wanted, dupped, address, host);
      if stat.Attributes? && stat.st.kind == Directory && wanted && ListingOf(w, stat.st.ino).Some? {
        var dir := ListingOf(w, stat.st.ino).value;
        ScannedList(dir, sel, n, list, loads);
        ListIs(dir, sel, list[..n]);
      }
    }

    /** Its parts: opening the path, and the list made of the descriptor. */
    method ScanPath(w: World, stat: FT.StatReply, sel: Dirent -> bool, wanted: bool, dupped: int, address: nat, host: int)
      returns (n: int, list: array<Dirent>, ghost loads: nat)
      requires Valid() && HasSmallDirs(w) && address > 0 && address !in streams
      requires dupped >= 0 && dupped !in files.process
      requires stat.Attributes? ==> stat.st.size <= INT64_MAX
      modifies this`streams, this`Repr, files
      ensures Valid() && streams == old(streams)
      ensures match stat
              case OutsideLink => n == host && files.fds == old(files.fds) && files.process == old(files.process)
              case NoSuchFile => n == IO_ERROR && files.fds == old(files.fds) && files.process == old(files.process)
              case Attributes(st) =>
                if st.kind != Directory then
                  n == IO_ERROR && files.fds == old(files.fds) && files.process == old(files.process)
                else if wanted && ListingOf(w, st.ino).Some? then
                  && Scanned(ListingOf(w, st.ino).value, sel, n, list, loads)
                  && files.fds == old(files.fds) && files.process == old(files.process)
                else
                  && n == IO_ERROR && files.fds == old(files.fds)[dupped := FT.Fd(st, 0, 0, dupped)]
                  && files.process == old(files.process) + {dupped}
    {
      hide ListingOf, Scanned, Filter, AllEntries;
      list := new Dirent[0];
      loads := 0;
      var vfd, errno := files.Open(stat, FT.Flags(false, true, false), dupped);
      n := IO_ERROR;
      if vfd == LINK_OUTSIDE {
        n := host;
      } else if wanted && vfd >= 0 {
        n, list, loads := ScanOpen(w, vfd, sel, address);
        assert ListingOf(w, stat.st.ino).Some? ==>
          files.fds == old(files.fds) && files.process == old(files.process);
      }
    }

    /** What a scan of a directory delivers. */
    static ghost predicate Scanned(dir: Listing, sel: Dirent -> bool, n: int, list: array<Dirent>, loads: nat)
      reads list
    {
      && list.Length == |dir.entries| && 0 <= n <= list.Length
      && list[..n] == Filter(AllEntries(dir, |dir.entries|), sel)
      && (dir.entries != [] ==> loads == Windows(|dir.entries|))
    }

    static lemma ScannedList(dir: Listing, sel: Dirent -> bool, n: int, list: array<Dirent>, loads: nat)
      requires Scanned(dir, sel, n, list, loads)
      ensures 0 <= n <= list.Length == |dir.entries| && list[..n] == Filter(AllEntries(dir, |dir.entries|), sel)
      ensures dir.entries != [] ==> loads == (|dir.entries| + 49) / 50
    {
    }

    /** The part of `tebako_scandir` that works on the open descriptor. */
    method ScanOpen(w: World, vfd: int, sel: Dirent -> bool, address: nat)
      returns (n: int, list: array<Dirent>, ghost loads: nat)
      requires Valid() && HasSmallDirs(w) && address > 0 && address !in streams && vfd in files.fds
      modifies this`streams, this`Repr, files
      ensures Valid()
      ensures streams == old(streams)
      ensures match ListingOf(w, old(files.fds)[vfd].st.ino)
              case None => n == IO_ERROR && files.fds == old(files.fds) && files.process == old(files.process)
              case Some(dir) =>
                && Scanned(dir, sel, n, list, loads)
                && files.fds == old(files.fds) - {vfd} && files.process == old(files.process) - {vfd}
    {
      hide ListingOf, Filter, AllEntries, Windows, View, Valid, AllHold, HasSmallDirs, Stream.Valid, Stream.Holds, FT.FileTable.Valid;
      SmallDirs(w);
      n, list, loads := IO_ERROR, new Dirent[0], 0;
      var dirp, size := OpenDir(w, vfd, address);
      if dirp != 0 {
        var dir := SourceOf(w, files.fds, vfd).dir;
        n, list := ScanStream(dirp, dir, size, sel);
        loads := streams[dirp].loads;
        AddRemove(old(streams), dirp, streams[dirp]);
        var _ := CloseDir(dirp);
      }
    }

    /** Listing through one stream leaves the others in order. */
    method ScanStream(dirp: nat, dir: Listing, size: nat, sel: Dirent -> bool) returns (n: nat, list: array<Dirent>)
      requires Valid() && dirp in streams && size == |dir.entries| <= INT32_MAX
      requires var s := streams[dirp]; s.Holds() && s.dir == dir && s.position == 0 && s.cacheStart == 0 && s.loads == 1
      modifies streams[dirp], streams[dirp].cache
      ensures Valid() && fresh(list) && list.Length == size && n <= size
      ensures list[..n] == Filter(AllEntries(dir, size), sel)
      ensures size > 0 ==> streams[dirp].loads == Windows(size)
    {
      hide Filter, AllEntries, Windows, View, Stream.Valid, Stream.Holds, FT.FileTable.Valid;
      n, list := Collect(streams[dirp], dir, size, sel);
      assert forall a | a in streams && a != dirp :: streams[a].cache != streams[dirp].cache;
    }

    /** The loop of `tebako_scandir`. */
    static method Collect(s: Stream, dir: Listing, size: nat, sel: Dirent -> bool) returns (n: nat, list: array<Dirent>)
      requires |dir.entries| <= INT32_MAX
      requires s.Holds() && s.dir == dir && s.position == 0 && s.cacheStart == 0 && s.loads == 1 && size == |dir.entries|
      modifies s, s.cache
      ensures fresh(list) && list.Length == size && n <= size && s.Holds()
      ensures list[..n] == Filter(AllEntries(dir, size), sel)
      ensures size > 0 ==> s.loads == Windows(size)
    {
      hide Filter, Windows, AllEntries, DirentAt, NeedsLoad, Stream.Valid;
      n := 0;
      list := new Dirent[size](_ => Dirent(0, 0, ""));
      NoEntries(dir, sel);
      while true
        invariant s.Holds() && s.dir == dir && fresh(list) && list.Length == size
        invariant 0 <= s.position <= size && n <= s.position
        invariant list[..n] == Filter(AllEntries(dir, s.position), sel)
        invariant s.loads == Max(1, Windows(s.position)) && s.cacheStart == WINDOW * (s.loads - 1)
        decreases size - s.position
      {
        WindowsNext(s.position);
        ghost var p: nat := s.position;
        var ret, slot := s.ReadDir(Entries(dir));
        if !slot.Slot? {
          break;
        }
        FilterNext(dir, p, sel);
        if sel(slot.e) {
          list[n] := slot.e;
          n := n + 1;
        }
      }
      WindowsNext(size);
    }
  }

  /** A call on the library, or something the rest of the process does to its own descriptors. */
  datatype Call =
    | Open(stat: FT.StatReply, flags: FT.Flags)
    | OpenAt(vfd: int, searchable: bool, stat: FT.StatReply, flags: FT.Flags)
    | Close(vfd: int)
    | OnDir(call: DirCall)
    | CloseAll
    | Host(taken: set<int>, dropped: set<int>)

  predicate FitsOffset(call: Call) {
    && ((call.Open? || call.OpenAt?) && call.stat.Attributes? ==> call.stat.st.size <= INT64_MAX)
    && (call.OnDir? && call.call.SeekDir? ==> IsI64(call.call.pos))
  }

  /** One call. `fd` is what dup(0) would return now, `address` where a stream would be allocated. */
  method Perform(d: Directories, w: World, call: Call, fd: int, address: nat)
    requires d.Valid() && HasSmallDirs(w) && FitsOffset(call)
    requires fd >= 0 && fd !in d.files.process && address > 0 && address !in d.streams
    modifies d.Repr
    ensures d.Valid() && fresh(d.Repr - old(d.Repr))
  {
    hide FT.FileTable.Valid, Stream.Valid, Stream.Holds, Directories.View, Directories.AllHold, HasSmallDirs, Held;
    match call {
      case Open(stat, flags) => var _, _ := d.files.Open(stat, flags, fd);
      case OpenAt(vfd, searchable, stat, flags) => var _, _ := d.files.OpenAt(vfd, searchable, stat, flags, fd);
      case Close(vfd) => var _ := d.files.Close(vfd);
      case OnDir(OpenDir(vfd, _)) => var _, _ := d.OpenDir(w, vfd, address);
      case OnDir(ReadDir(dirp)) => var _, _ := d.ReadDir(w, dirp);
      case OnDir(SeekDir(dirp, pos)) => var _ := d.SeekDir(dirp, pos);
      case OnDir(TellDir(dirp)) => var _ := d.TellDir(dirp);
      case OnDir(CloseDir(dirp)) => var _ := d.CloseDir(dirp);
      case CloseAll => d.files.CloseAll();
      case Host(taken, dropped) => d.files.HostChanges(taken, dropped - d.files.fds.Keys);
    }
  }

  /** Over every run, whatever fresh descriptors the kernel and whatever addresses the allocator choose, the
      keys of the table are the descriptors held; and once resources are released, each descriptor has been
      closed as often as it was taken and the process keeps none of them open for the library. */
  method RunAndRelease(d: Directories, w: World, calls: seq<Call>, dup: (nat, set<int>) -> int, alloc: (nat, set<nat>) -> nat)
    requires d.Valid() && HasSmallDirs(w)
    requires forall i | 0 <= i < |calls| :: FitsOffset(calls[i])
    requires forall i, s :: dup(i, s) >= 0 && dup(i, s) !in s
    requires forall i, s :: alloc(i, s) > 0 && alloc(i, s) !in s
    modifies d.Repr
    ensures d.Valid() && d.files.fds == map[] && d.streams == map[] && Held(d.files.log) == Some({})
    ensures forall fd :: Count(d.files.log, Dupped(fd)) == Count(d.files.log, Closed(fd))
  {
    hide FT.FileTable.Valid, Directories.Valid, Directories.View, Directories.AllHold, HasSmallDirs, Held;
    var i := 0;
    while i < |calls|
      invariant 0 <= i <= |calls| && d.Valid() && fresh(d.Repr - old(d.Repr))
    {
      Perform(d, w, calls[i], dup(i, d.files.process), alloc(i, d.streams.Keys));
      i := i + 1;
    }
    d.Release();
  }

  lemma AddRemove<V>(m: map<nat, V>, k: nat, v: V)
    requires k !in m
    ensures m[k := v] - {k} == m
  {
  }
}
